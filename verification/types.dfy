/** The records of the norm repository: users with a role, norms with an
    ordered history of versions, and the optional record of the modifying
    norm that produced a version. */
module Types {

  /** `T | null` in the application's records. */
  datatype Option<+T> = None | Some(value: T)

  /** The three privilege tiers a user can hold. */
  datatype Role = PUBLIC | DIRECTIVO | ADMIN

  datatype User = User(id: string, username: string, role: Role)

  /** A denormalised snapshot of the norm that modified a version. `appliedBy`
      holds a user id; `appliedAt` is a date string, treated as opaque. */
  datatype Modification = Modification(
    modifyingNormId: string,
    modifyingNormTitle: string,
    summary: string,
    appliedBy: string,
    appliedAt: string)

  /** One entry of a norm's history; only `modification` may be absent. */
  datatype Version = Version(
    version: int,
    content: string,
    date: string,
    modification: Option<Modification>)

  /** `tags` and `versions` are ordered sequences, not sets. */
  datatype Norm = Norm(
    id: string,
    title: string,
    shortTitle: string,
    description: string,
    tags: seq<string>,
    isConfidential: bool,
    versions: seq<Version>)

  /** The version numbers of a history run exactly 1..n in order. */
  predicate WellNumbered(vs: seq<Version>) {
    forall i :: 0 <= i < |vs| ==> vs[i].version == i + 1
  }

  /** The version a norm currently shows: the last element of its history.
      The application indexes `versions[length - 1]` and fails on an empty
      history, so an empty history is excluded here. */
  function LatestVersion(n: Norm): (v: Version)
    requires |n.versions| > 0
    ensures v in n.versions
    ensures n.versions == n.versions[..|n.versions| - 1] + [v]
    ensures WellNumbered(n.versions) ==> v.version == |n.versions|
  {
    n.versions[|n.versions| - 1]
  }

  /** Appending the element numbered n+1 to a history numbered 1..n gives a
      history numbered 1..n+1, and only such an element keeps the numbering. */
  lemma {:induction false} WellNumberedAppend(vs: seq<Version>, v: Version)
    requires WellNumbered(vs)
    ensures WellNumbered(vs + [v]) <==> v.version == |vs| + 1
  {
    var ws := vs + [v];
    assert ws[|vs|] == v;
    if v.version == |vs| + 1 {
      forall i | 0 <= i < |ws|
        ensures ws[i].version == i + 1
      {
        if i < |vs| {
          assert ws[i] == vs[i];
        }
      }
    }
  }
}
