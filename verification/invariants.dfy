/** The invariant every norm in the store keeps: an append-only history
    numbered 1..n whose first version is an original text and whose later
    versions each record a modification by a catalogue norm, applied by an
    administrator of the directory. */
module Invariants {
  import opened Types
  import Workflow

  /** The cited norm exists in the catalogue under that id with the recorded
      title, and the applier is an ADMIN of the directory. */
  predicate ModificationSound(m: Modification, catalog: seq<Norm>, directory: seq<User>) {
    && (exists k :: k in catalog && k.id == m.modifyingNormId && k.title == m.modifyingNormTitle)
    && exists u :: u in directory && u.id == m.appliedBy && u.role == ADMIN
  }

  predicate VersionSound(v: Version, catalog: seq<Norm>, directory: seq<User>) {
    v.modification.Some? ==> ModificationSound(v.modification.value, catalog, directory)
  }

  predicate ValidNorm(n: Norm, catalog: seq<Norm>, directory: seq<User>) {
    && |n.versions| > 0
    && WellNumbered(n.versions)
    && n.versions[0].modification.None?
    && forall i :: 0 <= i < |n.versions| ==> VersionSound(n.versions[i], catalog, directory)
  }

  /** No two norms of the list share an id. */
  predicate IdsDistinct(norms: seq<Norm>) {
    forall i, j :: 0 <= i < j < |norms| ==> norms[i].id != norms[j].id
  }

  /** A successful submission by a directory ADMIN keeps a valid norm valid:
      the old versions stay as they were and the new one is numbered next and
      carries a sound modification. */
  lemma SubmitPreservesValid(catalog: seq<Norm>, directory: seq<User>, d: Workflow.Draft,
                             target: Norm, user: User, versionDate: string, appliedAt: string)
    requires ValidNorm(target, catalog, directory)
    requires user in directory && user.role == ADMIN
    requires Workflow.Submit(catalog, d, target, user, versionDate, appliedAt).Applied?
    ensures ValidNorm(Workflow.Submit(catalog, d, target, user, versionDate, appliedAt).norm, catalog, directory)
  {
    var n' := Workflow.Submit(catalog, d, target, user, versionDate, appliedAt).norm;
    Workflow.SubmitAppends(catalog, d, target, user, versionDate, appliedAt);
    var len := |target.versions|;
    forall i | 0 <= i < |n'.versions|
      ensures VersionSound(n'.versions[i], catalog, directory)
    {
      if i < len {
        assert n'.versions[i] == n'.versions[..len][i] == target.versions[i];
      }
    }
    assert n'.versions[0] == n'.versions[..len][0];
  }
}
