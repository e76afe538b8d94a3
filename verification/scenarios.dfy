/** Concrete runs of the application from its initial state and concrete
    decisions on the seed data. */
module Scenarios {
  import opened Types
  import Data
  import Access
  import Search
  import Login
  import Workflow
  import App

  const Admin: User := User("admin01", "admin", ADMIN)
  const Directivo: User := User("dir01", "directivo", DIRECTIVO)

  /** Logging in as "admin" from the initial state. */
  lemma AdminLogsIn()
    ensures App.Step(App.Initial, App.LoginSubmitted("admin", "clave"))
            == App.AppState(Data.MockNorms, Some(Admin), None)
  {
    Login.SeedLogins("clave");
  }

  /** Clicking the first card of the unfiltered seed list opens `reg-acad-001`. */
  lemma FirstCardOpensRegAcad(user: Option<User>, open: Option<Norm>)
    ensures App.Step(App.AppState(Data.MockNorms, user, open), App.CardClicked("", 0))
            == App.AppState(Data.MockNorms, user, Some(Data.RegAcad))
  {
    Search.EmptySearchKeepsAll(Data.MockNorms);
  }

  /** The administrator applies `res-cu-050-2023` to the open `reg-acad-001`.
      The seed norm already has two versions, so the result is version 3,
      citing the resolution under its seed title; the other norms are
      untouched and the detail view shows the new norm. */
  lemma AdminAppliesResolution(content: string, versionDate: string, appliedAt: string)
    ensures
      var s := App.AppState(Data.MockNorms, Some(Admin), Some(Data.RegAcad));
      var d := Workflow.Draft("res-cu-050-2023", content, "Se eleva la nota mínima de aprobación a 75 puntos.");
      var s' := App.Step(s, App.ModificationSubmitted(d, versionDate, appliedAt));
      && |s'.norms| == 3
      && s'.norms[1..] == Data.MockNorms[1..]
      && s'.selected == Some(s'.norms[0])
      && |s'.norms[0].versions| == 3
      && s'.norms[0].versions[..2] == Data.RegAcad.versions
      && LatestVersion(s'.norms[0]).version == 3
      && LatestVersion(s'.norms[0]).modification == Some(Modification(
           "res-cu-050-2023", Data.ResCu.title, "Se eleva la nota mínima de aprobación a 75 puntos.", "admin01", appliedAt))
  {
    var s := App.AppState(Data.MockNorms, Some(Admin), Some(Data.RegAcad));
    var d := Workflow.Draft("res-cu-050-2023", content, "Se eleva la nota mínima de aprobación a 75 puntos.");
    assert Workflow.FindNorm(Data.MockNorms, "res-cu-050-2023") == Some(Data.ResCu);
    var m := Modification("res-cu-050-2023", Data.ResCu.title, "Se eleva la nota mínima de aprobación a 75 puntos.", "admin01", appliedAt);
    var n := Data.RegAcad.(versions := Data.RegAcad.versions + [Version(3, content, versionDate, Some(m))]);
    assert Workflow.Submit(Data.MockNorms, d, Data.RegAcad, Admin, versionDate, appliedAt) == Workflow.Applied(n);
    var r := App.ReplaceById(Data.MockNorms, n);
    assert r == [n, Data.ResCu, Data.NormConf];
    assert App.Step(s, App.ModificationSubmitted(d, versionDate, appliedAt)) == App.AppState(r, Some(Admin), Some(n));
  }

  /** A DIRECTIVO, like any non-administrator, never changes the store by
      submitting a modification. */
  lemma NonAdminSubmitIsNoOp(s: App.AppState, d: Workflow.Draft, versionDate: string, appliedAt: string)
    requires s.currentUser.None? || s.currentUser.value.role != ADMIN
    ensures App.Step(s, App.ModificationSubmitted(d, versionDate, appliedAt)) == s
  {
  }

  /** An anonymous visitor cannot read the confidential seed norm; a
      DIRECTIVO can, but cannot modify it. */
  lemma ConfidentialSeedAccess()
    ensures !Access.CanView(Data.NormConf, None)
    ensures Access.CanView(Data.NormConf, Some(Directivo))
    ensures !Access.ShowsAdminPanel(Some(Directivo))
    ensures Access.NormCard(Data.NormConf, None).badge == "Restringido"
  {
  }

  /** The selector never offers the target itself, yet the submit handler
      accepts the target's own id: self-reference is only kept out by the
      selector. */
  lemma SelfReferenceOnlyExcludedBySelector(content: string, versionDate: string, appliedAt: string)
    ensures Data.RegAcad !in Workflow.Candidates(Data.MockNorms, Data.RegAcad)
    ensures Workflow.Submit(Data.MockNorms, Workflow.Draft("reg-acad-001", content, "resumen"),
                            Data.RegAcad, Admin, versionDate, appliedAt).Applied?
  {
  }

  /** The summary button on `reg-acad-001` with the resolution chosen sends
      the current consolidated text against the resolution's first version. */
  lemma SeedSummaryRequest()
    ensures Workflow.SummaryRequestFor(Data.MockNorms,
              Workflow.ChooseModifying(Workflow.OpenDraft(Data.RegAcad), "res-cu-050-2023"), Data.RegAcad)
            == Some(Workflow.SummaryRequest(Data.RegAcadV2Content, Data.ResCuContent))
  {
    assert Workflow.FindNorm(Data.MockNorms, "res-cu-050-2023") == Some(Data.ResCu);
  }

  /** The search ignores the user: the confidential norm is listed for a
      matching term, whatever the case of the term. */
  lemma ConfidentialNormListed()
    ensures Data.NormConf in Search.Filter(Data.MockNorms, "INVERSIONES")
  {
    var term := Search.Lower("INVERSIONES");
    assert |term| == 11;
    forall i | 0 <= i < 11
      ensures term[i] == "inversiones"[i]
    {
    }
    assert term == "inversiones";
    var tag := Search.Lower(Data.NormConf.tags[1]);
    assert |tag| == 11;
    forall i | 0 <= i < 11
      ensures tag[i] == "inversiones"[i]
    {
    }
    assert Search.OccursAt(term, tag, 0);
    assert Search.Matches(Data.NormConf, "INVERSIONES");
  }
}
