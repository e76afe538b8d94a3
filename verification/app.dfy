/** The application shell: the live list of norms, the logged-in user and
    the norm open in the detail view, with the transitions the screens
    trigger. Presentation-only state (the login dialog's visibility, the
    version shown in the detail view) is not part of it. */
module App {
  import opened Types
  import Data
  import Access
  import Search
  import Login
  import Workflow
  import Invariants

  datatype AppState = AppState(norms: seq<Norm>, currentUser: Option<User>, selected: Option<Norm>)

  /** The state the application starts in: the seed norms, nobody logged in,
      the list showing. */
  const Initial: AppState := AppState(Data.MockNorms, None, None)

  /** `prevNorms.map(n => n.id === updated.id ? updated : n)`. */
  function ReplaceById(norms: seq<Norm>, updated: Norm): (r: seq<Norm>)
    ensures |r| == |norms|
    ensures forall i :: 0 <= i < |norms| && norms[i].id == updated.id ==> r[i] == updated
    ensures forall i :: 0 <= i < |norms| && norms[i].id != updated.id ==> r[i] == norms[i]
    decreases |norms|
  {
    if |norms| == 0 then []
    else [if norms[0].id == updated.id then updated else norms[0]] + ReplaceById(norms[1..], updated)
  }

  /** With no norm of that id the list comes back identical. */
  lemma ReplaceWithoutMatch(norms: seq<Norm>, updated: Norm)
    requires forall n :: n in norms ==> n.id != updated.id
    ensures ReplaceById(norms, updated) == norms
  {
  }

  /** Replacing keeps the id at every position, so the list of ids and its
      order are unchanged, and the updated norm is present exactly when some
      norm had its id. */
  lemma ReplaceKeepsIds(norms: seq<Norm>, updated: Norm)
    ensures forall i :: 0 <= i < |norms| ==> ReplaceById(norms, updated)[i].id == norms[i].id
    ensures updated in ReplaceById(norms, updated) <==> exists n :: n in norms && n.id == updated.id
  {
    var r := ReplaceById(norms, updated);
    if exists n :: n in norms && n.id == updated.id {
      var n :| n in norms && n.id == updated.id;
      var i :| 0 <= i < |norms| && norms[i] == n;
      assert r[i] == updated;
    }
  }

  /** Replacing twice with the same norm is replacing once. */
  lemma ReplaceIdempotent(norms: seq<Norm>, updated: Norm)
    ensures ReplaceById(ReplaceById(norms, updated), updated) == ReplaceById(norms, updated)
  {
    ReplaceKeepsIds(norms, updated);
  }

  /** `updateNorm`: the list gets the updated norm in place of its id, and
      the detail view shows the updated norm. */
  function UpdateNorm(s: AppState, updated: Norm): (s': AppState)
    ensures s'.norms == ReplaceById(s.norms, updated)
    ensures s'.selected == Some(updated)
    ensures s'.currentUser == s.currentUser
  {
    s.(norms := ReplaceById(s.norms, updated), selected := Some(updated))
  }

  /** `handleLogout` clears the user and nothing else. */
  function Logout(s: AppState): (s': AppState)
    ensures s'.currentUser.None?
    ensures s'.norms == s.norms && s'.selected == s.selected
  {
    s.(currentUser := None)
  }

  /** `handleBackToList` clears the selection and nothing else. */
  function BackToList(s: AppState): (s': AppState)
    ensures s'.selected.None?
    ensures s'.norms == s.norms && s'.currentUser == s.currentUser
  {
    s.(selected := None)
  }

  /** What the user does on the screens. A card is clicked by its position
      in the list filtered by the current search term. */
  datatype Event =
    | LoginSubmitted(username: string, password: string)
    | LogoutClicked
    | CardClicked(searchTerm: string, position: int)
    | BackClicked
    | ModificationSubmitted(draft: Workflow.Draft, versionDate: string, appliedAt: string)

  /** One transition of the application, with the modifying-norm lookups of
      the detail view reading `catalog`. Every transition keeps the list's
      length and the id at each position. Only a submission by an ADMIN from
      the open detail view, with a non-empty summary and a modifying norm
      found in the catalogue, changes the list; only the login and logout
      events change the user; a clicked card opens a listed norm the search
      term matches. */
  function StepIn(catalog: seq<Norm>, s: AppState, e: Event): (s': AppState)
    ensures |s'.norms| == |s.norms|
    ensures forall i :: 0 <= i < |s.norms| ==> s'.norms[i].id == s.norms[i].id
    ensures s'.norms != s.norms ==>
      && e.ModificationSubmitted? && s.selected.Some?
      && s.currentUser.Some? && s.currentUser.value.role == ADMIN
      && e.draft.summary != ""
      && exists k :: k in catalog && k.id == e.draft.modifyingNormId
    ensures s'.currentUser != s.currentUser ==> e.LoginSubmitted? || e.LogoutClicked?
    ensures e.CardClicked? && s'.selected != s.selected ==>
      s'.selected.Some? && s'.selected.value in s.norms && Search.Matches(s'.selected.value, e.searchTerm)
  {
    match e
    case LoginSubmitted(username, password) =>
      (match Login.HandleLogin(username, password)
       case LoggedIn(u) => s.(currentUser := Some(u))
       case Rejected(_) => s)
    case LogoutClicked => Logout(s)
    case CardClicked(term, k) =>
      var shown := Search.Filter(s.norms, term);
      if 0 <= k < |shown| then
        assert shown[k] in shown;
        s.(selected := Some(shown[k]))
      else s
    case BackClicked => BackToList(s)
    case ModificationSubmitted(d, versionDate, appliedAt) =>
      if s.selected.Some? && Access.ShowsAdminPanel(s.currentUser) then
        match Workflow.Submit(catalog, d, s.selected.value, s.currentUser.value, versionDate, appliedAt)
        case Applied(n) =>
          ReplaceKeepsIds(s.norms, n);
          UpdateNorm(s, n)
        case Refused(_) => s
      else s
  }

  /** The application's transition: the detail view looks modifying norms up
      in the seed list, whatever the live list of norms holds, so a changed
      list always cites a seed norm; a changed user is a seed user. */
  function Step(s: AppState, e: Event): (s': AppState)
    ensures s'.norms != s.norms ==>
      e.ModificationSubmitted? && Workflow.FindNorm(Data.MockNorms, e.draft.modifyingNormId).Some?
    ensures s'.currentUser != s.currentUser && s'.currentUser.Some? ==>
      e.LoginSubmitted? && s'.currentUser.value in Data.MockUsers
      && s'.currentUser.value.username == e.username
  {
    StepIn(Data.MockNorms, s, e)
  }

  /** A login form accepted by the dialog hands the first directory user
      with that username to the session and changes nothing else; a rejected
      one leaves the whole state as it was. */
  lemma LoginTransition(s: AppState, username: string, password: string)
    ensures var s' := Step(s, LoginSubmitted(username, password));
      && s'.norms == s.norms && s'.selected == s.selected
      && ((password == "" || forall u :: u in Data.MockUsers ==> u.username != username) ==> s' == s)
      && (s'.currentUser != s.currentUser ==>
            s'.currentUser.Some? && s'.currentUser.value in Data.MockUsers
            && s'.currentUser.value.username == username)
      && (password != "" && (exists u :: u in Data.MockUsers && u.username == username) ==>
            s'.currentUser == Some(Login.FindUser(Data.MockUsers, username).value))
  {
    var o := Login.HandleLogin(username, password);
    var s' := Step(s, LoginSubmitted(username, password));
    if o.LoggedIn? {
      assert s' == s.(currentUser := Some(o.user));
    } else {
      assert s' == s;
    }
  }

  /** A submission from the detail view: a refused one leaves the whole state
      as it was; an applied one replaces the open norm in the list by its
      one-version-longer successor and keeps it open. */
  lemma SubmitTransition(catalog: seq<Norm>, s: AppState, d: Workflow.Draft, versionDate: string, appliedAt: string)
    requires s.selected.Some? && Access.ShowsAdminPanel(s.currentUser)
    requires s.selected.value in s.norms
    ensures var s' := StepIn(catalog, s, ModificationSubmitted(d, versionDate, appliedAt));
      && (d.summary == "" || (forall n :: n in catalog ==> n.id != d.modifyingNormId) ==> s' == s)
      && s'.currentUser == s.currentUser
      && s'.selected.Some? && s'.selected.value in s'.norms
      && s'.selected.value.id == s.selected.value.id
      && |s'.norms| == |s.norms|
      && s.selected.value.versions <= s'.selected.value.versions
      && (d.summary != "" && (exists n :: n in catalog && n.id == d.modifyingNormId) ==>
            && |s'.selected.value.versions| == |s.selected.value.versions| + 1
            && s'.norms == ReplaceById(s.norms, s'.selected.value))
  {
    var target := s.selected.value;
    var o := Workflow.Submit(catalog, d, target, s.currentUser.value, versionDate, appliedAt);
    var s' := StepIn(catalog, s, ModificationSubmitted(d, versionDate, appliedAt));
    if o.Applied? {
      assert s' == UpdateNorm(s, o.norm);
      ReplaceKeepsIds(s.norms, o.norm);
      assert o.norm.versions[..|target.versions|] == target.versions;
    } else {
      assert s' == s;
    }
  }

  /** The invariant of every state the application reaches: each stored
      norm is valid against the catalogue and the seed directory, ids are
      distinct, the open norm is one of the stored norms, and the logged-in
      user comes from the directory. */
  predicate Inv(catalog: seq<Norm>, s: AppState) {
    && (forall n :: n in s.norms ==> Invariants.ValidNorm(n, catalog, Data.MockUsers))
    && Invariants.IdsDistinct(s.norms)
    && (s.selected.Some? ==> s.selected.value in s.norms)
    && (s.currentUser.Some? ==> s.currentUser.value in Data.MockUsers)
  }

  /** Every transition keeps the invariant. */
  lemma StepPreservesInv(catalog: seq<Norm>, s: AppState, e: Event)
    requires Inv(catalog, s)
    ensures Inv(catalog, StepIn(catalog, s, e))
  {
    match e
    case LoginSubmitted(username, password) =>
    case LogoutClicked =>
    case CardClicked(term, k) =>
    case BackClicked =>
    case ModificationSubmitted(d, versionDate, appliedAt) =>
      if s.selected.Some? && Access.ShowsAdminPanel(s.currentUser) {
        var target := s.selected.value;
        var user := s.currentUser.value;
        var o := Workflow.Submit(catalog, d, target, user, versionDate, appliedAt);
        if o.Applied? {
          Invariants.SubmitPreservesValid(catalog, Data.MockUsers, d, target, user, versionDate, appliedAt);
          ReplacePreservesInv(catalog, s, o.norm, target);
        }
      }
  }

  /** Replacing the open norm by a valid norm with the same id keeps the
      invariant. */
  lemma ReplacePreservesInv(catalog: seq<Norm>, s: AppState, updated: Norm, target: Norm)
    requires Inv(catalog, s)
    requires target in s.norms && target.id == updated.id
    requires Invariants.ValidNorm(updated, catalog, Data.MockUsers)
    ensures Inv(catalog, UpdateNorm(s, updated))
  {
    var r := ReplaceById(s.norms, updated);
    ReplaceKeepsIds(s.norms, updated);
    forall n | n in r
      ensures Invariants.ValidNorm(n, catalog, Data.MockUsers)
    {
      var i :| 0 <= i < |r| && r[i] == n;
    }
  }
}
