# Lex norm repository: versioned norms, role-gated reading, modification workflow

This project models the domain layer of a small browser application that
shows a university's regulatory documents ("norms"). Each norm carries an
ordered, append-only history of versions. A version other than the first
records which other norm modified it, with a snapshot of that norm's title,
a summary, the administrator who applied it and a timestamp. Confidential
norms can be read only by DIRECTIVO and ADMIN users. Only an ADMIN can open
the "apply modification" dialog, which appends one version to the open norm.

The application logic sits inside UI event handlers. Here it is written as
pure functions over immutable records:

- `Seqs` holds the first-match search behind the application's `find` calls
  and the order-preserving subsequence relation behind its `filter` calls.
- `Types` holds the records of `types.ts`: `Role` has exactly the three
  constructors PUBLIC, DIRECTIVO and ADMIN. `Version.modification` is an
  `Option` (the application's `null`). `tags` and `versions` are sequences.
  It also holds the numbering invariant `WellNumbered` (numbers run 1..n in
  order).
- `Data` holds the seed users and norms of `data.ts`, contents included.
- `Access` holds the read predicate `CanView` and the administrator gate.
  It also holds the list card's badge and latest-version choice.
- `Search` holds the list's search filter. Lower-casing and `includes` are
  written out. `Includes` is a left-to-right scan, proved equal to "occurs
  at some offset".
- `Login` holds the login dialog's directory lookup and acceptance rule.
- `Workflow` holds the modification dialog: the initial draft, the selector's
  candidates, the summary request, and the submit handler that appends the
  version.
- `Invariants` holds the store invariant `ValidNorm`, and the proof that a
  submission keeps it.
- `App` holds the application state (live norms, current user, open norm),
  its transitions and the reachable-state invariant `Inv`.
- `SeedFacts` and `Scenarios` hold lemmas about the seed data and concrete
  runs from the initial state.

Behaviour of the code that the model keeps:

- The submit handler refuses only an unresolved modifying norm or an empty
  summary. It does not refuse an empty consolidated text. It does not refuse
  the target's own id: only the selector leaves the target out
  (`Scenarios.SelfReferenceOnlyExcludedBySelector`).
- Both lookups of the modifying norm read the seed list `Data.MockNorms`,
  not the live list. `App.StepIn` takes the catalogue as a parameter and
  `App.Step` passes `Data.MockNorms`.
- The summariser never reports failure to the dialog: on a service error it
  returns a fixed fallback text. That text is non-empty, so a submission
  after a failed summary is accepted. `Workflow.Analyze` takes the summariser
  as a function parameter whose result may be that fallback text.
- The new version is numbered `length + 1`, not "current number + 1". The two
  agree on every well-numbered history (`Workflow.SubmitAppends`).
- The seed norm `reg-acad-001` already has two versions. Applying
  `res-cu-050-2023` to it therefore yields version 3
  (`Scenarios.AdminAppliesResolution`).
- The version date and `appliedAt` come from two separate clock readings, so
  they are two independent parameters.

## Model

| member | source | states |
|---|---|---|
| Types.LatestVersion | components/NormsList.tsx:14 | the version shown as current is the last element of the history (the history is its predecessors followed by it); on a history numbered 1..n it carries number n |
| Types.WellNumberedAppend | components/NormDetailView.tsx:71-72 | appending to a history numbered 1..n keeps a 1..n+1 numbering exactly when the new element is numbered n+1 |
| Access.CanViewByRank | components/NormDetailView.tsx:150 | read access holds iff the norm is public or the user is present with a tier at least DIRECTIVO |
| Access.CanViewTruthTable | components/NormsList.tsx:13 | public norms are readable by anyone, including nobody logged in; confidential ones are refused to anonymous and PUBLIC users and granted to ADMIN and DIRECTIVO |
| Access.ModifyGate | components/NormDetailView.tsx:216 | the modification dialog renders only for a present ADMIN, and the admin panel is shown exactly for the top tier, whatever the norm's confidentiality |
| Access.ModifyImpliesView | components/NormDetailView.tsx:172 | whoever sees the admin panel of a norm may also read that norm |
| Access.NormCard | components/NormsList.tsx:12-38 | the card's flag equals the read predicate, its badge is "Accesible" exactly when readable and "Restringido" otherwise, and it dates the last version |
| Search.LowerIdempotent | components/NormsList.tsx:56 | lower-casing twice is lower-casing once |
| Search.Includes | components/NormsList.tsx:58-60 | the scan answers true iff the needle occurs at some offset of the haystack; the empty needle occurs everywhere |
| Search.Filter | components/NormsList.tsx:54-63 | the result is an order-preserving subsequence of the list holding exactly the norms whose lowered title, description or some tag contains the lowered term, and is no longer than the list |
| Search.FilterCounts | components/NormsList.tsx:54-63 | the filter keeps every occurrence of each matching norm and none of any other, so with the subsequence property of `Search.Filter` the result is determined |
| Search.EmptySearchKeepsAll | components/NormsList.tsx:55-61 | an empty search term keeps every norm in order |
| Search.FilterCaseInsensitive | components/NormsList.tsx:56-60 | a term and its lower-cased form select the same norms |
| Seqs.FirstWhere | components/NormDetailView.tsx:49 | the position found is the first whose element passes the test, or the length when none does |
| Login.FindUser | components/LoginModal.tsx:19 | the lookup finds nothing iff no entry has exactly that username, and otherwise returns the first entry with that username |
| Login.Authenticate | components/LoginModal.tsx:17-28 | login succeeds iff some entry has exactly that username and the password is non-empty; the user handed on is the first such entry; otherwise the fixed error message is set |
| Login.HandleLogin | components/LoginModal.tsx:19-23 | the handler only ever logs in a seed directory user with the typed username |
| Login.PasswordIrrelevant | components/LoginModal.tsx:20-22 | two passwords that are both empty or both non-empty give the same outcome |
| Login.SeedLogins | data.ts:4-7 | "admin" and "directivo" log in as the seed users with any non-empty password; "Admin" and an empty password are refused |
| Workflow.FindNorm | components/NormDetailView.tsx:65 | the lookup finds nothing iff no norm has that id, and otherwise returns the first listed norm with that id |
| Workflow.OpenDraft | components/NormDetailView.tsx:43-45 | the dialog opens with no modifying norm chosen, no summary, and the target's latest text as the editable content |
| Workflow.WithoutId | components/NormDetailView.tsx:107 | the result is an order-preserving subsequence holding every occurrence of each listed norm with a different id, and no other norm |
| Workflow.Candidates | components/NormDetailView.tsx:101-110 | the selector offers every catalogue entry whose id differs from the target's, each as often as the catalogue holds it, in catalogue order, and nothing else |
| Workflow.ChooseModifying | components/NormDetailView.tsx:103 | choosing an option sets the chosen id and keeps the text and summary |
| Workflow.EditContent | components/NormDetailView.tsx:116 | editing the text keeps the chosen id and the summary |
| Workflow.SummaryRequestFor | components/NormDetailView.tsx:48-58 | no request when the id names no catalogue norm; otherwise the target's latest text against the first version's text of the first catalogue norm with that id |
| Workflow.Analyze | components/NormDetailView.tsx:48-61 | an unresolved id leaves the draft unchanged; a resolved one sets the summary to the summariser's answer on the request and keeps id and text |
| Workflow.PressAnalyze | components/NormDetailView.tsx:121 | a press while no modifying norm is chosen changes nothing; a press never changes the id or the text, changes the summary only for a chosen id found in the catalogue, and then sets it to the summariser's answer on the request |
| Workflow.DisabledButtonRedundant | components/NormDetailView.tsx:48-53 | when no catalogue norm has the empty id, pressing the button behaves exactly like calling the handler directly, so the disabled state only hides what the handler's lookup already refuses |
| Workflow.Submit | components/NormDetailView.tsx:63-91 | submission is refused with the fixed alert iff the summary is empty or the id names no catalogue norm; on success every field but the history is unchanged and the history gains exactly one element after the unchanged old ones |
| Workflow.FreshDraftRefused | components/NormDetailView.tsx:66 | the dialog cannot be submitted as it opens |
| Workflow.SubmitAppends | components/NormDetailView.tsx:71-87 | the new version is numbered old length + 1 and carries the draft text, the version date, and a modification naming the chosen id, its catalogue title, the summary, the acting user's id and the apply time; 1..n numbering becomes 1..n+1 |
| Invariants.SubmitPreservesValid | components/NormDetailView.tsx:63-91 | a submission by a directory ADMIN keeps a valid norm valid: non-empty history numbered 1..n, original first version, every modification citing a catalogue norm under its title and applied by an ADMIN |
| App.ReplaceById | App.tsx:63 | exactly the positions whose id equals the updated norm's id hold the updated norm; every other position is unchanged; the length is kept |
| App.ReplaceWithoutMatch | App.tsx:63 | when no norm has that id the list is identical |
| App.ReplaceKeepsIds | App.tsx:63 | the ids at every position and their order are unchanged, and the updated norm is present iff some norm had its id |
| App.ReplaceIdempotent | App.tsx:63 | replacing twice with the same norm is replacing once |
| App.UpdateNorm | App.tsx:62-65 | the list is replaced by id, the open norm becomes the updated one, the user is untouched |
| App.Logout | App.tsx:50-52 | logout clears the user and leaves the norms and the open norm alone |
| App.BackToList | App.tsx:58-60 | going back clears the open norm and leaves the norms and the user alone |
| App.StepIn | App.tsx:46-65 | every event keeps the list's length and the id at each position; the list changes only on a submission by an ADMIN from the open detail view with a non-empty summary and a modifying norm found in the catalogue; the user changes only on login or logout; a clicked card opens a listed norm the search term matches |
| App.Step | components/NormDetailView.tsx:65 | with the seed catalogue, a changed list always comes from a submission citing a seed norm, and a newly logged-in user is a seed user with the typed username |
| App.LoginTransition | App.tsx:46-48 | a login never touches the norms or the open norm; an empty password or unknown username leaves the state unchanged; a changed user is a directory user with the typed username; a non-empty password with a known username sets the user to the first directory entry with that username |
| App.SubmitTransition | components/NormDetailView.tsx:63-91 | a refused submission leaves the state unchanged; the open norm stays open with the same id, in the list, its old history a prefix of the new one, and the list keeps its length; an accepted submission (non-empty summary, id found in the catalogue) makes the open norm's history exactly one version longer and replaces it by id in the list |
| App.StepPreservesInv | App.tsx:41-65 | whatever catalogue the lookups read, every transition keeps the reachable-state invariant against it: valid norms, distinct ids, the open norm in the list, the user from the directory |
| SeedFacts.SeedUsersDistinct | data.ts:4-7 | seed usernames and seed user ids are pairwise distinct |
| SeedFacts.SeedIdsDistinct | data.ts:9-109 | seed norm ids are pairwise distinct |
| SeedFacts.OnlyConfIsConfidential | data.ts:9-109 | exactly the seed norm `norm-conf-001` is confidential |
| SeedFacts.RegAcadCitation | data.ts:49-61 | version 2 of `reg-acad-001` cites `res-cu-050-2023`, a different seed norm whose title it snapshots, applied by the seed ADMIN `admin01` |
| SeedFacts.SeedNormsValid | data.ts:9-109 | every seed norm is valid: histories numbered 1..n, original first versions, sound modifications |
| SeedFacts.InitialInv | App.tsx:41-43 | the initial state (seed norms, no user, no open norm) satisfies the invariant against the seed catalogue, so every state reached by `App.Step` does |
| Scenarios.AdminLogsIn | components/LoginModal.tsx:17-28 | from the initial state, "admin" with a password logs in the seed ADMIN and changes nothing else |
| Scenarios.FirstCardOpensRegAcad | components/NormsList.tsx:87-88 | with no search term, clicking the first card of the seed list opens `reg-acad-001` |
| Scenarios.AdminAppliesResolution | components/NormDetailView.tsx:63-91 | the admin applying `res-cu-050-2023` to the open `reg-acad-001` yields version 3 with that citation, unchanged older versions and other norms, and the new norm open |
| Scenarios.NonAdminSubmitIsNoOp | components/NormDetailView.tsx:216 | a submission attempt by anyone but an ADMIN leaves the state unchanged |
| Scenarios.ConfidentialSeedAccess | components/NormDetailView.tsx:150 | anonymous users cannot read `norm-conf-001` and its card says "Restringido"; DIRECTIVO can read it but gets no admin panel |
| Scenarios.SelfReferenceOnlyExcludedBySelector | components/NormDetailView.tsx:107 | the selector never offers the target, yet the submit handler accepts the target's own id |
| Scenarios.SeedSummaryRequest | components/NormDetailView.tsx:55-58 | on `reg-acad-001` with the resolution chosen, the request pairs the current version 2 text with the resolution's first version text |
| Scenarios.ConfidentialNormListed | components/NormsList.tsx:54-63 | the search ignores the user: `norm-conf-001` is listed for the term "INVERSIONES" |

## Left out

- Rendering, styling, icons, `alert`, `dangerouslySetInnerHTML` and the hook plumbing are left out. Hook state is the `App.AppState` record and the `Workflow.Draft` record.
- The login dialog's visibility flag and the dialog's own open/close flag are left out. They decide only which screen is drawn.
- The detail view's choice of which version to display is left out for the same reason.
- The `isAnalyzing` flag and the await in the summary handler are left out. `Workflow.Analyze` completes in one step.
- The summariser service, its prompt, its API-key check at start-up and the chat widget are external services. The summariser is the parameter `summarize` of `Workflow.Analyze`.
- Clock readings (`new Date().toISOString()`) and date formatting are left out. Timestamps are opaque strings passed in.
- `Search.LowerChar` does not model full Unicode `toLowerCase`. It lowers ASCII A-Z and the Latin-1 capitals U+00C0..U+00DE (except U+00D7). Every other character is left unchanged, including capitals such as U+0141 and U+0100 that `toLowerCase` lowers, so a search term typed with them may match differently.
- Types.LatestVersion: requires a non-empty history. The application reads `versions[length - 1]` and fails at run time on an empty one.
- Workflow.SummaryRequestFor: requires every catalogue norm to have a version. The application reads `versions[0].content` and fails at run time otherwise. The seed catalogue meets this.
- `App.StepIn` accepts every event in every state, a superset of what the screens produce: a login while a user is logged in, a card click while a norm is open, and a submission with any draft, including a self-citation the selector never offers. The invariant is proved for this larger set of runs.
- Concurrent or stale submissions are not modelled. The application has no version-conflict guard and none is added.
