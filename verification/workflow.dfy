/** The "apply modification" dialog of the detail view. An administrator
    picks a modifying norm, edits the consolidated text, asks the external
    summariser for a summary and submits; submission appends one version to
    the target norm. The modifying norm is looked up in a `catalog`; the
    application passes the seed list `Data.MockNorms` there, never the live
    list of norms (see `App`). */
module Workflow {
  import opened Types
  import Seqs

  /** `norms.find(n => n.id === id)`. */
  function FindNorm(norms: seq<Norm>, id: string): (r: Option<Norm>)
    ensures r.None? <==> forall n :: n in norms ==> n.id != id
    ensures r.Some? ==> r.value in norms && r.value.id == id
    ensures r.Some? ==> exists i :: 0 <= i < |norms| && norms[i] == r.value
                          && forall j :: 0 <= j < i ==> norms[j].id != id
  {
    var k := Seqs.FirstWhere(norms, (n: Norm) => n.id == id);
    if k < |norms| then Some(norms[k]) else None
  }

  /** The dialog's own state: the chosen modifying norm id (empty until one
      is chosen), the editable consolidated text and the generated summary
      (read-only for the user). */
  datatype Draft = Draft(modifyingNormId: string, newContent: string, summary: string)

  /** The dialog as it opens on `target`: nothing chosen, no summary, and the
      text of the target's latest version ready for editing. */
  function OpenDraft(target: Norm): (d: Draft)
    requires |target.versions| > 0
    ensures d.modifyingNormId == "" && d.summary == ""
    ensures d.newContent == target.versions[|target.versions| - 1].content
  {
    Draft("", LatestVersion(target).content, "")
  }

  /** The norms with an id other than `id`, in order, each as often as the
      list holds it. */
  function WithoutId(norms: seq<Norm>, id: string): (r: seq<Norm>)
    ensures forall n :: n in r <==> n in norms && n.id != id
    ensures forall n :: multiset(r)[n] == if n.id != id then multiset(norms)[n] else 0
    ensures Seqs.Subsequence(r, norms)
    decreases |norms|
  {
    if |norms| == 0 then []
    else
      var rest := WithoutId(norms[1..], id);
      assert norms == [norms[0]] + norms[1..];
      assert multiset(norms) == multiset{norms[0]} + multiset(norms[1..]);
      if norms[0].id != id then
        assert forall n :: n in norms <==> n == norms[0] || n in norms[1..];
        assert multiset([norms[0]] + rest) == multiset{norms[0]} + multiset(rest);
        [norms[0]] + rest
      else
        Seqs.SubsequenceCons(rest, norms);
        rest
  }

  /** The options of the modifying-norm selector: every catalogue norm except
      the target itself, in catalogue order. This is the only place
      self-reference is excluded. */
  function Candidates(catalog: seq<Norm>, target: Norm): (r: seq<Norm>)
    ensures forall n :: n in r <==> n in catalog && n.id != target.id
    ensures forall n :: multiset(r)[n] == if n.id != target.id then multiset(catalog)[n] else 0
    ensures Seqs.Subsequence(r, catalog)
  {
    WithoutId(catalog, target.id)
  }

  /** Choosing an option of the selector. */
  function ChooseModifying(d: Draft, id: string): (d': Draft)
    ensures d'.modifyingNormId == id
    ensures d'.newContent == d.newContent && d'.summary == d.summary
  {
    d.(modifyingNormId := id)
  }

  /** Editing the consolidated text. */
  function EditContent(d: Draft, text: string): (d': Draft)
    ensures d'.newContent == text
    ensures d'.modifyingNormId == d.modifyingNormId && d'.summary == d.summary
  {
    d.(newContent := text)
  }

  /** The summary button is disabled while no modifying norm is chosen. */
  predicate AnalyzeEnabled(d: Draft) {
    d.modifyingNormId != ""
  }

  /** The two texts handed to the summariser. */
  datatype SummaryRequest = SummaryRequest(baseText: string, modifyingText: string)

  /** Every norm of the list has at least one version. */
  predicate HistoriesNonEmpty(norms: seq<Norm>) {
    forall n :: n in norms ==> |n.versions| > 0
  }

  /** The request the summary button sends: the target's latest text against
      the first version of the chosen catalogue norm; nothing when the chosen
      id names no catalogue norm. */
  function SummaryRequestFor(catalog: seq<Norm>, d: Draft, target: Norm): (q: Option<SummaryRequest>)
    requires HistoriesNonEmpty(catalog)
    requires |target.versions| > 0
    ensures q.None? <==> forall n :: n in catalog ==> n.id != d.modifyingNormId
    ensures q.Some? ==> q.value.baseText == target.versions[|target.versions| - 1].content
    ensures q.Some? ==> q.value.modifyingText == FindNorm(catalog, d.modifyingNormId).value.versions[0].content
  {
    var modifying := FindNorm(catalog, d.modifyingNormId);
    if modifying.None? then None
    else Some(SummaryRequest(LatestVersion(target).content, modifying.value.versions[0].content))
  }

  /** Pressing the summary button. The summariser is external; `summarize`
      stands for whatever text it returns, including the fixed fallback text
      it produces when the service fails. An unresolved id leaves the draft
      as it was. */
  function Analyze(catalog: seq<Norm>, d: Draft, target: Norm, summarize: (string, string) -> string): (d': Draft)
    requires HistoriesNonEmpty(catalog)
    requires |target.versions| > 0
    ensures d'.modifyingNormId == d.modifyingNormId && d'.newContent == d.newContent
    ensures (forall n :: n in catalog ==> n.id != d.modifyingNormId) ==> d' == d
    ensures SummaryRequestFor(catalog, d, target).Some? ==>
      var q := SummaryRequestFor(catalog, d, target).value;
      d'.summary == summarize(q.baseText, q.modifyingText)
  {
    match SummaryRequestFor(catalog, d, target)
    case None => d
    case Some(q) => d.(summary := summarize(q.baseText, q.modifyingText))
  }

  /** A press on the summary button: a disabled button does nothing, an
      enabled one runs the summary handler. The summary changes only when a
      modifying norm is chosen and resolves in the catalogue. */
  function PressAnalyze(catalog: seq<Norm>, d: Draft, target: Norm, summarize: (string, string) -> string): (d': Draft)
    requires HistoriesNonEmpty(catalog)
    requires |target.versions| > 0
    ensures !AnalyzeEnabled(d) ==> d' == d
    ensures d'.modifyingNormId == d.modifyingNormId && d'.newContent == d.newContent
    ensures d' != d ==> d.modifyingNormId != "" && exists n :: n in catalog && n.id == d.modifyingNormId
    ensures AnalyzeEnabled(d) && SummaryRequestFor(catalog, d, target).Some? ==>
      var q := SummaryRequestFor(catalog, d, target).value;
      d'.summary == summarize(q.baseText, q.modifyingText)
  {
    if AnalyzeEnabled(d) then Analyze(catalog, d, target, summarize) else d
  }

  /** When no catalogue norm has the empty id, as in the seed catalogue, the
      disabled state adds nothing: the handler's own lookup already leaves a
      draft without a chosen norm unchanged. */
  lemma DisabledButtonRedundant(catalog: seq<Norm>, d: Draft, target: Norm, summarize: (string, string) -> string)
    requires HistoriesNonEmpty(catalog)
    requires |target.versions| > 0
    requires forall n :: n in catalog ==> n.id != ""
    ensures PressAnalyze(catalog, d, target, summarize) == Analyze(catalog, d, target, summarize)
  {
  }

  const IncompleteForm: string := "Por favor, complete todos los campos y genere un resumen."

  /** What the submit handler leads to: the updated norm handed to the store,
      or the alert shown while the dialog stays open. */
  datatype SubmitOutcome = Applied(norm: Norm) | Refused(message: string)

  /** `handleSubmit`: with a chosen catalogue norm and a non-empty summary, the
      target gets one more version, numbered after its current length, that
      carries the draft's text and a snapshot of the modifying norm. The
      version date and `appliedAt` come from two separate clock readings.
      Neither self-reference nor an empty text is refused here. */
  function Submit(catalog: seq<Norm>, d: Draft, target: Norm, user: User, versionDate: string, appliedAt: string): (o: SubmitOutcome)
    ensures o.Refused? <==> d.summary == "" || forall n :: n in catalog ==> n.id != d.modifyingNormId
    ensures o.Refused? ==> o.message == IncompleteForm
    ensures o.Applied? ==>
      && o.norm.id == target.id
      && o.norm.title == target.title
      && o.norm.shortTitle == target.shortTitle
      && o.norm.description == target.description
      && o.norm.tags == target.tags
      && o.norm.isConfidential == target.isConfidential
      && |o.norm.versions| == |target.versions| + 1
      && o.norm.versions[..|target.versions|] == target.versions
  {
    var modifying := FindNorm(catalog, d.modifyingNormId);
    if modifying.None? || d.summary == "" then
      Refused(IncompleteForm)
    else
      var m := modifying.value;
      var newVersion := Version(
        |target.versions| + 1,
        d.newContent,
        versionDate,
        Some(Modification(m.id, m.title, d.summary, user.id, appliedAt)));
      Applied(target.(versions := target.versions + [newVersion]))
  }

  /** The dialog cannot be submitted as it opens: the summary is still
      empty. */
  lemma FreshDraftRefused(catalog: seq<Norm>, target: Norm, user: User, versionDate: string, appliedAt: string)
    requires |target.versions| > 0
    ensures Submit(catalog, OpenDraft(target), target, user, versionDate, appliedAt).Refused?
  {
  }

  /** The appended version: numbered after the old length, carrying the
      draft's text, the version date, and a modification that names the chosen
      catalogue norm, snapshots its catalogue title, keeps the summary and records the
      acting user. A history numbered 1..n becomes one numbered 1..n+1. */
  lemma SubmitAppends(catalog: seq<Norm>, d: Draft, target: Norm, user: User, versionDate: string, appliedAt: string)
    requires Submit(catalog, d, target, user, versionDate, appliedAt).Applied?
    ensures var n' := Submit(catalog, d, target, user, versionDate, appliedAt).norm;
      var v := n'.versions[|target.versions|];
      var k := FindNorm(catalog, d.modifyingNormId);
      && k.Some?
      && v.version == |target.versions| + 1
      && v.content == d.newContent
      && v.date == versionDate
      && v.modification == Some(Modification(d.modifyingNormId, k.value.title, d.summary, user.id, appliedAt))
      && (WellNumbered(target.versions) ==> WellNumbered(n'.versions))
  {
    var k := FindNorm(catalog, d.modifyingNormId);
    var m := k.value;
    var v := Version(|target.versions| + 1, d.newContent, versionDate,
      Some(Modification(m.id, m.title, d.summary, user.id, appliedAt)));
    assert Submit(catalog, d, target, user, versionDate, appliedAt).norm == target.(versions := target.versions + [v]);
    if WellNumbered(target.versions) {
      WellNumberedAppend(target.versions, v);
    }
  }
}
