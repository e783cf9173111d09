/** The batch search box: the search run after the term settles, the result
    labels, and what a click on a result or outside the box does. */
module SearchBar {
  import opened Optional
  import opened AttestationTypes
  import opened Seqs
  import JsText

  datatype SearchState = SearchState(
    term: string,
    results: seq<Attestation>,
    isLoading: bool,
    showDropdown: bool)

  const Initial := SearchState("", [], false, false)

  predicate HasStringBatchId(a: Attestation)
  {
    a.decodedData.batchId.Some? && a.decodedData.batchId.value.Str?
  }

  /** The record's batch id contains the term, ignoring case. */
  predicate BatchIdMatches(a: Attestation, term: string)
    requires HasStringBatchId(a)
  {
    JsText.IncludesIgnoringCase(a.decodedData.batchId.value.s, term)
  }

  predicate Matches(a: Attestation, term: string)
  {
    HasStringBatchId(a) && BatchIdMatches(a, term)
  }

  /** The search over the fetched records: `None` when a record has no
      string batch id, on which calling `toLowerCase` throws. */
  function SearchResults(all: seq<Attestation>, term: string): (r: Option<seq<Attestation>>)
    ensures r.None? <==> exists i :: 0 <= i < |all| && !HasStringBatchId(all[i])
  {
    if forall i :: 0 <= i < |all| ==> HasStringBatchId(all[i]) then
      Some(Filter(all, a => Matches(a, term)))
    else None
  }

  /** The search effect, given what `fetchAttestations` returned. A throwing
      search leaves the loading flag set and nothing else changed. */
  function RunSearch(s: SearchState, all: seq<Attestation>): (r: SearchState)
    ensures r.term == s.term
  {
    if s.term == "" then s.(results := [], showDropdown := false)
    else match SearchResults(all, s.term)
      case Some(found) => s.(results := found, isLoading := false, showDropdown := true)
      case None => s.(isLoading := true)
  }

  /** An empty term clears the results and hides the dropdown. */
  lemma EmptyTermResets(s: SearchState, all: seq<Attestation>)
    requires s.term == ""
    ensures RunSearch(s, all).results == [] && !RunSearch(s, all).showDropdown
    ensures RunSearch(s, all).isLoading == s.isLoading
  {
  }

  /** A non-empty term shows exactly the fetched records whose batch id
      contains it, ignoring case, in fetch order, each as often as it was
      fetched. */
  lemma SearchFindsMatches(s: SearchState, all: seq<Attestation>, a: Attestation)
    requires s.term != ""
    requires forall i :: 0 <= i < |all| ==> HasStringBatchId(all[i])
    ensures RunSearch(s, all).showDropdown && !RunSearch(s, all).isLoading
    ensures a in RunSearch(s, all).results <==> a in all && BatchIdMatches(a, s.term)
    ensures IsSubsequence(RunSearch(s, all).results, all)
    ensures multiset(RunSearch(s, all).results)[a] == if Matches(a, s.term) then multiset(all)[a] else 0
  {
    var found := Filter(all, a => Matches(a, s.term));
    FilterIsSubsequence(all, a => Matches(a, s.term));
    FilterCounts(all, a => Matches(a, s.term), a);
    if a in found {
      var i :| 0 <= i < |found| && found[i] == a;
    }
    if a in all && BatchIdMatches(a, s.term) {
      var i :| 0 <= i < |all| && all[i] == a;
    }
  }

  /** Results only ever hold records with a string batch id. */
  predicate ResultsLabelled(s: SearchState)
  {
    forall i :: 0 <= i < |s.results| ==> HasStringBatchId(s.results[i])
  }

  lemma RunSearchKeepsResultsLabelled(s: SearchState, all: seq<Attestation>)
    requires ResultsLabelled(s)
    ensures ResultsLabelled(RunSearch(s, all))
  {
    if s.term != "" && SearchResults(all, s.term).Some? {
      var found := SearchResults(all, s.term).value;
      assert forall i :: 0 <= i < |found| ==> Matches(found[i], s.term);
    }
  }

  /** `stageNames[stage]` as a React child: the name for a stage index, and
      nothing for anything else. */
  function StageLabel(stage: Option<Value>): (r: string)
    ensures r == "" || r in StageNames
  {
    if stage.Some? && stage.value.Num? && 0 <= stage.value.n < |StageNames| then StageNames[stage.value.n]
    else ""
  }

  /** The text of one result: batch id, ` - `, stage name. */
  function ResultLabel(a: Attestation): (r: string)
    requires HasStringBatchId(a)
    ensures var id := a.decodedData.batchId.value.s;
      |r| >= |id| + 3 && r[..|id|] == id && r[|id|..|id| + 3] == " - "
  {
    var id := a.decodedData.batchId.value.s;
    var r := id + " - " + StageLabel(a.decodedData.stage);
    assert r[..|id|] == id;
    assert r[|id|..|id| + 3] == " - ";
    r
  }

  /** A stage index is labelled with its name from the six-stage table. */
  lemma ResultLabelOfStage(a: Attestation, k: nat)
    requires HasStringBatchId(a) && k < |StageNames|
    requires a.decodedData.stage == Some(Num(k))
    ensures ResultLabel(a) == a.decodedData.batchId.value.s + " - " + StageNames[k]
  {
  }

  /** An out-of-range stage (the decoder's -1 for an unknown name) leaves
      only the batch id and the dash. */
  lemma ResultLabelOfUnknownStage(a: Attestation)
    requires HasStringBatchId(a) && a.decodedData.stage == Some(Num(-1))
    ensures ResultLabel(a) == a.decodedData.batchId.value.s + " - "
  {
  }

  /** What the dropdown shows. */
  datatype Dropdown = Hidden | Loading | NoResults | Items(labels: seq<string>, targets: seq<string>)

  function ShowDropdown(s: SearchState): (r: Dropdown)
    requires ResultsLabelled(s)
    ensures r.Items? ==> |r.labels| == |s.results| == |r.targets| > 0
    ensures r.Items? ==> forall i :: 0 <= i < |r.targets| ==> r.targets[i] == s.results[i].id
  {
    if !s.showDropdown then Hidden
    else if s.isLoading then Loading
    else if |s.results| > 0 then
      Items(seq(|s.results|, i requires 0 <= i < |s.results| => ResultLabel(s.results[i])),
            Map(s.results, (a: Attestation) => a.id))
    else NoResults
  }

  /** Clicking a result: the route pushed and the next state. */
  function ClickResult(s: SearchState, id: string): (r: (string, SearchState))
    ensures r.0 == "/attestation/" + id
    ensures !r.1.showDropdown && r.1.term == ""
    ensures r.1.results == s.results && r.1.isLoading == s.isLoading
  {
    ("/attestation/" + id, s.(showDropdown := false, term := ""))
  }

  /** After a click the cleared term makes the next search empty the list. */
  lemma ClickThenSearchClears(s: SearchState, id: string, all: seq<Attestation>)
    ensures RunSearch(ClickResult(s, id).1, all).results == []
    ensures !RunSearch(ClickResult(s, id).1, all).showDropdown
    ensures ShowDropdown(RunSearch(ClickResult(s, id).1, all)) == Hidden
  {
  }

  /** A mouse-down: outside the search box it hides the dropdown, inside it
      changes nothing. */
  function MouseDown(s: SearchState, insideBox: bool): (r: SearchState)
    ensures insideBox ==> r == s
    ensures !insideBox ==> !r.showDropdown && r.(showDropdown := s.showDropdown) == s
  {
    if insideBox then s else s.(showDropdown := false)
  }

  lemma ClickOutsideHides(s: SearchState)
    requires ResultsLabelled(s)
    ensures ResultsLabelled(MouseDown(s, false))
    ensures ShowDropdown(MouseDown(s, false)) == Hidden
  {
  }
}
