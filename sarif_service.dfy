/**
  SarifService: turning the results of SARIF documents into leaves grouped
  under one of the three views, choosing which analyses of a branch to
  fetch, and mapping HTTP statuses to the viewer's errors.
 */
module SarifService {
  import opened Options
  import opened Exceptions
  import Numbers
  import opened Text
  import opened SarifSchema
  import opened Leaves
  import opened Views
  import opened Buckets

  /* ---------------------------------------------------------------------
     leaf(result)
     --------------------------------------------------------------------- */

  /** `region.startLine` in a string template: its decimal text, or "null". */
  function LineText(line: Option<int>): string {
    match line
    case Some(n) => Numbers.ToDecimal(n)
    case None => "null"
  }

  /** The "uri:startLine" text of a physical location. */
  function AddressOf(loc: PhysicalLocation): string {
    loc.uri + ":" + LineText(loc.startLine)
  }

  /** An address starts with the URI, and the text after its last ':' reads
      back as the start line (a missing line reads as no number). */
  lemma AddressReadsBack(loc: PhysicalLocation)
    requires loc.startLine.Some? ==> Numbers.MinInt32 <= loc.startLine.value <= Numbers.MaxInt32
    ensures StartsWith(AddressOf(loc), loc.uri + ":")
    ensures Numbers.ParseInt(AfterLast(AddressOf(loc), ':')) == loc.startLine
  {
    var t := LineText(loc.startLine);
    AfterLastSplit(loc.uri, ':', t);
    match loc.startLine
    case Some(n) => Numbers.ParseToDecimal(n);
    case None => Numbers.ParseRejectsText(t);
  }

  /** The addresses of the steps of a thread flow, one per step, in order. */
  function StepAddresses(locs: seq<ThreadFlowLocation>): (r: seq<string>)
    ensures |r| == |locs|
    ensures forall i :: 0 <= i < |locs| ==> r[i] == AddressOf(locs[i].location)
    decreases |locs|
  {
    if locs == [] then []
    else StepAddresses(locs[..|locs| - 1]) + [AddressOf(locs[|locs| - 1].location)]
  }

  /** `codeFlows?.get(0)?.threadFlows?.get(0)?.locations?.map { .. } ?: listOf()`.
      A missing list anywhere in the chain gives no steps; an empty one makes
      `get(0)` throw, modelled as None. */
  function Steps(r: SarifResult): Option<seq<string>> {
    match r.codeFlows
    case None => Some([])
    case Some(flows) =>
      if |flows| == 0 then None
      else match flows[0].threadFlows
        case None => Some([])
        case Some(threads) =>
          if |threads| == 0 then None
          else match threads[0].locations
            case None => Some([])
            case Some(locs) => Some(StepAddresses(locs))
  }

  /** The steps fail only on an empty code-flow or thread-flow list; when
      the first thread flow of the first code flow has steps, there is one
      address per step, and otherwise there are none. */
  lemma StepsSpec(r: SarifResult)
    ensures Steps(r).None? <==>
              || r.codeFlows == Some([])
              || (r.codeFlows.Some? && |r.codeFlows.value| > 0 && r.codeFlows.value[0].threadFlows == Some([]))
    ensures Steps(r).Some? && FirstThreadSteps(r).Some? ==>
              |Steps(r).value| == |FirstThreadSteps(r).value|
              && forall i :: 0 <= i < |Steps(r).value| ==>
                   Steps(r).value[i] == AddressOf(FirstThreadSteps(r).value[i].location)
    ensures Steps(r).Some? && FirstThreadSteps(r).None? ==> Steps(r).value == []
  {
  }

  /** The steps of the first thread flow of the first code flow, when that
      chain of lists is present and non-empty. */
  function FirstThreadSteps(r: SarifResult): Option<seq<ThreadFlowLocation>> {
    if r.codeFlows.Some? && |r.codeFlows.value| > 0 then
      var threads := r.codeFlows.value[0].threadFlows;
      if threads.Some? && |threads.value| > 0 then threads.value[0].locations else None
    else None
  }

  /** `additionalProperties[name]?.toString() ?: ""`, with a missing bag
      read as an empty one. */
  function PropertyText(props: Option<map<string, JsonValue>>, name: string): string {
    if props.Some? && name in props.value then props.value[name].Text().GetOr("") else ""
  }

  const AlertNumberProperty: string := "github/alertNumber"
  const AlertUrlProperty: string := "github/alertUrl"

  /** `leaf(result)`. It throws (None) when the result has no location, when
      its `ruleId` is null (the non-null `Leaf.ruleId` parameter is checked)
      or when its steps throw. */
  function BuildLeaf(r: SarifResult): (l: Option<Leaf>)
    ensures l.None? <==> |r.locations| == 0 || r.ruleId.None? || Steps(r).None?
  {
    if |r.locations| == 0 || r.ruleId.None? || Steps(r).None? then None
    else Some(LeafOf(r, Steps(r).value))
  }

  /** The leaf of a result that has a location and a rule id, given its
      steps. */
  function LeafOf(r: SarifResult, steps: seq<string>): Leaf
    requires |r.locations| > 0 && r.ruleId.Some?
  {
    var loc := r.locations[0];
    var text := r.messageText.GetOr("");
    Leaf(
      leafName := text,
      address := AddressOf(loc),
      steps := steps,
      location := loc.uri,
      ruleId := r.ruleId.value,
      ruleName := if r.rule.Some? then r.rule.value.id.GetOr("") else "",
      ruleDescription := text,
      level := if r.level.Some? then r.level.value.Text() else "null",
      kind := if r.kind.Some? then r.kind.value.Text() else "null",
      githubAlertNumber := PropertyText(r.properties, AlertNumberProperty),
      githubAlertUrl := PropertyText(r.properties, AlertUrlProperty))
  }

  /** Where each field of a leaf comes from. */
  lemma LeafFields(r: SarifResult)
    requires BuildLeaf(r).Some?
    ensures var l := BuildLeaf(r).value;
      && l.location == r.locations[0].uri
      && l.address == AddressOf(r.locations[0])
      && l.leafName == l.ruleDescription == r.messageText.GetOr("")
      && l.ruleId == r.ruleId.value
      && (l.ruleName == "" <==> r.rule.None? || r.rule.value.id.None? || r.rule.value.id == Some(""))
      && l.steps == Steps(r).value
      && l.githubAlertNumber == PropertyText(r.properties, AlertNumberProperty)
      && l.githubAlertUrl == PropertyText(r.properties, AlertUrlProperty)
  {
  }

  /** A leaf gets an icon exactly when its result has level error, warning
      or note; a result without a level, or with level none, gets none. */
  lemma LeafIconFollowsLevel(r: SarifResult)
    requires BuildLeaf(r).Some?
    ensures BuildLeaf(r).value.Icon() == "" <==> r.level.None? || r.level == Some(LevelNone)
  {
  }

  /** A result with no property bag, or none of the two GitHub properties,
      has an empty alert number and URL. */
  lemma LeafWithoutAlertProperties(r: SarifResult)
    requires BuildLeaf(r).Some?
    requires r.properties.None? || (AlertNumberProperty !in r.properties.value && AlertUrlProperty !in r.properties.value)
    ensures BuildLeaf(r).value.githubAlertNumber == "" && BuildLeaf(r).value.githubAlertUrl == ""
  {
  }

  /* ---------------------------------------------------------------------
     Bucket keys
     --------------------------------------------------------------------- */

  /** `result.rule?.id ?: result.correlationGuid?.toString() ?: result.message.text`,
      which may be null: HashMap accepts a null key. */
  function RuleKey(r: SarifResult): Option<string> {
    if r.rule.Some? && r.rule.value.id.Some? then r.rule.value.id
    else if r.correlationGuid.Some? then r.correlationGuid
    else r.messageText
  }

  /** The rule id takes precedence over the correlation GUID, which takes
      precedence over the message text; the key is null only when all three
      are. */
  lemma RuleKeyPrecedence(r: SarifResult, guid: Option<string>, text: Option<string>)
    ensures r.rule.Some? && r.rule.value.id.Some? ==>
              RuleKey(r.(correlationGuid := guid, messageText := text)) == r.rule.value.id
    ensures (r.rule.None? || r.rule.value.id.None?) && r.correlationGuid.Some? ==>
              RuleKey(r.(messageText := text)) == r.correlationGuid
    ensures RuleKey(r).None? <==>
              (r.rule.None? || r.rule.value.id.None?) && r.correlationGuid.None? && r.messageText.None?
  {
  }

  const MissingAlertNumber: string := "Missing alert number"

  /** The alert-number key: the leaf's alert number, or "Missing alert
      number" when it is empty. */
  function AlertKey(l: Leaf): (k: string)
    ensures k != ""
    ensures l.githubAlertNumber != "" ==> k == l.githubAlertNumber
    ensures l.githubAlertNumber == "" ==> k == MissingAlertNumber
  {
    if l.githubAlertNumber == "" then MissingAlertNumber else l.githubAlertNumber
  }

  /** Any key that is not a number, "Missing alert number" among them, sorts
      as Integer.MIN_VALUE. */
  lemma MissingAlertNumberSortsFirst()
    ensures SortValue(MissingAlertNumber) == Numbers.MinInt32
  {
    Numbers.ParseRejectsText(MissingAlertNumber);
  }

  const RuleKeyOf: (SarifResult, Leaf) -> Option<string> := (r: SarifResult, l: Leaf) => RuleKey(r)
  const LocationKeyOf: (SarifResult, Leaf) -> string := (r: SarifResult, l: Leaf) => l.location
  const AlertKeyOf: (SarifResult, Leaf) -> string := (r: SarifResult, l: Leaf) => AlertKey(l)

  /* ---------------------------------------------------------------------
     The results of a document, filed under a key
     --------------------------------------------------------------------- */

  /** `run.results ?: []`: a missing results list has no results. */
  function ResultsOf(run: Run): seq<SarifResult> {
    run.results.GetOr([])
  }

  /** The results of every run, run after run. */
  function AllResults(runs: seq<Run>): seq<SarifResult>
    decreases |runs|
  {
    if runs == [] then [] else AllResults(runs[..|runs| - 1]) + ResultsOf(runs[|runs| - 1])
  }

  lemma {:induction false} AllResultsContains(runs: seq<Run>, i: int, j: int)
    requires 0 <= i < |runs| && 0 <= j < |ResultsOf(runs[i])|
    ensures ResultsOf(runs[i])[j] in AllResults(runs)
    decreases |runs|
  {
    var n := |runs| - 1;
    if i < n {
      AllResultsContains(runs[..n], i, j);
    }
  }

  /** Each result's leaf with its bucket key, in order; None when `leaf`
      throws on some result. */
  function Filed<K>(rs: seq<SarifResult>, key: (SarifResult, Leaf) -> K): Option<seq<(K, Leaf)>>
    decreases |rs|
  {
    if rs == [] then Some([])
    else
      var n := |rs| - 1;
      match Filed(rs[..n], key)
      case None => None
      case Some(es) =>
        match BuildLeaf(rs[n])
        case None => None
        case Some(l) => Some(es + [(key(rs[n], l), l)])
  }

  /** Filing fails exactly when `leaf` throws on some result; otherwise
      the i-th entry is the i-th result's leaf under that result's key. */
  lemma {:induction false} FiledSpec<K>(rs: seq<SarifResult>, key: (SarifResult, Leaf) -> K)
    ensures Filed(rs, key).None? <==> exists r :: r in rs && BuildLeaf(r).None?
    ensures Filed(rs, key).Some? ==> |Filed(rs, key).value| == |rs|
    ensures Filed(rs, key).Some? ==> forall i :: 0 <= i < |rs| ==>
              var e := Filed(rs, key).value[i];
              BuildLeaf(rs[i]) == Some(e.1) && e.0 == key(rs[i], e.1)
    decreases |rs|
  {
    if rs != [] {
      var n := |rs| - 1;
      assert rs == rs[..n] + [rs[n]];
      FiledSpec(rs[..n], key);
    }
  }

  /** Filing one more result whose leaf builds appends one entry. */
  lemma FiledAppend<K>(xs: seq<SarifResult>, r: SarifResult, ys: seq<SarifResult>, key: (SarifResult, Leaf) -> K,
                       es: seq<(K, Leaf)>, l: Leaf)
    requires ys == xs + [r]
    requires Filed(xs, key) == Some(es) && BuildLeaf(r) == Some(l)
    ensures Filed(ys, key) == Some(es + [(key(r, l), l)])
  {
    assert ys[..|ys| - 1] == xs;
  }

  lemma FiledStep<K>(done: seq<SarifResult>, rs: seq<SarifResult>, j: int, key: (SarifResult, Leaf) -> K,
                     es: seq<(K, Leaf)>, l: Leaf)
    requires 0 <= j < |rs|
    requires Filed(done + rs[..j], key) == Some(es) && BuildLeaf(rs[j]) == Some(l)
    ensures Filed(done + rs[..j + 1], key) == Some(es + [(key(rs[j], l), l)])
  {
    TakeOneMore(done, rs, j);
    FiledAppend(done + rs[..j], rs[j], done + rs[..j + 1], key, es, l);
  }

  lemma TakeOneMore<T>(done: seq<T>, rs: seq<T>, j: int)
    requires 0 <= j < |rs|
    ensures done + rs[..j + 1] == (done + rs[..j]) + [rs[j]]
  {
    assert rs[..j + 1] == rs[..j] + [rs[j]];
  }

  /** Filing a result whose leaf throws fails the whole list it is part of. */
  lemma FiledFails<K>(rs: seq<SarifResult>, r: SarifResult, key: (SarifResult, Leaf) -> K)
    requires r in rs && BuildLeaf(r).None?
    ensures Filed(rs, key).None?
  {
    FiledSpec(rs, key);
  }

  /** The groupings of the three views. */
  datatype Grouping =
    | ByRule(rules: map<Option<string>, seq<Leaf>>)
    | ByLocation(locations: map<string, seq<Leaf>>)
    | ByAlertNumber(alerts: seq<Entry>)

  /** `analyseSarif(sarif, view)`: any exception while filling the buckets
      (a null `runs` list, or `leaf` throwing) becomes INVALID_SARIF; a view
      other than the three becomes INVALID_VIEW. */
  function Classify(doc: SarifLog, view: View): Outcome<Grouping> {
    if view != Rule && view != Location && view != AlertNumber then Err(Raised(InvalidView))
    else if doc.runs.None? then Err(Raised(InvalidSarif))
    else
      var rs := AllResults(doc.runs.value);
      if view == Rule then
        match Filed(rs, RuleKeyOf)
        case None => Err(Raised(InvalidSarif))
        case Some(es) => Ok(ByRule(Group(es)))
      else if view == Location then
        match Filed(rs, LocationKeyOf)
        case None => Err(Raised(InvalidSarif))
        case Some(es) => Ok(ByLocation(Group(es)))
      else
        match Filed(rs, AlertKeyOf)
        case None => Err(Raised(InvalidSarif))
        case Some(es) => Ok(ByAlertNumber(SortByRank(LexGroup(es))))
  }

  /** `analyseResult(results)`: the rule-view grouping of a list of results,
      with no exception handling. */
  function AnalyseResultSpec(rs: seq<SarifResult>): Outcome<map<Option<string>, seq<Leaf>>> {
    match Filed(rs, RuleKeyOf)
    case None => Err(RuntimeFailure)
    case Some(es) => Ok(Group(es))
  }

  /* ---------------------------------------------------------------------
     The bucket-filling loops
     --------------------------------------------------------------------- */

  /** `analyseResult(results)`: one pass over the results, filing each leaf
      in a hash map. */
  method AnalyseResult(results: seq<SarifResult>) returns (out: Outcome<map<Option<string>, seq<Leaf>>>)
    ensures out == AnalyseResultSpec(results)
  {
    var m: map<Option<string>, seq<Leaf>> := map[];
    ghost var es: seq<(Option<string>, Leaf)> := [];
    for i := 0 to |results|
      invariant Filed([] + results[..i], RuleKeyOf) == Some(es)
      invariant m == Group(es)
    {
      var element := BuildLeaf(results[i]);
      if element.None? {
        FiledFails(results, results[i], RuleKeyOf);
        return Err(RuntimeFailure);
      }
      var key := RuleKey(results[i]);
      if key in m {
        m := m[key := m[key] + [element.value]];
      } else {
        m := m[key := [element.value]];
      }
      FiledStep([], results, i, RuleKeyOf, es, element.value);
      GroupStep(es, key, element.value);
      es := es + [(key, element.value)];
    }
    assert [] + results[..|results|] == results;
    return Ok(m);
  }

  /** The hash-map fill of the rule and location views: every result of
      every run, in order. None when `leaf` throws. */
  method FillHashMap<K(==)>(runs: seq<Run>, key: (SarifResult, Leaf) -> K) returns (out: Option<map<K, seq<Leaf>>>)
    ensures out.None? <==> Filed(AllResults(runs), key).None?
    ensures out.Some? ==> out.value == Group(Filed(AllResults(runs), key).value)
  {
    var m: map<K, seq<Leaf>> := map[];
    ghost var es: seq<(K, Leaf)> := [];
    for i := 0 to |runs|
      invariant Filed(AllResults(runs[..i]), key) == Some(es)
      invariant m == Group(es)
    {
      var rs := ResultsOf(runs[i]);
      ghost var done := AllResults(runs[..i]);
      assert done + rs[..0] == done;
      for j := 0 to |rs|
        invariant Filed(done + rs[..j], key) == Some(es)
        invariant m == Group(es)
      {
        var element := BuildLeaf(rs[j]);
        if element.None? {
          AllResultsContains(runs, i, j);
          FiledFails(AllResults(runs), rs[j], key);
          return None;
        }
        var k := key(rs[j], element.value);
        if k in m {
          m := m[k := m[k] + [element.value]];
        } else {
          m := m[k := [element.value]];
        }
        FiledStep(done, rs, j, key, es, element.value);
        GroupStep(es, k, element.value);
        es := es + [(k, element.value)];
      }
      assert runs[..i + 1][..i] == runs[..i];
      assert done + rs[..|rs|] == AllResults(runs[..i + 1]);
    }
    assert runs[..|runs|] == runs;
    return Some(m);
  }

  /** The TreeMap<String> fill of the alert-number view, before re-sorting.
      None when `leaf` throws. */
  method FillAlertTree(runs: seq<Run>) returns (out: Option<seq<Entry>>)
    ensures out.None? <==> Filed(AllResults(runs), AlertKeyOf).None?
    ensures out.Some? ==> out.value == LexGroup(Filed(AllResults(runs), AlertKeyOf).value)
  {
    var tree: seq<Entry> := [];
    ghost var es: seq<(string, Leaf)> := [];
    for i := 0 to |runs|
      invariant Filed(AllResults(runs[..i]), AlertKeyOf) == Some(es)
      invariant tree == LexGroup(es)
    {
      var rs := ResultsOf(runs[i]);
      ghost var done := AllResults(runs[..i]);
      assert done + rs[..0] == done;
      for j := 0 to |rs|
        invariant Filed(done + rs[..j], AlertKeyOf) == Some(es)
        invariant tree == LexGroup(es)
      {
        var element := BuildLeaf(rs[j]);
        if element.None? {
          AllResultsContains(runs, i, j);
          FiledFails(AllResults(runs), rs[j], AlertKeyOf);
          return None;
        }
        var k := AlertKey(element.value);
        tree := LexPut(tree, k, element.value);
        FiledStep(done, rs, j, AlertKeyOf, es, element.value);
        LexGroupStep(es, k, element.value);
        es := es + [(k, element.value)];
      }
      assert runs[..i + 1][..i] == runs[..i];
      assert done + rs[..|rs|] == AllResults(runs[..i + 1]);
    }
    assert runs[..|runs|] == runs;
    return Some(tree);
  }

  /** `analyseSarif(sarif, view)`. */
  method AnalyseSarif(doc: SarifLog, view: View) returns (out: Outcome<Grouping>)
    ensures out == Classify(doc, view)
  {
    if view == Rule {
      if doc.runs.None? {
        return Err(Raised(InvalidSarif));
      }
      var m := FillHashMap(doc.runs.value, RuleKeyOf);
      if m.None? {
        return Err(Raised(InvalidSarif));
      }
      return Ok(ByRule(m.value));
    } else if view == Location {
      if doc.runs.None? {
        return Err(Raised(InvalidSarif));
      }
      var m := FillHashMap(doc.runs.value, LocationKeyOf);
      if m.None? {
        return Err(Raised(InvalidSarif));
      }
      return Ok(ByLocation(m.value));
    } else if view == AlertNumber {
      if doc.runs.None? {
        return Err(Raised(InvalidSarif));
      }
      var tree := FillAlertTree(doc.runs.value);
      if tree.None? {
        return Err(Raised(InvalidSarif));
      }
      return Ok(ByAlertNumber(SortByRank(tree.value)));
    } else {
      return Err(Raised(InvalidView));
    }
  }

  /* ---------------------------------------------------------------------
     What the views promise
     --------------------------------------------------------------------- */

  /** The errors of analyseSarif: INVALID_VIEW exactly for a view other than
      the three; for one of the three, INVALID_SARIF exactly when the runs
      list is null or `leaf` throws on some result; nothing else. */
  lemma ClassifyErrors(doc: SarifLog, view: View)
    ensures Classify(doc, view) == Err(Raised(InvalidView)) <==> view !in AllViews
    ensures Classify(doc, view).Err? ==>
              Classify(doc, view).failure in {Raised(InvalidView), Raised(InvalidSarif)}
    ensures view in AllViews && doc.runs.Some? ==>
              (Classify(doc, view).Err? <==> exists r :: r in AllResults(doc.runs.value) && BuildLeaf(r).None?)
    ensures view in AllViews && doc.runs.None? ==> Classify(doc, view) == Err(Raised(InvalidSarif))
  {
    if doc.runs.Some? {
      var rs := AllResults(doc.runs.value);
      FiledSpec(rs, RuleKeyOf);
      FiledSpec(rs, LocationKeyOf);
      FiledSpec(rs, AlertKeyOf);
    }
  }

  /** Every view reads `locations[0]` through `leaf`, so one result without
      a location fails all three views, the rule view included. */
  lemma LocationlessFailsEveryView(doc: SarifLog, r: SarifResult, view: View)
    requires doc.runs.Some? && r in AllResults(doc.runs.value) && |r.locations| == 0
    requires view in AllViews
    ensures Classify(doc, view) == Err(Raised(InvalidSarif))
  {
    ClassifyErrors(doc, view);
  }

  /** Rule view: the buckets are the grouping (see Buckets.GroupSelects and
      Buckets.GroupFilesEach) of the filed leaves, the i-th leaf under the
      rule key of the i-th result: rule id, else correlation GUID, else
      message text. */
  lemma RuleViewBuckets(runs: seq<Run>, es: seq<(Option<string>, Leaf)>)
    requires Filed(AllResults(runs), RuleKeyOf) == Some(es)
    ensures Classify(SarifLog(Some(runs)), Rule) == Ok(ByRule(Group(es)))
    ensures |es| == |AllResults(runs)|
    ensures forall i :: 0 <= i < |es| ==> es[i].0 == RuleKey(AllResults(runs)[i])
  {
    RuleKeysOfFiled(AllResults(runs), es);
  }

  lemma RuleKeysOfFiled(rs: seq<SarifResult>, es: seq<(Option<string>, Leaf)>)
    requires Filed(rs, RuleKeyOf) == Some(es)
    ensures |es| == |rs|
    ensures forall i :: 0 <= i < |es| ==> es[i].0 == RuleKey(rs[i])
  {
    FiledSpec(rs, RuleKeyOf);
  }

  /** Location view: as the rule view, keyed by the URI of each result's
      first location. */
  lemma LocationViewBuckets(runs: seq<Run>, es: seq<(string, Leaf)>)
    requires Filed(AllResults(runs), LocationKeyOf) == Some(es)
    ensures Classify(SarifLog(Some(runs)), Location) == Ok(ByLocation(Group(es)))
    ensures |es| == |AllResults(runs)|
    ensures forall i :: 0 <= i < |es| ==>
              |AllResults(runs)[i].locations| > 0 && es[i].0 == AllResults(runs)[i].locations[0].uri
  {
    LocationKeysOfFiled(AllResults(runs), es);
  }

  lemma LocationKeysOfFiled(rs: seq<SarifResult>, es: seq<(string, Leaf)>)
    requires Filed(rs, LocationKeyOf) == Some(es)
    ensures |es| == |rs|
    ensures forall i :: 0 <= i < |es| ==> |rs[i].locations| > 0 && es[i].0 == rs[i].locations[0].uri
  {
    FiledSpec(rs, LocationKeyOf);
    forall i | 0 <= i < |es| ensures |rs[i].locations| > 0 && es[i].0 == rs[i].locations[0].uri {
      LeafFields(rs[i]);
    }
  }

  /** `analyseResult` groups like the rule view; it differs only in letting
      `leaf`'s exception through instead of raising INVALID_SARIF. */
  lemma RuleViewIsAnalyseResult(runs: seq<Run>)
    ensures Classify(SarifLog(Some(runs)), Rule) ==
      match AnalyseResultSpec(AllResults(runs))
      case Ok(m) => Ok(ByRule(m))
      case Err(_) => Err(Raised(InvalidSarif))
  {
  }

  /** Alert-number view: the TreeMap<String> fill holds exactly the buckets
      of the alert keys in natural key order; the result is ascending by
      sort value with one entry per sort value present, holding the least
      key of that sort value and the bucket of the last entry with it; a
      "Missing alert number" bucket comes first. */
  lemma AlertViewOrder(runs: seq<Run>, es: seq<(string, Leaf)>)
    requires Filed(AllResults(runs), AlertKeyOf) == Some(es)
    ensures Classify(SarifLog(Some(runs)), AlertNumber) == Ok(ByAlertNumber(SortByRank(LexGroup(es))))
    ensures var tree := LexGroup(es);
      var entries := SortByRank(tree);
      && ListsGroup(tree, es)
      && RankSorted(entries)
      && RanksOf(entries) == RanksOf(tree)
      && (forall r :: r in RanksOf(tree) ==>
            AtRank(entries, r) == Some((FirstKeyWithRank(tree, r).value, LastBucketWithRank(tree, r).value)))
      && (forall k :: k in KeysOf(tree) ==>
            && FirstKeyWithRank(tree, SortValue(k)).Some?
            && (FirstKeyWithRank(tree, SortValue(k)).value == k || LexLess(FirstKeyWithRank(tree, SortValue(k)).value, k)))
      && (MissingAlertNumber in KeysOf(tree) ==> SortValue(entries[0].0) == Numbers.MinInt32)
  {
    var tree := LexGroup(es);
    var entries := SortByRank(tree);
    LexGroupListsGroup(es);
    SortByRankSpec(tree);
    forall k | k in KeysOf(tree)
      ensures FirstKeyWithRank(tree, SortValue(k)).Some?
      ensures FirstKeyWithRank(tree, SortValue(k)).value == k || LexLess(FirstKeyWithRank(tree, SortValue(k)).value, k)
    {
      FirstKeyIsLeast(tree, SortValue(k), k);
    }
    if MissingAlertNumber in KeysOf(tree) {
      KeysHaveRanks(tree, MissingAlertNumber);
      MissingAlertNumberSortsFirst();
      MinRankFirst(entries);
    }
  }

  /* ---------------------------------------------------------------------
     Fetching the documents of a branch
     --------------------------------------------------------------------- */

  /** `models/Root.kt`: one analysis as listed by the code-scanning API; only
      its id and commit are read. */
  datatype Root = Root(id: int, commitSha: Option<string>)

  /** The ids of the analyses on commit `sha`, in list order. */
  function IdsOnCommit(analyses: seq<Root>, sha: Option<string>): (ids: seq<int>)
    ensures |ids| <= |analyses|
    ensures forall id :: id in ids <==> exists a :: a in analyses && a.commitSha == sha && a.id == id
    decreases |analyses|
  {
    if analyses == [] then []
    else
      var n := |analyses| - 1;
      assert analyses == analyses[..n] + [analyses[n]];
      IdsOnCommit(analyses[..n], sha) + (if analyses[n].commitSha == sha then [analyses[n].id] else [])
  }

  /** Selection keeps list order: it distributes over concatenation. */
  lemma {:induction false} IdsOnCommitConcat(a: seq<Root>, b: seq<Root>, sha: Option<string>)
    ensures IdsOnCommit(a + b, sha) == IdsOnCommit(a, sha) + IdsOnCommit(b, sha)
    decreases |b|
  {
    if b == [] {
      assert a + b == a;
    } else {
      var n := |b| - 1;
      assert (a + b)[..|a + b| - 1] == a + b[..n];
      IdsOnCommitConcat(a, b[..n], sha);
    }
  }

  /** `analysis.filter { it.commit_sha == analysis.first().commit_sha }.map { it.id }`:
      `first()` is only evaluated for an element, so an empty list selects
      nothing and raises nothing. */
  function SelectAnalysisIds(analyses: seq<Root>): seq<int> {
    if analyses == [] then [] else IdsOnCommit(analyses, analyses[0].commitSha)
  }

  /** The first analysis is always selected, first; the others are selected
      exactly when they share its commit. */
  lemma SelectAnalysisIdsSpec(analyses: seq<Root>)
    ensures analyses == [] ==> SelectAnalysisIds(analyses) == []
    ensures analyses != [] ==>
              && |SelectAnalysisIds(analyses)| > 0
              && SelectAnalysisIds(analyses)[0] == analyses[0].id
              && SelectAnalysisIds(analyses) ==
                   [analyses[0].id] + IdsOnCommit(analyses[1..], analyses[0].commitSha)
  {
    if analyses != [] {
      assert analyses == [analyses[0]] + analyses[1..];
      IdsOnCommitConcat([analyses[0]], analyses[1..], analyses[0].commitSha);
      assert [analyses[0]][..0] == [];
    }
  }

  /** `handleExceptions`: the four statuses the viewer names, and no error
      for any other. */
  function StatusError(status: int): (e: Option<SarifViewerError>)
    ensures e.Some? <==> status in {401, 403, 404, 422}
  {
    if status == 401 then Some(InvalidPat)
    else if status == 404 then Some(InvalidRepository)
    else if status == 422 then Some(InvalidBranch)
    else if status == 403 then Some(Unauthorized)
    else None
  }

  /** The status that raises an error, for the four errors that have one. */
  function ErrorStatus(e: SarifViewerError): Option<int> {
    match e
    case InvalidPat => Some(401)
    case InvalidRepository => Some(404)
    case InvalidBranch => Some(422)
    case Unauthorized => Some(403)
    case _ => None
  }

  /** Status and error determine each other. */
  lemma StatusErrorRoundTrip(status: int, e: SarifViewerError)
    ensures StatusError(status) == Some(e) <==> ErrorStatus(e) == Some(status)
  {
  }

  /** A response as the viewer sees it: its status and its parsed body. */
  datatype Response<T> = Response(status: int, body: T)

  /** `handleExceptions(connection)` then `connection.inputStream`: a named
      status raises its error; any other status of 400 or more makes the
      stream throw an IOException; otherwise the body is read. */
  function Receive<T>(resp: Response<T>): (o: Outcome<T>)
    ensures o.Ok? <==> resp.status < 400
    ensures o.Ok? ==> o.value == resp.body
    ensures o.Err? ==> o.failure == if StatusError(resp.status).Some? then Raised(StatusError(resp.status).value) else RuntimeFailure
  {
    match StatusError(resp.status)
    case Some(e) => Err(Raised(e))
    case None => if resp.status >= 400 then Err(RuntimeFailure) else Ok(resp.body)
  }

  /** The repository under the API base: "<apiBase>/repos/<repo>/". */
  function RepoUrl(apiBase: string, repo: string): string {
    apiBase + "/repos/" + repo + "/"
  }

  const AnalysesPath: string := "code-scanning/analyses"

  /** The analyses of a branch. */
  function AnalysesUrl(apiBase: string, repo: string, branch: string): string {
    RepoUrl(apiBase, repo) + AnalysesPath + "?ref=" + branch
  }

  /** One analysis, requested as SARIF. */
  function AnalysisUrl(apiBase: string, repo: string, id: int): string {
    RepoUrl(apiBase, repo) + AnalysesPath + "/" + Numbers.ToDecimal(id)
  }

  /** The open pull requests whose head is `<owner>:<branch>`, the owner
      being the text of the repository name before its first '/'. */
  function PullsUrl(apiBase: string, repo: string, branch: string): string {
    RepoUrl(apiBase, repo) + "pulls?state=open&head=" + Before(repo, '/') + ":" + branch
  }

  /** The analyses list is requested under the repository, for the
      branch. */
  lemma AnalysesUrlTargetsRepository(apiBase: string, repo: string, branch: string)
    ensures StartsWith(AnalysesUrl(apiBase, repo, branch), RepoUrl(apiBase, repo))
    ensures EndsWith(AnalysesUrl(apiBase, repo, branch), "?ref=" + branch)
  {
    PrefixAndSuffix(RepoUrl(apiBase, repo), AnalysesPath, "?ref=", branch);
  }

  /** Each analysis is requested under the repository, by its id. */
  lemma AnalysisUrlTargetsRepository(apiBase: string, repo: string, id: int)
    ensures StartsWith(AnalysisUrl(apiBase, repo, id), RepoUrl(apiBase, repo))
    ensures EndsWith(AnalysisUrl(apiBase, repo, id), "/" + Numbers.ToDecimal(id))
  {
    PrefixAndSuffix(RepoUrl(apiBase, repo), AnalysesPath, "/", Numbers.ToDecimal(id));
  }

  /** The pull-request query goes to the repository and names the owner
      and the branch as the head. */
  lemma PullsUrlTargetsRepository(apiBase: string, repo: string, branch: string)
    ensures StartsWith(PullsUrl(apiBase, repo, branch), RepoUrl(apiBase, repo))
    ensures StartsWith(PullsUrl(apiBase, repo, branch), RepoUrl(apiBase, repo) + "pulls?state=open&head=" + Before(repo, '/'))
    ensures EndsWith(PullsUrl(apiBase, repo, branch), ":" + branch)
  {
    var query := RepoUrl(apiBase, repo) + "pulls?state=open&head=";
    PrefixAndSuffix(query, Before(repo, '/'), ":", branch);
    PrefixOfConcat(query + Before(repo, '/'), ":" + branch);
    PrefixOfConcat(RepoUrl(apiBase, repo), "pulls?state=open&head=");
    StartsWithTrans(PullsUrl(apiBase, repo, branch), query, RepoUrl(apiBase, repo));
  }

  /** The request of one analysis as SARIF, answered by `fetch`. */
  function FetchAnalysis(apiBase: string, repo: string, fetch: string -> Response<SarifLog>): int -> Outcome<SarifLog> {
    id => Receive(fetch(AnalysisUrl(apiBase, repo, id)))
  }

  /** `ids.map { id -> get(id) }` where `get` may throw: the first failure
      ends the mapping. */
  function FetchEach(ids: seq<int>, get: int -> Outcome<SarifLog>): Outcome<seq<SarifLog>>
    decreases |ids|
  {
    if ids == [] then Ok([])
    else
      match get(ids[0])
      case Err(f) => Err(f)
      case Ok(doc) =>
        match FetchEach(ids[1..], get)
        case Err(f) => Err(f)
        case Ok(docs) => Ok([doc] + docs)
  }

  /** The analyses, one request each, in the order of the ids. */
  function FetchDocuments(apiBase: string, repo: string, ids: seq<int>, fetch: string -> Response<SarifLog>)
    : Outcome<seq<SarifLog>>
  {
    FetchEach(ids, FetchAnalysis(apiBase, repo, fetch))
  }

  /** On success the i-th document is the answer for the i-th id; a
      failure is the failure of some id's request. */
  lemma {:induction false} FetchEachSpec(ids: seq<int>, get: int -> Outcome<SarifLog>)
    ensures FetchEach(ids, get).Ok? ==> |FetchEach(ids, get).value| == |ids|
    ensures FetchEach(ids, get).Ok? ==> forall i :: 0 <= i < |ids| ==> get(ids[i]) == Ok(FetchEach(ids, get).value[i])
    ensures FetchEach(ids, get).Err? ==> exists i :: 0 <= i < |ids| && get(ids[i]) == Err(FetchEach(ids, get).failure)
    decreases |ids|
  {
    if ids != [] {
      var rest := FetchEach(ids[1..], get);
      FetchEachSpec(ids[1..], get);
      var o := FetchEach(ids, get);
      if o.Ok? {
        forall i | 0 <= i < |ids| ensures get(ids[i]) == Ok(o.value[i]) {
          if i > 0 {
            assert ids[i] == ids[1..][i - 1];
          }
        }
      } else if get(ids[0]).Ok? {
        var i :| 0 <= i < |ids[1..]| && get(ids[1..][i]) == Err(rest.failure);
        assert ids[i + 1] == ids[1..][i];
      }
    }
  }

  /** `getSarifFromGitHub(github, repositoryFullName, branchName)`: list the
      analyses of the branch, keep those of the newest commit, fetch each.
      `list` and `fetch` stand for the HTTP requests and JSON parsing. */
  function GetSarifFromGitHub(apiBase: string, repo: string, branch: string,
                              list: string -> Response<seq<Root>>, fetch: string -> Response<SarifLog>)
    : Outcome<seq<SarifLog>>
  {
    match Receive(list(AnalysesUrl(apiBase, repo, branch)))
    case Err(f) => Err(f)
    case Ok(analyses) => FetchDocuments(apiBase, repo, SelectAnalysisIds(analyses), fetch)
  }

  /** A branch without analyses yields no documents and no error. */
  lemma NoAnalysesNoDocuments(apiBase: string, repo: string, branch: string,
                              list: string -> Response<seq<Root>>, fetch: string -> Response<SarifLog>)
    requires list(AnalysesUrl(apiBase, repo, branch)) == Response(200, [])
    ensures GetSarifFromGitHub(apiBase, repo, branch, list, fetch) == Ok([])
  {
  }
}
