/** The stock-picker client (`src/services/stockPickerRunService.ts`): the
    run URL, the request payload, and the mapping of the engine's response
    onto an `EngineResult`. The HTTP call, the run id and the session store
    are outside the model; the decoded JSON response is an input. */
module StockPicker {
  import opened Wrappers
  import opened Models
  import Text
  import Decimal

  // ----- run URL -----

  const RunSuffix: string := "/stock-picker/run"

  const ProxyBaseUrl: string := "http://internet-facing-863698164.eu-north-1.elb.amazonaws.com/api/stock-picker/run"

  /** `resolveRunUrl`: a URL already ending in the run path is kept; anything
      else loses one trailing slash (the regular expression `/\/$/`) and gets
      the run path appended. */
  function ResolveRunUrl(baseOrUrl: string): (r: string)
    ensures Text.EndsWith(r, RunSuffix)
    ensures Text.EndsWith(baseOrUrl, RunSuffix) ==> r == baseOrUrl
    ensures !Text.EndsWith(baseOrUrl, RunSuffix) ==>
      exists stem :: r == stem + RunSuffix && (baseOrUrl == stem || baseOrUrl == stem + "/")
    ensures !Text.EndsWith(baseOrUrl, RunSuffix) && |baseOrUrl| > 0 && baseOrUrl[|baseOrUrl| - 1] == '/' ==>
      r == baseOrUrl[..|baseOrUrl| - 1] + RunSuffix
  {
    if Text.EndsWith(baseOrUrl, RunSuffix) then baseOrUrl
    else
      var stem := if |baseOrUrl| > 0 && baseOrUrl[|baseOrUrl| - 1] == '/' then baseOrUrl[..|baseOrUrl| - 1] else baseOrUrl;
      assert baseOrUrl == stem || baseOrUrl == stem + "/";
      var r := stem + RunSuffix;
      assert r[|r| - |RunSuffix|..] == RunSuffix;
      r
  }

  /** Resolving twice is resolving once. */
  lemma ResolveRunUrlIdempotent(baseOrUrl: string)
    ensures ResolveRunUrl(ResolveRunUrl(baseOrUrl)) == ResolveRunUrl(baseOrUrl)
  {
  }

  /** The configured proxy base already names the run endpoint, so the URL
      the client posts to is the base itself. */
  lemma RunUrlIsProxyBase()
    ensures ResolveRunUrl(ProxyBaseUrl) == ProxyBaseUrl
  {
    assert ProxyBaseUrl[|ProxyBaseUrl| - |RunSuffix|..] == RunSuffix;
  }

  // ----- strategies and actions -----

  /** The lower-case name the engine uses for a strategy. */
  function StrategyWireName(s: Strategy): string {
    match s
    case Growth => "growth"
    case Hold => "hold"
    case Diversify => "diversify"
  }

  /** The lower-case name the engine uses for an action. */
  function ActionWireName(a: Action): string {
    match a
    case InvestNow => "invest_now"
    case PartialDeploy => "partial_deploy"
    case Wait => "wait"
    case Rebalance => "rebalance"
  }

  /** `mapStrategy`: case-insensitive; anything unrecognised is HOLD. */
  function MapStrategy(value: string): (r: Strategy)
    ensures r == Growth <==> Text.Lower(value) == "growth"
    ensures r == Diversify <==> Text.Lower(value) == "diversify"
    ensures r == Hold <==> Text.Lower(value) != "growth" && Text.Lower(value) != "diversify"
  {
    var v := Text.Lower(value);
    if v == "growth" then Growth
    else if v == "diversify" then Diversify
    else Hold
  }

  /** `mapAction`: a missing decision reads as the empty string;
      case-insensitive; anything unrecognised is WAIT. */
  function MapAction(value: Option<string>): (r: Action)
    ensures value.None? ==> r == Wait
    ensures value.Some? ==> (r == InvestNow <==> Text.Lower(value.value) == "invest_now")
    ensures value.Some? ==> (r == PartialDeploy <==> Text.Lower(value.value) == "partial_deploy")
    ensures value.Some? ==> (r == Rebalance <==> Text.Lower(value.value) == "rebalance")
  {
    var v := Text.Lower(value.GetOr(""));
    if v == "invest_now" then InvestNow
    else if v == "partial_deploy" then PartialDeploy
    else if v == "rebalance" then Rebalance
    else Wait
  }

  /** Every strategy's wire name maps back to it. */
  lemma MapStrategyRoundTrip(s: Strategy)
    ensures MapStrategy(StrategyWireName(s)) == s
  {
    var w := StrategyWireName(s);
    assert Text.Lower(w) == w;
  }

  /** Every action's wire name maps back to it (`wait` by falling through). */
  lemma MapActionRoundTrip(a: Action)
    ensures MapAction(Some(ActionWireName(a))) == a
  {
    var w := ActionWireName(a);
    assert Text.Lower(w) == w;
  }

  /** The mappings ignore case: an upper-cased name maps like the original. */
  lemma MappingsIgnoreCase(value: string)
    ensures MapStrategy(Text.Upper(value)) == MapStrategy(value)
    ensures MapAction(Some(Text.Upper(value))) == MapAction(Some(value))
  {
    Text.LowerOfUpper(value);
  }

  // ----- allocation -----

  /** The engine's allocation record; a missing key is `None`. */
  datatype RawAllocation = RawAllocation(equities: Option<real>, defensive: Option<real>, cash: Option<real>)

  /** `Number(x || 0)` for a numeric field: missing (and 0) give 0. */
  function NumberOr0(x: Option<real>): (r: real)
    ensures x.None? ==> r == 0.0
    ensures x.Some? ==> r == x.value
  {
    x.GetOr(0.0)
  }

  /** `mapAllocation`: no record gives all zeros, a missing key gives 0,
      a present key its value. */
  function MapAllocation(allocation: Option<RawAllocation>): (r: AllocationBreakdown)
    ensures allocation.None? ==> r == AllocationBreakdown(0.0, 0.0, 0.0)
    ensures allocation.Some? ==>
      && (allocation.value.equities.None? ==> r.equities == 0.0)
      && (allocation.value.defensive.None? ==> r.defensive == 0.0)
      && (allocation.value.cash.None? ==> r.cash == 0.0)
      && (allocation.value.equities.Some? ==> r.equities == allocation.value.equities.value)
      && (allocation.value.defensive.Some? ==> r.defensive == allocation.value.defensive.value)
      && (allocation.value.cash.Some? ==> r.cash == allocation.value.cash.value)
  {
    match allocation
    case None => AllocationBreakdown(0.0, 0.0, 0.0)
    case Some(a) => AllocationBreakdown(NumberOr0(a.equities), NumberOr0(a.defensive), NumberOr0(a.cash))
  }

  /** The engine's record of a breakdown. */
  function AllocationToRaw(a: AllocationBreakdown): RawAllocation {
    RawAllocation(Some(a.equities), Some(a.defensive), Some(a.cash))
  }

  /** A breakdown survives the trip through the engine's record. */
  lemma MapAllocationRoundTrip(a: AllocationBreakdown)
    ensures MapAllocation(Some(AllocationToRaw(a))) == a
  {
  }

  // ----- rule trace -----

  /** One entry of the engine's `rule_trace`; absent fields are `None`. */
  datatype RawRule = RawRule(
    ruleId: Option<string>,
    name: Option<string>,
    weight: Option<real>,
    direction: Option<string>,
    inputsUsed: Option<map<string, InputValue>>,
    rationaleKey: Option<string>)

  /** JavaScript `x || fallback` for a string field: a missing or empty
      string falls back. */
  function StringOr(x: Option<string>, fallback: string): (r: string)
    ensures x.Some? && x.value != "" ==> r == x.value
    ensures x.None? || x.value == "" ==> r == fallback
  {
    if x.Some? && x.value != "" then x.value else fallback
  }

  /** The id given to the rule at 0-based position `index` when the engine
      sent none: `rule_1`, `rule_2`, ... */
  function DefaultRuleId(index: nat): (r: string)
    ensures |r| > 5 && r[..5] == "rule_"
    ensures Decimal.AllDigits(r[5..]) && Decimal.DigitsValue(r[5..]) == index + 1
  {
    var r := "rule_" + Decimal.NatToString(index + 1);
    assert r[5..] == Decimal.NatToString(index + 1);
    Decimal.DigitsValueOfNatToString(index + 1);
    r
  }

  /** The mapping of one trace entry at position `index`. */
  function MapRule(item: RawRule, index: nat): (r: TriggeredRule)
    ensures r.ruleId != "" && r.name != "" && r.direction != "" && r.rationaleKey != ""
    ensures item.ruleId.None? ==> r.ruleId == DefaultRuleId(index)
    ensures item.name.None? && item.rationaleKey.None? ==> r.name == "Rule"
  {
    TriggeredRule(
      StringOr(item.ruleId, DefaultRuleId(index)),
      StringOr(item.name, StringOr(item.rationaleKey, "Rule")),
      NumberOr0(item.weight),
      StringOr(item.direction, "neutral"),
      item.inputsUsed.GetOr(map[]),
      StringOr(item.rationaleKey, "external_engine"))
  }

  /** `mapRuleTrace`: one rule per entry, in order, each mapped with its
      position. */
  function MapRuleTrace(trace: seq<RawRule>): (r: seq<TriggeredRule>)
    ensures |r| == |trace|
    ensures forall i :: 0 <= i < |trace| ==> r[i] == MapRule(trace[i], i)
  {
    seq(|trace|, i requires 0 <= i < |trace| => MapRule(trace[i], i))
  }

  /** The engine's record of a rule. */
  function RuleToRaw(t: TriggeredRule): RawRule {
    RawRule(Some(t.ruleId), Some(t.name), Some(t.weight), Some(t.direction), Some(t.inputsUsed), Some(t.rationaleKey))
  }

  /** A rule whose string fields are all non-empty survives the trip through
      the engine's record, at any position. */
  lemma MapRuleRoundTrip(t: TriggeredRule, index: nat)
    requires t.ruleId != "" && t.name != "" && t.direction != "" && t.rationaleKey != ""
    ensures MapRule(RuleToRaw(t), index) == t
  {
  }

  /** The fallbacks of an entry with nothing in it. */
  lemma MapRuleDefaults(index: nat)
    ensures MapRule(RawRule(None, None, None, None, None, None), index)
      == TriggeredRule(DefaultRuleId(index), "Rule", 0.0, "neutral", map[], "external_engine")
  {
  }

  /** A rule without a name is named after its rationale key. */
  lemma MapRuleNameFallsBackToRationale(item: RawRule, index: nat)
    requires item.name.None? && item.rationaleKey.Some? && item.rationaleKey.value != ""
    ensures MapRule(item, index).name == item.rationaleKey.value
    ensures MapRule(item, index).rationaleKey == item.rationaleKey.value
  {
  }

  /** Default ids at different positions differ. */
  lemma DefaultRuleIdsDistinct(i: nat, j: nat)
    requires i != j
    ensures DefaultRuleId(i) != DefaultRuleId(j)
  {
    assert Decimal.DigitsValue(DefaultRuleId(i)[5..]) != Decimal.DigitsValue(DefaultRuleId(j)[5..]);
  }

  /** A trace with no ids gets pairwise distinct ids. */
  lemma MapRuleTraceDefaultIdsDistinct(trace: seq<RawRule>)
    requires forall i :: 0 <= i < |trace| ==> trace[i].ruleId.None?
    ensures forall i, j :: 0 <= i < j < |trace| ==> MapRuleTrace(trace)[i].ruleId != MapRuleTrace(trace)[j].ruleId
  {
    forall i, j | 0 <= i < j < |trace|
      ensures MapRuleTrace(trace)[i].ruleId != MapRuleTrace(trace)[j].ruleId
    {
      DefaultRuleIdsDistinct(i, j);
    }
  }

  // ----- response -----

  /** One suggested asset of a shortlist bucket. */
  datatype SuggestedStock = SuggestedStock(ticker: string, allocation: real)

  /** A bucket of the engine's shortlist. */
  datatype ShortlistBucket = ShortlistBucket(suggestedStocks: seq<SuggestedStock>)

  /** One named strategy result of the engine's response. */
  datatype StrategyResult = StrategyResult(
    requestId: string,
    strategy: string,
    decision: Option<string>,
    confidence: Option<real>,
    allocation: Option<RawAllocation>,
    shortlist: seq<ShortlistBucket>,
    ruleTrace: seq<RawRule>)

  /** The response: the named results in the order `Object.values` lists
      them. */
  datatype RunResponse = RunResponse(results: seq<(string, StrategyResult)>)

  const NoResultMessage: string := "Stock picker response did not include any strategy result"

  /** `firstResult`: the first listed result; an empty map is an error. */
  function FirstResult(response: RunResponse): (r: Result<StrategyResult, string>)
    ensures r.Failure? <==> |response.results| == 0
    ensures r.Failure? ==> r.error == NoResultMessage
    ensures r.Success? ==> r.value == response.results[0].1
  {
    if |response.results| == 0 then Failure(NoResultMessage) else Success(response.results[0].1)
  }

  /** The summary line of a mapped result. */
  function Summary(requestId: string, shortlisted: nat): (r: string)
    ensures Text.Contains(r, requestId)
    ensures Text.Contains(r, Decimal.NatToString(shortlisted))
  {
    var count := Decimal.NatToString(shortlisted);
    var r := "Strategy request " + requestId + " completed with " + count + " shortlisted assets.";
    assert Text.OccursAt(r, requestId, 17);
    assert Text.OccursAt(r, count, 33 + |requestId|);
    r
  }

  /** `toEngineResult`: maps the first result; the amount is always 0, there
      are no invalidation conditions and no recession probability. */
  function ToEngineResult(response: RunResponse): (r: Result<EngineResult, string>)
    ensures r.Failure? <==> |response.results| == 0
    ensures r.Failure? ==> r.error == NoResultMessage
    ensures r.Success? ==>
      var s := response.results[0].1;
      && r.value.amount == 0.0
      && r.value.invalidatedIf == []
      && r.value.recessionProbability.None?
      && r.value.strategy == MapStrategy(s.strategy)
      && r.value.action == MapAction(s.decision)
      && r.value.allocation == MapAllocation(s.allocation)
      && r.value.confidence == NumberOr0(s.confidence)
      && r.value.triggeredRules == MapRuleTrace(s.ruleTrace)
      && r.value.explanationSummary == Summary(s.requestId, |s.shortlist|)
  {
    var s :- FirstResult(response);
    Success(EngineResult(
      MapStrategy(s.strategy),
      MapAction(s.decision),
      0.0,
      MapAllocation(s.allocation),
      NumberOr0(s.confidence),
      [],
      Summary(s.requestId, |s.shortlist|),
      MapRuleTrace(s.ruleTrace),
      None))
  }

  /** The engine's record of a result: wire names, every field present. */
  function ResultToRaw(e: EngineResult, requestId: string, shortlist: seq<ShortlistBucket>): StrategyResult {
    StrategyResult(requestId, StrategyWireName(e.strategy), Some(ActionWireName(e.action)), Some(e.confidence),
      Some(AllocationToRaw(e.allocation)), shortlist,
      seq(|e.triggeredRules|, i requires 0 <= i < |e.triggeredRules| => RuleToRaw(e.triggeredRules[i])))
  }

  /** An engine result of the shape `toEngineResult` produces (no amount,
      no invalidation conditions, no recession probability, its own summary
      line, rules with non-empty strings) survives the trip through the
      engine's record, whatever the result's name. */
  lemma ToEngineResultRoundTrip(e: EngineResult, requestId: string, shortlist: seq<ShortlistBucket>, name: string)
    requires e.amount == 0.0 && e.invalidatedIf == [] && e.recessionProbability.None?
    requires e.explanationSummary == Summary(requestId, |shortlist|)
    requires forall t :: t in e.triggeredRules ==> t.ruleId != "" && t.name != "" && t.direction != "" && t.rationaleKey != ""
    ensures ToEngineResult(RunResponse([(name, ResultToRaw(e, requestId, shortlist))])) == Success(e)
  {
    var raw := ResultToRaw(e, requestId, shortlist);
    MapStrategyRoundTrip(e.strategy);
    MapActionRoundTrip(e.action);
    MapAllocationRoundTrip(e.allocation);
    forall i | 0 <= i < |e.triggeredRules|
      ensures MapRuleTrace(raw.ruleTrace)[i] == e.triggeredRules[i]
    {
      assert e.triggeredRules[i] in e.triggeredRules;
      MapRuleRoundTrip(e.triggeredRules[i], i);
    }
    assert MapRuleTrace(raw.ruleTrace) == e.triggeredRules;
    assert FirstResult(RunResponse([(name, raw)])) == Success(raw);
  }

  // ----- payload -----

  /** `getStrategyFromRiskTolerance`: growth from 67, diversify from 34,
      hold below. */
  function StrategyFromRiskTolerance(riskTolerance: real): (r: Strategy)
    ensures r == Growth <==> riskTolerance >= 67.0
    ensures r == Diversify <==> 34.0 <= riskTolerance < 67.0
    ensures r == Hold <==> riskTolerance < 34.0
  {
    if riskTolerance >= 67.0 then Growth
    else if riskTolerance >= 34.0 then Diversify
    else Hold
  }

  /** Strategies from the most to the least cautious. */
  function Boldness(s: Strategy): nat {
    match s
    case Hold => 0
    case Diversify => 1
    case Growth => 2
  }

  /** A higher risk tolerance never gives a more cautious strategy. */
  lemma StrategyMonotone(a: real, b: real)
    requires a <= b
    ensures Boldness(StrategyFromRiskTolerance(a)) <= Boldness(StrategyFromRiskTolerance(b))
  {
  }

  /** The strategy sent to the engine, read back by `mapStrategy`, is the
      strategy chosen. */
  lemma PayloadStrategyRoundTrip(riskTolerance: real)
    ensures MapStrategy(StrategyWireName(StrategyFromRiskTolerance(riskTolerance))) == StrategyFromRiskTolerance(riskTolerance)
  {
    MapStrategyRoundTrip(StrategyFromRiskTolerance(riskTolerance));
  }

  datatype PayloadPosition = PayloadPosition(ticker: string, quantity: real, avgCost: real, costCurrency: string)

  datatype Payload = Payload(runId: string, strategy: Strategy, cash: real, positions: seq<PayloadPosition>)

  /** `buildPayload`; `runId` stands for the random UUID. */
  function BuildPayload(runId: string, riskTolerance: real, cash: real, positions: seq<Position>, currency: string): (r: Payload)
    ensures r.runId == runId && r.cash == cash
    ensures r.strategy == StrategyFromRiskTolerance(riskTolerance)
    ensures |r.positions| == |positions|
    ensures forall i :: 0 <= i < |positions| ==>
      && r.positions[i].ticker == positions[i].ticker
      && r.positions[i].quantity == positions[i].quantity
      && r.positions[i].avgCost == positions[i].avgCost.GetOr(0.0)
      && r.positions[i].costCurrency == currency
  {
    Payload(runId, StrategyFromRiskTolerance(riskTolerance), cash,
      seq(|positions|, i requires 0 <= i < |positions| =>
        PayloadPosition(positions[i].ticker, positions[i].quantity, positions[i].avgCost.GetOr(0.0), currency)))
  }

  /** The position a payload entry describes. */
  function PayloadToPosition(p: PayloadPosition): Position {
    Position(p.ticker, p.quantity, Some(p.avgCost))
  }

  /** Positions whose cost is known are recovered from the payload exactly;
      the others come back with cost 0. */
  lemma BuildPayloadRecoversPositions(runId: string, riskTolerance: real, cash: real, positions: seq<Position>, currency: string)
    ensures
      var p := BuildPayload(runId, riskTolerance, cash, positions, currency);
      forall i :: 0 <= i < |positions| ==>
        PayloadToPosition(p.positions[i]) == (if positions[i].avgCost.Some? then positions[i] else positions[i].(avgCost := Some(0.0)))
  {
  }
}
