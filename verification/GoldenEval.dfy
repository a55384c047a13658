/** Scoring answers against a golden dataset (tools/poc-parser/src/eval-core.ts). The normalisation of
    texts (diacritics, case, outer space) is a parameter. */
module GoldenEval {
  import opened Sequences
  import opened NumberText
  import opened AuditJson

  datatype MetricName = Intent | Field | Sku | Quantity | Dealer | Policy | Total | AutoConfirm

  datatype ExpectedItem = ExpectedItem(sku: Option<string>, skuRaw: Option<string>, quantity: Option<Number>)

  /** `expected.order` left out is an order of which nothing is expected. */
  datatype GoldenCase = GoldenCase(
    text: string,
    intent: string,
    dealerName: Option<string>,
    policy: Option<string>,
    autoConfirmEligible: Option<bool>,
    orderType: Option<string>,
    grandTotal: Option<Number>,
    itemsSubtotal: Option<Number>,
    items: seq<ExpectedItem>)

  /** An answer; `Foreign` stands for a part that is missing. */
  datatype OrderViewLike = OrderViewLike(
    intent: Option<string>, status: Option<string>, dealerName: Option<string>, parsed: Value, priced: Value)

  type Normalize = string -> string

  // ----------------------------------------------------------------------------------------
  // Extracting
  // ----------------------------------------------------------------------------------------

  function Lookup(entries: seq<Entry>, key: string): Value {
    if entries == [] then Foreign
    else if entries[0].key == key then entries[0].value
    else Lookup(entries[1..], key)
  }

  function Property(value: Value, key: string): Value {
    if value.Record? then Lookup(value.entries, key) else Foreign
  }

  function ExtractString(value: Value, key: string): Value {
    if Property(value, key).Text? then Property(value, key) else Foreign
  }

  function ExtractNumber(value: Value, key: string): Value {
    var raw := Property(value, key);
    if raw.Num? && (raw.number.Finite? || raw.number.Zero?) then raw else Foreign
  }

  function ExtractArray(value: Value, key: string): seq<Value> {
    if Property(value, key).Array? then Property(value, key).items else []
  }

  /** The lines of the priced order or, if there are none, the items of the parsed one. */
  function ExtractItems(view: OrderViewLike): seq<Value> {
    var lines := ExtractArray(view.priced, "lines");
    if |lines| > 0 then lines else ExtractArray(view.parsed, "items")
  }

  function Or(value: Value, otherwise: Value): Value {
    if value.Foreign? then otherwise else value
  }

  function ExtractPolicy(priced: Value): Value {
    Or(ExtractString(priced, "policy"), Or(ExtractString(priced, "defaultPolicy"), ExtractString(priced, "policyType")))
  }

  function TextOf(text: Option<string>): Value {
    match text case None => Foreign case Some(s) => Text(s)
  }

  function NumOf(number: Option<Number>): Value {
    match number case None => Foreign case Some(x) => Num(x)
  }

  function BoolOf(truth: Option<bool>): Value {
    match truth case None => Foreign case Some(b) => Bool(b)
  }

  function Normalized(normalize: Normalize, text: Option<string>): Value {
    match text case None => Foreign case Some(s) => Text(normalize(s))
  }

  predicate Equivalent(normalize: Normalize, expected: Value, got: Value) {
    if expected.Text? && got.Text? then normalize(expected.text) == normalize(got.text) else expected == got
  }

  // ----------------------------------------------------------------------------------------
  // What is compared
  // ----------------------------------------------------------------------------------------

  datatype Check = Check(text: string, metric: MetricName, expected: Value, got: Value)

  /** A check and the case it belongs to: what a mismatch reports. */
  datatype Recorded = Recorded(index: nat, check: Check)

  function Numbered(index: nat, checks: seq<Check>): (records: seq<Recorded>)
    ensures |records| == |checks|
    ensures forall i :: 0 <= i < |checks| ==> records[i] == Recorded(index, checks[i])
  {
    seq(|checks|, i requires 0 <= i < |checks| => Recorded(index, checks[i]))
  }

  /** A check is made only of what is expected. */
  function Asked(text: string, metric: MetricName, expected: Value, got: Value): seq<Check> {
    if expected.Foreign? then [] else [Check(text, metric, expected, got)]
  }

  function ItemChecks(text: string, expected: ExpectedItem, actual: Value): seq<Check> {
    Asked(text, Sku, TextOf(expected.sku), ExtractString(actual, "sku"))
    + Asked(text, Sku, TextOf(expected.skuRaw), ExtractString(actual, "skuRaw"))
    + Asked(text, Quantity, NumOf(expected.quantity), ExtractNumber(actual, "quantity"))
  }

  function ItemAt(items: seq<Value>, k: nat): Value {
    if k < |items| then items[k] else Foreign
  }

  /** The checks of the first `n` expected items. */
  function ItemsChecks(c: GoldenCase, actual: seq<Value>, n: nat): seq<Check>
    requires n <= |c.items|
  {
    if n == 0 then [] else ItemsChecks(c, actual, n - 1) + ItemChecks(c.text, c.items[n - 1], ItemAt(actual, n - 1))
  }

  function OrderChecks(c: GoldenCase, view: OrderViewLike): seq<Check> {
    Asked(c.text, Field, TextOf(c.orderType), ExtractString(view.parsed, "orderType"))
    + Asked(c.text, Total, NumOf(c.grandTotal), ExtractNumber(view.priced, "grandTotal"))
    + Asked(c.text, Total, NumOf(c.itemsSubtotal), ExtractNumber(view.priced, "itemsSubtotal"))
  }

  function TurnChecks(normalize: Normalize, c: GoldenCase, view: OrderViewLike): seq<Check> {
    Asked(c.text, Intent, Text(c.intent), TextOf(view.intent))
    + Asked(c.text, Dealer, Normalized(normalize, c.dealerName), Normalized(normalize, view.dealerName))
    + Asked(c.text, Policy, TextOf(c.policy), ExtractPolicy(view.priced))
    + Asked(c.text, AutoConfirm, BoolOf(c.autoConfirmEligible), Bool(view.status == Some("sent")))
  }

  function CaseChecks(normalize: Normalize, c: GoldenCase, view: OrderViewLike): seq<Check> {
    TurnChecks(normalize, c, view) + OrderChecks(c, view) + ItemsChecks(c, ExtractItems(view), |c.items|)
  }

  /** The records of each pair of case and answer. */
  function Blocks(normalize: Normalize, cases: seq<GoldenCase>, views: seq<OrderViewLike>): (blocks: seq<seq<Recorded>>)
    requires |cases| == |views|
    ensures |blocks| == |cases|
    ensures forall i :: 0 <= i < |cases| ==> blocks[i] == Numbered(i, CaseChecks(normalize, cases[i], views[i]))
  {
    seq(|cases|, i requires 0 <= i < |cases| => Numbered(i, CaseChecks(normalize, cases[i], views[i])))
  }

  function AllChecks(normalize: Normalize, cases: seq<GoldenCase>, views: seq<OrderViewLike>): seq<Recorded>
    requires |cases| == |views|
  {
    Flatten(Blocks(normalize, cases, views))
  }

  // ----------------------------------------------------------------------------------------
  // Counting
  // ----------------------------------------------------------------------------------------

  datatype Count = Count(ok: nat, total: nat)

  type Counts = map<MetricName, Count>

  predicate Holds(normalize: Normalize, check: Check) {
    Equivalent(normalize, check.expected, check.got)
  }

  function Of(metric: MetricName): Recorded -> bool {
    (r: Recorded) => r.check.metric == metric
  }

  function OkOf(normalize: Normalize, metric: MetricName): Recorded -> bool {
    (r: Recorded) => r.check.metric == metric && Holds(normalize, r.check)
  }

  function Fails(normalize: Normalize): Recorded -> bool {
    (r: Recorded) => !Holds(normalize, r.check)
  }

  function CountOf(normalize: Normalize, log: seq<Recorded>, metric: MetricName): Count {
    Count(|Filter(OkOf(normalize, metric), log)|, |Filter(Of(metric), log)|)
  }

  function RatioOf(count: Count): real {
    if count.total == 0 then 1.0 else count.ok as real / count.total as real
  }

  function CountIn(counts: Counts, metric: MetricName): Count {
    if metric in counts then counts[metric] else Count(0, 0)
  }

  /** The counter agrees with the checks made so far. */
  ghost predicate Tallies(normalize: Normalize, counts: Counts, log: seq<Recorded>) {
    forall metric: MetricName :: CountIn(counts, metric) == CountOf(normalize, log, metric)
  }

  lemma CountNext(normalize: Normalize, log: seq<Recorded>, r: Recorded, metric: MetricName)
    ensures var before, after := CountOf(normalize, log, metric), CountOf(normalize, log + [r], metric);
      after == if r.check.metric != metric then before
               else Count(before.ok + (if Holds(normalize, r.check) then 1 else 0), before.total + 1)
  {
    FilterSnoc(OkOf(normalize, metric), log, r);
    FilterSnoc(Of(metric), log, r);
  }

  class MetricCounter {
    var counts: Counts

    constructor ()
      ensures counts == map[]
    {
      counts := map[];
    }

    method Add(metric: MetricName, ok: bool)
      modifies this
      ensures CountIn(counts, metric)
           == Count(CountIn(old(counts), metric).ok + (if ok then 1 else 0), CountIn(old(counts), metric).total + 1)
      ensures forall other :: other != metric ==> CountIn(counts, other) == CountIn(old(counts), other)
    {
      var current := if metric in counts then counts[metric] else Count(0, 0);
      counts := counts[metric := Count(current.ok + (if ok then 1 else 0), current.total + 1)];
    }

    function Ratio(metric: MetricName): real
      reads this
    {
      if metric !in counts || counts[metric].total == 0 then 1.0
      else counts[metric].ok as real / counts[metric].total as real
    }

    /** A ratio for each of the eight metrics. */
    function ToMetrics(): map<MetricName, real>
      reads this
    {
      map metric: MetricName | true :: Ratio(metric)
    }
  }

  /** The counter and the mismatches are those of the checks in `log`. */
  ghost predicate Scored(normalize: Normalize, counts: Counts, mismatches: seq<Recorded>, log: seq<Recorded>) {
    Tallies(normalize, counts, log) && mismatches == Filter(Fails(normalize), log)
  }

  /** `record`, under the `if` that guards every call of it. */
  method RecordIfAsked(normalize: Normalize, checks: MetricCounter, mismatches: seq<Recorded>, index: nat,
                       text: string, metric: MetricName, expected: Value, got: Value, ghost log: seq<Recorded>)
    returns (longer: seq<Recorded>)
    requires Scored(normalize, checks.counts, mismatches, log)
    modifies checks
    ensures Scored(normalize, checks.counts, longer, log + Numbered(index, Asked(text, metric, expected, got)))
  {
    longer := mismatches;
    if !expected.Foreign? {
      var ok := Equivalent(normalize, expected, got);
      ghost var r := Recorded(index, Check(text, metric, expected, got));
      assert Numbered(index, Asked(text, metric, expected, got)) == [r];
      ghost var before := checks.counts;
      checks.Add(metric, ok);
      if !ok { longer := mismatches + [Recorded(index, Check(text, metric, expected, got))]; }
      TalliesNext(normalize, before, checks.counts, log, r);
      FilterSnoc(Fails(normalize), log, r);
    } else {
      assert log + Numbered(index, Asked(text, metric, expected, got)) == log;
    }
  }

  lemma TalliesNext(normalize: Normalize, before: Counts, after: Counts, log: seq<Recorded>, r: Recorded)
    requires Tallies(normalize, before, log)
    requires CountIn(after, r.check.metric)
          == Count(CountIn(before, r.check.metric).ok + (if Holds(normalize, r.check) then 1 else 0),
                   CountIn(before, r.check.metric).total + 1)
    requires forall other :: other != r.check.metric ==> CountIn(after, other) == CountIn(before, other)
    ensures Tallies(normalize, after, log + [r])
  {
    forall metric: MetricName ensures CountIn(after, metric) == CountOf(normalize, log + [r], metric) {
      CountNext(normalize, log, r, metric);
    }
  }

  lemma NumberedAppend(index: nat, log: seq<Recorded>, s: seq<Check>, t: seq<Check>)
    ensures log + Numbered(index, s) + Numbered(index, t) == log + Numbered(index, s + t)
  {
  }

  method RecordTurn(normalize: Normalize, checks: MetricCounter, mismatches: seq<Recorded>, index: nat,
                    c: GoldenCase, view: OrderViewLike, ghost log: seq<Recorded>)
    returns (longer: seq<Recorded>)
    requires Scored(normalize, checks.counts, mismatches, log)
    modifies checks
    ensures Scored(normalize, checks.counts, longer, log + Numbered(index, TurnChecks(normalize, c, view)))
  {
    ghost var a := Asked(c.text, Intent, Text(c.intent), TextOf(view.intent));
    ghost var b := Asked(c.text, Dealer, Normalized(normalize, c.dealerName), Normalized(normalize, view.dealerName));
    ghost var d := Asked(c.text, Policy, TextOf(c.policy), ExtractPolicy(view.priced));
    ghost var e := Asked(c.text, AutoConfirm, BoolOf(c.autoConfirmEligible), Bool(view.status == Some("sent")));
    longer := RecordIfAsked(normalize, checks, mismatches, index,
      c.text, Intent, Text(c.intent), TextOf(view.intent), log);
    longer := RecordIfAsked(normalize, checks, longer, index,
      c.text, Dealer, Normalized(normalize, c.dealerName), Normalized(normalize, view.dealerName),
      log + Numbered(index, a));
    NumberedAppend(index, log, a, b);
    longer := RecordIfAsked(normalize, checks, longer, index,
      c.text, Policy, TextOf(c.policy), ExtractPolicy(view.priced), log + Numbered(index, a + b));
    NumberedAppend(index, log, a + b, d);
    longer := RecordIfAsked(normalize, checks, longer, index,
      c.text, AutoConfirm, BoolOf(c.autoConfirmEligible), Bool(view.status == Some("sent")),
      log + Numbered(index, a + b + d));
    NumberedAppend(index, log, a + b + d, e);
  }

  method RecordOrder(normalize: Normalize, checks: MetricCounter, mismatches: seq<Recorded>, index: nat,
                     c: GoldenCase, view: OrderViewLike, ghost log: seq<Recorded>)
    returns (longer: seq<Recorded>)
    requires Scored(normalize, checks.counts, mismatches, log)
    modifies checks
    ensures Scored(normalize, checks.counts, longer, log + Numbered(index, OrderChecks(c, view)))
  {
    ghost var a := Asked(c.text, Field, TextOf(c.orderType), ExtractString(view.parsed, "orderType"));
    ghost var b := Asked(c.text, Total, NumOf(c.grandTotal), ExtractNumber(view.priced, "grandTotal"));
    ghost var d := Asked(c.text, Total, NumOf(c.itemsSubtotal), ExtractNumber(view.priced, "itemsSubtotal"));
    longer := RecordIfAsked(normalize, checks, mismatches, index,
      c.text, Field, TextOf(c.orderType), ExtractString(view.parsed, "orderType"), log);
    longer := RecordIfAsked(normalize, checks, longer, index,
      c.text, Total, NumOf(c.grandTotal), ExtractNumber(view.priced, "grandTotal"), log + Numbered(index, a));
    NumberedAppend(index, log, a, b);
    longer := RecordIfAsked(normalize, checks, longer, index,
      c.text, Total, NumOf(c.itemsSubtotal), ExtractNumber(view.priced, "itemsSubtotal"), log + Numbered(index, a + b));
    NumberedAppend(index, log, a + b, d);
  }

  method RecordItem(normalize: Normalize, checks: MetricCounter, mismatches: seq<Recorded>, index: nat,
                    text: string, expected: ExpectedItem, actual: Value, ghost log: seq<Recorded>)
    returns (longer: seq<Recorded>)
    requires Scored(normalize, checks.counts, mismatches, log)
    modifies checks
    ensures Scored(normalize, checks.counts, longer, log + Numbered(index, ItemChecks(text, expected, actual)))
  {
    ghost var a := Asked(text, Sku, TextOf(expected.sku), ExtractString(actual, "sku"));
    ghost var b := Asked(text, Sku, TextOf(expected.skuRaw), ExtractString(actual, "skuRaw"));
    ghost var d := Asked(text, Quantity, NumOf(expected.quantity), ExtractNumber(actual, "quantity"));
    longer := RecordIfAsked(normalize, checks, mismatches, index,
      text, Sku, TextOf(expected.sku), ExtractString(actual, "sku"), log);
    longer := RecordIfAsked(normalize, checks, longer, index,
      text, Sku, TextOf(expected.skuRaw), ExtractString(actual, "skuRaw"), log + Numbered(index, a));
    NumberedAppend(index, log, a, b);
    longer := RecordIfAsked(normalize, checks, longer, index,
      text, Quantity, NumOf(expected.quantity), ExtractNumber(actual, "quantity"), log + Numbered(index, a + b));
    NumberedAppend(index, log, a + b, d);
  }

  method RecordItems(normalize: Normalize, checks: MetricCounter, mismatches: seq<Recorded>, index: nat,
                     c: GoldenCase, actual: seq<Value>, ghost log: seq<Recorded>)
    returns (longer: seq<Recorded>)
    requires Scored(normalize, checks.counts, mismatches, log)
    modifies checks
    ensures Scored(normalize, checks.counts, longer, log + Numbered(index, ItemsChecks(c, actual, |c.items|)))
  {
    longer := mismatches;
    ghost var made: seq<Check> := [];
    ghost var longLog := log;
    assert log + Numbered(index, made) == log;
    for k := 0 to |c.items|
      invariant made == ItemsChecks(c, actual, k) && longLog == log + Numbered(index, made)
      invariant Scored(normalize, checks.counts, longer, longLog)
    {
      ghost var next := ItemChecks(c.text, c.items[k], ItemAt(actual, k));
      longer := RecordItem(normalize, checks, longer, index, c.text, c.items[k], ItemAt(actual, k), longLog);
      NumberedAppend(index, log, made, next);
      made, longLog := made + next, longLog + Numbered(index, next);
    }
  }

  datatype GoldenEvalResult = GoldenEvalResult(
    goLiveReady: bool, reason: Option<string>, metrics: map<MetricName, real>, totalCases: nat, mismatches: seq<Recorded>)

  /** `None` stands for the error that differing numbers of cases and answers throw. The mismatches are
      exactly the failed checks, in order; every ratio is that of the checks of its metric. */
  method ComputeGoldenMetrics(normalize: Normalize, cases: seq<GoldenCase>, views: seq<OrderViewLike>)
    returns (result: Option<GoldenEvalResult>)
    ensures result.None? <==> |cases| != |views|
    ensures result.Some? ==>
      var log := AllChecks(normalize, cases, views);
      && result.value.mismatches == Filter(Fails(normalize), log)
      && (forall metric: MetricName :: metric in result.value.metrics
            && result.value.metrics[metric] == RatioOf(CountOf(normalize, log, metric)))
      && result.value.totalCases == |cases|
      && (result.value.goLiveReady <==> result.value.mismatches == [])
      && result.value.reason == (if result.value.goLiveReady then None else Some("golden_mismatch"))
  {
    if |cases| != |views| { return None; }
    var checks := new MetricCounter();
    var mismatches: seq<Recorded> := [];
    ghost var blocks := Blocks(normalize, cases, views);
    for index := 0 to |cases|
      invariant Scored(normalize, checks.counts, mismatches, Flatten(blocks[..index]))
      invariant fresh(checks)
    {
      ghost var log := Flatten(blocks[..index]);
      var c, view := cases[index], views[index];
      ghost var turn, order := TurnChecks(normalize, c, view), OrderChecks(c, view);
      mismatches := RecordTurn(normalize, checks, mismatches, index, c, view, log);
      mismatches := RecordOrder(normalize, checks, mismatches, index, c, view, log + Numbered(index, turn));
      NumberedAppend(index, log, turn, order);
      var actual := ExtractItems(view);
      mismatches := RecordItems(normalize, checks, mismatches, index, c, actual, log + Numbered(index, turn + order));
      NumberedAppend(index, log, turn + order, ItemsChecks(c, actual, |c.items|));
      FlattenNext(blocks, index);
    }
    assert blocks[..|cases|] == blocks;
    result := Some(GoldenEvalResult(|mismatches| == 0,
      if |mismatches| > 0 then Some("golden_mismatch") else None, checks.ToMetrics(), |cases|, mismatches));
  }

  // ----------------------------------------------------------------------------------------
  // What the scores mean
  // ----------------------------------------------------------------------------------------

  /** Of every metric's checks, those that are not counted as right are exactly its mismatches. */
  lemma {:induction false} WrongOnesAreReported(normalize: Normalize, log: seq<Recorded>, metric: MetricName)
    ensures var count := CountOf(normalize, log, metric);
      count.total - count.ok == |Filter(Of(metric), Filter(Fails(normalize), log))|
    decreases |log|
  {
    if log != [] {
      var before, r := log[..|log| - 1], log[|log| - 1];
      assert log == before + [r];
      WrongOnesAreReported(normalize, before, metric);
      CountNext(normalize, before, r, metric);
      FilterSnoc(Fails(normalize), before, r);
      var wrong := Filter(Fails(normalize), before);
      FilterSnoc(Of(metric), wrong, r);
      assert Filter(Fails(normalize), log) == if Holds(normalize, r.check) then wrong else wrong + [r];
    }
  }

  /** Texts are compared normalised, anything else as it is. */
  predicate Agrees(normalize: Normalize, check: Check) {
    match (check.expected, check.got)
    case (Text(a), Text(b)) => normalize(a) == normalize(b)
    case (a, b) => a == b
  }

  /** The mismatches are exactly the records whose values disagree. */
  lemma MismatchesDisagree(normalize: Normalize, log: seq<Recorded>)
    ensures forall r :: r in Filter(Fails(normalize), log) <==> r in log && !Agrees(normalize, r.check)
  {
  }

  lemma NoneWrong(normalize: Normalize, log: seq<Recorded>, metric: MetricName)
    ensures Filter(Of(metric), Filter(Fails(normalize), log)) == []
       <==> forall r :: r in log && r.check.metric == metric ==> Agrees(normalize, r.check)
  {
    var wrong := Filter(Of(metric), Filter(Fails(normalize), log));
    MismatchesDisagree(normalize, log);
    if wrong != [] { assert wrong[0] in wrong; }
    if r :| r in log && r.check.metric == metric && !Agrees(normalize, r.check) { assert r in wrong; }
  }

  /** Every ratio lies between 0 and 1, and is 1 exactly when the metric has no mismatch. */
  lemma RatioMeansMismatches(normalize: Normalize, log: seq<Recorded>, metric: MetricName)
    ensures 0.0 <= RatioOf(CountOf(normalize, log, metric)) <= 1.0
    ensures RatioOf(CountOf(normalize, log, metric)) == 1.0
       <==> forall r :: r in log && r.check.metric == metric ==> Agrees(normalize, r.check)
  {
    WrongOnesAreReported(normalize, log, metric);
    RatioIsOne(CountOf(normalize, log, metric));
    NoneWrong(normalize, log, metric);
  }

  /** A ratio is the part of the records that are right, and 1 if there are none. */
  lemma RatioIsThePart(count: Count)
    ensures RatioOf(count) * count.total as real == (if count.total == 0 then 0.0 else count.ok as real)
    ensures count.total == 0 ==> RatioOf(count) == 1.0
  {
  }

  lemma RatioIsOne(count: Count)
    requires count.ok <= count.total
    ensures 0.0 <= RatioOf(count) <= 1.0
    ensures RatioOf(count) == 1.0 <==> count.ok == count.total
  {
    if count.total > 0 {
      var ok, total := count.ok as real, count.total as real;
      assert ok / total * total == ok;
    }
  }

  /** Going live is allowed exactly when all eight ratios are 1. */
  lemma ReadyMeansAllRatiosAreOne(normalize: Normalize, log: seq<Recorded>)
    ensures Filter(Fails(normalize), log) == []
       <==> forall metric: MetricName :: RatioOf(CountOf(normalize, log, metric)) == 1.0
  {
    forall metric: MetricName
      ensures RatioOf(CountOf(normalize, log, metric)) == 1.0
         <==> forall r :: r in log && r.check.metric == metric ==> Holds(normalize, r.check)
    {
      RatioMeansMismatches(normalize, log, metric);
    }
    var wrong := Filter(Fails(normalize), log);
    if wrong != [] {
      assert wrong[0] in wrong;
      var r := wrong[0];
      assert RatioOf(CountOf(normalize, log, r.check.metric)) != 1.0;
    } else {
      forall r | r in log ensures Holds(normalize, r.check) {
        assert Fails(normalize)(r) ==> r in wrong;
      }
    }
  }

  // ----------------------------------------------------------------------------------------
  // The order of the cases
  // ----------------------------------------------------------------------------------------

  datatype Pair = Pair(c: GoldenCase, view: OrderViewLike)

  function Pairs(cases: seq<GoldenCase>, views: seq<OrderViewLike>): (pairs: seq<Pair>)
    requires |cases| == |views|
    ensures |pairs| == |cases|
    ensures forall i :: 0 <= i < |cases| ==> pairs[i] == Pair(cases[i], views[i])
  {
    seq(|cases|, i requires 0 <= i < |cases| => Pair(cases[i], views[i]))
  }

  /** How many records of one pair, numbered in any way, satisfy `keep`. */
  function PairCount(normalize: Normalize, keep: Recorded -> bool): Pair -> nat {
    (pair: Pair) => |Filter(keep, Numbered(0, CaseChecks(normalize, pair.c, pair.view)))|
  }

  ghost predicate IgnoresIndex(keep: Recorded -> bool) {
    forall i, check :: keep(Recorded(i, check)) == keep(Recorded(0, check))
  }

  lemma {:induction false} RenumberingKeepsCounts(keep: Recorded -> bool, checks: seq<Check>, i: nat)
    requires IgnoresIndex(keep)
    ensures |Filter(keep, Numbered(i, checks))| == |Filter(keep, Numbered(0, checks))|
  {
    if checks != [] {
      RenumberingKeepsCounts(keep, checks[1..], i);
      assert Numbered(i, checks)[1..] == Numbered(i, checks[1..]);
      assert Numbered(0, checks)[1..] == Numbered(0, checks[1..]);
      assert keep(Recorded(i, checks[0])) == keep(Recorded(0, checks[0]));
    }
  }

  lemma CountIsSum(normalize: Normalize, keep: Recorded -> bool, cases: seq<GoldenCase>, views: seq<OrderViewLike>)
    requires |cases| == |views| && IgnoresIndex(keep)
    ensures |Filter(keep, AllChecks(normalize, cases, views))| == Sum(PairCount(normalize, keep), Pairs(cases, views))
  {
    var blocks, pairs := Blocks(normalize, cases, views), Pairs(cases, views);
    forall i | 0 <= i < |cases| ensures KeptIn(keep)(blocks[i]) == PairCount(normalize, keep)(pairs[i]) {
      RenumberingKeepsCounts(keep, CaseChecks(normalize, cases[i], views[i]), i);
    }
    KeptInFlatten(keep, blocks);
    SumPointwise(KeptIn(keep), blocks, PairCount(normalize, keep), pairs);
  }

  /** Shuffling the cases together with their answers changes no score. */
  lemma ScoresIgnoreTheOrder(
    normalize: Normalize, cases: seq<GoldenCase>, views: seq<OrderViewLike>,
    shuffled: seq<GoldenCase>, answers: seq<OrderViewLike>, metric: MetricName)
    requires |cases| == |views| && |shuffled| == |answers|
    requires multiset(Pairs(cases, views)) == multiset(Pairs(shuffled, answers))
    ensures CountOf(normalize, AllChecks(normalize, cases, views), metric)
         == CountOf(normalize, AllChecks(normalize, shuffled, answers), metric)
    ensures |Filter(Fails(normalize), AllChecks(normalize, cases, views))|
         == |Filter(Fails(normalize), AllChecks(normalize, shuffled, answers))|
  {
    SameCounts(normalize, OkOf(normalize, metric), cases, views, shuffled, answers);
    SameCounts(normalize, Of(metric), cases, views, shuffled, answers);
    SameCounts(normalize, Fails(normalize), cases, views, shuffled, answers);
  }

  lemma SameCounts(
    normalize: Normalize, keep: Recorded -> bool, cases: seq<GoldenCase>, views: seq<OrderViewLike>,
    shuffled: seq<GoldenCase>, answers: seq<OrderViewLike>)
    requires |cases| == |views| && |shuffled| == |answers| && IgnoresIndex(keep)
    requires multiset(Pairs(cases, views)) == multiset(Pairs(shuffled, answers))
    ensures |Filter(keep, AllChecks(normalize, cases, views))|
         == |Filter(keep, AllChecks(normalize, shuffled, answers))|
  {
    CountIsSum(normalize, keep, cases, views);
    CountIsSum(normalize, keep, shuffled, answers);
    SumOfBag(PairCount(normalize, keep), Pairs(cases, views), Pairs(shuffled, answers));
  }

  // ----------------------------------------------------------------------------------------
  // What is recorded
  // ----------------------------------------------------------------------------------------

  /** What is compared of a case and its answer, metric by metric; nothing is where nothing is expected. */
  ghost predicate Compared(normalize: Normalize, c: GoldenCase, view: OrderViewLike, check: Check) {
    && check.text == c.text
    && match check.metric
       case Intent => check.expected == Text(c.intent) && check.got == TextOf(view.intent)
       case Dealer =>
         && c.dealerName.Some? && check.expected == Text(normalize(c.dealerName.value))
         && check.got == if view.dealerName.Some? then Text(normalize(view.dealerName.value)) else Foreign
       case Policy => c.policy.Some? && check.expected == Text(c.policy.value) && check.got == ExtractPolicy(view.priced)
       case AutoConfirm =>
         && c.autoConfirmEligible.Some? && check.expected == Bool(c.autoConfirmEligible.value)
         && check.got == Bool(view.status == Some("sent"))
       case Field =>
         && c.orderType.Some? && check.expected == Text(c.orderType.value)
         && check.got == ExtractString(view.parsed, "orderType")
       case Total =>
         || (c.grandTotal.Some? && check.expected == Num(c.grandTotal.value)
             && check.got == ExtractNumber(view.priced, "grandTotal"))
         || (c.itemsSubtotal.Some? && check.expected == Num(c.itemsSubtotal.value)
             && check.got == ExtractNumber(view.priced, "itemsSubtotal"))
       case Sku => exists k :: 0 <= k < |c.items| && SkuCompared(c.items[k], ItemAt(ExtractItems(view), k), check)
       case Quantity => exists k :: 0 <= k < |c.items| && QuantityCompared(c.items[k], ItemAt(ExtractItems(view), k), check)
  }

  predicate SkuCompared(expected: ExpectedItem, actual: Value, check: Check) {
    || (expected.sku.Some? && check.expected == Text(expected.sku.value) && check.got == ExtractString(actual, "sku"))
    || (expected.skuRaw.Some? && check.expected == Text(expected.skuRaw.value)
        && check.got == ExtractString(actual, "skuRaw"))
  }

  predicate QuantityCompared(expected: ExpectedItem, actual: Value, check: Check) {
    expected.quantity.Some? && check.expected == Num(expected.quantity.value)
    && check.got == ExtractNumber(actual, "quantity")
  }

  predicate ItemCompares(expected: ExpectedItem, actual: Value, check: Check) {
    || (check.metric == Sku && SkuCompared(expected, actual, check))
    || (check.metric == Quantity && QuantityCompared(expected, actual, check))
  }

  lemma {:induction false} ItemsCompared(c: GoldenCase, actual: seq<Value>, n: nat, check: Check)
    requires n <= |c.items|
    ensures check in ItemsChecks(c, actual, n) <==>
      check.text == c.text && exists k :: 0 <= k < n && ItemCompares(c.items[k], ItemAt(actual, k), check)
  {
    if n > 0 {
      ItemsCompared(c, actual, n - 1, check);
      ItemCompared(c.text, c.items[n - 1], ItemAt(actual, n - 1), check);
    }
  }

  lemma ItemCompared(text: string, expected: ExpectedItem, actual: Value, check: Check)
    ensures check in ItemChecks(text, expected, actual) <==>
      check.text == text && ItemCompares(expected, actual, check)
  {
  }

  lemma TurnCompared(normalize: Normalize, c: GoldenCase, view: OrderViewLike, check: Check)
    ensures check in TurnChecks(normalize, c, view) <==>
      check.metric in {Intent, Dealer, Policy, AutoConfirm} && Compared(normalize, c, view, check)
  {
  }

  lemma OrderCompared(normalize: Normalize, c: GoldenCase, view: OrderViewLike, check: Check)
    ensures check in OrderChecks(c, view) <==>
      check.metric in {Field, Total} && Compared(normalize, c, view, check)
  {
  }

  /** The records of a case are exactly the comparisons it asks for. */
  lemma CaseIsCompared(normalize: Normalize, c: GoldenCase, view: OrderViewLike, check: Check)
    ensures check in CaseChecks(normalize, c, view) <==> Compared(normalize, c, view, check)
  {
    TurnCompared(normalize, c, view, check);
    OrderCompared(normalize, c, view, check);
    ItemsAreCompared(normalize, c, view, check);
  }

  lemma ItemsAreCompared(normalize: Normalize, c: GoldenCase, view: OrderViewLike, check: Check)
    ensures check in ItemsChecks(c, ExtractItems(view), |c.items|) <==>
      check.metric in {Sku, Quantity} && Compared(normalize, c, view, check)
  {
    ItemsCompared(c, ExtractItems(view), |c.items|, check);
  }

  /** Items are the priced lines if there are any, otherwise the parsed items; a policy is the first text
      found under its three names. */
  lemma ExtractedParts(view: OrderViewLike)
    ensures var lines, parsed := ExtractArray(view.priced, "lines"), ExtractArray(view.parsed, "items");
      ExtractItems(view) == if lines != [] then lines else parsed
    ensures var a, b, c := ExtractString(view.priced, "policy"), ExtractString(view.priced, "defaultPolicy"),
        ExtractString(view.priced, "policyType");
      ExtractPolicy(view.priced) == if a.Text? then a else if b.Text? then b else c
  {
  }

  /** A property is read by its name, and only if it is of the kind asked for. */
  lemma {:induction false} ReadProperty(entries: seq<Entry>, key: string, k: nat)
    requires k < |entries| && entries[k].key == key && forall i :: 0 <= i < k ==> entries[i].key != key
    ensures Property(Record(entries), key) == entries[k].value
  {
    if k > 0 { ReadProperty(entries[1..], key, k - 1); }
  }

  lemma ReadKinds(value: Value, key: string)
    ensures ExtractString(value, key) == (if Property(value, key).Text? then Property(value, key) else Foreign)
    ensures ExtractArray(value, key) == (if Property(value, key).Array? then Property(value, key).items else [])
    ensures ExtractNumber(value, key)
         == if Property(value, key).Num? && !Property(value, key).number.NotANumber?
               && !Property(value, key).number.Infinite?
            then Property(value, key) else Foreign
  {
  }
}
