/** The local fingerprint of a price draft (apps/web/lib/price-workflow.ts): each row joined with
    colons, the row texts sorted, and those joined with bars. */
module PriceFingerprint {
  import opened Sequences
  import opened JsText
  import opened NumberText

  /** An optional price column: not there, null, or a number. */
  datatype Cell = Missing | Null | Price(number: Number)

  datatype PricePeriodPrice = PricePeriodPrice(
    id: Option<string>,
    sku: string,
    wholesale: Number,
    minRetailPrice: Cell,
    retailPrice: Cell,
    listPrice: Cell)

  /** What the fingerprint is meant to tell apart: the SKU and four prices, with null and missing
      taken as one, and the row id left out. */
  datatype PriceKey = PriceKey(
    sku: string,
    wholesale: Number,
    minRetailPrice: Option<Number>,
    retailPrice: Option<Number>,
    listPrice: Option<Number>)

  function Known(cell: Cell): Option<Number> {
    match cell
    case Price(number) => Some(number)
    case _ => None
  }

  function KeyOf(row: PricePeriodPrice): PriceKey {
    PriceKey(row.sku, row.wholesale, Known(row.minRetailPrice), Known(row.retailPrice), Known(row.listPrice))
  }

  function KeysOf(rows: seq<PricePeriodPrice>): (keys: seq<PriceKey>)
    ensures |keys| == |rows|
    ensures forall i :: 0 <= i < |rows| ==> keys[i] == KeyOf(rows[i])
  {
    if rows == [] then [] else [KeyOf(rows[0])] + KeysOf(rows[1..])
  }

  /** `cell ?? ''`, as text. */
  function CellText(cell: Option<Number>): string {
    match cell
    case None => ""
    case Some(number) => Print(number)
  }

  /** `[sku, wholesale, min, retail, list].join(':')`. */
  function KeyText(key: PriceKey): string {
    key.sku + [':'] + Print(key.wholesale) + [':'] + CellText(key.minRetailPrice)
    + [':'] + CellText(key.retailPrice) + [':'] + CellText(key.listPrice)
  }

  function RowText(row: PricePeriodPrice): string {
    KeyText(KeyOf(row))
  }

  function RowTexts(rows: seq<PricePeriodPrice>): seq<string> {
    if rows == [] then [] else [RowText(rows[0])] + RowTexts(rows[1..])
  }

  /** The order of `sort()` on strings: character by character, a prefix first. */
  predicate TextLeq(a: string, b: string) {
    a == "" || (b != "" && (a[0] < b[0] || (a[0] == b[0] && TextLeq(a[1..], b[1..]))))
  }

  function FingerprintRows(rows: seq<PricePeriodPrice>): string {
    Join('|', SortBy(TextLeq, RowTexts(rows)))
  }

  /** What a fingerprint compares of two rows: the SKU and the four prices, where no price is no price,
      null or missing; never the id. */
  lemma SameKeyMeans(a: PricePeriodPrice, b: PricePeriodPrice)
    ensures KeyOf(a) == KeyOf(b) <==>
      && a.sku == b.sku && a.wholesale == b.wholesale
      && SamePrice(a.minRetailPrice, b.minRetailPrice) && SamePrice(a.retailPrice, b.retailPrice)
      && SamePrice(a.listPrice, b.listPrice)
  {
  }

  predicate SamePrice(a: Cell, b: Cell) {
    a == b || (!a.Price? && !b.Price?)
  }

  /** How a row reads: SKU and prices in this order, between colons, and nothing where there is no price. */
  lemma RowReads(id: Option<string>, sku: string, x: Number, y: Number, z: Number)
    ensures RowText(PricePeriodPrice(id, sku, x, Price(y), Missing, Price(z)))
         == sku + ":" + Print(x) + ":" + Print(y) + ":" + "" + ":" + Print(z)
    ensures RowText(PricePeriodPrice(id, sku, x, Null, Price(y), Missing))
         == sku + ":" + Print(x) + ":" + "" + ":" + Print(y) + ":" + ""
  {
  }

  /** The order of `sort()`: a text comes first if it starts the other, or has the smaller character where
      they first differ. */
  lemma {:induction false} TextOrderMeans(a: string, b: string)
    ensures TextLeq(a, b) <==>
      || a <= b
      || exists i :: 0 <= i < |a| && i < |b| && a[..i] == b[..i] && a[i] < b[i]
    decreases |a|
  {
    if a != "" && b != "" && a[0] == b[0] {
      TextOrderMeans(a[1..], b[1..]);
      if i :| 0 <= i < |a[1..]| && i < |b[1..]| && a[1..][..i] == b[1..][..i] && a[1..][i] < b[1..][i] {
        assert a[..i + 1] == [a[0]] + a[1..][..i] && b[..i + 1] == [b[0]] + b[1..][..i];
        assert a[i + 1] < b[i + 1];
      }
      if i :| 0 <= i < |a| && i < |b| && a[..i] == b[..i] && a[i] < b[i] {
        assert i > 0;
        assert a[1..][..i - 1] == a[..i][1..] && b[1..][..i - 1] == b[..i][1..];
        assert a[1..][i - 1] < b[1..][i - 1];
      }
      assert a <= b <==> a[1..] <= b[1..];
    } else if a != "" && b != "" {
      assert a[..0] == b[..0];
    }
  }

  // ----------------------------------------------------------------------------------------
  // A row text gives its key back
  // ----------------------------------------------------------------------------------------

  /** Cutting at the last colon is unambiguous, whatever stands before it. */
  lemma CutAtLastColon(a: string, x: string, b: string, y: string)
    requires ':' !in x && ':' !in y
    requires a + [':'] + x == b + [':'] + y
    ensures a == b && x == y
  {
    var s := a + [':'] + x;
    LastColon(a, x);
    LastColon(b, y);
    assert s[..|a|] == a && s[..|b|] == b;
    assert s[|a| + 1..] == x && s[|b| + 1..] == y;
  }

  lemma LastColon(a: string, x: string)
    requires ':' !in x
    ensures var s := a + [':'] + x;
      s[|a|] == ':' && forall j :: |a| < j < |s| ==> s[j] != ':'
  {
    var s := a + [':'] + x;
    assert forall j :: |a| < j < |s| ==> s[j] == x[j - |a| - 1];
  }

  lemma CellTextIsInjective(a: Option<Number>, b: Option<Number>)
    ensures CellText(a) == CellText(b) <==> a == b
    ensures ':' !in CellText(a) && '|' !in CellText(a)
  {
    if a.Some? { PrintHoldsNoSeparator(a.value); }
    if b.Some? { PrintHoldsNoSeparator(b.value); }
    if a.Some? && b.Some? { PrintIsInjective(a.value, b.value); }
  }

  /** The SKU may hold colons: the four prices are read off from the right. */
  lemma KeyTextIsInjective(a: PriceKey, b: PriceKey)
    ensures KeyText(a) == KeyText(b) <==> a == b
  {
    if KeyText(a) == KeyText(b) {
      PrintHoldsNoSeparator(a.wholesale);
      PrintHoldsNoSeparator(b.wholesale);
      CellTextIsInjective(a.minRetailPrice, b.minRetailPrice);
      CellTextIsInjective(b.minRetailPrice, a.minRetailPrice);
      CellTextIsInjective(a.retailPrice, b.retailPrice);
      CellTextIsInjective(b.retailPrice, a.retailPrice);
      CellTextIsInjective(a.listPrice, b.listPrice);
      CellTextIsInjective(b.listPrice, a.listPrice);
      PrintIsInjective(a.wholesale, b.wholesale);
      var a2, b2 := a.sku + [':'] + Print(a.wholesale), b.sku + [':'] + Print(b.wholesale);
      var a3, b3 := a2 + [':'] + CellText(a.minRetailPrice), b2 + [':'] + CellText(b.minRetailPrice);
      var a4, b4 := a3 + [':'] + CellText(a.retailPrice), b3 + [':'] + CellText(b.retailPrice);
      CutAtLastColon(a4, CellText(a.listPrice), b4, CellText(b.listPrice));
      CutAtLastColon(a3, CellText(a.retailPrice), b3, CellText(b.retailPrice));
      CutAtLastColon(a2, CellText(a.minRetailPrice), b2, CellText(b.minRetailPrice));
      CutAtLastColon(a.sku, Print(a.wholesale), b.sku, Print(b.wholesale));
    }
  }

  // ----------------------------------------------------------------------------------------
  // Sorting forgets the order and nothing else
  // ----------------------------------------------------------------------------------------

  lemma TextLeqTotal(a: string, b: string)
    ensures TextLeq(a, b) || TextLeq(b, a)
    ensures TextLeq(a, b) && TextLeq(b, a) ==> a == b
  {
    if a != "" && b != "" {
      TextLeqTotal(a[1..], b[1..]);
      if a[0] == b[0] && a[1..] == b[1..] {
        assert a == [a[0]] + a[1..] && b == [b[0]] + b[1..];
      }
    }
  }

  lemma TextLeqTransitive(a: string, b: string, c: string)
    requires TextLeq(a, b) && TextLeq(b, c)
    ensures TextLeq(a, c)
  {
    if a != "" && a[0] == b[0] == c[0] {
      TextLeqTransitive(a[1..], b[1..], c[1..]);
    }
  }

  lemma TextOrder()
    ensures TotalPreorder(TextLeq)
    ensures forall a, b :: TextLeq(a, b) && TextLeq(b, a) ==> a == b
  {
    forall a, b ensures TextLeq(a, b) || TextLeq(b, a) { TextLeqTotal(a, b); }
    forall a, b | TextLeq(a, b) && TextLeq(b, a) ensures a == b { TextLeqTotal(a, b); }
    forall a, b, c | TextLeq(a, b) && TextLeq(b, c) ensures TextLeq(a, c) { TextLeqTransitive(a, b, c); }
  }

  function Copies<T>(x: T, count: nat): seq<T> {
    if count == 0 then [] else [x] + Copies(x, count - 1)
  }

  lemma {:induction false} TiesAreCopies<T(!new)>(leq: (T, T) -> bool, x: T, s: seq<T>)
    requires TotalPreorder(leq) && forall a, b :: leq(a, b) && leq(b, a) ==> a == b
    ensures Ties(leq, x, s) == Copies(x, multiset(s)[x])
  {
    if s != [] {
      TiesAreCopies(leq, x, s[1..]);
      assert s == [s[0]] + s[1..];
      assert leq(x, x);
      assert TiesWith(leq, x)(s[0]) <==> s[0] == x;
      assert multiset(s)[x] == multiset(s[1..])[x] + if s[0] == x then 1 else 0;
    }
  }

  /** For an order without ties, two lists sort alike exactly when they hold the same elements,
      equally often. */
  lemma SortForgetsOrder<T(!new)>(leq: (T, T) -> bool, s: seq<T>, t: seq<T>)
    requires TotalPreorder(leq) && forall a, b :: leq(a, b) && leq(b, a) ==> a == b
    ensures SortBy(leq, s) == SortBy(leq, t) <==> multiset(s) == multiset(t)
  {
    if multiset(s) == multiset(t) {
      forall x ensures Ties(leq, x, SortBy(leq, s)) == Ties(leq, x, SortBy(leq, t)) {
        TiesAreCopies(leq, x, SortBy(leq, s));
        TiesAreCopies(leq, x, SortBy(leq, t));
      }
      SortBySorted(leq, s);
      SortBySorted(leq, t);
      SortedUnique(leq, SortBy(leq, s), SortBy(leq, t));
    }
  }

  // ----------------------------------------------------------------------------------------
  // The fingerprint
  // ----------------------------------------------------------------------------------------

  lemma {:induction false} TextCountsKeys(rows: seq<PricePeriodPrice>, key: PriceKey)
    ensures multiset(RowTexts(rows))[KeyText(key)] == multiset(KeysOf(rows))[key]
  {
    if rows != [] {
      TextCountsKeys(rows[1..], key);
      KeyTextIsInjective(KeyOf(rows[0]), key);
    }
  }

  lemma TextOfSomeKey(rows: seq<PricePeriodPrice>, text: string)
    ensures text in RowTexts(rows) <==> exists key :: key in KeysOf(rows) && KeyText(key) == text
  {
    if rows != [] {
      TextOfSomeKey(rows[1..], text);
      var key := KeyOf(rows[0]);
      assert key in KeysOf(rows);
      assert forall k :: k in KeysOf(rows) <==> k == key || k in KeysOf(rows[1..]);
    }
  }

  lemma SameTextsSameKeys(a: seq<PricePeriodPrice>, b: seq<PricePeriodPrice>)
    ensures multiset(RowTexts(a)) == multiset(RowTexts(b)) <==> multiset(KeysOf(a)) == multiset(KeysOf(b))
  {
    if multiset(RowTexts(a)) == multiset(RowTexts(b)) {
      forall key ensures multiset(KeysOf(a))[key] == multiset(KeysOf(b))[key] {
        TextCountsKeys(a, key);
        TextCountsKeys(b, key);
      }
    }
    if multiset(KeysOf(a)) == multiset(KeysOf(b)) {
      forall text ensures multiset(RowTexts(a))[text] == multiset(RowTexts(b))[text] {
        SameCountOfText(a, b, text);
      }
    }
  }

  lemma SameCountOfText(a: seq<PricePeriodPrice>, b: seq<PricePeriodPrice>, text: string)
    requires multiset(KeysOf(a)) == multiset(KeysOf(b))
    ensures multiset(RowTexts(a))[text] == multiset(RowTexts(b))[text]
  {
    TextOfSomeKey(a, text);
    TextOfSomeKey(b, text);
    SameElements(KeysOf(a), KeysOf(b));
    if text in RowTexts(a) {
      var key :| key in KeysOf(a) && KeyText(key) == text;
      TextCountsKeys(a, key);
      TextCountsKeys(b, key);
    } else {
      assert text !in RowTexts(b);
      assert text !in multiset(RowTexts(a)) && text !in multiset(RowTexts(b));
    }
  }

  // ----------------------------------------------------------------------------------------
  // Reading the rows off a fingerprint
  // ----------------------------------------------------------------------------------------

  /** The SKU starts with a whole row text and a bar. */
  predicate Swallows(sku: string, key: PriceKey) {
    KeyText(key) + ['|'] <= sku
  }

  /** No SKU of `b` swallows a row of `a`. */
  predicate Unswallowed(a: seq<PricePeriodPrice>, b: seq<PricePeriodPrice>) {
    forall i, j :: 0 <= i < |a| && 0 <= j < |b| ==> !Swallows(b[j].sku, KeyOf(a[i]))
  }

  /** Two drafts whose rows a fingerprint keeps apart. */
  predicate Separable(a: seq<PricePeriodPrice>, b: seq<PricePeriodPrice>) {
    Unswallowed(a, b) && Unswallowed(b, a)
  }

  /** A SKU in which no bar comes after a colon swallows no row; so bars alone are harmless, and so are
      colons alone. */
  lemma NoBarAfterColon(sku: string, key: PriceKey)
    requires forall i, j :: 0 <= i < j < |sku| && sku[i] == ':' ==> sku[j] != '|'
    ensures !Swallows(sku, key)
  {
    var text := KeyText(key);
    assert text[|key.sku|] == ':';
    assert (text + ['|'])[|text|] == '|' && (text + ['|'])[|key.sku|] == ':';
  }

  /** The row text after the SKU. */
  function PricesText(key: PriceKey): string {
    [':'] + Print(key.wholesale) + [':'] + CellText(key.minRetailPrice)
    + [':'] + CellText(key.retailPrice) + [':'] + CellText(key.listPrice)
  }

  lemma TextEndsInPrices(key: PriceKey)
    ensures KeyText(key) == key.sku + PricesText(key)
  {
    var a := Print(key.wholesale);
    var b, c, d := CellText(key.minRetailPrice), CellText(key.retailPrice), CellText(key.listPrice);
    RegroupPrices(key.sku, [':'], a, b, c, d);
  }

  lemma RegroupPrices(s: string, colon: string, a: string, b: string, c: string, d: string)
    ensures s + colon + a + colon + b + colon + c + colon + d
         == s + (colon + a + colon + b + colon + c + colon + d)
  {
  }

  lemma PricesHoldNoBar(key: PriceKey)
    ensures '|' !in PricesText(key)
  {
    PrintHoldsNoSeparator(key.wholesale);
    CellTextIsInjective(key.minRetailPrice, None);
    CellTextIsInjective(key.retailPrice, None);
    CellTextIsInjective(key.listPrice, None);
  }

  /** Prices hold no bar: every bar of a row text stands in the SKU. */
  lemma BarsStandInTheSku(key: PriceKey, i: nat)
    requires i < |KeyText(key)| && KeyText(key)[i] == '|'
    ensures i < |key.sku| && key.sku <= KeyText(key)
  {
    PricesHoldNoBar(key);
    TextEndsInPrices(key);
    StandsInFront('|', key.sku, PricesText(key), i);
  }

  lemma StandsInFront(c: char, a: string, b: string, i: nat)
    requires c !in b && i < |a + b| && (a + b)[i] == c
    ensures i < |a|
  {
    assert forall m :: |a| <= m < |a + b| ==> (a + b)[m] == b[m - |a|];
  }

  /** A row text that continues, behind a bar, to another row text is swallowed by that row's SKU. */
  lemma ContinuedIsSwallowed(a: PriceKey, b: PriceKey)
    requires KeyText(a) + ['|'] <= KeyText(b)
    ensures Swallows(b.sku, a)
  {
    var text := KeyText(a) + ['|'];
    assert KeyText(b)[|KeyText(a)|] == text[|KeyText(a)|] == '|';
    BarsStandInTheSku(b, |KeyText(a)|);
    assert KeyText(b)[..|text|] == b.sku[..|text|];
  }

  /** No text of `s`, with a bar behind it, starts a text of `t`. */
  predicate NoneContinues(s: seq<string>, t: seq<string>) {
    forall i, j :: 0 <= i < |s| && 0 <= j < |t| ==> !(s[i] + ['|'] <= t[j])
  }

  /** The end of the text, or a bar. */
  predicate Ends(rest: string) {
    rest == "" || rest[0] == '|'
  }

  lemma ShorterContinues(a: string, x: string, b: string, y: string)
    requires |a| < |b| && Ends(x) && a + x == b + y
    ensures a + ['|'] <= b
  {
    var s := a + x;
    assert s[|a|] == x[0] && s[|a|] == b[|a|];
    assert s[..|a|] == a && s[..|a|] == b[..|a|];
    assert b[..|a| + 1] == b[..|a|] + [b[|a|]];
  }

  lemma SameLengthSplits(a: string, x: string, b: string, y: string)
    requires |a| == |b| && a + x == b + y
    ensures a == b && x == y
  {
    assert (a + x)[..|a|] == a && (b + y)[..|a|] == b;
    assert (a + x)[|a|..] == x && (b + y)[|a|..] == y;
  }

  lemma FirstTextsAgree(a: string, x: string, b: string, y: string)
    requires !(a + ['|'] <= b) && !(b + ['|'] <= a) && Ends(x) && Ends(y)
    requires a + x == b + y
    ensures a == b && x == y
  {
    if |a| < |b| {
      ShorterContinues(a, x, b, y);
    } else if |b| < |a| {
      ShorterContinues(b, y, a, x);
    } else {
      SameLengthSplits(a, x, b, y);
    }
  }

  /** What stands behind the first text of a join. */
  function Behind(rest: seq<string>): string {
    if rest == [] then "" else ['|'] + Join('|', rest)
  }

  lemma JoinStarts(first: string, rest: seq<string>)
    ensures Join('|', [first] + rest) == first + Behind(rest) && Ends(Behind(rest))
  {
    if rest == [] {
      assert first + "" == first;
    } else {
      JoinFirst('|', first, rest);
      assert first + ['|'] + Join('|', rest) == first + (['|'] + Join('|', rest));
    }
  }

  lemma SameBehindSameJoin(s: seq<string>, t: seq<string>)
    requires Behind(s) == Behind(t)
    ensures Join('|', s) == Join('|', t)
  {
    if s != [] && t != [] {
      assert Behind(s)[1..] == Join('|', s) && Behind(t)[1..] == Join('|', t);
    }
  }

  lemma {:induction false} JoinTellsApart(s: seq<string>, t: seq<string>)
    requires NoneContinues(s, t) && NoneContinues(t, s) && "" !in s && "" !in t
    requires Join('|', s) == Join('|', t)
    ensures s == t
    decreases |s|
  {
    if s == [] || t == [] {
      if s != [] { TextsHaveAJoin(s); }
      if t != [] { TextsHaveAJoin(t); }
    } else {
      var a, b := s[1..], t[1..];
      assert s == [s[0]] + a && t == [t[0]] + b;
      JoinStarts(s[0], a);
      JoinStarts(t[0], b);
      FirstTextsAgree(s[0], Behind(a), t[0], Behind(b));
      SameBehindSameJoin(a, b);
      JoinTellsApart(a, b);
    }
  }

  lemma TextsHaveAJoin(texts: seq<string>)
    requires texts != [] && "" !in texts
    ensures Join('|', texts) != ""
  {
    assert texts == [texts[0]] + texts[1..];
    JoinStarts(texts[0], texts[1..]);
    assert texts[0] in texts;
  }

  lemma RowOfText(rows: seq<PricePeriodPrice>, text: string) returns (k: nat)
    requires text in RowTexts(rows)
    ensures k < |rows| && RowText(rows[k]) == text && text != ""
  {
    RowTextsAt(rows);
    k :| 0 <= k < |rows| && RowTexts(rows)[k] == text;
    assert text[|rows[k].sku|] == ':';
  }

  lemma RowTextsAt(rows: seq<PricePeriodPrice>)
    ensures |RowTexts(rows)| == |rows|
    ensures forall i :: 0 <= i < |rows| ==> RowTexts(rows)[i] == RowText(rows[i])
  {
  }

  lemma UnswallowedTexts(a: seq<PricePeriodPrice>, b: seq<PricePeriodPrice>, s: seq<string>, t: seq<string>)
    requires Unswallowed(a, b)
    requires forall text :: text in s ==> text in RowTexts(a)
    requires forall text :: text in t ==> text in RowTexts(b)
    ensures NoneContinues(s, t) && "" !in s
  {
    forall i, j | 0 <= i < |s| && 0 <= j < |t| ensures !(s[i] + ['|'] <= t[j]) {
      assert s[i] in s && t[j] in t;
      var k := RowOfText(a, s[i]);
      var l := RowOfText(b, t[j]);
      if s[i] + ['|'] <= t[j] { ContinuedIsSwallowed(KeyOf(a[k]), KeyOf(b[l])); }
    }
    if "" in s { var k := RowOfText(a, ""); }
  }

  /** Two drafts have the same fingerprint exactly when one rearranges the other: the same rows, as
      SKU and four prices, equally often, null and missing being the same. SKUs may hold colons and
      bars, as long as no SKU of one draft starts with a row text of the other and a bar. */
  lemma SameFingerprintSameRows(a: seq<PricePeriodPrice>, b: seq<PricePeriodPrice>)
    requires Separable(a, b)
    ensures FingerprintRows(a) == FingerprintRows(b) <==> multiset(KeysOf(a)) == multiset(KeysOf(b))
  {
    var s, t := SortBy(TextLeq, RowTexts(a)), SortBy(TextLeq, RowTexts(b));
    TextOrder();
    SortForgetsOrder(TextLeq, RowTexts(a), RowTexts(b));
    SameTextsSameKeys(a, b);
    SameElements(s, RowTexts(a));
    SameElements(t, RowTexts(b));
    UnswallowedTexts(a, b, s, t);
    UnswallowedTexts(b, a, t, s);
    if FingerprintRows(a) == FingerprintRows(b) { JoinTellsApart(s, t); }
  }

  // ----------------------------------------------------------------------------------------
  // What a fingerprint says of any rows
  // ----------------------------------------------------------------------------------------

  /** How often `segment` stands between two bars of a text. */
  function SegmentCount(segment: string): string -> nat {
    (text: string) => multiset(Split('|', text))[segment]
  }

  lemma {:induction false} JoinCountsSegments(texts: seq<string>, segment: string)
    requires texts != []
    ensures SegmentCount(segment)(Join('|', texts)) == Sum(SegmentCount(segment), texts)
    decreases |texts|
  {
    var count := SegmentCount(segment);
    if |texts| == 1 {
      assert texts == [texts[0]] && Sum(count, texts[1..]) == 0;
    } else {
      JoinCountsSegments(texts[1..], segment);
      SplitApart('|', texts[0], Join('|', texts[1..]), Join('|', texts));
    }
  }

  /** Whatever the SKUs: the segments of a fingerprint are those of its rows, equally often. */
  lemma FingerprintCountsSegments(rows: seq<PricePeriodPrice>, segment: string)
    requires rows != []
    ensures SegmentCount(segment)(FingerprintRows(rows)) == Sum(SegmentCount(segment), RowTexts(rows))
  {
    var texts := RowTexts(rows);
    JoinCountsSegments(SortBy(TextLeq, texts), segment);
    SumOfBag(SegmentCount(segment), SortBy(TextLeq, texts), texts);
  }

  lemma RowTextsAppend(rows: seq<PricePeriodPrice>, row: PricePeriodPrice)
    ensures RowTexts(rows + [row]) == RowTexts(rows) + [RowText(row)]
  {
    if rows != [] {
      assert (rows + [row])[1..] == rows[1..] + [row];
    }
  }

  /** A row more, whatever its SKU, changes the fingerprint. */
  lemma OneMoreRowShows(rows: seq<PricePeriodPrice>, row: PricePeriodPrice)
    ensures FingerprintRows(rows + [row]) != FingerprintRows(rows)
  {
    var segment := Split('|', RowText(row))[0];
    RowTextsAppend(rows, row);
    FingerprintCountsSegments(rows + [row], segment);
    SumNext(SegmentCount(segment), RowTexts(rows), RowText(row));
    assert segment in multiset(Split('|', RowText(row)));
    if rows == [] {
      TextOfOneRow(row);
    } else {
      FingerprintCountsSegments(rows, segment);
    }
  }

  lemma TextOfOneRow(row: PricePeriodPrice)
    ensures FingerprintRows([]) == "" && FingerprintRows([] + [row]) != ""
  {
    assert [] + [row] == [row] && RowTexts([row]) == [RowText(row)];
    assert SortBy(TextLeq, [RowText(row)]) == [RowText(row)];
  }

  /** Two texts of one SKU have the same segments only if they are the same text. */
  lemma SameSegmentsSameText(a: PriceKey, b: PriceKey)
    requires a.sku == b.sku && multiset(Split('|', KeyText(a))) == multiset(Split('|', KeyText(b)))
    ensures a == b
  {
    PricesHoldNoBar(a);
    PricesHoldNoBar(b);
    TextEndsInPrices(a);
    TextEndsInPrices(b);
    var parts := Split('|', a.sku);
    SplitThen('|', a.sku, PricesText(a));
    SplitThen('|', a.sku, PricesText(b));
    LastPartDecides(parts[..|parts| - 1], parts[|parts| - 1] + PricesText(a), parts[|parts| - 1] + PricesText(b));
    assert (parts[|parts| - 1] + PricesText(a))[|parts[|parts| - 1]|..] == PricesText(a);
    assert (parts[|parts| - 1] + PricesText(b))[|parts[|parts| - 1]|..] == PricesText(b);
    KeyTextIsInjective(a, b);
  }

  lemma LastPartDecides(front: seq<string>, x: string, y: string)
    requires multiset(front + [x]) == multiset(front + [y])
    ensures x == y
  {
    assert multiset(front + [x])[x] == multiset(front)[x] + 1;
  }

  lemma SameFingerprintSameSegments(rows: seq<PricePeriodPrice>, index: nat, row: PricePeriodPrice, segment: string)
    requires index < |rows| && FingerprintRows(rows[index := row]) == FingerprintRows(rows)
    ensures SegmentCount(segment)(RowText(row)) == SegmentCount(segment)(RowText(rows[index]))
  {
    FingerprintCountsSegments(rows, segment);
    FingerprintCountsSegments(rows[index := row], segment);
    RowTextsAt(rows);
    RowTextsUpdate(rows, index, row);
    SumOfUpdate(SegmentCount(segment), RowTexts(rows), index, RowText(row));
  }

  lemma RowTextsUpdate(rows: seq<PricePeriodPrice>, index: nat, row: PricePeriodPrice)
    requires index < |rows|
    ensures |RowTexts(rows)| == |rows|
    ensures RowTexts(rows[index := row]) == RowTexts(rows)[index := RowText(row)]
  {
    RowTextsAt(rows);
    RowTextsAt(rows[index := row]);
  }

  lemma SameFingerprintSameKey(rows: seq<PricePeriodPrice>, index: nat, row: PricePeriodPrice)
    requires index < |rows| && row.sku == rows[index].sku
    requires FingerprintRows(rows[index := row]) == FingerprintRows(rows)
    ensures KeyOf(row) == KeyOf(rows[index])
  {
    var s, t := Split('|', RowText(row)), Split('|', RowText(rows[index]));
    forall segment ensures multiset(s)[segment] == multiset(t)[segment] {
      SameFingerprintSameSegments(rows, index, row, segment);
    }
    assert multiset(s) == multiset(t);
    SameSegmentsSameText(KeyOf(row), KeyOf(rows[index]));
  }

  lemma SameKeySameTexts(rows: seq<PricePeriodPrice>, index: nat, row: PricePeriodPrice)
    requires index < |rows| && KeyOf(row) == KeyOf(rows[index])
    ensures RowTexts(rows[index := row]) == RowTexts(rows)
  {
    RowTextsAt(rows);
    RowTextsUpdate(rows, index, row);
  }

  /** Changing the prices of one row, whatever the SKUs, changes the fingerprint. */
  lemma EditedPricesShow(rows: seq<PricePeriodPrice>, index: nat, row: PricePeriodPrice)
    requires index < |rows| && row.sku == rows[index].sku
    ensures FingerprintRows(rows[index := row]) == FingerprintRows(rows) <==> KeyOf(row) == KeyOf(rows[index])
  {
    if KeyOf(row) == KeyOf(rows[index]) {
      SameKeySameTexts(rows, index, row);
    } else if FingerprintRows(rows[index := row]) == FingerprintRows(rows) {
      SameFingerprintSameKey(rows, index, row);
    }
  }
}
