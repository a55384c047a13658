/** Sanitising and redacting the JSON of an audit entry (apps/web/lib/settings.ts). */
module AuditJson {
  import opened Sequences
  import opened NumberText

  /** What `unknown` data looks like to the three functions. `Foreign` is anything that is neither a
      JSON primitive nor an object: undefined, a function, a symbol, a bigint. */
  datatype Value =
    | Null
    | Text(text: string)
    | Num(number: Number)
    | Bool(truth: bool)
    | Array(items: seq<Value>)
    | Record(entries: seq<Entry>)
    | Foreign

  /** An own property; a record lists them in the order of `Object.entries`. */
  datatype Entry = Entry(key: string, value: Value)

  predicate IsJsonValue(v: Value) {
    match v
    case Array(items) => forall i :: 0 <= i < |items| ==> IsJsonValue(items[i])
    case Record(entries) => forall i :: 0 <= i < |entries| ==> IsJsonValue(entries[i].value)
    case Foreign => false
    case _ => true
  }

  // ----------------------------------------------------------------------------------------
  // Sanitising
  // ----------------------------------------------------------------------------------------

  function SafeJsonObject(v: Value): (safe: Value)
    ensures safe.Record?
    decreases v
  {
    if v.Record? then Record(SafeEntries(v.entries)) else Record([])
  }

  function SafeEntries(entries: seq<Entry>): seq<Entry>
    decreases entries
  {
    if entries == [] then []
    else
      var Entry(key, item) := entries[0];
      var rest := SafeEntries(entries[1..]);
      match item
      case Array(items) => [Entry(key, Array(JsonItems(items)))] + rest
      case Record(_) => [Entry(key, SafeJsonObject(item))] + rest
      case Foreign => rest
      case _ => [Entry(key, item)] + rest
  }

  function JsonItems(items: seq<Value>): seq<Value> {
    Filter(IsJsonValue, items)
  }

  lemma {:induction false} SafeIsJson(v: Value)
    ensures IsJsonValue(SafeJsonObject(v))
    decreases v
  {
    if v.Record? { SafeEntriesAreJson(v.entries); }
  }

  lemma {:induction false} SafeEntriesAreJson(entries: seq<Entry>)
    ensures forall i :: 0 <= i < |SafeEntries(entries)| ==> IsJsonValue(SafeEntries(entries)[i].value)
    decreases entries
  {
    if entries != [] {
      SafeEntriesAreJson(entries[1..]);
      if entries[0].value.Record? { SafeIsJson(entries[0].value); }
    }
  }

  predicate NotForeign(e: Entry) {
    !e.value.Foreign?
  }

  lemma FirstStays(entries: seq<Entry>)
    requires entries != [] && NotForeign(entries[0])
    requires entries[0].value.Array? ==> JsonItems(entries[0].value.items) == entries[0].value.items
    requires entries[0].value.Record? ==> SafeJsonObject(entries[0].value) == entries[0].value
    ensures SafeEntries(entries) == [entries[0]] + SafeEntries(entries[1..])
  {
  }

  lemma {:induction false} SafeEntriesKeepJson(entries: seq<Entry>)
    requires forall i :: 0 <= i < |entries| ==> IsJsonValue(entries[i].value)
    ensures SafeEntries(entries) == entries
    decreases entries
  {
    if entries != [] {
      SafeEntriesKeepJson(entries[1..]);
      var item := entries[0].value;
      assert IsJsonValue(item);
      if item.Array? { FilterAll(IsJsonValue, item.items); }
      if item.Record? { SafeEntriesKeepJson(item.entries); }
      FirstStays(entries);
      assert entries == [entries[0]] + entries[1..];
    }
  }

  /** Sanitising changes nothing exactly when its argument is an object of JSON values already;
      what it returns always is one, so sanitising twice is sanitising once. */
  lemma SafeChangesOnlyForeignData(v: Value)
    ensures IsJsonValue(SafeJsonObject(v))
    ensures SafeJsonObject(v) == v <==> v.Record? && IsJsonValue(v)
    ensures SafeJsonObject(SafeJsonObject(v)) == SafeJsonObject(v)
    ensures !v.Record? ==> SafeJsonObject(v) == Record([])
  {
    SafeIsJson(v);
    SafeEntriesKeepJson(SafeJsonObject(v).entries);
    if v.Record? && IsJsonValue(v) { SafeEntriesKeepJson(v.entries); }
  }

  /** How an entry survives sanitising: under its key, unchanged if it is JSON, an array with all its
      JSON items, an object sanitised in turn. */
  predicate KeptAs(e: Entry, safe: Entry) {
    && safe.key == e.key
    && (IsJsonValue(e.value) ==> safe.value == e.value)
    && (e.value.Array? ==> safe.value == Array(Filter(IsJsonValue, e.value.items)))
    && (e.value.Record? ==> safe.value == SafeJsonObject(e.value))
  }

  /** Sanitising loses no more than it must: exactly the entries with data survive, in their order. */
  lemma {:induction false} SafeKeepsTheRest(entries: seq<Entry>)
    ensures AllKeptAs(Filter(NotForeign, entries), SafeEntries(entries))
  {
    if entries != [] {
      SafeKeepsTheRest(entries[1..]);
      var kept, safe := Filter(NotForeign, entries[1..]), SafeEntries(entries[1..]);
      if NotForeign(entries[0]) {
        FirstIsKept(entries);
        OneMoreKept(entries[0], SafeEntries(entries)[0], kept, safe);
        assert SafeEntries(entries) == [SafeEntries(entries)[0]] + safe;
      } else {
        assert Filter(NotForeign, entries) == kept && SafeEntries(entries) == safe;
      }
    }
  }

  predicate AllKeptAs(kept: seq<Entry>, safe: seq<Entry>) {
    |safe| == |kept| && forall i :: 0 <= i < |kept| ==> KeptAs(kept[i], safe[i])
  }

  lemma OneMoreKept(e: Entry, f: Entry, kept: seq<Entry>, safe: seq<Entry>)
    requires KeptAs(e, f) && AllKeptAs(kept, safe)
    ensures AllKeptAs([e] + kept, [f] + safe)
  {
  }

  lemma FirstIsKept(entries: seq<Entry>)
    requires entries != [] && NotForeign(entries[0])
    ensures SafeEntries(entries) != [] && KeptAs(entries[0], SafeEntries(entries)[0])
    ensures SafeEntries(entries)[1..] == SafeEntries(entries[1..])
  {
    var item := entries[0].value;
    if item.Array? && IsJsonValue(item) { FilterAll(IsJsonValue, item.items); }
    if item.Record? { SafeChangesOnlyForeignData(item); }
  }

  // ----------------------------------------------------------------------------------------
  // Sanitising never makes a value larger
  // ----------------------------------------------------------------------------------------

  function Size(v: Value): (size: nat)
    ensures size >= 1
    decreases v
  {
    match v
    case Array(items) => 1 + ItemsSize(items)
    case Record(entries) => 1 + EntriesSize(entries)
    case _ => 1
  }

  function ItemsSize(items: seq<Value>): nat
    decreases items
  {
    if items == [] then 0 else Size(items[0]) + ItemsSize(items[1..])
  }

  function EntriesSize(entries: seq<Entry>): nat
    decreases entries
  {
    if entries == [] then 0 else 1 + Size(entries[0].value) + EntriesSize(entries[1..])
  }

  lemma {:induction false} SafeShrinks(v: Value)
    requires v.Record?
    ensures Size(SafeJsonObject(v)) <= Size(v)
    decreases v
  {
    SafeEntriesShrink(v.entries);
  }

  lemma {:induction false} SafeEntriesShrink(entries: seq<Entry>)
    ensures EntriesSize(SafeEntries(entries)) <= EntriesSize(entries)
    decreases entries
  {
    if entries != [] {
      var item := entries[0].value;
      var rest := SafeEntries(entries[1..]);
      SafeEntriesShrink(entries[1..]);
      match item {
        case Array(items) =>
          JsonItemsShrink(items);
          var kept := Entry(entries[0].key, Array(JsonItems(items)));
          assert ([kept] + rest)[1..] == rest;
        case Record(_) =>
          SafeShrinks(item);
          var kept := Entry(entries[0].key, SafeJsonObject(item));
          assert ([kept] + rest)[1..] == rest;
        case Foreign =>
        case _ =>
          assert ([entries[0]] + rest)[1..] == rest;
      }
    }
  }

  lemma {:induction false} JsonItemsShrink(items: seq<Value>)
    ensures ItemsSize(JsonItems(items)) <= ItemsSize(items)
  {
    if items != [] {
      JsonItemsShrink(items[1..]);
      var rest := JsonItems(items[1..]);
      if IsJsonValue(items[0]) {
        assert JsonItems(items) == [items[0]] + rest && JsonItems(items)[1..] == rest;
      } else {
        assert JsonItems(items) == rest;
      }
    }
  }

  // ----------------------------------------------------------------------------------------
  // Redacting
  // ----------------------------------------------------------------------------------------

  const HIDDEN := "[\U{0111}\U{00E3} \U{1EA9}n]"

  const SENSITIVE: seq<string> := [
    "phone", "address", "token", "cookie", "credential", "password", "secret",
    "rawmessage", "rawtext", "avatar", "externaluserid"
  ]

  function LowerCase(c: char): char {
    if 'A' <= c <= 'Z' then c - 'A' + 'a' else c
  }

  /** The lower-case word occurs in the key at position `at`, in any case. */
  predicate OccursAt(word: string, key: string, at: nat) {
    at + |word| <= |key| && forall i :: 0 <= i < |word| ==> LowerCase(key[at + i]) == word[i]
  }

  predicate Occurs(word: string, key: string) {
    exists at :: 0 <= at <= |key| && OccursAt(word, key, at)
  }

  /** `SENSITIVE_AUDIT_KEY.test(key)` */
  predicate Sensitive(key: string) {
    exists w :: 0 <= w < |SENSITIVE| && Occurs(SENSITIVE[w], key)
  }

  lemma {:induction false} EntriesAreSmaller(entries: seq<Entry>)
    ensures forall i :: 0 <= i < |entries| ==> Size(entries[i].value) < EntriesSize(entries)
    decreases |entries|
  {
    if entries != [] {
      EntriesAreSmaller(entries[1..]);
      assert forall i :: 1 <= i < |entries| ==> entries[i] == entries[1..][i - 1];
    }
  }

  lemma {:induction false} ItemsAreNoLarger(items: seq<Value>)
    ensures forall i :: 0 <= i < |items| ==> Size(items[i]) <= ItemsSize(items)
    decreases |items|
  {
    if items != [] {
      ItemsAreNoLarger(items[1..]);
      assert forall i :: 1 <= i < |items| ==> items[i] == items[1..][i - 1];
    }
  }

  function RedactAuditObject(v: Value): (redacted: Value)
    requires v.Record?
    ensures redacted.Record?
    decreases Size(v), 0
  {
    EntriesAreSmaller(v.entries);
    Record(seq(|v.entries|, i requires 0 <= i < |v.entries| =>
      Entry(v.entries[i].key, Shown(v.entries[i].key, v.entries[i].value))))
  }

  function Shown(key: string, item: Value): Value
    decreases Size(item), 2
  {
    if Sensitive(key) then Text(HIDDEN)
    else if item.Array? then
      ItemsAreNoLarger(item.items);
      Array(seq(|item.items|, i requires 0 <= i < |item.items| => ShownItem(item.items[i])))
    else if item.Record? then RedactRecord(item)
    else item
  }

  /** Only the records among the items are redacted; an array among them stays as it is. */
  function ShownItem(item: Value): Value
    decreases Size(item), 2
  {
    if item.Record? then RedactRecord(item) else item
  }

  /** `redactAuditObject(safeJsonObject(item))`: it terminates because sanitising shrinks. */
  function RedactRecord(item: Value): (redacted: Value)
    requires item.Record?
    ensures redacted.Record?
    decreases Size(item), 1
  {
    SafeShrinks(item);
    RedactAuditObject(SafeJsonObject(item))
  }

  /** On JSON, which is all redaction is ever given, its own sanitising does nothing. */
  lemma InnerSanitisingIsRedundant(item: Value)
    requires item.Record? && IsJsonValue(item)
    ensures RedactRecord(item) == RedactAuditObject(item)
  {
    SafeChangesOnlyForeignData(item);
  }

  // ----------------------------------------------------------------------------------------
  // What redaction is: the only covered JSON like its argument
  // ----------------------------------------------------------------------------------------

  /** Every sensitive key that redaction reaches hides its value. */
  predicate Covered(v: Value) {
    match v
    case Record(entries) => forall i :: 0 <= i < |entries| ==>
      if Sensitive(entries[i].key) then entries[i].value == Text(HIDDEN) else Covered(entries[i].value)
    case Array(items) => forall i :: 0 <= i < |items| ==> items[i].Array? || Covered(items[i])
    case _ => true
  }

  /** Equal but for the values of the sensitive keys that redaction reaches. */
  predicate Alike(v: Value, w: Value) {
    match (v, w)
    case (Record(s), Record(t)) =>
      && |s| == |t|
      && forall i :: 0 <= i < |s| ==>
           s[i].key == t[i].key && (Sensitive(s[i].key) || Alike(s[i].value, t[i].value))
    case (Array(s), Array(t)) =>
      && |s| == |t|
      && forall i :: 0 <= i < |s| ==> if s[i].Array? then s[i] == t[i] else Alike(s[i], t[i])
    case _ => v == w
  }

  lemma {:induction false} RedactedIsCovered(v: Value)
    requires v.Record? && IsJsonValue(v)
    ensures IsJsonValue(RedactAuditObject(v)) && Covered(RedactAuditObject(v))
    decreases v, 0
  {
    forall i | 0 <= i < |v.entries|
      ensures IsJsonValue(RedactAuditObject(v).entries[i].value)
      ensures !Sensitive(v.entries[i].key) ==> Covered(RedactAuditObject(v).entries[i].value)
    {
      ShownIsCovered(v.entries[i].key, v.entries[i].value);
    }
  }

  lemma {:induction false} ShownIsCovered(key: string, item: Value)
    requires IsJsonValue(item)
    ensures IsJsonValue(Shown(key, item)) && Covered(Shown(key, item))
    decreases item, 1
  {
    if !Sensitive(key) {
      match item {
        case Array(items) =>
          forall i | 0 <= i < |items|
            ensures IsJsonValue(ShownItem(items[i]))
            ensures ShownItem(items[i]).Array? || Covered(ShownItem(items[i]))
          {
            if items[i].Record? {
              InnerSanitisingIsRedundant(items[i]);
              RedactedIsCovered(items[i]);
            }
          }
        case Record(_) =>
          InnerSanitisingIsRedundant(item);
          RedactedIsCovered(item);
        case _ =>
      }
    }
  }

  lemma {:induction false} CoveredIsRedacted(v: Value)
    requires v.Record? && IsJsonValue(v) && Covered(v)
    ensures RedactAuditObject(v) == v
    decreases v, 0
  {
    forall i | 0 <= i < |v.entries| ensures Shown(v.entries[i].key, v.entries[i].value) == v.entries[i].value {
      if !Sensitive(v.entries[i].key) { CoveredIsShown(v.entries[i].key, v.entries[i].value); }
    }
    assert RedactAuditObject(v).entries == v.entries;
  }

  lemma {:induction false} CoveredIsShown(key: string, item: Value)
    requires !Sensitive(key) && IsJsonValue(item) && Covered(item)
    ensures Shown(key, item) == item
    decreases item, 1
  {
    match item {
      case Array(items) =>
        forall i | 0 <= i < |items| ensures ShownItem(items[i]) == items[i] {
          if items[i].Record? {
            InnerSanitisingIsRedundant(items[i]);
            CoveredIsRedacted(items[i]);
          }
        }
        assert Shown(key, item).items == items;
      case Record(_) =>
        InnerSanitisingIsRedundant(item);
        CoveredIsRedacted(item);
      case _ =>
    }
  }

  /** Two audit objects look the same after redaction exactly when they differ in nothing but the
      values of sensitive keys. */
  lemma {:induction false} SameRedactionIsAlike(v: Value, w: Value)
    requires v.Record? && w.Record? && IsJsonValue(v) && IsJsonValue(w)
    ensures RedactAuditObject(v) == RedactAuditObject(w) <==> Alike(v, w)
    decreases v, 0
  {
    var s, t := v.entries, w.entries;
    if |s| == |t| {
      forall i | 0 <= i < |s|
        ensures Shown(s[i].key, s[i].value) == Shown(s[i].key, t[i].value)
           <==> Sensitive(s[i].key) || Alike(s[i].value, t[i].value)
      {
        if !Sensitive(s[i].key) { SameShownIsAlike(s[i].key, s[i].value, t[i].value); }
      }
      SameEntries(v, w);
    } else {
      assert |RedactAuditObject(v).entries| == |s| && |RedactAuditObject(w).entries| == |t|;
    }
  }

  lemma SameEntries(v: Value, w: Value)
    requires v.Record? && w.Record? && |v.entries| == |w.entries|
    ensures RedactAuditObject(v) == RedactAuditObject(w) <==>
      forall i :: 0 <= i < |v.entries| ==>
        && v.entries[i].key == w.entries[i].key
        && Shown(v.entries[i].key, v.entries[i].value) == Shown(v.entries[i].key, w.entries[i].value)
  {
    var a, b := RedactAuditObject(v).entries, RedactAuditObject(w).entries;
    if RedactAuditObject(v) == RedactAuditObject(w) {
      forall i | 0 <= i < |v.entries|
        ensures v.entries[i].key == w.entries[i].key
        ensures Shown(v.entries[i].key, v.entries[i].value) == Shown(v.entries[i].key, w.entries[i].value)
      {
        assert a[i] == b[i];
      }
    } else {
      assert a != b;
    }
  }

  lemma {:induction false} SameShownIsAlike(key: string, v: Value, w: Value)
    requires !Sensitive(key) && IsJsonValue(v) && IsJsonValue(w)
    ensures Shown(key, v) == Shown(key, w) <==> Alike(v, w)
    decreases v, 1
  {
    match (v, w) {
      case (Record(_), Record(_)) =>
        InnerSanitisingIsRedundant(v);
        InnerSanitisingIsRedundant(w);
        SameRedactionIsAlike(v, w);
      case (Array(s), Array(t)) =>
        if |s| == |t| {
          forall i | 0 <= i < |s|
            ensures ShownItem(s[i]) == ShownItem(t[i]) <==> if s[i].Array? then s[i] == t[i] else Alike(s[i], t[i])
          {
            SameItemIsAlike(s[i], t[i]);
          }
        }
        SameItems(key, s, t);
      case _ =>
    }
  }

  lemma {:induction false} SameItemIsAlike(v: Value, w: Value)
    requires IsJsonValue(v) && IsJsonValue(w)
    ensures ShownItem(v) == ShownItem(w) <==> if v.Array? then v == w else Alike(v, w)
    decreases v, 1
  {
    if v.Record? { InnerSanitisingIsRedundant(v); }
    if w.Record? { InnerSanitisingIsRedundant(w); }
    if v.Record? && w.Record? { SameRedactionIsAlike(v, w); }
  }

  lemma SameItems(key: string, s: seq<Value>, t: seq<Value>)
    requires !Sensitive(key)
    ensures Shown(key, Array(s)) == Shown(key, Array(t)) <==>
      |s| == |t| && forall i :: 0 <= i < |s| ==> ShownItem(s[i]) == ShownItem(t[i])
  {
    var a, b := Shown(key, Array(s)).items, Shown(key, Array(t)).items;
    if a == b {
      forall i | 0 <= i < |s| ensures ShownItem(s[i]) == ShownItem(t[i]) {
        assert a[i] == b[i];
      }
    }
  }

  /** Redaction hides every sensitive value it reaches, changes nothing else, and only it does: the
      result is the one covered JSON value like the argument. */
  lemma RedactionCharacterised(v: Value, w: Value)
    requires v.Record? && IsJsonValue(v)
    ensures w == RedactAuditObject(v) <==> IsJsonValue(w) && Covered(w) && Alike(v, w)
  {
    var redacted := RedactAuditObject(v);
    RedactedIsCovered(v);
    CoveredIsRedacted(redacted);
    SameRedactionIsAlike(v, redacted);
    if w.Record? && IsJsonValue(w) && Covered(w) {
      CoveredIsRedacted(w);
      SameRedactionIsAlike(v, w);
    }
  }

  lemma RedactionIsIdempotent(v: Value)
    requires v.Record? && IsJsonValue(v)
    ensures RedactAuditObject(RedactAuditObject(v)) == RedactAuditObject(v)
    ensures RedactRecord(RedactAuditObject(v)) == RedactAuditObject(v)
  {
    RedactedIsCovered(v);
    CoveredIsRedacted(RedactAuditObject(v));
    InnerSanitisingIsRedundant(RedactAuditObject(v));
  }

  // ----------------------------------------------------------------------------------------
  // What redaction reaches
  // ----------------------------------------------------------------------------------------

  /** No sensitive key anywhere shows a value. */
  predicate Clean(v: Value) {
    match v
    case Record(entries) => forall i :: 0 <= i < |entries| ==>
      if Sensitive(entries[i].key) then entries[i].value == Text(HIDDEN) else Clean(entries[i].value)
    case Array(items) => forall i :: 0 <= i < |items| ==> Clean(items[i])
    case _ => true
  }

  /** The arrays that are items of another array are clean. */
  predicate NestedArraysClean(v: Value) {
    match v
    case Record(entries) => forall i :: 0 <= i < |entries| ==>
      Sensitive(entries[i].key) || NestedArraysClean(entries[i].value)
    case Array(items) => forall i :: 0 <= i < |items| ==>
      if items[i].Array? then Clean(items[i]) else NestedArraysClean(items[i])
    case _ => true
  }

  /** Redaction leaves nothing sensitive showing exactly when the arrays inside arrays, which it does
      not look into, held nothing sensitive to begin with. */
  lemma {:induction false} RedactionIsCompleteOutsideNestedArrays(v: Value)
    requires v.Record? && IsJsonValue(v)
    ensures Clean(RedactAuditObject(v)) <==> NestedArraysClean(v)
    decreases v, 0
  {
    var shown := RedactAuditObject(v).entries;
    forall i | 0 <= i < |v.entries|
      ensures shown[i].key == v.entries[i].key
      ensures if Sensitive(v.entries[i].key) then shown[i].value == Text(HIDDEN)
              else Clean(shown[i].value) <==> NestedArraysClean(v.entries[i].value)
    {
      assert shown[i].value == Shown(v.entries[i].key, v.entries[i].value);
      if !Sensitive(v.entries[i].key) { ShownIsComplete(v.entries[i].key, v.entries[i].value); }
    }
    CleanPointwise(v, shown);
  }

  lemma CleanPointwise(v: Value, shown: seq<Entry>)
    requires v.Record? && |shown| == |v.entries|
    requires forall i :: 0 <= i < |v.entries| ==> shown[i].key == v.entries[i].key
    requires forall i :: 0 <= i < |v.entries| ==>
      if Sensitive(v.entries[i].key) then shown[i].value == Text(HIDDEN)
      else Clean(shown[i].value) <==> NestedArraysClean(v.entries[i].value)
    ensures Clean(Record(shown)) <==> NestedArraysClean(v)
  {
  }

  lemma {:induction false} ShownIsComplete(key: string, item: Value)
    requires !Sensitive(key) && IsJsonValue(item)
    ensures Clean(Shown(key, item)) <==> NestedArraysClean(item)
    decreases item, 1
  {
    match item {
      case Array(items) =>
        forall i | 0 <= i < |items|
          ensures Clean(ShownItem(items[i])) <==> if items[i].Array? then Clean(items[i]) else NestedArraysClean(items[i])
        {
          if items[i].Record? {
            InnerSanitisingIsRedundant(items[i]);
            RedactionIsCompleteOutsideNestedArrays(items[i]);
          }
        }
        assert |Shown(key, item).items| == |items|;
        assert forall i :: 0 <= i < |items| ==> Shown(key, item).items[i] == ShownItem(items[i]);
      case Record(_) =>
        InnerSanitisingIsRedundant(item);
        RedactionIsCompleteOutsideNestedArrays(item);
      case _ =>
    }
  }

  /** The character, in either case. */
  predicate EitherCase(c: char, lower: char) {
    c == lower || c as int == lower as int - 32
  }

  predicate Reads(key: string, at: nat, word: string) {
    at + |word| <= |key| && forall i :: 0 <= i < |word| ==> EitherCase(key[at + i], word[i])
  }

  /** A key is sensitive exactly when one of these words stands in it, anywhere and in any case. */
  lemma SensitiveKeys(key: string)
    ensures Sensitive(key) <==> exists at: nat, word :: Reads(key, at, word) && word in [
      "phone", "address", "token", "cookie", "credential", "password", "secret",
      "rawmessage", "rawtext", "avatar", "externaluserid"]
  {
    forall w, at: nat | 0 <= w < |SENSITIVE| && at <= |key|
      ensures OccursAt(SENSITIVE[w], key, at) <==> Reads(key, at, SENSITIVE[w])
    {
      WordsAreLowerCase(w);
      OccursMeansReads(SENSITIVE[w], key, at);
    }
    if at: nat, word :| Reads(key, at, word) && word in SENSITIVE {
      var w :| 0 <= w < |SENSITIVE| && SENSITIVE[w] == word;
      assert OccursAt(SENSITIVE[w], key, at);
    }
    if Sensitive(key) {
      var w :| 0 <= w < |SENSITIVE| && Occurs(SENSITIVE[w], key);
      var at :| 0 <= at <= |key| && OccursAt(SENSITIVE[w], key, at);
      assert Reads(key, at, SENSITIVE[w]);
    }
  }

  predicate LowerCaseWord(word: string) {
    forall i :: 0 <= i < |word| ==> 'a' <= word[i] <= 'z'
  }

  lemma WordsAreLowerCase(w: nat)
    requires w < |SENSITIVE|
    ensures LowerCaseWord(SENSITIVE[w])
  {
  }

  lemma OccursMeansReads(word: string, key: string, at: nat)
    requires LowerCaseWord(word)
    ensures OccursAt(word, key, at) <==> Reads(key, at, word)
  {
  }

  /** What stands in place of a sensitive value. */
  lemma SensitiveValueHidden(key: string, value: Value)
    requires Sensitive(key)
    ensures RedactAuditObject(Record([Entry(key, value)])) == Record([Entry(key, Text("[\U{0111}\U{00E3} \U{1EA9}n]"))])
  {
    assert RedactAuditObject(Record([Entry(key, value)])).entries == [Entry(key, Text(HIDDEN))];
  }

  /** An array between a record and the array holding it is enough for a phone number to show. */
  lemma NestedArraysStayVisible(number: string)
    requires number != HIDDEN
    ensures var contact := Record([Entry("phone", Text(number))]);
      var v := Record([Entry("rows", Array([Array([contact])]))]);
      IsJsonValue(v) && !Clean(RedactAuditObject(v))
  {
    var contact := Record([Entry("phone", Text(number))]);
    var rows := Array([Array([contact])]);
    var v := Record([Entry("rows", rows)]);
    assert Reads("phone", 0, "phone");
    SensitiveKeys("phone");
    assert contact.entries[0].key == "phone";
    assert !Clean(contact);
    assert Array([contact]).items[0] == contact;
    assert !Clean(Array([contact]));
    assert rows.items[0] == Array([contact]);
    assert !NestedArraysClean(rows);
    RowsIsNotSensitive();
    assert v.entries[0] == Entry("rows", rows);
    assert !NestedArraysClean(v);
    assert IsJsonValue(contact);
    assert IsJsonValue(Array([contact]));
    assert IsJsonValue(rows);
    RedactionIsCompleteOutsideNestedArrays(v);
  }

  lemma RowsIsNotSensitive()
    ensures !Sensitive("rows")
  {
    assert forall w :: 0 <= w < |SENSITIVE| ==> |SENSITIVE[w]| > |"rows"|;
  }
}
