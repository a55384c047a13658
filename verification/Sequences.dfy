/** Sequence operations the rest of the model shares: `Option`, order-preserving filtering
    (`Array.prototype.filter`) and stable sorting (`Array.prototype.sort`). */
module Sequences {

  datatype Option<+T> = None | Some(value: T)

  function Filter<T>(keep: T -> bool, s: seq<T>): (r: seq<T>)
    ensures |r| <= |s|
    ensures forall x :: x in r ==> x in s && keep(x)
    ensures forall x :: x in s && keep(x) ==> x in r
  {
    if s == [] then [] else (if keep(s[0]) then [s[0]] else []) + Filter(keep, s[1..])
  }

  lemma {:induction false} FilterAppend<T>(keep: T -> bool, s: seq<T>, t: seq<T>)
    ensures Filter(keep, s + t) == Filter(keep, s) + Filter(keep, t)
  {
    if s == [] {
      assert s + t == t;
    } else {
      assert (s + t)[1..] == s[1..] + t;
      FilterAppend(keep, s[1..], t);
    }
  }

  lemma FilterSnoc<T>(keep: T -> bool, s: seq<T>, x: T)
    ensures Filter(keep, s + [x]) == Filter(keep, s) + if keep(x) then [x] else []
  {
    FilterAppend(keep, s, [x]);
  }

  /** One more element, as a loop meets it. */
  lemma FilterNext<T>(keep: T -> bool, s: seq<T>, i: nat)
    requires i < |s|
    ensures Filter(keep, s[..i + 1]) == Filter(keep, s[..i]) + if keep(s[i]) then [s[i]] else []
  {
    assert s[..i + 1] == s[..i] + [s[i]];
    FilterSnoc(keep, s[..i], s[i]);
  }

  /** Filtering depends only on what the predicate says about the elements. */
  lemma FilterCongruent<T>(keep: T -> bool, keep': T -> bool, s: seq<T>)
    requires forall x :: x in s ==> keep(x) == keep'(x)
    ensures Filter(keep, s) == Filter(keep', s)
  {
  }

  lemma FilterAll<T>(keep: T -> bool, s: seq<T>)
    requires forall x :: x in s ==> keep(x)
    ensures Filter(keep, s) == s
  {
  }

  lemma FilterNone<T>(keep: T -> bool, s: seq<T>)
    requires forall x :: x in s ==> !keep(x)
    ensures Filter(keep, s) == []
  {
  }

  lemma {:induction false} FilterFilter<T>(p: T -> bool, q: T -> bool, both: T -> bool, s: seq<T>)
    requires forall x :: x in s ==> both(x) == (p(x) && q(x))
    ensures Filter(p, Filter(q, s)) == Filter(both, s)
  {
    if s != [] {
      FilterFilter(p, q, both, s[1..]);
      var rest := Filter(q, s[1..]);
      if q(s[0]) {
        assert ([s[0]] + rest)[1..] == rest;
      } else {
        assert [] + rest == rest;
      }
    }
  }

  /** Filtering never makes two elements share a key. */
  lemma {:induction false} FilterKeepsDistinct<T, K>(key: T -> K, keep: T -> bool, s: seq<T>)
    requires forall i, j :: 0 <= i < j < |s| ==> key(s[i]) != key(s[j])
    ensures forall i, j :: 0 <= i < j < |Filter(keep, s)| ==> key(Filter(keep, s)[i]) != key(Filter(keep, s)[j])
  {
    if s != [] {
      var rest := Filter(keep, s[1..]);
      FilterKeepsDistinct(key, keep, s[1..]);
      forall i | 0 <= i < |rest| ensures key(rest[i]) != key(s[0]) {
        assert rest[i] in s[1..];
      }
      assert Filter(keep, s) == (if keep(s[0]) then [s[0]] else []) + rest;
    }
  }

  function Sum<T>(f: T -> nat, s: seq<T>): nat {
    if s == [] then 0 else f(s[0]) + Sum(f, s[1..])
  }

  lemma {:induction false} SumAppend<T>(f: T -> nat, s: seq<T>, t: seq<T>)
    ensures Sum(f, s + t) == Sum(f, s) + Sum(f, t)
  {
    if s == [] {
      assert s + t == t;
    } else {
      assert (s + t)[1..] == s[1..] + t;
      SumAppend(f, s[1..], t);
    }
  }

  lemma SumNext<T>(f: T -> nat, s: seq<T>, x: T)
    ensures Sum(f, s + [x]) == Sum(f, s) + f(x)
  {
    SumAppend(f, s, [x]);
  }

  lemma {:induction false} SumWithout<T>(f: T -> nat, s: seq<T>, k: nat)
    requires k < |s|
    ensures Sum(f, s) == f(s[k]) + Sum(f, s[..k] + s[k + 1..])
  {
    var rest := s[..k] + s[k + 1..];
    if k == 0 {
      assert rest == s[1..];
    } else {
      SumWithout(f, s[1..], k - 1);
      assert rest[0] == s[0] && rest[1..] == s[1..][..k - 1] + s[1..][k..];
    }
  }

  lemma SumOfUpdate<T>(f: T -> nat, s: seq<T>, k: nat, x: T)
    requires k < |s|
    ensures Sum(f, s[k := x]) + f(s[k]) == Sum(f, s) + f(x)
  {
    SumWithout(f, s, k);
    SumWithout(f, s[k := x], k);
    assert s[k := x][..k] + s[k := x][k + 1..] == s[..k] + s[k + 1..];
  }

  lemma BagWithout<T>(s: seq<T>, k: nat)
    requires k < |s|
    ensures multiset(s[..k] + s[k + 1..]) == multiset(s) - multiset{s[k]}
  {
    assert s == s[..k] + [s[k]] + s[k + 1..];
  }

  lemma RestOfBag<T>(s: seq<T>, t: seq<T>, k: nat)
    requires s != [] && multiset(s) == multiset(t) && k < |t| && t[k] == s[0]
    ensures multiset(s[1..]) == multiset(t[..k] + t[k + 1..])
  {
    BagWithout(s, 0);
    BagWithout(t, k);
    assert s[..0] + s[1..] == s[1..];
  }

  /** A sum does not depend on the order of its terms. */
  lemma {:induction false} SumOfBag<T>(f: T -> nat, s: seq<T>, t: seq<T>)
    requires multiset(s) == multiset(t)
    ensures Sum(f, s) == Sum(f, t)
    decreases |s|
  {
    if s == [] {
      assert |multiset(t)| == 0;
    } else {
      SameElements(s, t);
      assert s[0] in t;
      var k :| 0 <= k < |t| && t[k] == s[0];
      RestOfBag(s, t, k);
      SumOfBag(f, s[1..], t[..k] + t[k + 1..]);
      SumWithout(f, t, k);
    }
  }

  lemma {:induction false} SumPointwise<S, T>(f: S -> nat, s: seq<S>, g: T -> nat, t: seq<T>)
    requires |s| == |t| && forall i :: 0 <= i < |s| ==> f(s[i]) == g(t[i])
    ensures Sum(f, s) == Sum(g, t)
  {
    if s != [] { SumPointwise(f, s[1..], g, t[1..]); }
  }

  function Flatten<T>(parts: seq<seq<T>>): seq<T> {
    if parts == [] then [] else parts[0] + Flatten(parts[1..])
  }

  lemma {:induction false} FlattenSnoc<T>(parts: seq<seq<T>>, last: seq<T>)
    ensures Flatten(parts + [last]) == Flatten(parts) + last
  {
    if parts == [] {
      assert parts + [last] == [last];
    } else {
      FlattenSnoc(parts[1..], last);
      assert (parts + [last])[1..] == parts[1..] + [last];
    }
  }

  lemma FlattenNext<T>(parts: seq<seq<T>>, k: nat)
    requires k < |parts|
    ensures Flatten(parts[..k + 1]) == Flatten(parts[..k]) + parts[k]
  {
    assert parts[..k + 1] == parts[..k] + [parts[k]];
    FlattenSnoc(parts[..k], parts[k]);
  }

  function KeptIn<T>(keep: T -> bool): seq<T> -> nat {
    (s: seq<T>) => |Filter(keep, s)|
  }

  lemma {:induction false} KeptInFlatten<T>(keep: T -> bool, parts: seq<seq<T>>)
    ensures |Filter(keep, Flatten(parts))| == Sum(KeptIn(keep), parts)
  {
    if parts != [] {
      KeptInFlatten(keep, parts[1..]);
      FilterAppend(keep, parts[0], Flatten(parts[1..]));
    }
  }

  // ----------------------------------------------------------------------------------------
  // Stable sorting
  // ----------------------------------------------------------------------------------------

  ghost predicate TotalPreorder<T(!new)>(leq: (T, T) -> bool) {
    && (forall a, b :: leq(a, b) || leq(b, a))
    && (forall a, b, c :: leq(a, b) && leq(b, c) ==> leq(a, c))
  }

  predicate Sorted<T>(leq: (T, T) -> bool, s: seq<T>) {
    forall i, j :: 0 <= i < j < |s| ==> leq(s[i], s[j])
  }

  /** Puts `x` in front of the first element that is not strictly before it. */
  function Insert<T>(leq: (T, T) -> bool, x: T, s: seq<T>): (r: seq<T>)
    ensures multiset(r) == multiset(s) + multiset{x}
    ensures |r| == |s| + 1
  {
    if s == [] then [x]
    else if leq(x, s[0]) then [x] + s
    else
      assert s == [s[0]] + s[1..];
      [s[0]] + Insert(leq, x, s[1..])
  }

  /** `Array.prototype.sort`: a stable sort, elements that tie keep their order. */
  function SortBy<T>(leq: (T, T) -> bool, s: seq<T>): (r: seq<T>)
    ensures multiset(r) == multiset(s)
    ensures |r| == |s|
  {
    if s == [] then []
    else
      assert s == [s[0]] + s[1..];
      Insert(leq, s[0], SortBy(leq, s[1..]))
  }

  lemma SameElements<T>(s: seq<T>, t: seq<T>)
    requires multiset(s) == multiset(t)
    ensures forall x :: x in s <==> x in t
  {
    forall x ensures x in s <==> x in t {
      assert x in multiset(s) <==> x in multiset(t);
    }
  }

  lemma {:induction false} InsertSorted<T(!new)>(leq: (T, T) -> bool, x: T, s: seq<T>)
    requires TotalPreorder(leq) && Sorted(leq, s)
    ensures Sorted(leq, Insert(leq, x, s))
  {
    if s != [] && !leq(x, s[0]) {
      InsertSorted(leq, x, s[1..]);
      var rest := Insert(leq, x, s[1..]);
      forall y | y in rest ensures leq(s[0], y) {
        assert y in multiset(rest);
        assert y in multiset(s[1..]) || y == x;
      }
    } else if s != [] {
      forall y | y in s ensures leq(x, y) {
        assert leq(x, s[0]);
        var j :| 0 <= j < |s| && s[j] == y;
        assert j == 0 || leq(s[0], s[j]);
      }
    }
  }

  lemma {:induction false} SortBySorted<T(!new)>(leq: (T, T) -> bool, s: seq<T>)
    requires TotalPreorder(leq)
    ensures Sorted(leq, SortBy(leq, s))
  {
    if s != [] {
      SortBySorted(leq, s[1..]);
      InsertSorted(leq, s[0], SortBy(leq, s[1..]));
    }
  }

  lemma {:induction false} FilterInsert<T(!new)>(leq: (T, T) -> bool, keep: T -> bool, x: T, s: seq<T>)
    requires TotalPreorder(leq) && Sorted(leq, s)
    ensures Filter(keep, Insert(leq, x, s))
         == if keep(x) then Insert(leq, x, Filter(keep, s)) else Filter(keep, s)
  {
    if s == [] {
    } else if leq(x, s[0]) {
      FilterCons(keep, x, s);
      InsertAtFront(leq, x, s, Filter(keep, s));
    } else {
      FilterInsert(leq, keep, x, s[1..]);
      FilterCons(keep, s[0], Insert(leq, x, s[1..]));
      InsertBehind(leq, x, if keep(s[0]) then [s[0]] else [], Filter(keep, s[1..]));
    }
  }

  lemma FilterCons<T>(keep: T -> bool, x: T, s: seq<T>)
    ensures Filter(keep, [x] + s) == (if keep(x) then [x] else []) + Filter(keep, s)
  {
    assert ([x] + s)[1..] == s;
  }

  lemma {:induction false} InsertBehind<T>(leq: (T, T) -> bool, x: T, front: seq<T>, s: seq<T>)
    requires front == [] || (|front| == 1 && !leq(x, front[0]))
    ensures Insert(leq, x, front + s) == front + Insert(leq, x, s)
  {
    if front == [] {
      assert front + s == s;
    } else {
      assert (front + s)[1..] == s;
    }
  }

  lemma InsertAtFront<T(!new)>(leq: (T, T) -> bool, x: T, s: seq<T>, part: seq<T>)
    requires TotalPreorder(leq) && Sorted(leq, s) && s != [] && leq(x, s[0])
    requires forall y :: y in part ==> y in s
    ensures Insert(leq, x, part) == [x] + part
  {
    if part != [] {
      assert part[0] in s;
      var j :| 0 <= j < |s| && s[j] == part[0];
      assert leq(s[0], s[0]) && leq(s[0], s[j]);
    }
  }

  /** Sorting and filtering commute: the heart of stability and of fairness. */
  lemma {:induction false} SortFilterCommute<T(!new)>(leq: (T, T) -> bool, keep: T -> bool, s: seq<T>)
    requires TotalPreorder(leq)
    ensures SortBy(leq, Filter(keep, s)) == Filter(keep, SortBy(leq, s))
  {
    if s != [] {
      SortFilterCommute(leq, keep, s[1..]);
      SortBySorted(leq, s[1..]);
      FilterInsert(leq, keep, s[0], SortBy(leq, s[1..]));
      if keep(s[0]) {
        assert Filter(keep, s)[1..] == Filter(keep, s[1..]);
      } else {
        assert Filter(keep, s) == Filter(keep, s[1..]);
      }
    }
  }

  /** The elements of `s` that tie with `x`, in the order of `s`. */
  function Ties<T>(leq: (T, T) -> bool, x: T, s: seq<T>): seq<T> {
    Filter(TiesWith(leq, x), s)
  }

  function TiesWith<T>(leq: (T, T) -> bool, x: T): T -> bool {
    (y: T) => leq(x, y) && leq(y, x)
  }

  lemma {:induction false} SortOfTies<T>(leq: (T, T) -> bool, s: seq<T>)
    requires forall a, b :: a in s && b in s ==> leq(a, b)
    ensures SortBy(leq, s) == s
  {
    if |s| >= 2 {
      SortOfTies(leq, s[1..]);
      assert leq(s[0], s[1]);
    }
  }

  lemma SortIsStable<T(!new)>(leq: (T, T) -> bool, s: seq<T>, x: T)
    requires TotalPreorder(leq)
    ensures Ties(leq, x, SortBy(leq, s)) == Ties(leq, x, s)
  {
    SortFilterCommute(leq, TiesWith(leq, x), s);
    SortOfTies(leq, Ties(leq, x, s));
  }

  /** Two sorted sequences that agree on every group of ties are the same sequence. */
  lemma {:induction false} SortedUnique<T(!new)>(leq: (T, T) -> bool, s: seq<T>, t: seq<T>)
    requires TotalPreorder(leq) && Sorted(leq, s) && Sorted(leq, t)
    requires forall x :: Ties(leq, x, s) == Ties(leq, x, t)
    ensures s == t
  {
    if s == [] {
      forall x ensures Ties(leq, x, t) == [] { assert Ties(leq, x, s) == []; }
      NoTies(leq, t);
    } else if t == [] {
      forall x ensures Ties(leq, x, s) == [] { assert Ties(leq, x, t) == []; }
      NoTies(leq, s);
    } else {
      TiesOfHead(leq, s);
      TiesOfHead(leq, t);
      assert s[0] in Ties(leq, s[0], t);
      assert t[0] in Ties(leq, t[0], s);
      HeadBelow(leq, s, t[0]);
      HeadBelow(leq, t, s[0]);
      assert Ties(leq, s[0], t)[0] == t[0];
      forall x ensures Ties(leq, x, s[1..]) == Ties(leq, x, t[1..]) {
        assert Ties(leq, x, s) == Ties(leq, x, t);
        var front := if leq(x, s[0]) && leq(s[0], x) then [s[0]] else [];
        assert Ties(leq, x, s) == front + Ties(leq, x, s[1..]);
        assert Ties(leq, x, t) == front + Ties(leq, x, t[1..]);
        assert Ties(leq, x, s)[|front|..] == Ties(leq, x, s[1..]);
        assert Ties(leq, x, t)[|front|..] == Ties(leq, x, t[1..]);
      }
      SortedUnique(leq, s[1..], t[1..]);
    }
  }

  lemma TiesOfHead<T(!new)>(leq: (T, T) -> bool, s: seq<T>)
    requires TotalPreorder(leq) && s != []
    ensures Ties(leq, s[0], s) != [] && Ties(leq, s[0], s)[0] == s[0]
  {
    var head := s[0];
    assert leq(head, head);
  }

  lemma NoTies<T(!new)>(leq: (T, T) -> bool, s: seq<T>)
    requires TotalPreorder(leq)
    requires forall x :: Ties(leq, x, s) == []
    ensures s == []
  {
    if s != [] { TiesOfHead(leq, s); }
  }

  lemma HeadBelow<T(!new)>(leq: (T, T) -> bool, s: seq<T>, x: T)
    requires TotalPreorder(leq) && Sorted(leq, s) && x in s
    ensures leq(s[0], x)
  {
    var head := s[0];
    assert leq(head, head);
    var j :| 0 <= j < |s| && s[j] == x;
  }

  /** What `SortBy` is, without saying how it sorts: the one sorted sequence that keeps every
      group of ties exactly as it was. */
  lemma SortByCharacterised<T(!new)>(leq: (T, T) -> bool, s: seq<T>, t: seq<T>)
    requires TotalPreorder(leq)
    ensures t == SortBy(leq, s) <==> Sorted(leq, t) && forall x :: Ties(leq, x, t) == Ties(leq, x, s)
  {
    SortBySorted(leq, s);
    forall x ensures Ties(leq, x, SortBy(leq, s)) == Ties(leq, x, s) {
      SortIsStable(leq, s, x);
    }
    if Sorted(leq, t) && forall x :: Ties(leq, x, t) == Ties(leq, x, s) {
      SortedUnique(leq, t, SortBy(leq, s));
    }
  }

  lemma {:induction false} FilterOfPrefix<T>(keep: T -> bool, s: seq<T>, n: nat)
    requires n <= |s|
    ensures Filter(keep, s[..n]) <= Filter(keep, s)
  {
    if n > 0 {
      FilterOfPrefix(keep, s[1..], n - 1);
      assert s[..n][1..] == s[1..][..n - 1];
    }
  }

  lemma TakeKeepsTies<T(!new)>(leq: (T, T) -> bool, s: seq<T>, n: nat, x: T)
    requires TotalPreorder(leq) && n <= |s|
    ensures Ties(leq, x, SortBy(leq, s)[..n]) <= Ties(leq, x, s)
  {
    SortIsStable(leq, s, x);
    FilterOfPrefix(TiesWith(leq, x), SortBy(leq, s), n);
  }

  /** The first `n` elements of a sorted sequence: sorted, an initial part of every group of ties,
      and nothing left out comes strictly before anything taken. */
  lemma TakeFromSorted<T(!new)>(leq: (T, T) -> bool, s: seq<T>, n: nat)
    requires TotalPreorder(leq) && n <= |s|
    ensures Sorted(leq, SortBy(leq, s)[..n])
    ensures forall x :: Ties(leq, x, SortBy(leq, s)[..n]) <= Ties(leq, x, s)
    ensures forall x, y :: x in SortBy(leq, s)[..n] && y in s && y !in SortBy(leq, s)[..n] ==> leq(x, y)
  {
    var ordered := SortBy(leq, s);
    SortBySorted(leq, s);
    forall x ensures Ties(leq, x, ordered[..n]) <= Ties(leq, x, s) {
      TakeKeepsTies(leq, s, n, x);
    }
    forall x, y | x in ordered[..n] && y in s && y !in ordered[..n] ensures leq(x, y) {
      SameElements(ordered, s);
      TakenBeforeLeft(leq, ordered, n, x, y);
    }
  }

  lemma TakenBeforeLeft<T(!new)>(leq: (T, T) -> bool, ordered: seq<T>, n: nat, x: T, y: T)
    requires Sorted(leq, ordered) && n <= |ordered|
    requires x in ordered[..n] && y in ordered && y !in ordered[..n]
    ensures leq(x, y)
  {
    var i :| 0 <= i < n && ordered[i] == x;
    var j :| 0 <= j < |ordered| && ordered[j] == y;
    forall m | 0 <= m < n ensures ordered[m] in ordered[..n] {
      assert ordered[..n][m] == ordered[m];
    }
  }

  lemma {:induction false} FilterOneOut<T>(keep: T -> bool, s: seq<T>, k: nat)
    requires k < |s| && !keep(s[k])
    requires forall i :: 0 <= i < |s| && i != k ==> keep(s[i])
    ensures Filter(keep, s) == s[..k] + s[k + 1..]
  {
    if k == 0 {
      FilterAll(keep, s[1..]);
    } else {
      FilterOneOut(keep, s[1..], k - 1);
      OneOutShifts(s, k);
    }
  }

  lemma OneOutShifts<T>(s: seq<T>, k: nat)
    requires 0 < k < |s|
    ensures [s[0]] + (s[1..][..k - 1] + s[1..][k..]) == s[..k] + s[k + 1..]
  {
  }
}
