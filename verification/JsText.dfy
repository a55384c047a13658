/** String methods of ECMAScript shared by the models. */
module JsText {
  import opened Sequences

  /** WhiteSpace and LineTerminator of ECMA-262, sections 12.2 and 12.3. */
  predicate IsSpace(c: char) {
    var u := c as int;
    || 9 <= u <= 13 || u == 32 || u == 0xA0 || u == 0x1680 || 0x2000 <= u <= 0x200A
    || u == 0x2028 || u == 0x2029 || u == 0x202F || u == 0x205F || u == 0x3000 || u == 0xFEFF
  }

  function TrimStart(s: string): string {
    if s != "" && IsSpace(s[0]) then TrimStart(s[1..]) else s
  }

  function TrimEnd(s: string): string {
    if s != "" && IsSpace(s[|s| - 1]) then TrimEnd(s[..|s| - 1]) else s
  }

  /** `String.prototype.trim`: no space is left at either end. */
  function Trim(s: string): (t: string)
    ensures t == "" || (!IsSpace(t[0]) && !IsSpace(t[|t| - 1]))
  {
    TrimStartLeavesNoSpace(s);
    TrimEndLeavesNoSpace(TrimStart(s));
    TrimEnd(TrimStart(s))
  }

  lemma TrimStartLeavesNoSpace(s: string)
    ensures TrimStart(s) == "" || !IsSpace(TrimStart(s)[0])
  {
  }

  lemma TrimEndLeavesNoSpace(s: string)
    ensures TrimEnd(s) <= s
    ensures TrimEnd(s) == "" || !IsSpace(TrimEnd(s)[|TrimEnd(s)| - 1])
  {
  }

  lemma TrimTrimmed(s: string)
    requires s == "" || (!IsSpace(s[0]) && !IsSpace(s[|s| - 1]))
    ensures Trim(s) == s
  {
  }

  // ----------------------------------------------------------------------------------------
  // Splitting and joining
  // ----------------------------------------------------------------------------------------

  function IndexOf(c: char, s: string): (i: nat)
    ensures i <= |s| && (i < |s| ==> s[i] == c)
    ensures forall j :: 0 <= j < i ==> s[j] != c
  {
    if s == "" || s[0] == c then 0 else 1 + IndexOf(c, s[1..])
  }

  /** The part before the first `c` and the part after it, if there is one. */
  function SplitAt(c: char, s: string): (string, Option<string>) {
    var i := IndexOf(c, s);
    if i == |s| then (s, None) else (s[..i], Some(s[i + 1..]))
  }

  lemma SplitAtWhole(c: char, s: string)
    requires c !in s
    ensures SplitAt(c, s) == (s, None)
  {
  }

  lemma SplitAtJoined(c: char, before: string, after: string)
    requires c !in before
    ensures SplitAt(c, before + [c] + after) == (before, Some(after))
  {
    var s := before + [c] + after;
    var i := IndexOf(c, s);
    assert s[|before|] == c;
    assert forall j :: 0 <= j < |before| ==> s[j] == before[j];
    assert s[..i] == before && s[i + 1..] == after;
  }

  /** `s.split(c)`. */
  function Split(c: char, s: string): (parts: seq<string>)
    ensures parts != []
    decreases |s|
  {
    var i := IndexOf(c, s);
    if i == |s| then [s] else [s[..i]] + Split(c, s[i + 1..])
  }

  /** `parts.join(c)`. */
  function Join(c: char, parts: seq<string>): string {
    if parts == [] then ""
    else if |parts| == 1 then parts[0]
    else parts[0] + [c] + Join(c, parts[1..])
  }

  /** Parts a join by `c` keeps apart. */
  predicate Joinable(c: char, parts: seq<string>) {
    forall i :: 0 <= i < |parts| ==> c !in parts[i]
  }

  lemma {:induction false} SplitParts(c: char, s: string)
    ensures Joinable(c, Split(c, s))
    ensures Join(c, Split(c, s)) == s
    decreases |s|
  {
    var i := IndexOf(c, s);
    if i < |s| {
      SplitParts(c, s[i + 1..]);
      assert s == s[..i] + [c] + s[i + 1..];
      assert Split(c, s)[1..] == Split(c, s[i + 1..]);
    }
  }

  lemma {:induction false} SplitOfJoin(c: char, parts: seq<string>)
    requires parts != [] && Joinable(c, parts)
    ensures Split(c, Join(c, parts)) == parts
    decreases |parts|
  {
    var s := Join(c, parts);
    if |parts| == 1 {
      SplitAtWhole(c, s);
      assert parts == [s];
    } else {
      SplitOfJoin(c, parts[1..]);
      SplitAtJoined(c, parts[0], Join(c, parts[1..]));
      assert parts == [parts[0]] + parts[1..];
    }
  }

  /** The parts with `tail` appended to the last one. */
  function WithTail(parts: seq<string>, tail: string): (longer: seq<string>)
    requires parts != []
    ensures |longer| == |parts| && longer[..|parts| - 1] == parts[..|parts| - 1]
    ensures longer[|parts| - 1] == parts[|parts| - 1] + tail
  {
    parts[..|parts| - 1] + [parts[|parts| - 1] + tail]
  }

  lemma JoinFirst(c: char, first: string, rest: seq<string>)
    requires rest != []
    ensures Join(c, [first] + rest) == first + [c] + Join(c, rest)
  {
    assert ([first] + rest)[1..] == rest;
  }

  lemma WithTailBehind(first: string, rest: seq<string>, tail: string)
    requires rest != []
    ensures WithTail([first] + rest, tail) == [first] + WithTail(rest, tail)
  {
  }

  /** Appending to a join is appending to its last part. */
  lemma {:induction false} JoinThen(c: char, parts: seq<string>, tail: string)
    requires parts != []
    ensures Join(c, parts) + tail == Join(c, WithTail(parts, tail))
    decreases |parts|
  {
    if |parts| >= 2 {
      var rest := parts[1..];
      assert parts == [parts[0]] + rest;
      JoinThen(c, rest, tail);
      WithTailBehind(parts[0], rest, tail);
      JoinFirst(c, parts[0], rest);
      JoinFirst(c, parts[0], WithTail(rest, tail));
    }
  }

  lemma SplitOfJoinThen(c: char, parts: seq<string>, tail: string)
    requires parts != [] && Joinable(c, parts) && c !in tail
    ensures Split(c, Join(c, parts) + tail) == WithTail(parts, tail)
  {
    JoinThen(c, parts, tail);
    SplitOfJoin(c, WithTail(parts, tail));
  }

  /** Text without the separator only lengthens the last part. */
  lemma SplitThen(c: char, s: string, tail: string)
    requires c !in tail
    ensures Split(c, s + tail) == WithTail(Split(c, s), tail)
  {
    SplitParts(c, s);
    SplitOfJoinThen(c, Split(c, s), tail);
  }

  lemma SplitFirst(c: char, front: string, rest: string, s: string)
    requires c !in front && s == front + [c] + rest
    ensures Split(c, s) == [front] + Split(c, rest)
  {
    var i := IndexOf(c, s);
    assert s[|front|] == c && forall j :: 0 <= j < |front| ==> s[j] == front[j];
    assert s[..i] == front && s[i + 1..] == rest;
  }

  lemma Regroup(front: string, c: string, rest: string, t: string, s: string, behind: string)
    requires s == front + c + rest && behind == rest + c + t
    ensures s + c + t == front + c + behind
  {
  }

  /** Splitting text with a separator in it splits what is in front and what is behind. */
  lemma {:induction false} SplitApart(c: char, s: string, t: string, whole: string)
    requires whole == s + [c] + t
    ensures Split(c, whole) == Split(c, s) + Split(c, t)
    decreases |s|
  {
    var i := IndexOf(c, s);
    if i == |s| {
      SplitFirst(c, s, t, whole);
      SplitAtWhole(c, s);
    } else {
      var front, rest := s[..i], s[i + 1..];
      var behind := rest + [c] + t;
      assert s == front + [c] + rest;
      Regroup(front, [c], rest, t, s, behind);
      SplitApart(c, rest, t, behind);
      SplitBehind(c, front, rest, s, t, behind, whole);
    }
  }

  lemma SplitBehind(c: char, front: string, rest: string, s: string, t: string, behind: string, whole: string)
    requires c !in front && s == front + [c] + rest && whole == front + [c] + behind
    requires Split(c, behind) == Split(c, rest) + Split(c, t)
    ensures Split(c, whole) == Split(c, s) + Split(c, t)
  {
    SplitFirst(c, front, rest, s);
    SplitFirst(c, front, behind, whole);
    Associate([front], Split(c, rest), Split(c, t));
  }

  lemma Associate(a: seq<string>, b: seq<string>, c: seq<string>)
    ensures a + (b + c) == a + b + c
  {
  }

  predicate AllSpaces(s: string) {
    forall i :: 0 <= i < |s| ==> IsSpace(s[i])
  }

  lemma {:induction false} TrimStartCuts(s: string) returns (n: nat)
    ensures n <= |s| && TrimStart(s) == s[n..] && AllSpaces(s[..n])
  {
    n := 0;
    if s != "" && IsSpace(s[0]) {
      var m := TrimStartCuts(s[1..]);
      n := m + 1;
      assert s[n..] == s[1..][m..];
      forall i | 0 <= i < n ensures IsSpace(s[i]) {
        assert i > 0 ==> s[i] == s[1..][..m][i - 1];
      }
    }
  }

  lemma {:induction false} TrimEndCuts(s: string) returns (n: nat)
    ensures n <= |s| && TrimEnd(s) == s[..n] && AllSpaces(s[n..])
    decreases |s|
  {
    n := |s|;
    if s != "" && IsSpace(s[|s| - 1]) {
      var front := s[..|s| - 1];
      n := TrimEndCuts(front);
      assert s[..n] == front[..n];
      forall i | n <= i < |s| ensures IsSpace(s[i]) {
        assert i < |front| ==> s[i] == front[n..][i - n];
      }
    }
  }

  /** Trimming takes off the spaces at both ends and nothing else. */
  lemma TrimMeans(s: string)
    ensures exists i, j :: 0 <= i <= j <= |s| && Trim(s) == s[i..j] && AllSpaces(s[..i]) && AllSpaces(s[j..])
  {
    var i := TrimStartCuts(s);
    var n := TrimEndCuts(s[i..]);
    assert s[i..][..n] == s[i..i + n] && s[i..][n..] == s[i + n..];
  }

  /** The spaces that are trimmed, by code point. */
  lemma SpacesAre(c: char)
    ensures IsSpace(c) <==> c as int in {
      0x09, 0x0A, 0x0B, 0x0C, 0x0D, 0x20, 0xA0, 0x1680, 0x2000, 0x2001, 0x2002, 0x2003, 0x2004, 0x2005,
      0x2006, 0x2007, 0x2008, 0x2009, 0x200A, 0x2028, 0x2029, 0x202F, 0x205F, 0x3000, 0xFEFF}
  {
  }
}
