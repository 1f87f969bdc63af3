/**
  The operations of Go's `strings` and `strconv` packages that the translator
  relies on, over ASCII text (one `char` per byte). Each is defined the way the
  Go library computes it: leftmost, non-overlapping matches; `-1` for "not found".
*/
module GoStrings {

  /** White space as Go's `unicode.IsSpace` sees it on ASCII input. */
  predicate IsSpace(c: char) {
    c == ' ' || c == '\t' || c == '\n' || c == '\r' || c == '\U{000B}' || c == '\U{000C}'
  }

  /** `t` occurs in `s` starting at index `i`. */
  predicate OccursAt(s: string, t: string, i: int) {
    0 <= i && i + |t| <= |s| && s[i..i + |t|] == t
  }

  lemma OccursShift(s: string, t: string, j: int)
    requires s != [] && 0 <= j
    ensures OccursAt(s[1..], t, j) <==> OccursAt(s, t, j + 1)
  {
    if 0 <= j && j + |t| <= |s| - 1 {
      assert s[1..][j..j + |t|] == s[j + 1..j + 1 + |t|];
    }
  }

  /** strings.Index: the first index at which `t` occurs in `s`, or -1. */
  function Index(s: string, t: string): (r: int)
    ensures -1 <= r <= |s|
    ensures r >= 0 ==> OccursAt(s, t, r)
    decreases |s|
  {
    if |t| > |s| then -1
    else if s[..|t|] == t then assert OccursAt(s, t, 0); 0
    else
      var k := Index(s[1..], t);
      if k == -1 then -1 else OccursShift(s, t, k); k + 1
  }

  /** Index finds the leftmost occurrence, and -1 exactly when there is none. */
  lemma {:induction false} IndexSpec(s: string, t: string)
    ensures Index(s, t) == -1 <==> forall i :: 0 <= i <= |s| ==> !OccursAt(s, t, i)
    ensures Index(s, t) >= 0 ==> forall j :: 0 <= j < Index(s, t) ==> !OccursAt(s, t, j)
    decreases |s|
  {
    if |t| > |s| {
    } else if s[..|t|] == t {
      assert OccursAt(s, t, 0);
    } else {
      IndexSpec(s[1..], t);
      var k := Index(s[1..], t);
      assert !OccursAt(s, t, 0);
      forall j | 1 <= j ensures OccursAt(s[1..], t, j - 1) <==> OccursAt(s, t, j) {
        OccursShift(s, t, j - 1);
      }
      if k != -1 { OccursShift(s, t, k); }
    }
  }

  /** strings.Contains */
  predicate Contains(s: string, t: string) {
    Index(s, t) >= 0
  }

  /** strings.HasPrefix */
  predicate HasPrefix(s: string, p: string) {
    |p| <= |s| && s[..|p|] == p
  }

  /** A prefix fixes each of the first characters. */
  lemma PrefixAt(s: string, p: string, k: int)
    requires 0 <= k < |p|
    ensures HasPrefix(s, p) ==> s[k] == p[k]
  {
    if HasPrefix(s, p) {
      assert s[..|p|][k] == s[k];
    }
  }

  /** strings.HasSuffix */
  predicate HasSuffix(s: string, p: string) {
    |p| <= |s| && s[|s| - |p|..] == p
  }

  /** strings.Count with a one-character separator. */
  function CountChar(s: string, c: char): (n: nat)
    ensures n <= |s|
    ensures n == 0 <==> c !in s
  {
    if s == [] then 0 else (if s[0] == c then 1 else 0) + CountChar(s[1..], c)
  }

  /** strings.TrimLeft(s, white space) */
  function TrimLeft(s: string): string {
    if s != [] && IsSpace(s[0]) then TrimLeft(s[1..]) else s
  }

  /** TrimLeft drops a run of white space from the front and stops at the first other character. */
  lemma {:induction false} TrimLeftShape(s: string)
    ensures |TrimLeft(s)| <= |s| && TrimLeft(s) == s[|s| - |TrimLeft(s)|..]
    ensures TrimLeft(s) == [] || !IsSpace(TrimLeft(s)[0])
    ensures forall i :: 0 <= i < |s| - |TrimLeft(s)| ==> IsSpace(s[i])
  {
    if s != [] && IsSpace(s[0]) {
      TrimLeftShape(s[1..]);
      assert forall i :: 1 <= i < |s| ==> s[i] == s[1..][i - 1];
    }
  }

  /** strings.TrimRight(s, white space) */
  function TrimRight(s: string): string {
    if s != [] && IsSpace(s[|s| - 1]) then TrimRight(s[..|s| - 1]) else s
  }

  /** TrimRight drops a run of white space from the back and stops at the last other character. */
  lemma {:induction false} TrimRightShape(s: string)
    ensures |TrimRight(s)| <= |s| && TrimRight(s) == s[..|TrimRight(s)|]
    ensures TrimRight(s) == [] || !IsSpace(TrimRight(s)[|TrimRight(s)| - 1])
    ensures forall i :: |TrimRight(s)| <= i < |s| ==> IsSpace(s[i])
  {
    if s != [] && IsSpace(s[|s| - 1]) {
      TrimRightShape(s[..|s| - 1]);
    }
  }

  /** strings.TrimSpace */
  function TrimSpace(s: string): string {
    TrimRight(TrimLeft(s))
  }

  /** strings.Split with a non-empty separator. */
  function Split(s: string, sep: string): (r: seq<string>)
    requires sep != []
    ensures |r| >= 1
    decreases |s|
  {
    var i := Index(s, sep);
    if i < 0 then [s] else [s[..i]] + Split(s[i + |sep|..], sep)
  }

  /** strings.SplitN(s, sep, 2) */
  function SplitTwo(s: string, sep: string): (r: seq<string>)
    requires sep != []
    ensures 1 <= |r| <= 2
    ensures |r| == 2 <==> Contains(s, sep)
  {
    var i := Index(s, sep);
    if i < 0 then [s] else [s[..i], s[i + |sep|..]]
  }

  /** strings.Join */
  function Join(parts: seq<string>, sep: string): string {
    if |parts| == 0 then ""
    else if |parts| == 1 then parts[0]
    else parts[0] + sep + Join(parts[1..], sep)
  }

  /** The result of strings.Replace(s, "", rep, -1): `rep` before every character and at the end. */
  function Interleave(s: string, rep: string): string {
    if s == [] then rep else rep + [s[0]] + Interleave(s[1..], rep)
  }

  /** strings.Replace(s, pat, rep, -1): every leftmost non-overlapping match of `pat` replaced. */
  function ReplaceAll(s: string, pat: string, rep: string): (r: string)
    decreases |s|
  {
    if pat == [] then Interleave(s, rep)
    else if |s| < |pat| then s
    else if s[..|pat|] == pat then rep + ReplaceAll(s[|pat|..], pat, rep)
    else [s[0]] + ReplaceAll(s[1..], pat, rep)
  }

  /** strings.Replace(s, pat, rep, 1): only the first match replaced. */
  function ReplaceFirst(s: string, pat: string, rep: string): string {
    var i := Index(s, pat);
    if i < 0 then s else s[..i] + rep + s[i + |pat|..]
  }

  function DigitChar(d: nat): char
    requires d < 10
  {
    (48 + d) as char
  }

  /** Decimal digits of a natural number, no leading zeros. */
  function NatToString(n: nat): (r: string)
    ensures |r| >= 1
    ensures forall i :: 0 <= i < |r| ==> '0' <= r[i] <= '9'
    decreases n
  {
    if n < 10 then [DigitChar(n)] else NatToString(n / 10) + [DigitChar(n % 10)]
  }

  /** strconv.Itoa */
  function Itoa(i: int): string {
    if i < 0 then "-" + NatToString(-i) else NatToString(i)
  }

  // ---------------------------------------------------------------------------
  // Facts about the operations above
  // ---------------------------------------------------------------------------

  /** A single-character pattern occurs exactly where that character stands. */
  lemma OccursChar(s: string, c: char, i: int)
    ensures OccursAt(s, [c], i) <==> 0 <= i < |s| && s[i] == c
  {
    if 0 <= i < |s| {
      assert s[i..i + 1] == [s[i]];
    }
  }

  /** Index of a character is the position of its first occurrence. */
  lemma IndexChar(s: string, c: char, k: int)
    requires 0 <= k < |s| && s[k] == c
    requires forall j :: 0 <= j < k ==> s[j] != c
    ensures Index(s, [c]) == k
  {
    OccursChar(s, c, k);
    forall j | 0 <= j < k ensures !OccursAt(s, [c], j) {
      OccursChar(s, c, j);
    }
    IndexAt(s, [c], k);
  }

  lemma IndexCharAbsent(s: string, c: char)
    requires c !in s
    ensures Index(s, [c]) == -1
  {
    forall i | 0 <= i <= |s| ensures !OccursAt(s, [c], i) {
      OccursChar(s, c, i);
    }
  }

  /** A pattern that is a prefix is found at index 0. */
  lemma IndexPrefix(s: string, t: string)
    requires HasPrefix(s, t)
    ensures Index(s, t) == 0
  {
    assert OccursAt(s, t, 0);
  }

  /** A pattern found at `k` with no earlier match is what Index returns. */
  lemma IndexAt(s: string, t: string, k: int)
    requires OccursAt(s, t, k)
    requires forall j :: 0 <= j < k ==> !OccursAt(s, t, j)
    ensures Index(s, t) == k
  {
    IndexSpec(s, t);
  }

  lemma ContainsAt(s: string, t: string, i: int)
    requires OccursAt(s, t, i)
    ensures Contains(s, t)
  {
    IndexSpec(s, t);
  }

  lemma ContainsChar(s: string, c: char)
    ensures Contains(s, [c]) <==> c in s
  {
    IndexSpec(s, [c]);
    if c in s {
      var i :| 0 <= i < |s| && s[i] == c;
      OccursChar(s, c, i);
    } else {
      IndexCharAbsent(s, c);
    }
  }

  lemma CountCharAppend(a: string, b: string, c: char)
    ensures CountChar(a + b, c) == CountChar(a, c) + CountChar(b, c)
  {
    if a != [] {
      assert (a + b)[0] == a[0];
      assert (a + b)[1..] == a[1..] + b;
      CountCharAppend(a[1..], b, c);
    } else {
      assert a + b == b;
    }
  }

  lemma JoinCons(parts: seq<string>, sep: string)
    requires |parts| >= 2
    ensures Join(parts, sep) == parts[0] + sep + Join(parts[1..], sep)
  {
  }

  /**
    Splitting text joined by a one-character separator that none of the parts
    contains gives back the parts.
  */
  lemma {:induction false} SplitJoin(parts: seq<string>, c: char)
    requires |parts| >= 1
    requires forall i :: 0 <= i < |parts| ==> c !in parts[i]
    ensures Split(Join(parts, [c]), [c]) == parts
  {
    if |parts| == 1 {
      IndexCharAbsent(parts[0], c);
    } else {
      var s := Join(parts, [c]);
      var rest := Join(parts[1..], [c]);
      assert s == parts[0] + [c] + rest;
      IndexChar(s, c, |parts[0]|);
      assert s[..|parts[0]|] == parts[0];
      assert s[|parts[0]| + 1..] == rest;
      SplitJoin(parts[1..], c);
    }
  }

  /** Joining the pieces of a split with the same separator restores the text. */
  lemma {:induction false} JoinSplit(s: string, sep: string)
    requires sep != []
    ensures Join(Split(s, sep), sep) == s
    decreases |s|
  {
    var i := Index(s, sep);
    if i >= 0 {
      var tail := s[i + |sep|..];
      JoinSplit(tail, sep);
      var rest := Split(tail, sep);
      SplitFound(s, sep);
      JoinFront(s[..i], rest, sep);
      SliceThree(s, i, i + |sep|);
    }
  }

  /** Where the separator occurs, Split cuts off the text before it. */
  lemma SplitFound(s: string, sep: string)
    requires sep != [] && Index(s, sep) >= 0
    ensures Split(s, sep) == [s[..Index(s, sep)]] + Split(s[Index(s, sep) + |sep|..], sep)
  {
  }

  lemma SliceFour(s: string, i: int, j: int, k: int)
    requires 0 <= i <= j <= k <= |s|
    ensures s == s[..i] + s[i..j] + s[j..k] + s[k..]
  {
  }

  lemma SliceThree(s: string, i: int, j: int)
    requires 0 <= i <= j <= |s|
    ensures s == s[..i] + s[i..j] + s[j..]
  {
  }

  /** Join of a part in front of at least one more. */
  lemma JoinFront(first: string, rest: seq<string>, sep: string)
    requires |rest| >= 1
    ensures Join([first] + rest, sep) == first + sep + Join(rest, sep)
  {
    assert ([first] + rest)[1..] == rest;
  }

  /** Every piece of a split is free of the separator character. */
  lemma {:induction false} SplitPiecesFree(s: string, c: char)
    ensures forall k :: 0 <= k < |Split(s, [c])| ==> c !in Split(s, [c])[k]
    decreases |s|
  {
    var i := Index(s, [c]);
    IndexSpec(s, [c]);
    if i < 0 {
      ContainsChar(s, c);
    } else {
      var tail := s[i + 1..];
      SplitPiecesFree(tail, c);
      assert c !in s[..i] by {
        forall j | 0 <= j < i ensures s[..i][j] != c {
          OccursChar(s, c, j);
        }
      }
    }
  }

  lemma TrimLeftClean(s: string)
    requires s == [] || !IsSpace(s[0])
    ensures TrimLeft(s) == s
  {
  }

  lemma TrimRightClean(s: string)
    requires s == [] || !IsSpace(s[|s| - 1])
    ensures TrimRight(s) == s
  {
  }

  /** Text with no white space at either end is its own trim. */
  lemma TrimSpaceClean(s: string)
    requires s == [] || (!IsSpace(s[0]) && !IsSpace(s[|s| - 1]))
    ensures TrimSpace(s) == s
  {
  }

  predicate AllSpace(w: string) {
    forall i :: 0 <= i < |w| ==> IsSpace(w[i])
  }

  lemma {:induction false} TrimLeftSpaces(w: string, x: string)
    requires AllSpace(w)
    requires x == [] || !IsSpace(x[0])
    ensures TrimLeft(w + x) == x
    decreases |w|
  {
    if w != [] {
      assert (w + x)[1..] == w[1..] + x;
      TrimLeftSpaces(w[1..], x);
    }
  }

  lemma {:induction false} TrimRightSpaces(x: string, w: string)
    requires AllSpace(w)
    requires x == [] || !IsSpace(x[|x| - 1])
    ensures TrimRight(x + w) == x
    decreases |w|
  {
    if w != [] {
      assert (x + w)[..|x + w| - 1] == x + w[..|w| - 1];
      TrimRightSpaces(x, w[..|w| - 1]);
    }
  }

  /** Trimming strips exactly the white space padding around clean text. */
  lemma TrimSpacePadded(w1: string, x: string, w2: string)
    requires AllSpace(w1) && AllSpace(w2)
    requires x != [] && !IsSpace(x[0]) && !IsSpace(x[|x| - 1])
    ensures TrimSpace(w1 + x + w2) == x
  {
    assert w1 + x + w2 == w1 + (x + w2);
    TrimLeftSpaces(w1, x + w2);
    TrimRightSpaces(x, w2);
  }

  /** Replacing a pattern that does not occur leaves the text unchanged. */
  lemma {:induction false} ReplaceAllAbsent(s: string, pat: string, rep: string)
    requires pat != []
    requires !Contains(s, pat)
    ensures ReplaceAll(s, pat, rep) == s
    decreases |s|
  {
    if |s| >= |pat| {
      assert !OccursAt(s, pat, 0);
      assert !Contains(s[1..], pat);
      ReplaceAllAbsent(s[1..], pat, rep);
      assert s == [s[0]] + s[1..];
    }
  }

  /** Replacing with something longer lengthens the text wherever the pattern occurs. */
  lemma {:induction false} ReplaceAllGrows(s: string, pat: string, rep: string)
    requires pat != [] && |rep| > |pat|
    requires Contains(s, pat)
    ensures |ReplaceAll(s, pat, rep)| > |s|
    decreases |s|
  {
    assert |s| >= |pat|;
    if s[..|pat|] == pat {
      ReplaceAllLength(s[|pat|..], pat, rep);
    } else {
      assert Contains(s[1..], pat) by {
        var k := Index(s, pat);
        assert k != 0;
        OccursShift(s, pat, k - 1);
        ContainsAt(s[1..], pat, k - 1);
      }
      ReplaceAllGrows(s[1..], pat, rep);
    }
  }

  /** With a replacement at least as long as the pattern, replacing never shortens. */
  lemma {:induction false} ReplaceAllLength(s: string, pat: string, rep: string)
    requires pat != [] && |rep| >= |pat|
    ensures |ReplaceAll(s, pat, rep)| >= |s|
    decreases |s|
  {
    if |s| >= |pat| {
      if s[..|pat|] == pat {
        ReplaceAllLength(s[|pat|..], pat, rep);
      } else {
        ReplaceAllLength(s[1..], pat, rep);
      }
    }
  }

  lemma NatToStringShort(n: nat)
    ensures |NatToString(n)| == 1 <==> n < 10
  {
    if n >= 10 {
      assert |NatToString(n / 10)| >= 1;
    }
  }

  /** Distinct naturals have distinct decimal renderings. */
  lemma {:induction false} NatToStringInjective(m: nat, n: nat)
    requires NatToString(m) == NatToString(n)
    ensures m == n
    decreases m
  {
    NatToStringShort(m);
    NatToStringShort(n);
    var a, b := NatToString(m), NatToString(n);
    if m >= 10 {
      assert a == NatToString(m / 10) + [DigitChar(m % 10)];
      assert b == NatToString(n / 10) + [DigitChar(n % 10)];
      assert a[..|a| - 1] == NatToString(m / 10);
      assert b[..|b| - 1] == NatToString(n / 10);
      assert DigitChar(m % 10) == a[|a| - 1] == b[|b| - 1] == DigitChar(n % 10);
      NatToStringInjective(m / 10, n / 10);
    } else {
      assert DigitChar(m) == a[0] == b[0] == DigitChar(n);
    }
  }

  lemma ItoaSign(i: int)
    ensures |Itoa(i)| >= 1 && (Itoa(i)[0] == '-' <==> i < 0)
  {
  }

  /** strconv.Itoa is injective: different integers are printed differently. */
  lemma ItoaInjective(m: int, n: int)
    requires Itoa(m) == Itoa(n)
    ensures m == n
  {
    ItoaSign(m);
    ItoaSign(n);
    if m < 0 {
      assert Itoa(m)[1..] == NatToString(-m);
      assert Itoa(n)[1..] == NatToString(-n);
      NatToStringInjective(-m, -n);
    } else {
      NatToStringInjective(m, n);
    }
  }

  /** A separator that occurs splits the text into at least two pieces. */
  lemma SplitAtLeastTwo(s: string, sep: string)
    requires sep != [] && Contains(s, sep)
    ensures |Split(s, sep)| >= 2
  {
  }

  /** A pattern whose first character does not occur before position k is first found at k. */
  lemma IndexFirstChar(s: string, t: string, k: int)
    requires t != [] && OccursAt(s, t, k)
    requires forall j :: 0 <= j < k ==> s[j] != t[0]
    ensures Index(s, t) == k
  {
    forall j | 0 <= j < k ensures !OccursAt(s, t, j) {
      if j + |t| <= |s| {
        assert s[j..j + |t|][0] == s[j];
      }
    }
    IndexAt(s, t, k);
  }

  /** A pattern whose first character does not occur at all is absent. */
  lemma AbsentFirstChar(s: string, t: string)
    requires t != [] && t[0] !in s
    ensures !Contains(s, t)
  {
    forall j | 0 <= j <= |s| ensures !OccursAt(s, t, j) {
      if j + |t| <= |s| {
        assert s[j..j + |t|][0] == s[j];
      }
    }
  }

  /** An occurrence inside a piece is an occurrence in any text containing that piece. */
  lemma OccursIn(a: string, t: string, b: string, i: int)
    requires OccursAt(b, t, i)
    ensures OccursAt(a + b, t, |a| + i)
  {
    assert (a + b)[|a| + i..|a| + i + |t|] == b[i..i + |t|];
  }

  lemma TrimLeftKeeps(s: string, i: int)
    requires 0 <= i < |s| && !IsSpace(s[i])
    ensures |s| - |TrimLeft(s)| <= i && TrimLeft(s)[i - (|s| - |TrimLeft(s)|)] == s[i]
  {
    TrimLeftShape(s);
  }

  lemma TrimRightKeeps(s: string, i: int)
    requires 0 <= i < |s| && !IsSpace(s[i])
    ensures i < |TrimRight(s)| && TrimRight(s)[i] == s[i]
  {
    TrimRightShape(s);
  }

  /** A non-space character of the text survives trimming. */
  lemma TrimSpaceKeeps(s: string, c: char)
    requires c in s && !IsSpace(c)
    ensures c in TrimSpace(s)
  {
    var i :| 0 <= i < |s| && s[i] == c;
    TrimLeftKeeps(s, i);
    var l := TrimLeft(s);
    var k := i - (|s| - |l|);
    TrimRightKeeps(l, k);
    assert TrimSpace(s)[k] == c;
  }

  /** Counting a character over a slice and its two surroundings. */
  lemma CountCharSlices(s: string, i: int, j: int, c: char)
    requires 0 <= i <= j <= |s|
    ensures CountChar(s, c) == CountChar(s[..i], c) + CountChar(s[i..j], c) + CountChar(s[j..], c)
  {
    assert s == s[..i] + s[i..j] + s[j..];
    CountCharAppend(s[..i] + s[i..j], s[j..], c);
    CountCharAppend(s[..i], s[i..j], c);
  }

  lemma CountCharSpaces(w: string, c: char)
    requires AllSpace(w) && !IsSpace(c)
    ensures CountChar(w, c) == 0
  {
    forall i | 0 <= i < |w| ensures w[i] != c {
      assert IsSpace(w[i]);
    }
  }

  lemma TrimLeftCount(s: string, c: char)
    requires !IsSpace(c)
    ensures CountChar(TrimLeft(s), c) == CountChar(s, c)
  {
    TrimLeftShape(s);
    var l := TrimLeft(s);
    var k := |s| - |l|;
    assert s == s[..k] + l;
    CountCharAppend(s[..k], l, c);
    CountCharSpaces(s[..k], c);
  }

  lemma TrimRightCount(s: string, c: char)
    requires !IsSpace(c)
    ensures CountChar(TrimRight(s), c) == CountChar(s, c)
  {
    TrimRightShape(s);
    var r := TrimRight(s);
    assert s == r + s[|r|..];
    CountCharAppend(r, s[|r|..], c);
    CountCharSpaces(s[|r|..], c);
  }

  /** Trimming removes only white space, so it keeps the count of any other character. */
  lemma TrimSpaceCount(s: string, c: char)
    requires !IsSpace(c)
    ensures CountChar(TrimSpace(s), c) == CountChar(s, c)
  {
    TrimLeftCount(s, c);
    TrimRightCount(TrimLeft(s), c);
  }

  /** An occurrence of a text is also an occurrence of each of its prefixes. */
  lemma OccursPrefix(s: string, t: string, p: string, i: int)
    requires OccursAt(s, t, i) && HasPrefix(t, p)
    ensures OccursAt(s, p, i)
  {
    assert s[i..i + |p|] == s[i..i + |t|][..|p|];
  }

  /** After ReplaceAll of a pattern that occurs, the replacement occurs. */
  lemma {:induction false} ReplaceAllShowsRep(s: string, pat: string, rep: string)
    requires pat != [] && Contains(s, pat)
    ensures Contains(ReplaceAll(s, pat, rep), rep)
    decreases |s|
  {
    var r := ReplaceAll(s, pat, rep);
    if s[..|pat|] == pat {
      assert r[..|rep|] == rep;
      assert OccursAt(r, rep, 0);
    } else {
      var k := Index(s, pat);
      assert k != 0;
      OccursShift(s, pat, k - 1);
      ContainsAt(s[1..], pat, k - 1);
      ReplaceAllShowsRep(s[1..], pat, rep);
      var r1 := ReplaceAll(s[1..], pat, rep);
      var j := Index(r1, rep);
      OccursIn([s[0]], rep, r1, j);
      ContainsAt(r, rep, 1 + j);
    }
  }

  /** Join of a sequence with one more part at the end. */
  lemma {:induction false} JoinSnoc(parts: seq<string>, last: string, sep: string)
    requires |parts| >= 1
    ensures Join(parts + [last], sep) == Join(parts, sep) + sep + last
    decreases |parts|
  {
    if |parts| == 1 {
      assert (parts + [last])[1..] == [last];
    } else {
      assert (parts + [last])[1..] == parts[1..] + [last];
      JoinSnoc(parts[1..], last, sep);
    }
  }

  /** A pattern with a character the text lacks does not occur in it. */
  lemma AbsentSomeChar(s: string, t: string, k: int)
    requires 0 <= k < |t| && t[k] !in s
    ensures !Contains(s, t)
  {
    forall j | 0 <= j <= |s| ensures !OccursAt(s, t, j) {
      if j + |t| <= |s| {
        assert s[j..j + |t|][k] == s[j + k];
      }
    }
  }

  /** Joining parts and a separator that all lack a character gives text that lacks it. */
  lemma {:induction false} JoinFree(parts: seq<string>, sep: string, c: char)
    requires c !in sep && forall i :: 0 <= i < |parts| ==> c !in parts[i]
    ensures c !in Join(parts, sep)
    decreases |parts|
  {
    if |parts| >= 2 {
      JoinFree(parts[1..], sep, c);
    }
  }

  /** The first occurrence of a character that the text before it lacks. */
  lemma IndexAfter(x: string, c: char, y: string)
    requires c !in x
    ensures Index(x + [c] + y, [c]) == |x|
  {
    var s := x + [c] + y;
    assert s[|x|] == c;
    forall j | 0 <= j < |x| ensures s[j] != c {
      assert s[j] == x[j];
    }
    IndexChar(s, c, |x|);
  }

  /** Splitting at a separator character peels off the text before its first occurrence. */
  lemma SplitOn(x: string, c: char, y: string)
    requires c !in x
    ensures Split(x + [c] + y, [c]) == [x] + Split(y, [c])
  {
    var s := x + [c] + y;
    IndexAfter(x, c, y);
    assert s[..|x|] == x;
    assert s[|x| + 1..] == y;
  }

  /** Text without the separator character splits into itself. */
  lemma SplitNone(x: string, c: char)
    requires c !in x
    ensures Split(x, [c]) == [x]
  {
    IndexCharAbsent(x, c);
  }

  /** White space contains no character that is not white space. */
  lemma SpacesLack(w: string, c: char)
    requires AllSpace(w) && !IsSpace(c)
    ensures c !in w
  {
    forall i | 0 <= i < |w| ensures w[i] != c {
      assert IsSpace(w[i]);
    }
  }

  /** The last piece of a split is what follows the last separator. */
  lemma {:induction false} SplitLast(x: string, c: char, y: string)
    requires c !in y
    ensures var r := Split(x + [c] + y, [c]); r[|r| - 1] == y
    decreases |x|
  {
    var s := x + [c] + y;
    assert s[|x|] == c;
    OccursChar(s, c, |x|);
    var i := Index(s, [c]);
    IndexSpec(s, [c]);
    assert i <= |x|;
    if i == |x| {
      assert s[i + 1..] == y;
      SplitNone(y, c);
    } else {
      OccursChar(s, c, i);
      assert s[i + 1..] == x[i + 1..] + [c] + y;
      SplitLast(x[i + 1..], c, y);
    }
  }

  /** Replacing all leaves a front in which the pattern starts nowhere as it is. */
  lemma {:induction false} ReplaceAllSkip(x: string, y: string, pat: string, rep: string)
    requires pat != []
    requires forall i :: 0 <= i < |x| ==> !OccursAt(x + y, pat, i)
    ensures ReplaceAll(x + y, pat, rep) == x + ReplaceAll(y, pat, rep)
    decreases |x|
  {
    var s := x + y;
    if x == [] {
      assert s == y;
    } else if |s| < |pat| {
      assert ReplaceAll(y, pat, rep) == y;
    } else {
      assert !OccursAt(s, pat, 0);
      assert s[1..] == x[1..] + y;
      forall i | 0 <= i < |x| - 1 ensures !OccursAt(x[1..] + y, pat, i) {
        OccursShift(s, pat, i);
      }
      ReplaceAllSkip(x[1..], y, pat, rep);
      assert x == [x[0]] + x[1..];
    }
  }

  /** A text that starts with the pattern starts with the replacement after ReplaceAll. */
  lemma ReplaceAllFront(pat: string, y: string, rep: string)
    requires pat != []
    ensures ReplaceAll(pat + y, pat, rep) == rep + ReplaceAll(y, pat, rep)
  {
    assert (pat + y)[..|pat|] == pat;
    assert (pat + y)[|pat|..] == y;
  }
}
