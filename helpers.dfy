/**
  The translator's small string helpers and constants: the text between two
  markers, the last character of a line, membership in a list, splitting at
  known positions, the `string` type rename and the rule for hashed map keys.
*/
module Helpers {
  import opened Outcomes
  import opened GoStrings

  const TupleType: string := "std::tuple"
  const HashMapSuffix: string := "_h__"
  const KeysSuffix: string := "_k__"
  const SwitchPrefix: string := "_s__"
  const LabelPrefix: string := "_l__"

  /** The line endings after which no `;` is added. */
  const Endings: seq<string> := ["{", ",", "}", ":"]

  /**
    between: the text after the first `a` and before the first `b`, or `s`
    itself when either marker is missing. A `b` whose first occurrence starts
    before the first `a` ends makes Go's slice expression panic.
  */
  function Between(s: string, a: string, b: string): (r: Result<string>)
    ensures Index(s, a) < 0 || Index(s, b) < 0 ==> r == Ok(s)
    ensures Index(s, a) >= 0 && Index(s, b) >= 0 ==> (r.Ok? <==> Index(s, a) + |a| <= Index(s, b))
    ensures r.Ok? && Index(s, a) >= 0 && Index(s, b) >= 0 ==>
              s == s[..Index(s, a)] + a + r.value + s[Index(s, b)..]
  {
    var apos := Index(s, a);
    if apos == -1 then Ok(s)
    else
      var bpos := Index(s, b);
      if bpos == -1 then Ok(s)
      else if bpos < apos + |a| then Err(SliceBounds("between"))
      else
        SliceFour(s, apos, apos + |a|, bpos);
        Ok(s[apos + |a|..bpos])
  }

  /**
    When the leftmost `a` starts at `i`, the leftmost `b` at `j`, and `b`
    starts no earlier than `a` ends, the result is the text from the end of
    that `a` up to that `b`.
  */
  lemma BetweenAt(s: string, a: string, b: string, i: int, j: int)
    requires OccursAt(s, a, i) && forall k :: 0 <= k < i ==> !OccursAt(s, a, k)
    requires OccursAt(s, b, j) && forall k :: 0 <= k < j ==> !OccursAt(s, b, k)
    requires i + |a| <= j
    ensures Between(s, a, b) == Ok(s[i + |a|..j])
  {
    IndexAt(s, a, i);
    IndexAt(s, b, j);
    BetweenIndexed(s, a, b, i, j);
  }

  /** The same, with the positions given as Index results. */
  lemma BetweenIndexed(s: string, a: string, b: string, i: int, j: int)
    requires Index(s, a) == i >= 0 && Index(s, b) == j && i + |a| <= j
    ensures Between(s, a, b) == Ok(s[i + |a|..j])
  {
  }

  /** With one-character markers, between recovers exactly what the markers enclose. */
  lemma BetweenDelimited(x: string, a: char, m: string, b: char, y: string)
    requires a !in x && b !in x + [a] + m
    ensures Between(x + [a] + m + [b] + y, [a], [b]) == Ok(m)
  {
    var s := x + [a] + m + [b] + y;
    assert s[|x|] == a;
    IndexChar(s, a, |x|);
    assert s[|x| + 1 + |m|] == b;
    forall j | 0 <= j < |x| + 1 + |m| ensures s[j] != b {
      assert s[j] == (x + [a] + m)[j];
    }
    IndexChar(s, b, |x| + 1 + |m|);
    assert s[|x| + 1..|x| + 1 + |m|] == m;
  }

  /** The special case of BetweenDelimited with nothing outside the markers. */
  lemma BetweenEnclosed(a: char, m: string, b: char)
    requires a != b && b !in m
    ensures Between([a] + m + [b], [a], [b]) == Ok(m)
  {
    var s := [a] + m + [b];
    IndexChar(s, a, 0);
    forall j | 0 <= j < 1 + |m| ensures s[j] != b {
      assert j == 0 || s[j] == m[j - 1];
    }
    IndexChar(s, b, 1 + |m|);
    assert s[1..1 + |m|] == m;
  }

  /** lastchar: the last character as a string, or "" for an empty line. */
  function LastChar(line: string): (r: string)
    ensures r == "" <==> line == ""
    ensures line != "" ==> |r| == 1 && HasSuffix(line, r)
  {
    if |line| > 0 then [line[|line| - 1]] else ""
  }

  /** has: linear search of a list of strings. */
  function Has(l: seq<string>, s: string): (r: bool)
    ensures r <==> s in l
  {
    if l == [] then false else l[0] == s || Has(l[1..], s)
  }

  /** hasInt: linear search of a list of integers. */
  function HasInt(ints: seq<int>, x: int): (r: bool)
    ensures r <==> x in ints
  {
    if ints == [] then false else ints[0] == x || HasInt(ints[1..], x)
  }

  /**
    Cut positions splitAtAndTrim can slice at without panicking: strictly
    increasing and inside the text.
  */
  predicate ValidCuts(n: int, poss: seq<int>) {
    (forall i :: 0 <= i < |poss| ==> 0 <= poss[i] < n) &&
    (forall i, j :: 0 <= i < j < |poss| ==> poss[i] < poss[j])
  }

  /** Where piece `i` starts: at 0, or just after the previous cut. */
  function PieceStart(poss: seq<int>, i: int): int
    requires 0 <= i <= |poss|
  {
    if i == 0 then 0 else poss[i - 1] + 1
  }

  /** Where piece `i` ends: at its cut, or at the end of the text. */
  function PieceEnd(n: int, poss: seq<int>, i: int): int
    requires 0 <= i <= |poss|
  {
    if i == |poss| then n else poss[i]
  }

  lemma PieceBounds(n: int, poss: seq<int>, i: int)
    requires 0 <= n && ValidCuts(n, poss) && 0 <= i <= |poss|
    ensures 0 <= PieceStart(poss, i) <= PieceEnd(n, poss, i) <= n
  {
    if 0 < i < |poss| {
      assert poss[i - 1] < poss[i] < n;
    } else if 0 < i {
      assert poss[i - 1] < n;
    } else if i < |poss| {
      assert 0 <= poss[i] < n;
    }
  }

  /** The untrimmed text between consecutive cuts. */
  function RawPiece(s: string, poss: seq<int>, i: int): string
    requires ValidCuts(|s|, poss) && 0 <= i <= |poss|
  {
    PieceBounds(|s|, poss, i);
    s[PieceStart(poss, i)..PieceEnd(|s|, poss, i)]
  }

  function RawPieces(s: string, poss: seq<int>): (r: seq<string>)
    requires ValidCuts(|s|, poss)
    ensures |r| == |poss| + 1
  {
    seq(|poss| + 1, i requires 0 <= i <= |poss| => RawPiece(s, poss, i))
  }

  /** What splitAtAndTrim returns: each piece between cuts, trimmed. */
  function Pieces(s: string, poss: seq<int>): (r: seq<string>)
    requires ValidCuts(|s|, poss)
    ensures |r| == |poss| + 1
  {
    seq(|poss| + 1, i requires 0 <= i <= |poss| => TrimSpace(RawPiece(s, poss, i)))
  }

  /** splitAtAndTrim: cut `s` at the given positions (dropping the character there) and trim each piece. */
  method SplitAtAndTrim(s: string, poss: seq<int>) returns (l: seq<string>)
    requires ValidCuts(|s|, poss)
    ensures l == Pieces(s, poss)
  {
    ghost var pieces := Pieces(s, poss);
    var a := new string[|poss| + 1];
    var startpos := 0;
    for i := 0 to |poss|
      invariant startpos == PieceStart(poss, i)
      invariant a[..i] == pieces[..i]
    {
      PieceBounds(|s|, poss, i);
      var piece := s[startpos..poss[i]];
      assert pieces[i] == TrimSpace(piece);
      a[i] := TrimSpace(piece);
      assert a[..i + 1] == pieces[..i + 1];
      startpos := poss[i] + 1;
    }
    PieceBounds(|s|, poss, |poss|);
    assert s[startpos..] == RawPiece(s, poss, |poss|);
    assert pieces[|poss|] == TrimSpace(s[startpos..]);
    a[|poss|] := TrimSpace(s[startpos..]);
    assert a[..] == pieces;
    l := a[..];
  }

  /** Dropping the last cut and the text from it on leaves valid cuts. */
  lemma CutsPrefix(s: string, poss: seq<int>)
    requires ValidCuts(|s|, poss) && |poss| > 0
    ensures ValidCuts(poss[|poss| - 1], poss[..|poss| - 1])
  {
    var m := |poss| - 1;
    forall i | 0 <= i < m ensures 0 <= poss[i] < poss[m] {
      assert poss[i] < poss[m];
    }
  }

  /** The pieces before the last cut do not depend on the text after it. */
  lemma RawPiecesPrefix(s: string, poss: seq<int>)
    requires ValidCuts(|s|, poss) && |poss| > 0
    ensures ValidCuts(|s[..poss[|poss| - 1]]|, poss[..|poss| - 1])
    ensures RawPieces(s, poss) ==
              RawPieces(s[..poss[|poss| - 1]], poss[..|poss| - 1]) + [s[poss[|poss| - 1] + 1..]]
  {
    var m := |poss| - 1;
    var s' := s[..poss[m]];
    var p' := poss[..m];
    CutsPrefix(s, poss);
    var r := RawPieces(s, poss);
    var r' := RawPieces(s', p');
    forall i | 0 <= i <= m ensures r'[i] == r[i] {
      PieceBounds(|s|, poss, i);
      PieceBounds(|s'|, p', i);
      assert PieceStart(p', i) == PieceStart(poss, i);
      assert PieceEnd(|s'|, p', i) == PieceEnd(|s|, poss, i);
    }
    PieceBounds(|s|, poss, m + 1);
    assert r[m + 1] == s[poss[m] + 1..];
    assert r == r' + [s[poss[m] + 1..]];
  }

  /**
    When every cut stands on the same character `c`, the untrimmed pieces
    joined by `c` give back the text: nothing is lost but the cut characters.
  */
  lemma {:induction false} RawPiecesJoin(s: string, poss: seq<int>, c: char)
    requires ValidCuts(|s|, poss)
    requires forall i :: 0 <= i < |poss| ==> s[poss[i]] == c
    ensures Join(RawPieces(s, poss), [c]) == s
    decreases |poss|
  {
    if |poss| == 0 {
      assert RawPieces(s, poss)[0] == s[0..|s|] == s;
      assert RawPieces(s, poss) == [s];
    } else {
      var m := |poss| - 1;
      var s' := s[..poss[m]];
      var p' := poss[..m];
      RawPiecesPrefix(s, poss);
      CutsBefore(s, poss, c);
      RawPiecesJoin(s', p', c);
      JoinSnoc(RawPieces(s', p'), s[poss[m] + 1..], [c]);
      CutAt(s, poss[m], c);
    }
  }

  /** The cuts before the last stand on `c` in the text before the last cut. */
  lemma CutsBefore(s: string, poss: seq<int>, c: char)
    requires ValidCuts(|s|, poss) && |poss| > 0
    requires forall i :: 0 <= i < |poss| ==> s[poss[i]] == c
    ensures forall i :: 0 <= i < |poss| - 1 ==> 0 <= poss[i] < poss[|poss| - 1] && s[..poss[|poss| - 1]][poss[i]] == c
  {
    var m := |poss| - 1;
    forall i | 0 <= i < m ensures 0 <= poss[i] < poss[m] && s[..poss[m]][poss[i]] == c {
      assert poss[i] < poss[m];
    }
  }

  /** A text is what stands before position `k`, the character there, and what follows. */
  lemma CutAt(s: string, k: int, c: char)
    requires 0 <= k < |s| && s[k] == c
    ensures s == s[..k] + [c] + s[k + 1..]
  {
  }

  /** TypeReplace: every `string` becomes `std::string`. */
  function TypeReplace(source: string): (r: string)
    ensures !Contains(source, "string") ==> r == source
    ensures Contains(source, "string") ==> |r| > |source| && Contains(r, "std::string")
  {
    if Contains(source, "string") then
      ReplaceAllGrows(source, "string", "std::string");
      ReplaceAllShowsRep(source, "string", "std::string");
      ReplaceAll(source, "string", "std::string")
    else
      ReplaceAllAbsent(source, "string", "std::string");
      ReplaceAll(source, "string", "std::string")
  }

  /** TypeReplace changes its argument exactly when the argument mentions `string`. */
  lemma TypeReplaceChanges(source: string)
    ensures TypeReplace(source) == source <==> !Contains(source, "string")
  {
  }

  /** shouldHash: keys of a library type are hashed. */
  predicate ShouldHash(keyType: string) {
    Contains(keyType, "std::")
  }

  /** A key type that mentions `string` is hashed once TypeReplace has renamed it. */
  lemma StringKeysHashed(keyType: string)
    requires Contains(keyType, "string")
    ensures ShouldHash(TypeReplace(keyType))
  {
    var r := TypeReplace(keyType);
    var i := Index(r, "std::string");
    OccursPrefix(r, "std::string", "std::", i);
    ContainsAt(r, "std::", i);
  }

  /** A key type with no `:` (a plain Go type such as `int`) is never hashed, even after TypeReplace. */
  lemma PlainKeysNotHashed(keyType: string)
    requires ':' !in keyType && !Contains(keyType, "string")
    ensures !ShouldHash(TypeReplace(keyType))
  {
    AbsentSomeChar(keyType, "std::", 3);
  }
}
