/**
  ForLoop: a Go `for` header becomes a C++ `for` header. The header text
  between `for` and `{` picks one of four shapes: the endless loop, a range
  over one variable, a range over two variables, or a C-style header.
  Ranges over a name registered as a hash map walk its `_k__` key table.
*/
module Loops {
  import opened Outcomes
  import opened GoStrings
  import opened Helpers
  import opened Statements

  const Range: string := "range"
  const Walrus: string := ":="
  const ListValuesPanic: string := "TO IMPLEMENT: for _, v := range list"

  /** A C++ `for` header: the keyword and the opening parenthesis, then the rest. */
  function For(rest: string): (r: string)
    ensures HasPrefix(r, "for (") && r[5..] == rest
  {
    "for (" + rest
  }

  /** ForLoop as the translator calls it, on the whole line. */
  function ForLoop(source: string, encounteredHashMaps: seq<string>): (r: Result<string>)
    ensures Between(source, "for", "{").Err? ==> r.Err?
    ensures r.Ok? ==> HasPrefix(r.value, "for (")
  {
    var header :- Between(source, "for", "{");
    ForHeader(TrimSpace(header), encounteredHashMaps)
  }

  /**
    The rest of ForLoop, on the trimmed header. Only range loops can fail:
    `_` over a list is not implemented, and a two-variable range whose only
    comma stands after `:=` has no second loop variable.
  */
  function ForHeader(expression: string, encounteredHashMaps: seq<string>): (r: Result<string>)
    ensures r.Ok? ==> HasPrefix(r.value, "for (")
    ensures r.Err? ==> Contains(expression, Range)
  {
    if expression == "" then
      Ok(For(";;) {"))
    else if CountChar(expression, ',') == 0 && Contains(expression, Range) then
      var fields := Split(expression, " ");
      RangeOne(fields[0], fields[|fields| - 1], encounteredHashMaps)
    else if CountChar(expression, ',') == 1 && Contains(expression, Range) && Contains(expression, Walrus) then
      RangeClausePair(expression, encounteredHashMaps)
    else if Contains(expression, Walrus) then
      if HasPrefix(expression, "_,") && Contains(expression, Range) then
        var varname :- Between(expression, ",", ":");
        var fields := SplitTwo(expression, "range ");
        if |fields| < 2 then Err(IndexRange("ForLoop"))
        else Ok(For("auto &" + varname + " : " + fields[1] + ") {"))
      else
        Ok(For("auto " + ReplaceFirst(expression, Walrus, "=") + ") {"))
    else
      Ok(For(expression + ") {"))
  }

  /**
    The range over two variables: the names before `:=` split at the comma,
    the ranged list is the last word. Fewer than two names is an index panic.
  */
  function RangeClausePair(expression: string, encounteredHashMaps: seq<string>): (r: Result<string>)
    ensures r.Ok? ==> HasPrefix(r.value, "for (")
  {
    var varnames := Split(Split(expression, Walrus)[0], ",");
    if |varnames| < 2 then
      Err(IndexRange("ForLoop"))
    else
      var fields := Split(expression, " ");
      Ok(RangePair(varnames[0], varnames[1], fields[|fields| - 1], encounteredHashMaps))
  }

  /**
    A range over one variable, given its first and last words: the keys of
    a registered hash map, or the indices of a list; `_` over a list panics.
  */
  function RangeOne(varName: string, listName: string, encounteredHashMaps: seq<string>): (r: Result<string>)
    ensures r.Ok? ==> HasPrefix(r.value, "for (")
    ensures r.Err? <==> varName == "_" && listName !in encounteredHashMaps
  {
    if Has(encounteredHashMaps, listName) then
      var hashMapHashKey := varName + HashMapSuffix + KeysSuffix;
      Ok(For("auto " + hashMapHashKey + " : " + listName + KeysSuffix + ") {" + "\n" +
         "auto " + varName + " = " + hashMapHashKey + ".second"))
    else if varName == "_" then
      Err(Explicit(ListValuesPanic))
    else
      Ok(For("std::size_t " + varName + " = 0; " + varName + " < std::size(" + listName + "); " +
         varName + "++) {"))
  }

  /**
    A range over two variables: values or keys and values of a registered
    hash map, elements or indices and elements of a list.
  */
  function RangePair(indexvar: string, elemvar: string, listName: string, encounteredHashMaps: seq<string>): (r: string)
    ensures HasPrefix(r, "for (")
  {
    if Has(encounteredHashMaps, listName) then
      if indexvar == "_" then
        var hashMapHashKey := listName + HashMapSuffix;
        For("auto " + hashMapHashKey + " : " + listName + ") {" + "\n" +
            "auto " + elemvar + " = " + hashMapHashKey + ".second")
      else
        var hashMapHashKey := indexvar + HashMapSuffix + KeysSuffix;
        For("auto " + hashMapHashKey + " : " + listName + KeysSuffix + ") {" + "\n" +
            "auto " + indexvar + " = " + hashMapHashKey + ".second;\nauto " + elemvar + " = " +
            listName + ".at(" + hashMapHashKey + ".first)")
    else if indexvar == "_" then
      For("auto " + elemvar + " : " + listName + ") {")
    else
      For("std::size_t " + indexvar + " = 0; " + indexvar + " < std::size(" + listName + "); " +
          indexvar + "++) {" + "\n" + "auto " + elemvar + " = " + listName + "[" + indexvar + "]")
  }

  // ---------------------------------------------------------------------------
  // The shapes of header ForLoop recognises
  // ---------------------------------------------------------------------------

  /** A Go identifier or expression word: non-empty, no white space, no `,`, `:`, `=` or `{`. */
  predicate IsName(w: string) {
    w != [] && forall i :: 0 <= i < |w| ==> !IsSpace(w[i]) && w[i] != ',' && w[i] != ':' && w[i] != '=' && w[i] != '{'
  }

  lemma NameFree(w: string)
    requires IsName(w)
    ensures ' ' !in w && ',' !in w && ':' !in w && '=' !in w && '{' !in w
  {
    forall i | 0 <= i < |w| ensures w[i] != ' ' {
      assert !IsSpace(w[i]);
    }
  }

  /** The assignment operators of a range clause. */
  predicate IsRangeOperator(op: string) {
    op == Walrus || op == "="
  }

  lemma RangeOneLayout(v: string, op: string, l: string)
    ensures v + " " + op + " range " + l == v + [' '] + (op + [' '] + ("range" + [' '] + l))
  {
  }

  lemma RangeTailWords(op: string, l: string)
    requires ' ' !in op && ' ' !in l
    ensures Split(op + [' '] + ("range" + [' '] + l), " ") == [op, "range", l]
  {
    SplitOn("range", ' ', l);
    SplitNone(l, ' ');
    SplitOn(op, ' ', "range" + [' '] + l);
  }

  lemma RangeOneWords(v: string, op: string, l: string)
    requires IsName(v) && IsName(l) && IsRangeOperator(op)
    ensures Split(v + " " + op + " range " + l, " ") == [v, op, Range, l]
  {
    RangeOneLayout(v, op, l);
    NameFree(v);
    NameFree(l);
    RangeTailWords(op, l);
    SplitOn(v, ' ', op + [' '] + ("range" + [' '] + l));
  }

  lemma RangeOneMarkers(v: string, op: string, l: string)
    requires IsName(v) && IsName(l) && IsRangeOperator(op)
    ensures var e := v + " " + op + " range " + l;
            CountChar(e, ',') == 0 && Contains(e, Range)
  {
    var e := v + " " + op + " range " + l;
    NameFree(v);
    NameFree(l);
    assert ',' !in e;
    var k := |v| + 1 + |op| + 1;
    assert e[k..k + 5] == Range;
    ContainsAt(e, Range, k);
  }

  /** The words and markers of `v op range l`. */
  lemma RangeOneFacts(v: string, op: string, l: string)
    requires IsName(v) && IsName(l) && IsRangeOperator(op)
    ensures var e := v + " " + op + " range " + l;
            Split(e, " ") == [v, op, Range, l] && CountChar(e, ',') == 0 && Contains(e, Range) && e != ""
  {
    RangeOneWords(v, op, l);
    RangeOneMarkers(v, op, l);
  }

  /** `for k := range m {` over a registered hash map walks the map's key table. */
  lemma RangeOverMapKeys(v: string, op: string, m: string, encounteredHashMaps: seq<string>)
    requires IsName(v) && IsName(m) && IsRangeOperator(op) && m in encounteredHashMaps
    ensures var key := v + HashMapSuffix + KeysSuffix;
            ForHeader(v + " " + op + " range " + m, encounteredHashMaps) ==
            Ok(For("auto " + key + " : " + m + KeysSuffix + ") {" + "\n" + "auto " + v + " = " + key + ".second"))
  {
    RangeOneFacts(v, op, m);
    assert ForHeader(v + " " + op + " range " + m, encounteredHashMaps) == RangeOne(v, m, encounteredHashMaps);
  }

  /** `for i := range l {` over anything else counts an index up to the size of `l`. */
  lemma RangeOverListIndex(v: string, op: string, l: string, encounteredHashMaps: seq<string>)
    requires IsName(v) && IsName(l) && IsRangeOperator(op) && l !in encounteredHashMaps && v != "_"
    ensures ForHeader(v + " " + op + " range " + l, encounteredHashMaps) ==
            Ok(For("std::size_t " + v + " = 0; " + v + " < std::size(" + l + "); " + v + "++) {"))
  {
    RangeOneFacts(v, op, l);
  }

  /** `for _ = range l {` over a list is not implemented: the translator panics. */
  lemma RangeOverListBlank(op: string, l: string, encounteredHashMaps: seq<string>)
    requires IsName(l) && IsRangeOperator(op) && l !in encounteredHashMaps
    ensures ForHeader("_ " + op + " range " + l, encounteredHashMaps) == Err(Explicit(ListValuesPanic))
  {
    assert "_ " + op + " range " + l == "_" + " " + op + " range " + l;
    RangeOneFacts("_", op, l);
  }

  lemma PairCommaLayout(i: string, v: string, l: string)
    ensures i + ", " + v + " := range " + l == i + [','] + (" " + v + " := range " + l)
  {
  }

  lemma PairCount(i: string, v: string, l: string)
    requires IsName(i) && IsName(v) && IsName(l)
    ensures CountChar(i + ", " + v + " := range " + l, ',') == 1
  {
    var t := " " + v + " := range " + l;
    PairCommaLayout(i, v, l);
    NameFree(i);
    NameFree(v);
    NameFree(l);
    assert ',' !in t;
    CountCharAppend(i + [','], t, ',');
    CountCharAppend(i, [','], ',');
  }

  lemma PairMarkers(i: string, v: string, l: string)
    ensures var e := i + ", " + v + " := range " + l;
            Contains(e, Range) && Contains(e, Walrus)
  {
    var e := i + ", " + v + " := range " + l;
    var k := |i| + 2 + |v| + 1;
    assert e[k..k + 2] == Walrus;
    ContainsAt(e, Walrus, k);
    assert e[k + 3..k + 8] == Range;
    ContainsAt(e, Range, k + 3);
  }

  /** What stands before the `:=` of `i, v := range l`. */
  lemma PairBeforeWalrus(i: string, v: string, l: string)
    requires IsName(i) && IsName(v)
    ensures Split(i + ", " + v + " := range " + l, Walrus)[0] == i + ", " + v + " "
  {
    var e := i + ", " + v + " := range " + l;
    var k := |i| + 2 + |v| + 1;
    NameFree(i);
    NameFree(v);
    assert e[..k] == i + ", " + v + " ";
    assert e[k..k + 2] == Walrus;
    forall j | 0 <= j < k ensures e[j] != Walrus[0] {
      assert e[j] == (i + ", " + v + " ")[j];
    }
    IndexFirstChar(e, Walrus, k);
  }

  lemma PairVarnames(i: string, v: string)
    requires IsName(i) && IsName(v)
    ensures Split(i + ", " + v + " ", ",") == [i, " " + v + " "]
  {
    assert i + ", " + v + " " == i + [','] + (" " + v + " ");
    NameFree(i);
    NameFree(v);
    SplitOn(i, ',', " " + v + " ");
    SplitNone(" " + v + " ", ',');
  }

  lemma PairList(i: string, v: string, l: string)
    requires IsName(l)
    ensures var f := Split(i + ", " + v + " := range " + l, " "); f[|f| - 1] == l
  {
    assert i + ", " + v + " := range " + l == (i + ", " + v + " := range") + [' '] + l;
    NameFree(l);
    SplitLast(i + ", " + v + " := range", ' ', l);
  }

  /** ForHeader hands the names of `i, v := range l` to RangePair, the element name still padded. */
  lemma PairHeader(i: string, v: string, l: string, encounteredHashMaps: seq<string>)
    requires IsName(i) && IsName(v) && IsName(l)
    ensures ForHeader(i + ", " + v + " := range " + l, encounteredHashMaps) ==
            Ok(RangePair(i, " " + v + " ", l, encounteredHashMaps))
  {
    var e := i + ", " + v + " := range " + l;
    PairCount(i, v, l);
    PairMarkers(i, v, l);
    PairBranch(e, encounteredHashMaps);
    PairClause(i, v, l, encounteredHashMaps);
  }

  lemma PairClause(i: string, v: string, l: string, encounteredHashMaps: seq<string>)
    requires IsName(i) && IsName(v) && IsName(l)
    ensures RangeClausePair(i + ", " + v + " := range " + l, encounteredHashMaps) ==
            Ok(RangePair(i, " " + v + " ", l, encounteredHashMaps))
  {
    var e := i + ", " + v + " := range " + l;
    PairBeforeWalrus(i, v, l);
    PairVarnames(i, v);
    PairList(i, v, l);
    ClauseOf(e, encounteredHashMaps, i, " " + v + " ", l);
  }

  /** RangeClausePair, given the names its splits find. */
  lemma ClauseOf(e: string, encounteredHashMaps: seq<string>, first: string, second: string, last: string)
    requires Split(Split(e, Walrus)[0], ",") == [first, second]
    requires var fields := Split(e, " "); fields[|fields| - 1] == last
    ensures RangeClausePair(e, encounteredHashMaps) == Ok(RangePair(first, second, last, encounteredHashMaps))
  {
  }

  /** The branch of ForHeader for one comma, `range` and `:=`, given what its splits give. */
  lemma PairBranch(e: string, encounteredHashMaps: seq<string>)
    requires e != [] && CountChar(e, ',') == 1 && Contains(e, Range) && Contains(e, Walrus)
    ensures ForHeader(e, encounteredHashMaps) == RangeClausePair(e, encounteredHashMaps)
  {
  }

  /** `for _, v := range l {` over a list walks its elements. */
  lemma PairOverListValues(v: string, l: string, encounteredHashMaps: seq<string>)
    requires IsName(v) && IsName(l) && l !in encounteredHashMaps
    ensures var elem := " " + v + " ";
            ForHeader("_, " + v + " := range " + l, encounteredHashMaps) == Ok(For("auto " + elem + " : " + l + ") {"))
  {
    assert "_, " + v + " := range " + l == "_" + ", " + v + " := range " + l;
    PairHeader("_", v, l, encounteredHashMaps);
  }

  /** `for i, v := range l {` over a list counts the index and binds the element. */
  lemma PairOverListEntries(i: string, v: string, l: string, encounteredHashMaps: seq<string>)
    requires IsName(i) && IsName(v) && IsName(l) && l !in encounteredHashMaps && i != "_"
    ensures var elem := " " + v + " ";
            ForHeader(i + ", " + v + " := range " + l, encounteredHashMaps) ==
            Ok(For("std::size_t " + i + " = 0; " + i + " < std::size(" + l + "); " + i + "++) {" + "\n" +
                   "auto " + elem + " = " + l + "[" + i + "]"))
  {
    PairHeader(i, v, l, encounteredHashMaps);
  }

  /** `for _, v := range m {` over a hash map walks the map itself and binds each value. */
  lemma PairOverMapValues(v: string, m: string, encounteredHashMaps: seq<string>)
    requires IsName(v) && IsName(m) && m in encounteredHashMaps
    ensures var elem := " " + v + " ";
            var entry := m + HashMapSuffix;
            ForHeader("_, " + v + " := range " + m, encounteredHashMaps) ==
            Ok(For("auto " + entry + " : " + m + ") {" + "\n" + "auto " + elem + " = " + entry + ".second"))
  {
    assert "_, " + v + " := range " + m == "_" + ", " + v + " := range " + m;
    PairHeader("_", v, m, encounteredHashMaps);
  }

  /** `for k, v := range m {` over a hash map walks the key table and looks each value up. */
  lemma PairOverMapEntries(k: string, v: string, m: string, encounteredHashMaps: seq<string>)
    requires IsName(k) && IsName(v) && IsName(m) && m in encounteredHashMaps && k != "_"
    ensures var elem := " " + v + " ";
            var key := k + HashMapSuffix + KeysSuffix;
            ForHeader(k + ", " + v + " := range " + m, encounteredHashMaps) ==
            Ok(For("auto " + key + " : " + m + KeysSuffix + ") {" + "\n" +
                   "auto " + k + " = " + key + ".second;\nauto " + elem + " = " + m + ".at(" + key + ".first)"))
  {
    PairHeader(k, v, m, encounteredHashMaps);
  }

  /**
    `_` and more than one further name, as in `for _, v, w := range l {`: the
    names between the first `,` and the first `:` become one reference
    binding, bound to what follows the first `range `. (Names without an `r`,
    so that the first `range ` is the keyword.)
  */
  lemma BlankSeveralNames(v: string, w: string, l: string, encounteredHashMaps: seq<string>)
    requires IsName(v) && IsName(w) && IsName(l) && 'r' !in v && 'r' !in w
    ensures ForHeader("_, " + v + ", " + w + " := range " + l, encounteredHashMaps) ==
            Ok("for (auto & " + v + ", " + w + "  : " + l + ") {")
  {
    var e := "_, " + v + ", " + w + " := range " + l;
    BlankSeveralCount(v, w, l);
    BlankSeveralMarkers(v, w, l);
    BlankSeveralBetween(v, w, l);
    BlankSeveralList(v, w, l);
    BlankSeveralBranch(e, " " + v + ", " + w + " ", l, encounteredHashMaps);
    BlankSeveralLayout(v, w, l);
  }

  lemma BlankSeveralLayout(v: string, w: string, l: string)
    ensures For("auto &" + (" " + v + ", " + w + " ") + " : " + l + ") {") ==
            "for (auto & " + v + ", " + w + "  : " + l + ") {"
  {
  }

  lemma BlankSeveralCount(v: string, w: string, l: string)
    requires IsName(v) && IsName(w) && IsName(l)
    ensures CountChar("_, " + v + ", " + w + " := range " + l, ',') == 2
  {
    var a := " " + v;
    var b := " " + w + " := range " + l;
    assert "_, " + v + ", " + w + " := range " + l == "_" + [','] + a + [','] + b;
    NameFree(v);
    NameFree(w);
    NameFree(l);
    assert ',' !in a && ',' !in b;
    CountCharAppend("_" + [','] + a + [','], b, ',');
    CountCharAppend("_" + [','] + a, [','], ',');
    CountCharAppend("_" + [','], a, ',');
    CountCharAppend("_", [','], ',');
  }

  lemma BlankSeveralMarkers(v: string, w: string, l: string)
    ensures var e := "_, " + v + ", " + w + " := range " + l;
            HasPrefix(e, "_,") && Contains(e, Range) && Contains(e, Walrus)
  {
    var e := "_, " + v + ", " + w + " := range " + l;
    var k := |v| + |w| + 6;
    assert e[..2] == "_,";
    assert e[k..k + 2] == Walrus;
    ContainsAt(e, Walrus, k);
    assert e[k + 3..k + 8] == Range;
    ContainsAt(e, Range, k + 3);
  }

  /** The text between the first `,` and the first `:`: both names, padded. */
  lemma BlankSeveralBetween(v: string, w: string, l: string)
    requires IsName(v) && IsName(w)
    ensures Between("_, " + v + ", " + w + " := range " + l, ",", ":") == Ok(" " + v + ", " + w + " ")
  {
    var e := "_, " + v + ", " + w + " := range " + l;
    var k := |v| + |w| + 6;
    var h := "_, " + v + ", " + w + " ";
    NameFree(v);
    NameFree(w);
    assert e[..k] == h;
    assert e[k] == ':';
    assert ':' !in h;
    forall j | 0 <= j < k ensures e[j] != ':' {
      assert e[j] == h[j];
    }
    IndexChar(e, ',', 1);
    IndexChar(e, ':', k);
    BetweenIndexed(e, ",", ":", 1, k);
    assert e[2..k] == " " + v + ", " + w + " ";
  }

  /** What follows the first `range `: the ranged name. */
  lemma BlankSeveralList(v: string, w: string, l: string)
    requires 'r' !in v && 'r' !in w
    ensures var fields := SplitTwo("_, " + v + ", " + w + " := range " + l, "range ");
            |fields| == 2 && fields[1] == l
  {
    var e := "_, " + v + ", " + w + " := range " + l;
    var k := |v| + |w| + 9;
    var h := "_, " + v + ", " + w + " := ";
    assert e[..k] == h;
    assert e[k..k + 6] == "range ";
    assert 'r' !in h;
    forall j | 0 <= j < k ensures e[j] != 'r' {
      assert e[j] == h[j];
    }
    IndexFirstChar(e, "range ", k);
    assert e[k + 6..] == l;
  }

  /** The branch of ForHeader for `_,` with more than one comma, `range` and `:=`, given what its searches find. */
  lemma BlankSeveralBranch(e: string, names: string, list: string, encounteredHashMaps: seq<string>)
    requires CountChar(e, ',') == 2 && HasPrefix(e, "_,") && Contains(e, Range) && Contains(e, Walrus)
    requires Between(e, ",", ":") == Ok(names)
    requires var fields := SplitTwo(e, "range "); |fields| == 2 && fields[1] == list
    ensures ForHeader(e, encounteredHashMaps) == Ok(For("auto &" + names + " : " + list + ") {"))
  {
  }

  /**
    A single comma that stands after `:=`, as in `for i := range f(a,b) {`,
    leaves no second loop variable before `:=`, and indexing it panics.
  */
  lemma CommaAfterWalrus(v: string, x: string, y: string, encounteredHashMaps: seq<string>)
    requires IsName(v) && IsName(x) && IsName(y)
    ensures ForHeader(v + " := range " + x + "," + y, encounteredHashMaps) == Err(IndexRange("ForLoop"))
  {
    CommaAfterWalrusParts(v, x, y);
    PairBranch(v + " := range " + x + "," + y, encounteredHashMaps);
  }

  /** The markers of `v := range x,y` and the one name before its `:=`. */
  lemma CommaAfterWalrusParts(v: string, x: string, y: string)
    requires IsName(v) && IsName(x) && IsName(y)
    ensures var e := v + " := range " + x + "," + y;
            e != [] && CountChar(e, ',') == 1 && Contains(e, Range) && Contains(e, Walrus) &&
            Split(Split(e, Walrus)[0], ",") == [v + " "]
  {
    CommaAfterWalrusCount(v, x, y);
    CommaAfterWalrusRange(v, x, y);
    CommaAfterWalrusName(v, x, y);
  }

  lemma CommaAfterWalrusRange(v: string, x: string, y: string)
    ensures Contains(v + " := range " + x + "," + y, Range)
  {
    var e := v + " := range " + x + "," + y;
    var k := |v| + 4;
    assert e[k..k + 5] == Range;
    ContainsAt(e, Range, k);
  }

  lemma CommaAfterWalrusName(v: string, x: string, y: string)
    requires IsName(v)
    ensures var e := v + " := range " + x + "," + y;
            Contains(e, Walrus) && Split(Split(e, Walrus)[0], ",") == [v + " "]
  {
    var rest := "range " + x + "," + y;
    assert v + " := range " + x + "," + y == v + " := " + rest;
    BeforeWalrus(v, rest);
    NameFree(v);
    SplitNone(v + " ", ',');
  }

  /** The first `:=` of `v := rest` follows the name. */
  lemma BeforeWalrus(v: string, rest: string)
    requires IsName(v)
    ensures var e := v + " := " + rest;
            Contains(e, Walrus) && Split(e, Walrus)[0] == v + " "
  {
    var e := v + " := " + rest;
    var k := |v| + 1;
    NameFree(v);
    assert e[k..k + 2] == Walrus;
    assert e[..k] == v + " ";
    forall j | 0 <= j < k ensures e[j] != Walrus[0] {
      assert e[j] == (v + " ")[j];
    }
    IndexFirstChar(e, Walrus, k);
  }

  lemma CommaAfterWalrusCount(v: string, x: string, y: string)
    requires IsName(v) && IsName(x) && IsName(y)
    ensures CountChar(v + " := range " + x + "," + y, ',') == 1
  {
    var h := v + " := range " + x;
    assert v + " := range " + x + "," + y == h + [','] + y;
    NameFree(v);
    NameFree(x);
    NameFree(y);
    assert ',' !in h;
    CountCharAppend(h + [','], y, ',');
    CountCharAppend(h, [','], ',');
  }

  lemma ClauseReplace(v: string, rest: string)
    requires IsName(v)
    ensures ReplaceFirst(v + " := " + rest, Walrus, "=") == v + " = " + rest
  {
    var e := v + " := " + rest;
    var k := |v| + 1;
    NameFree(v);
    assert e[k..k + 2] == Walrus;
    forall j | 0 <= j < k ensures e[j] != Walrus[0] {
      assert e[j] == (v + " ")[j];
    }
    IndexFirstChar(e, Walrus, k);
    assert e[..k] == v + " ";
    assert e[k + 2..] == " " + rest;
  }

  /** `for i := 0; i < n; i++ {` keeps its clauses, with `:=` declared as `auto i =`. */
  lemma ClauseHeader(v: string, rest: string, encounteredHashMaps: seq<string>)
    requires IsName(v) && !Contains(v + " := " + rest, Range)
    ensures ForHeader(v + " := " + rest, encounteredHashMaps) == Ok(For("auto " + (v + " = " + rest) + ") {"))
  {
    var e := v + " := " + rest;
    var k := |v| + 1;
    assert e[k..k + 2] == Walrus;
    ContainsAt(e, Walrus, k);
    ClauseReplace(v, rest);
  }

  /** A header with neither `range` nor `:=`, such as a bare condition, is copied into the parentheses. */
  lemma ConditionHeader(cond: string, encounteredHashMaps: seq<string>)
    requires cond != "" && !Contains(cond, Range) && !Contains(cond, Walrus)
    ensures ForHeader(cond, encounteredHashMaps) == Ok(For(cond + ") {"))
  {
  }

  lemma EndlessLayout(pre: string, post: string)
    ensures pre + "for {" + post == pre + "for" + (" {" + post)
    ensures pre + "for {" + post == (pre + "for ") + ['{'] + post
    ensures (pre + "for {" + post)[|pre| + 3..|pre| + 4] == " "
  {
  }

  lemma EndlessBetween(pre: string, post: string)
    requires AllSpace(pre)
    ensures Between(pre + "for {" + post, "for", "{") == Ok(" ")
  {
    EndlessLayout(pre, post);
    KeywordAfterIndent(pre, "for", " {" + post);
    SpacesLack(pre, '{');
    assert '{' !in pre + "for ";
    IndexAfter(pre + "for ", '{', post);
    var s := pre + "for {" + post;
    assert Index(s, "for") == |pre|;
    assert Index(s, "{") == |pre| + 4;
  }

  /** `for {` on an indented line is the endless loop. */
  lemma EndlessLoop(pre: string, post: string, encounteredHashMaps: seq<string>)
    requires AllSpace(pre)
    ensures ForLoop(pre + "for {" + post, encounteredHashMaps) == Ok("for (;;) {")
  {
    EndlessBetween(pre, post);
    assert TrimSpace(" ") == "";
    assert For(";;) {") == "for (;;) {";
  }

  /** On an indented `for header {` line, ForLoop translates the header between `for` and `{`. */
  lemma LoopLine(pre: string, header: string, post: string, encounteredHashMaps: seq<string>)
    requires AllSpace(pre) && IsCondition(header)
    ensures ForLoop(pre + "for " + header + " {" + post, encounteredHashMaps) == ForHeader(header, encounteredHashMaps)
  {
    assert pre + "for " + header + " {" + post == pre + "for" + " " + header + " {" + post;
    BetweenKeywordBrace(pre, "for", header, post);
    TrimSpacePadded(" ", header, " ");
  }
}
