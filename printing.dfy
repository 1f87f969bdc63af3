/**
  PrintStatement: a call of `fmt.Print`, `fmt.Println`, `print` or `println`
  becomes a C++ stream insertion. The arguments are split at the commas that
  stand outside parentheses and quotes, and each piece is inserted with a
  space between neighbours.
*/
module Printing {
  import opened GoStrings
  import opened Helpers

  const Cerr: string := "std::cerr << "
  const Cout: string := "std::cout << "
  const Endl: string := "std::endl"
  const Boolalpha: string := "std::boolalpha << "
  const Spaced: string := " << \" \" << "
  const Newline: string := " << std::endl"

  // ---------------------------------------------------------------------------
  // Scanning the arguments for top-level commas
  // ---------------------------------------------------------------------------

  /** What the scan over the arguments carries: paren depth, inside quotes, commas found. */
  datatype ScanState = ScanState(withinPar: int, withinQuot: bool, commaPos: seq<int>)

  /** One character of the scan at position `i`. */
  function Step(st: ScanState, c: char, i: int): ScanState {
    if c == '(' then st.(withinPar := st.withinPar + 1)
    else if c == ')' then st.(withinPar := st.withinPar - 1)
    else if c == '"' then st.(withinQuot := !st.withinQuot)
    else if c == ',' && st.withinPar == 0 && !st.withinQuot then st.(commaPos := st.commaPos + [i])
    else st
  }

  /** The scan after the first `n` characters. */
  function Scan(args: string, n: nat): ScanState
    requires n <= |args|
  {
    if n == 0 then ScanState(0, false, []) else Step(Scan(args, n - 1), args[n - 1], n - 1)
  }

  /** The commas at which the arguments are split. */
  function TopLevelCommas(args: string): seq<int> {
    Scan(args, |args|).commaPos
  }

  /** Paren depth of a prefix: opened minus closed, whether or not inside quotes. */
  function Depth(s: string): int {
    CountChar(s, '(') - CountChar(s, ')')
  }

  /** A prefix ends inside a string literal when it holds an odd number of quotes. */
  predicate Quoted(s: string) {
    CountChar(s, '"') % 2 == 1
  }

  /**
    A comma at position `i` that the arguments are split at: the parentheses
    before it balance and the quotes before it are even. Parentheses are
    counted inside string literals too, and a surplus of `)` also hides the
    comma.
  */
  predicate TopLevelComma(args: string, i: int) {
    0 <= i < |args| && args[i] == ',' && Depth(args[..i]) == 0 && !Quoted(args[..i])
  }

  lemma CountCharSnoc(s: string, n: nat, c: char)
    requires 0 < n <= |s|
    ensures CountChar(s[..n], c) == CountChar(s[..n - 1], c) + (if s[n - 1] == c then 1 else 0)
  {
    assert s[..n] == s[..n - 1] + [s[n - 1]];
    CountCharAppend(s[..n - 1], [s[n - 1]], c);
  }

  /** The scan's depth and quote flag are the counts of parentheses and quotes so far. */
  lemma ScanCounts(args: string, n: nat)
    requires n <= |args|
    ensures Scan(args, n).withinPar == Depth(args[..n])
    ensures Scan(args, n).withinQuot == Quoted(args[..n])
  {
    ScanDepth(args, n);
    ScanQuoted(args, n);
  }

  /** The scan's depth is the number of `(` minus the number of `)` so far. */
  lemma {:induction false} ScanDepth(args: string, n: nat)
    requires n <= |args|
    ensures Scan(args, n).withinPar == Depth(args[..n])
  {
    if n > 0 {
      ScanDepth(args, n - 1);
      var st := Scan(args, n - 1);
      assert Scan(args, n) == Step(st, args[n - 1], n - 1);
      CountCharSnoc(args, n, '(');
      CountCharSnoc(args, n, ')');
    }
  }

  /** The scan is inside quotes exactly after an odd number of `"`. */
  lemma {:induction false} ScanQuoted(args: string, n: nat)
    requires n <= |args|
    ensures Scan(args, n).withinQuot == Quoted(args[..n])
  {
    if n > 0 {
      ScanQuoted(args, n - 1);
      var st := Scan(args, n - 1);
      assert Scan(args, n) == Step(st, args[n - 1], n - 1);
      CountCharSnoc(args, n, '"');
    }
  }

  /**
    The scan records exactly the top-level commas before `n`, in increasing
    order: they are valid cut positions.
  */
  lemma {:induction false} ScanCommas(args: string, n: nat)
    requires n <= |args|
    ensures forall i :: i in Scan(args, n).commaPos <==> i < n && TopLevelComma(args, i)
    ensures ValidCuts(n, Scan(args, n).commaPos)
  {
    if n > 0 {
      ScanCommas(args, n - 1);
      ScanCounts(args, n - 1);
      var st := Scan(args, n - 1);
      var i := n - 1;
      if args[i] == ',' && st.withinPar == 0 && !st.withinQuot {
        assert Scan(args, n).commaPos == st.commaPos + [i];
      } else {
        assert Scan(args, n).commaPos == st.commaPos;
      }
    }
  }

  /** Where no top-level comma stands, the scan records none. */
  lemma {:induction false} ScanNoCommas(args: string, n: nat)
    requires n <= |args|
    requires forall i :: 0 <= i < n ==> !TopLevelComma(args, i)
    ensures Scan(args, n).commaPos == []
  {
    if n > 0 {
      ScanNoCommas(args, n - 1);
      ScanCounts(args, n - 1);
      assert !TopLevelComma(args, n - 1);
    }
  }

  /** The top-level commas are exactly the commas with balanced parentheses and even quotes before them. */
  lemma TopLevelCommasExact(args: string)
    ensures forall i :: i in TopLevelCommas(args) <==> TopLevelComma(args, i)
    ensures ValidCuts(|args|, TopLevelCommas(args))
  {
    ScanCommas(args, |args|);
  }

  /** The loop of PrintStatement that finds the commas to split at. */
  method FindCommas(args: string) returns (commaPos: seq<int>)
    ensures commaPos == TopLevelCommas(args)
  {
    var withinPar := 0;
    var withinQuot := false;
    commaPos := [];
    for i := 0 to |args|
      invariant Scan(args, i) == ScanState(withinPar, withinQuot, commaPos)
    {
      var c := args[i];
      if c == '(' {
        withinPar := withinPar + 1;
      } else if c == ')' {
        withinPar := withinPar - 1;
      } else if c == '"' {
        withinQuot := !withinQuot;
      } else if c == ',' && withinPar == 0 && !withinQuot {
        commaPos := commaPos + [i];
      }
    }
  }

  // ---------------------------------------------------------------------------
  // The statement
  // ---------------------------------------------------------------------------

  /** The callee: the trimmed text before the first `(` of the trimmed line. */
  function CallName(source: string): string {
    TrimSpace(SplitTwo(TrimSpace(source), "(")[0])
  }

  /** The text after the first `(` of the trimmed line, untrimmed. */
  function CallRest(source: string): string
    requires Contains(source, "(")
  {
    var t := TrimSpace(source);
    ContainsChar(source, '(');
    TrimSpaceKeeps(source, '(');
    ContainsChar(t, '(');
    SplitTwo(t, "(")[1]
  }

  /** The arguments: the rest trimmed, less one closing `)`. */
  function CallArgs(source: string): string
    requires Contains(source, "(")
  {
    var args := TrimSpace(CallRest(source));
    if HasSuffix(args, ")") then args[..|args| - 1] else args
  }

  /** The stream a print call writes to: `print` and `println` go to standard error. */
  function Stream(name: string): string {
    if HasPrefix(name, "print") then Cerr else Cout
  }

  /** The inserted arguments: the pieces between top-level commas, trimmed and spaced. */
  function Inserted(args: string): string {
    var commaPos := TopLevelCommas(args);
    if |commaPos| > 0 then
      TopLevelCommasExact(args);
      Join(Pieces(args, commaPos), Spaced)
    else args
  }

  /** What PrintStatement returns. */
  function Print(source: string): string {
    if !Contains(source, "(") then ""
    else Render(CallName(source), CallRest(source), CallArgs(source))
  }

  /**
    The statement for a call of `name` whose text after `(` is `rest` and
    whose arguments are `args`.
  */
  function Render(name: string, rest: string, args: string): string {
    if |args| == 0 then Stream(name) + Endl
    else
      var head := if HasPrefix(rest, "\"") then Stream(name) else Stream(name) + Boolalpha;
      var body := head + Inserted(args);
      if HasSuffix(name, "ln") then body + Newline else body
  }

  /** The check of PrintStatement that every piece after the first `(` starts with a quote. */
  method OnlyStrings(elems: seq<string>) returns (onlyStrings: bool)
    ensures onlyStrings <==> |elems| > 1 && forall j :: 1 <= j < |elems| ==> HasPrefix(elems[j], "\"")
  {
    onlyStrings := false;
    if |elems| > 1 {
      var allElementsStartsWithQuote := true;
      var k := 1;
      while k < |elems|
        invariant 1 <= k <= |elems|
        invariant allElementsStartsWithQuote <==> forall j :: 1 <= j < k ==> HasPrefix(elems[j], "\"")
      {
        if !HasPrefix(elems[k], "\"") {
          allElementsStartsWithQuote := false;
          break;
        }
        k := k + 1;
      }
      onlyStrings := allElementsStartsWithQuote;
    }
  }

  /** For a call split in two at its first `(`, only the text after it is checked for a quote. */
  lemma OnlyStringsOfTwo(elems: seq<string>, onlyStrings: bool)
    requires |elems| == 2
    requires onlyStrings <==> |elems| > 1 && forall j :: 1 <= j < |elems| ==> HasPrefix(elems[j], "\"")
    ensures onlyStrings <==> HasPrefix(elems[1], "\"")
  {
  }

  /** The insertion of the arguments, with the comma scan and the split of the source. */
  method InsertArguments(args: string) returns (inserted: string)
    ensures inserted == Inserted(args)
  {
    var commaPos := FindCommas(args);
    if |commaPos| > 0 {
      TopLevelCommasExact(args);
      var parts := SplitAtAndTrim(args, commaPos);
      inserted := Join(parts, Spaced);
    } else {
      inserted := args;
    }
  }

  /** PrintStatement, with the loops of the source. */
  method PrintStatement(source: string) returns (output: string)
    ensures output == Print(source)
  {
    output := "";
    if !Contains(source, "(") {
      return;
    }
    var t := TrimSpace(source);
    ContainsChar(source, '(');
    TrimSpaceKeeps(source, '(');
    ContainsChar(t, '(');
    var elems := SplitTwo(t, "(");
    var name := TrimSpace(elems[0]);
    var args := TrimSpace(elems[1]);
    if HasSuffix(args, ")") {
      args := args[..|args| - 1];
    }
    output := RenderStatement(name, elems, args);
  }

  /** The part of PrintStatement after the call is taken apart. */
  method RenderStatement(name: string, elems: seq<string>, args: string) returns (output: string)
    requires |elems| == 2
    ensures output == Render(name, elems[1], args)
  {
    if HasPrefix(name, "print") {
      output := Cerr;
    } else {
      output := Cout;
    }
    if |args| == 0 {
      return output + Endl;
    }
    var onlyStrings := OnlyStrings(elems);
    OnlyStringsOfTwo(elems, onlyStrings);
    if !onlyStrings {
      output := output + Boolalpha;
    }
    var inserted := InsertArguments(args);
    output := output + inserted;
    if HasSuffix(name, "ln") {
      output := output + Newline;
    }
  }

  // ---------------------------------------------------------------------------
  // Properties of the statement
  // ---------------------------------------------------------------------------

  lemma PrefixExtend(x: string, y: string, p: string)
    requires HasPrefix(x, p)
    ensures HasPrefix(x + y, p)
  {
    assert (x + y)[..|p|] == x[..|p|];
  }

  /** A line without a call translates to nothing. */
  lemma PrintWithoutCall(source: string)
    requires !Contains(source, "(")
    ensures Print(source) == ""
  {
  }

  /** Every statement starts with its stream. */
  lemma RenderStream(name: string, rest: string, args: string)
    ensures HasPrefix(Render(name, rest, args), Stream(name))
  {
    var st := Stream(name);
    PrefixExtend(st, [], st);
    assert st + [] == st;
    if |args| == 0 {
      PrefixExtend(st, Endl, st);
    } else {
      var b := if HasPrefix(rest, "\"") then "" else Boolalpha;
      PrefixExtend(st, b, st);
      PrefixExtend(st + b, Inserted(args), st);
      PrefixExtend(st + b + Inserted(args), if HasSuffix(name, "ln") then Newline else "", st);
    }
  }

  /** `print` and `println` write to standard error, every other callee to standard output. */
  lemma PrintStreamChoice(source: string)
    requires Contains(source, "(")
    ensures HasPrefix(Print(source), Cerr) <==> HasPrefix(CallName(source), "print")
    ensures HasPrefix(Print(source), Cout) <==> !HasPrefix(CallName(source), "print")
  {
    RenderStream(CallName(source), CallRest(source), CallArgs(source));
    var out := Print(source);
    assert Cerr[6] != Cout[6];
    assert |Cerr| == |Cout| == 13;
  }

  /**
    A call with arguments ends with ` << std::endl` exactly when its name
    ends in `ln` (`Println`, `println`); otherwise the statement stops after
    the inserted arguments.
  */
  lemma PrintNewline(source: string)
    requires Contains(source, "(") && CallArgs(source) != ""
    ensures var name := CallName(source);
            var head := if HasPrefix(CallRest(source), "\"") then Stream(name) else Stream(name) + Boolalpha;
            var body := head + Inserted(CallArgs(source));
            (HasSuffix(name, "ln") <==> Print(source) == body + Newline) &&
            (!HasSuffix(name, "ln") <==> Print(source) == body)
  {
    var name := CallName(source);
    var head := if HasPrefix(CallRest(source), "\"") then Stream(name) else Stream(name) + Boolalpha;
    var body := head + Inserted(CallArgs(source));
    assert |body + Newline| == |body| + 13;
  }

  /** A call whose first argument is not a string literal prints booleans as words. */
  lemma PrintBoolalpha(source: string)
    requires Contains(source, "(") && CallArgs(source) != "" && !HasPrefix(CallRest(source), "\"")
    ensures HasPrefix(Print(source), Stream(CallName(source)) + Boolalpha)
  {
    var name := CallName(source);
    var args := CallArgs(source);
    var head := Stream(name) + Boolalpha;
    PrefixExtend(head, [], head);
    assert head + [] == head;
    PrefixExtend(head, Inserted(args), head);
    PrefixExtend(head + Inserted(args), if HasSuffix(name, "ln") then Newline else "", head);
  }

  /**
    With top-level commas, the arguments become one trimmed piece per comma
    plus one, joined by ` << " " << `; joining the untrimmed pieces by `,`
    gives the arguments back, so nothing but the commas is dropped.
  */
  lemma InsertedPieces(args: string)
    requires |TopLevelCommas(args)| > 0
    ensures ValidCuts(|args|, TopLevelCommas(args))
    ensures Inserted(args) == Join(Pieces(args, TopLevelCommas(args)), Spaced)
    ensures |Pieces(args, TopLevelCommas(args))| == |TopLevelCommas(args)| + 1
    ensures forall i :: 0 <= i <= |TopLevelCommas(args)| ==>
              Pieces(args, TopLevelCommas(args))[i] == TrimSpace(RawPieces(args, TopLevelCommas(args))[i])
    ensures Join(RawPieces(args, TopLevelCommas(args)), ",") == args
  {
    var commaPos := TopLevelCommas(args);
    TopLevelCommasExact(args);
    forall i | 0 <= i < |commaPos| ensures args[commaPos[i]] == ',' {
      assert commaPos[i] in commaPos;
    }
    RawPiecesJoin(args, commaPos, ',');
  }

  /** Text with no parenthesis, quote or comma. */
  predicate Plain(a: string) {
    forall i :: 0 <= i < |a| ==> a[i] != '(' && a[i] != ')' && a[i] != '"' && a[i] != ','
  }

  lemma PlainCounts(a: string)
    requires Plain(a)
    ensures Depth(a) == 0 && !Quoted(a) && ',' !in a
  {
    assert '(' !in a && ')' !in a && '"' !in a;
  }

  /** The scan records no more commas than there are. */
  lemma {:induction false} ScanCommaCount(args: string, n: nat)
    requires n <= |args|
    ensures |Scan(args, n).commaPos| <= CountChar(args[..n], ',')
  {
    if n > 0 {
      ScanCommaCount(args, n - 1);
      CountCharSnoc(args, n, ',');
    }
  }

  /** The only top-level comma of `a, b` with plain `a` and `b` is the one between them. */
  lemma TwoArgumentCommas(a: string, b: string)
    requires Plain(a) && Plain(b)
    ensures TopLevelCommas(a + ", " + b) == [|a|]
  {
    var args := a + ", " + b;
    var commaPos := TopLevelCommas(args);
    TopLevelCommasExact(args);
    PlainCounts(a);
    PlainCounts(b);
    assert args[..|a|] == a;
    assert TopLevelComma(args, |a|);
    assert args == a + [','] + (" " + b);
    CountCharAppend(a + [','], " " + b, ',');
    CountCharAppend(a, [','], ',');
    assert args[..|args|] == args;
    ScanCommaCount(args, |args|);
    assert |commaPos| == 1;
    assert commaPos[0] in commaPos;
    forall j | 0 <= j < |args| ensures args[j] == ',' ==> j == |a| {
      if j < |a| {
        assert args[j] == a[j];
      } else if j > |a| + 1 {
        assert args[j] == b[j - |a| - 2];
      }
    }
  }

  /** `a, b` is inserted as `a << " " << b`. */
  lemma TwoArguments(a: string, b: string)
    requires Plain(a) && Plain(b)
    requires a != [] && !IsSpace(a[0]) && !IsSpace(a[|a| - 1])
    requires b != [] && !IsSpace(b[0]) && !IsSpace(b[|b| - 1])
    ensures Inserted(a + ", " + b) == a + Spaced + b
  {
    var args := a + ", " + b;
    TwoArgumentCommas(a, b);
    TopLevelCommasExact(args);
    var p := Pieces(args, [|a|]);
    assert RawPiece(args, [|a|], 0) == a;
    assert RawPiece(args, [|a|], 1) == " " + b;
    TrimSpaceClean(a);
    TrimSpacePadded(" ", b, "");
    assert " " + b + "" == " " + b;
    assert p == [a, b];
    assert p[1..] == [b];
    assert Join(p, Spaced) == a + Spaced + b;
  }

  /** A call with an empty argument list prints just the end of line. */
  lemma NoArguments(name: string)
    requires name != [] && !IsSpace(name[0]) && !IsSpace(name[|name| - 1]) && '(' !in name
    ensures Print(name + "()") == Stream(name) + Endl
  {
    EmptyCall(name);
    PrintOf(name + "()", name, ")", "");
  }

  /** Print is Render of the call's name, rest and arguments. */
  lemma PrintOf(source: string, name: string, rest: string, args: string)
    requires Contains(source, "(") && CallName(source) == name && CallRest(source) == rest && CallArgs(source) == args
    ensures Print(source) == Render(name, rest, args)
  {
  }

  /** The parts of a call with an empty argument list. */
  lemma EmptyCall(name: string)
    requires name != [] && !IsSpace(name[0]) && !IsSpace(name[|name| - 1]) && '(' !in name
    ensures var s := name + "()";
            Contains(s, "(") && CallName(s) == name && CallRest(s) == ")" && CallArgs(s) == ""
  {
    var s := name + "()";
    assert s == name + ['('] + ")";
    assert s[|name|] == '(';
    ContainsChar(s, '(');
    TrimSpaceClean(s);
    IndexAfter(name, '(', ")");
    assert s[..|name|] == name;
    assert s[|name| + 1..] == ")";
    assert SplitTwo(s, "(") == [name, ")"];
    TrimSpaceClean(name);
    TrimSpaceClean(")");
    assert CallName(s) == name;
    assert CallRest(s) == ")";
    assert CallArgs(s) == "";
  }

  /** A comma inside a string literal is not a split point: `"x, y"` is inserted whole. */
  lemma StringLiteralArgument(x: string)
    requires '"' !in x
    ensures Inserted("\"" + x + "\"") == "\"" + x + "\""
  {
    var args := "\"" + x + "\"";
    TopLevelCommasExact(args);
    forall i | 0 <= i < |args| ensures !TopLevelComma(args, i) {
      if 1 <= i <= |x| {
        assert args[..i] == ['"'] + x[..i - 1];
        CountCharAppend(['"'], x[..i - 1], '"');
        assert '"' !in x[..i - 1];
      }
    }
    ScanNoCommas(args, |args|);
  }
}
