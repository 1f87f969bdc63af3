/**
  Function signatures: Go parameter lists (`a, b int, s string`) become C++
  parameter lists (`int a, int b, string s`), return lists become a single
  type or a `std::tuple<...>`, and a one-line `func` header becomes a C++
  trailing-return-type header.
*/
module Signatures {
  import opened Outcomes
  import opened GoStrings
  import opened Helpers

  /** The name part of a trimmed parameter: the word before the first space, or all of it. */
  function ArgName(stripped: string): string {
    if Contains(stripped, " ") then SplitTwo(stripped, " ")[0] else stripped
  }

  /**
    The type a parameter gets. Go lets `a, b int` share the type written after
    the last name of a group, so an untyped parameter takes the type of the
    nearest typed parameter after it, or "" if there is none.
  */
  function CarriedType(args: seq<string>, i: nat): string
    decreases |args| - i
  {
    if i >= |args| then ""
    else
      var stripped := TrimSpace(args[i]);
      if Contains(stripped, " ") then SplitTwo(stripped, " ")[1] else CarriedType(args, i + 1)
  }

  /** What parameter `i` is rewritten to: ` <type> <name>`. */
  function Rewritten(args: seq<string>, i: nat): string
    requires i < |args|
  {
    " " + CarriedType(args, i) + " " + ArgName(TrimSpace(args[i]))
  }

  /**
    The replacements still to do once parameters `i` and after are rewritten:
    parameter `i - 1` first, down to parameter 0, each replacing every
    occurrence of the untrimmed parameter text.
  */
  function RewriteFrom(output: string, args: seq<string>, i: nat): string
    requires i <= |args|
    decreases i
  {
    if i == 0 then output
    else RewriteFrom(ReplaceAll(output, args[i - 1], Rewritten(args, i - 1)), args, i - 1)
  }

  /** The C++ parameter list FunctionArguments produces. */
  function ArgumentsOf(source: string): string {
    if Contains(source, ",") then
      var args := Split(source, ",");
      TrimSpace(RewriteFrom(source, args, |args|))
    else if Contains(source, " ") then
      SplitAtLeastTwo(source, " ");
      var words := Split(source, " ");
      TrimSpace(TrimSpace(words[1]) + " " + TrimSpace(words[0]))
    else TrimSpace(source)
  }

  /**
    FunctionArguments: walks the comma-separated parameters from the last to
    the first, carrying the most recent type, and rewrites each in place.
  */
  method FunctionArguments(source: string) returns (output: string)
    ensures output == ArgumentsOf(source)
  {
    output := source;
    if Contains(output, ",") {
      var currentName := "";
      var currentType := "";
      var args := Split(output, ",");
      var i := |args|;
      while i > 0
        invariant 0 <= i <= |args|
        invariant currentType == CarriedType(args, i)
        invariant RewriteFrom(output, args, i) == RewriteFrom(source, args, |args|)
        decreases i
      {
        i := i - 1;
        var strippedArg := TrimSpace(args[i]);
        if Contains(strippedArg, " ") {
          var elems := SplitTwo(strippedArg, " ");
          currentName := elems[0];
          currentType := elems[1];
        } else {
          currentName := strippedArg;
        }
        var newArgs := " " + currentType + " " + currentName;
        output := ReplaceAll(output, args[i], newArgs);
      }
    } else if Contains(output, " ") {
      SplitAtLeastTwo(output, " ");
      var words := Split(output, " ");
      output := TrimSpace(words[1]) + " " + TrimSpace(words[0]);
    }
    output := TrimSpace(output);
  }

  /** A word: non-empty, with no white space and none of the characters `,`, `(`, `)`, `{`. */
  predicate IsWord(w: string) {
    w != [] && forall i :: 0 <= i < |w| ==> !IsSpace(w[i]) && w[i] !in ",(){"
  }

  lemma WordTrimmed(w: string)
    requires IsWord(w)
    ensures TrimSpace(w) == w
  {
    TrimLeftClean(w);
    TrimRightClean(w);
  }

  /** A single parameter `name type` is swapped into C++ order `type name`. */
  lemma SingleParameter(name: string, typ: string)
    requires IsWord(name) && IsWord(typ)
    ensures ArgumentsOf(name + " " + typ) == typ + " " + name
  {
    var s := name + " " + typ;
    assert ',' !in s by {
      assert forall i :: 0 <= i < |s| ==> s[i] == ' ' || s[i] in name || s[i] in typ;
    }
    ContainsChar(s, ',');
    assert s[|name|] == ' ';
    ContainsChar(s, ' ');
    assert Join([name, typ], " ") == s;
    SplitJoin([name, typ], ' ');
    WordTrimmed(name);
    WordTrimmed(typ);
    var t := typ + " " + name;
    assert t[0] == typ[0] && t[|t| - 1] == name[|name| - 1];
    TrimSpaceClean(t);
  }

  /** A parameter list with neither a comma nor a space is only trimmed. */
  lemma BareParameter(source: string)
    requires ',' !in source && ' ' !in source
    ensures ArgumentsOf(source) == TrimSpace(source)
  {
    ContainsChar(source, ',');
    ContainsChar(source, ' ');
  }

  /**
    An untyped parameter followed by a typed one shares its type: the type
    carried to parameter `i` is the one written at the first typed parameter
    from `i` on.
  */
  lemma {:induction false} CarriedTypeFromNext(args: seq<string>, i: nat, j: nat)
    requires i <= j < |args|
    requires forall k :: i <= k < j ==> !Contains(TrimSpace(args[k]), " ")
    requires Contains(TrimSpace(args[j]), " ")
    ensures CarriedType(args, i) == SplitTwo(TrimSpace(args[j]), " ")[1]
    decreases j - i
  {
    if i < j {
      CarriedTypeFromNext(args, i + 1, j);
    }
  }

  /** FunctionRetvals: `(a int, b string)` becomes `(int a, string b)`, a single return stays as it is. */
  function Retvals(source: string): (r: Result<string>)
    ensures |TrimSpace(source)| == 0 ==> r == Ok(source)
    ensures |TrimSpace(source)| > 0 && !Contains(source, "(") ==> r == Ok(TrimSpace(source))
  {
    if |TrimSpace(source)| == 0 then Ok(source)
    else if Contains(source, "(") then
      var s :- Between(source, "(", ")");
      var retvals := ArgumentsOf(s);
      if Contains(retvals, ",") then Ok(TrimSpace("(" + retvals + ")")) else Ok(TrimSpace(retvals))
    else Ok(TrimSpace(source))
  }

  /** A parenthesised return list is rewritten inside its parentheses. */
  lemma RetvalsParenthesised(pre: string, list: string, post: string)
    requires AllSpace(pre) && '(' !in list && ')' !in list
    requires Contains(ArgumentsOf(list), ",")
    ensures Retvals(pre + "(" + list + ")" + post) == Ok("(" + ArgumentsOf(list) + ")")
  {
    var s := pre + "(" + list + ")" + post;
    assert '(' !in pre by {
      forall i | 0 <= i < |pre| ensures pre[i] != '(' {
        assert IsSpace(pre[i]);
      }
    }
    assert s == pre + ['('] + list + [')'] + post;
    BetweenDelimited(pre, '(', list, ')', post);
    assert s[|pre|] == '(';
    ContainsChar(s, '(');
    assert s[|pre|] == '(' && !IsSpace('(');
    TrimSpaceKeeps(s, '(');
    var out := "(" + ArgumentsOf(list) + ")";
    TrimSpaceClean(out);
  }

  /** The first word of each trimmed piece. */
  function FirstWords(words: seq<string>): (r: seq<string>)
    ensures |r| == |words|
  {
    seq(|words|, i requires 0 <= i < |words| => Split(TrimSpace(words[i]), " ")[0])
  }

  /** What CPPTypes produces: the first word of each comma-separated piece inside the parentheses. */
  function TypesOf(args: string): Result<string> {
    var inner :- Between(args, "(", ")");
    Ok(Join(FirstWords(Split(inner, ",")), ", "))
  }

  /** CPPTypes: keeps only the type of each `type name` pair. */
  method CPPTypes(args: string) returns (r: Result<string>)
    ensures r == TypesOf(args)
  {
    var inner :- Between(args, "(", ")");
    var words := Split(inner, ",");
    var atypes: seq<string> := [];
    for i := 0 to |words|
      invariant atypes == FirstWords(words)[..i]
    {
      var elems := Split(TrimSpace(words[i]), " ");
      atypes := atypes + [elems[0]];
    }
    assert atypes == FirstWords(words);
    return Ok(Join(atypes, ", "));
  }

  /** A typed piece `type name`, possibly padded, contributes just its type. */
  lemma FirstWordOfPair(pad: string, typ: string, name: string)
    requires AllSpace(pad) && IsWord(typ) && IsWord(name)
    ensures Split(TrimSpace(pad + typ + " " + name), " ")[0] == typ
  {
    var x := typ + " " + name;
    assert x[0] == typ[0] && x[|x| - 1] == name[|name| - 1];
    TrimSpacePadded(pad, x, "");
    assert pad + typ + " " + name == pad + x + "";
    assert x[|typ|] == ' ';
    assert forall j :: 0 <= j < |typ| ==> x[j] == typ[j];
    IndexChar(x, ' ', |typ|);
    assert x[..|typ|] == typ;
  }

  /**
    A parenthesised list of comma-separated pieces yields the first word of
    each piece, in order, joined by `", "`: with FirstWordOfPair, exactly the
    types of a list of `type name` pairs.
  */
  lemma TypesOfPieces(pieces: seq<string>)
    requires |pieces| >= 1
    requires forall i :: 0 <= i < |pieces| ==> ',' !in pieces[i] && '(' !in pieces[i] && ')' !in pieces[i]
    ensures TypesOf("(" + Join(pieces, ",") + ")") == Ok(Join(FirstWords(pieces), ", "))
  {
    var inner := Join(pieces, ",");
    JoinFree(pieces, ",", ')');
    BetweenEnclosed('(', inner, ')');
    SplitJoin(pieces, ',');
    assert Split(inner, ",") == pieces;
  }

  /** The parts of a C++ signature header. */
  datatype Signature = Signature(output: string, returnType: string, name: string)

  /**
    FunctionSignature: `func name(params) rets {` becomes
    `auto name(params') -> rets' {`. `main` always returns `int`, several
    return values become a `std::tuple`.
  */
  function FunctionSignature(source: string): (r: Result<Signature>)
    ensures |TrimSpace(source)| == 0 ==> r == Ok(Signature(source, "", ""))
    ensures r.Ok? && |TrimSpace(source)| > 0 && r.value.name == "main" ==> r.value.returnType == "int"
    ensures r.Ok? && |TrimSpace(source)| > 0 ==> Between(source, "func ", "(") == Ok(r.value.name)
  {
    if |TrimSpace(source)| == 0 then Ok(Signature(source, "", ""))
    else
      var params :- Between(source, "(", ")");
      var args := ArgumentsOf(params);
      var tail :- Between(source, ")", "{");
      var rets0 :- Retvals(tail);
      var rets1 :- if Contains(rets0, ",") then
                     var types :- TypesOf(rets0);
                     Ok(TupleType + "<" + types + ">")
                   else Ok(rets0);
      var name :- Between(source, "func ", "(");
      var rets := if name == "main" then "int" else rets1;
      Ok(Signature(TrimSpace("auto " + name + "(" + args + ") -> " + rets + " {"), rets, name))
  }

  /** The header `func name(params) ret {` of a function with a single return type. */
  function Header(name: string, params: string, ret: string): string {
    "func " + name + "(" + params + ") " + ret + " {"
  }

  lemma HeaderName(name: string, params: string, ret: string)
    requires IsWord(name)
    ensures Between(Header(name, params, ret), "func ", "(") == Ok(name)
  {
    var s := Header(name, params, ret);
    var f := "func ";
    assert HasPrefix(s, f);
    IndexPrefix(s, f);
    assert s[|f| + |name|] == '(';
    forall j | 0 <= j < |f| + |name| ensures s[j] != '(' {
      assert s[j] == (f + name)[j];
    }
    IndexChar(s, '(', |f| + |name|);
    assert s[|f|..|f| + |name|] == name;
  }

  lemma HeaderParams(name: string, params: string, ret: string)
    requires IsWord(name) && '(' !in params && ')' !in params
    ensures Between(Header(name, params, ret), "(", ")") == Ok(params)
  {
    var f := "func ";
    assert Header(name, params, ret) == f + name + ['('] + params + [')'] + (" " + ret + " {");
    assert '(' !in f + name;
    BetweenDelimited(f + name, '(', params, ')', " " + ret + " {");
  }

  lemma HeaderTail(name: string, params: string, ret: string)
    requires IsWord(name) && IsWord(ret) && ')' !in params && '{' !in params
    ensures Between(Header(name, params, ret), ")", "{") == Ok(" " + ret + " ")
  {
    var pre := "func " + name + "(" + params;
    var mid := " " + ret + " ";
    assert Header(name, params, ret) == pre + [')'] + mid + ['{'] + "";
    assert ')' !in pre;
    assert '{' !in pre + [')'] + mid;
    BetweenDelimited(pre, ')', mid, '{', "");
  }

  /** A single padded return type is kept, trimmed. */
  lemma RetvalsSingle(ret: string)
    requires IsWord(ret)
    ensures Retvals(" " + ret + " ") == Ok(ret)
  {
    var t := " " + ret + " ";
    TrimSpacePadded(" ", ret, " ");
    assert '(' !in t;
    ContainsChar(t, '(');
  }

  /**
    A one-line header `func name(params) ret {` with a single-word return
    type is rewritten to `auto name(params') -> ret {`, and `main` to
    `auto main(params') -> int {`.
  */
  lemma SignatureSingleReturn(name: string, params: string, ret: string)
    requires IsWord(name) && IsWord(ret)
    requires '(' !in params && ')' !in params && '{' !in params
    ensures var rets := if name == "main" then "int" else ret;
            FunctionSignature(Header(name, params, ret)) ==
              Ok(Signature("auto " + name + "(" + ArgumentsOf(params) + ") -> " + rets + " {", rets, name))
  {
    var s := Header(name, params, ret);
    HeaderParts(name, params, ret);
    var rets := if name == "main" then "int" else ret;
    AutoHeaderTrimmed(name, ArgumentsOf(params), rets);
    SignatureOf(s, params, " " + ret + " ", ret, name);
  }

  /** The C++ header starts with `auto` and ends with `{`, so trimming keeps it. */
  lemma AutoHeaderTrimmed(name: string, args: string, rets: string)
    ensures var out := "auto " + name + "(" + args + ") -> " + rets + " {";
            TrimSpace(out) == out
  {
    var out := "auto " + name + "(" + args + ") -> " + rets + " {";
    assert out[0] == 'a' && out[|out| - 1] == '{';
    TrimSpaceClean(out);
  }

  /** What FunctionSignature finds in the header of a function with a single return type. */
  lemma HeaderParts(name: string, params: string, ret: string)
    requires IsWord(name) && IsWord(ret)
    requires '(' !in params && ')' !in params && '{' !in params
    ensures var s := Header(name, params, ret);
            |TrimSpace(s)| > 0 &&
            Between(s, "(", ")") == Ok(params) && Between(s, ")", "{") == Ok(" " + ret + " ") &&
            Retvals(" " + ret + " ") == Ok(ret) && !Contains(ret, ",") && Between(s, "func ", "(") == Ok(name)
  {
    var s := Header(name, params, ret);
    assert s[0] == 'f' && !IsSpace(s[0]);
    TrimSpaceKeeps(s, 'f');
    HeaderParams(name, params, ret);
    HeaderTail(name, params, ret);
    RetvalsSingle(ret);
    ContainsChar(ret, ',');
    HeaderName(name, params, ret);
  }

  /** FunctionSignature for a single return type, given what its parts are. */
  lemma SignatureOf(source: string, params: string, tail: string, ret: string, name: string)
    requires |TrimSpace(source)| > 0
    requires Between(source, "(", ")") == Ok(params) && Between(source, ")", "{") == Ok(tail)
    requires Retvals(tail) == Ok(ret) && !Contains(ret, ",") && Between(source, "func ", "(") == Ok(name)
    ensures var rets := if name == "main" then "int" else ret;
            FunctionSignature(source) ==
              Ok(Signature(TrimSpace("auto " + name + "(" + ArgumentsOf(params) + ") -> " + rets + " {"), rets, name))
  {
  }

  // ---------------------------------------------------------------------------
  // Several results
  // ---------------------------------------------------------------------------

  /** A word that is not inside `t2` does not occur in `,  t2` either. */
  lemma WordOutside(t1: string, t2: string)
    requires IsWord(t1) && !Contains(t2, t1)
    ensures !Contains(",  " + t2, t1)
  {
    var w := ",  " + t2;
    IndexSpec(w, t1);
    IndexSpec(t2, t1);
    if Index(w, t1) >= 0 {
      var i := Index(w, t1);
      assert w[i..i + |t1|] == t1;
      assert w[i] == t1[0];
      assert i >= 3;
      assert t2[i - 3..i - 3 + |t1|] == w[i..i + |t1|];
      assert OccursAt(t2, t1, i - 3);
    }
  }

  /** `t1, t2` has a comma and splits into `t1` and ` t2`. */
  lemma TwoTypesSplit(t1: string, t2: string)
    requires ',' !in t1 && ',' !in t2
    ensures Contains(t1 + ", " + t2, ",") && Split(t1 + ", " + t2, ",") == [t1, " " + t2]
  {
    var s := t1 + ", " + t2;
    assert s == t1 + [','] + (" " + t2);
    SplitOn(t1, ',', " " + t2);
    assert ',' !in " " + t2;
    SplitNone(" " + t2, ',');
    assert s[|t1|] == ',';
    ContainsChar(s, ',');
  }

  /** Two untyped names carry the empty type, so each is rewritten to two spaces and itself. */
  lemma UntypedPair(args: seq<string>, t1: string, t2: string)
    requires IsWord(t1) && IsWord(t2) && args == [t1, " " + t2]
    ensures Rewritten(args, 1) == "  " + t2 && Rewritten(args, 0) == "  " + t1
  {
    TrimSpacePadded(" ", t2, "");
    assert " " + t2 + "" == args[1];
    WordTrimmed(t1);
    ContainsChar(t1, ' ');
    ContainsChar(t2, ' ');
    assert CarriedType(args, 2) == "";
    assert CarriedType(args, 1) == "";
    assert CarriedType(args, 0) == "";
  }

  /**
    A list of two types `t1, t2`, with `t1` not inside `t2`, is rewritten as
    two untyped names: each gets the empty carried type, which leaves two
    spaces in front of it, and the trim removes those before `t1`.
  */
  lemma TwoTypesArguments(t1: string, t2: string)
    requires IsWord(t1) && IsWord(t2) && !Contains(t2, t1)
    ensures ArgumentsOf(t1 + ", " + t2) == t1 + ",  " + t2
  {
    var s := t1 + ", " + t2;
    TwoTypesSplit(t1, t2);
    var args := Split(s, ",");
    UntypedPair(args, t1, t2);
    SecondTypeReplaced(t1, t2);
    FirstTypeReplaced(t1, t2);
    assert RewriteFrom(s, args, 2) == "  " + (t1 + ",  " + t2) + "";
    TrimSpacePadded("  ", t1 + ",  " + t2, "");
  }

  /** The rewrite of ` t2` touches only the second type. */
  lemma SecondTypeReplaced(t1: string, t2: string)
    requires IsWord(t1) && IsWord(t2)
    ensures ReplaceAll(t1 + ", " + t2, " " + t2, "  " + t2) == t1 + ",  " + t2
  {
    var x := t1 + ",";
    var y := " " + t2;
    forall i | 0 <= i < |x| ensures !OccursAt(x + y, y, i) {
      assert (x + y)[i] == x[i];
    }
    ReplaceAllSkip(x, y, y, "  " + t2);
    ReplaceAllFront(y, "", "  " + t2);
    assert y + "" == y;
    assert x + y == t1 + ", " + t2;
  }

  /** The rewrite of `t1` touches only the first type, when `t1` is not inside `t2`. */
  lemma FirstTypeReplaced(t1: string, t2: string)
    requires IsWord(t1) && !Contains(t2, t1)
    ensures ReplaceAll(t1 + ",  " + t2, t1, "  " + t1) == "  " + (t1 + ",  " + t2) + ""
  {
    ReplaceAllFront(t1, ",  " + t2, "  " + t1);
    WordOutside(t1, t2);
    ReplaceAllAbsent(",  " + t2, t1, "  " + t1);
    assert t1 + (",  " + t2) == t1 + ",  " + t2;
  }

  /**
    Two equal types `t, t` are rewritten as two untyped names too; the
    second rewrite also hits the second name, which then has four spaces in
    front of it.
  */
  lemma SameTypeArguments(t: string)
    requires IsWord(t)
    ensures ArgumentsOf(t + ", " + t) == t + ",    " + t
  {
    var s := t + ", " + t;
    TwoTypesSplit(t, t);
    var args := Split(s, ",");
    UntypedPair(args, t, t);
    SecondTypeReplaced(t, t);
    SameTypeReplaced(t);
    assert RewriteFrom(s, args, 2) == "  " + (t + ",    " + t) + "";
    TrimSpacePadded("  ", t + ",    " + t, "");
  }

  /** Rewriting `t` in `t,  t` hits both occurrences. */
  lemma SameTypeReplaced(t: string)
    requires IsWord(t)
    ensures ReplaceAll(t + ",  " + t, t, "  " + t) == "  " + (t + ",    " + t) + ""
  {
    ReplaceAllFront(t, ",  " + t, "  " + t);
    LaterTypeReplaced(t);
    assert t + (",  " + t) == t + ",  " + t;
    assert "  " + t + (",  " + "  " + t) == "  " + (t + ",    " + t) + "";
  }

  /** Rewriting `t` in `,  t` hits the `t` after the spaces. */
  lemma LaterTypeReplaced(t: string)
    requires IsWord(t)
    ensures ReplaceAll(",  " + t, t, "  " + t) == ",  " + "  " + t
  {
    var w := ",  " + t;
    assert t[0] != ',' && t[0] != ' ';
    forall i | 0 <= i < 3 ensures !OccursAt(w, t, i) {
      assert w[i] != t[0];
      assert w[i..i + |t|][0] == w[i];
    }
    ReplaceAllSkip(",  ", t, t, "  " + t);
    ReplaceAllFront(t, "", "  " + t);
    assert t + "" == t;
  }

  /**
    Two result types, each a word, that FunctionArguments leaves as
    `t1,` + some spaces + `t2`: either `t1` does not occur inside `t2`, or
    the two are equal.
  */
  predicate TwoResults(t1: string, t2: string) {
    IsWord(t1) && IsWord(t2) && (t1 == t2 || !Contains(t2, t1))
  }

  /** The spaces FunctionArguments leaves after the comma of `t1, t2`. */
  function ResultGap(t1: string, t2: string): string {
    if t1 == t2 then "    " else "  "
  }

  lemma TwoResultsArguments(t1: string, t2: string)
    requires TwoResults(t1, t2)
    ensures AllSpace(ResultGap(t1, t2))
    ensures ArgumentsOf(t1 + ", " + t2) == t1 + "," + ResultGap(t1, t2) + t2
  {
    GapLayout(t1, t2);
    if t1 == t2 {
      SameTypeArguments(t1);
    } else {
      TwoTypesArguments(t1, t2);
    }
  }

  lemma GapLayout(t1: string, t2: string)
    ensures t1 + ",    " + t2 == t1 + "," + "    " + t2
    ensures t1 + ",  " + t2 == t1 + "," + "  " + t2
  {
  }

  /** The result list ` (t1, t2) ` of a header keeps its parentheses around the rewritten types. */
  lemma TwoTypesRetvals(t1: string, t2: string)
    requires TwoResults(t1, t2)
    ensures Retvals(" (" + t1 + ", " + t2 + ") ") == Ok("(" + t1 + "," + ResultGap(t1, t2) + t2 + ")")
  {
    TwoResultsArguments(t1, t2);
    TwoTypesFree(t1, t2, ResultGap(t1, t2));
    RetvalsParenthesised(" ", t1 + ", " + t2, " ");
    TwoTypesLayout(t1, t2, ResultGap(t1, t2));
  }

  /** The pieces of a two-type result list. */
  lemma TwoTypesFree(t1: string, t2: string, gap: string)
    requires IsWord(t1) && IsWord(t2)
    ensures '(' !in t1 + ", " + t2 && ')' !in t1 + ", " + t2
    ensures Contains(t1 + "," + gap + t2, ",")
  {
    var rets := t1 + "," + gap + t2;
    assert rets[|t1|] == ',';
    ContainsChar(rets, ',');
  }

  lemma TwoTypesLayout(t1: string, t2: string, gap: string)
    ensures " " + "(" + (t1 + ", " + t2) + ")" + " " == " (" + t1 + ", " + t2 + ") "
    ensures "(" + (t1 + "," + gap + t2) + ")" == "(" + t1 + "," + gap + t2 + ")"
  {
  }

  /** CPPTypes keeps both types of `(t1,` + spaces + `t2)`, joined by `, `. */
  lemma TwoTypesKept(t1: string, t2: string, gap: string)
    requires IsWord(t1) && IsWord(t2) && AllSpace(gap)
    ensures Contains("(" + t1 + "," + gap + t2 + ")", ",")
    ensures TypesOf("(" + t1 + "," + gap + t2 + ")") == Ok(t1 + ", " + t2)
  {
    TupleListComma(t1, t2, gap);
    var pieces := [t1, gap + t2];
    TwoPiecesJoined(t1, t2, gap);
    forall i | 0 <= i < |gap| ensures gap[i] !in ",()" {
      assert IsSpace(gap[i]);
    }
    assert forall i :: 0 <= i < |pieces| ==> ',' !in pieces[i] && '(' !in pieces[i] && ')' !in pieces[i];
    TypesOfPieces(pieces);
    FirstWordsTwo(t1, t2, gap);
  }

  lemma TupleListComma(t1: string, t2: string, gap: string)
    ensures Contains("(" + t1 + "," + gap + t2 + ")", ",")
  {
    var out := "(" + t1 + "," + gap + t2 + ")";
    assert out[1 + |t1|] == ',';
    ContainsChar(out, ',');
  }

  lemma TwoPiecesJoined(t1: string, t2: string, gap: string)
    ensures "(" + Join([t1, gap + t2], ",") + ")" == "(" + t1 + "," + gap + t2 + ")"
  {
    assert Join([t1, gap + t2], ",") == t1 + "," + gap + t2;
  }

  lemma FirstWordsTwo(t1: string, t2: string, gap: string)
    requires IsWord(t1) && IsWord(t2) && AllSpace(gap)
    ensures FirstWords([t1, gap + t2]) == [t1, t2]
  {
    WordTrimmed(t1);
    SplitNone(t1, ' ');
    TrimSpacePadded(gap, t2, "");
    assert gap + t2 + "" == gap + t2;
    SplitNone(t2, ' ');
  }

  /** The text between the `)` of the parameters and the `{` of a header whose results are `(t1, t2)`. */
  lemma HeaderTupleTail(name: string, params: string, t1: string, t2: string)
    requires IsWord(name) && IsWord(t1) && IsWord(t2) && ')' !in params && '{' !in params
    ensures Between(Header(name, params, "(" + t1 + ", " + t2 + ")"), ")", "{") == Ok(" (" + t1 + ", " + t2 + ") ")
  {
    var pre := "func " + name + "(" + params;
    var mid := " (" + t1 + ", " + t2 + ") ";
    assert Header(name, params, "(" + t1 + ", " + t2 + ")") == pre + [')'] + mid + ['{'] + "";
    assert ')' !in pre;
    assert '{' !in pre + [')'] + mid;
    BetweenDelimited(pre, ')', mid, '{', "");
  }

  /** What FunctionSignature finds in a header whose results are `(t1, t2)`. */
  lemma TupleHeaderParts(name: string, params: string, t1: string, t2: string)
    requires IsWord(name) && TwoResults(t1, t2)
    requires '(' !in params && ')' !in params && '{' !in params
    ensures var s := Header(name, params, "(" + t1 + ", " + t2 + ")");
            var rets := "(" + t1 + "," + ResultGap(t1, t2) + t2 + ")";
            |TrimSpace(s)| > 0 &&
            Between(s, "(", ")") == Ok(params) && Between(s, ")", "{") == Ok(" (" + t1 + ", " + t2 + ") ") &&
            Retvals(" (" + t1 + ", " + t2 + ") ") == Ok(rets) &&
            Contains(rets, ",") && TypesOf(rets) == Ok(t1 + ", " + t2) &&
            Between(s, "func ", "(") == Ok(name)
  {
    var s := Header(name, params, "(" + t1 + ", " + t2 + ")");
    assert s[0] == 'f' && !IsSpace(s[0]);
    TrimSpaceKeeps(s, 'f');
    HeaderParams(name, params, "(" + t1 + ", " + t2 + ")");
    HeaderTupleTail(name, params, t1, t2);
    TwoTypesRetvals(t1, t2);
    TwoResultsArguments(t1, t2);
    TwoTypesKept(t1, t2, ResultGap(t1, t2));
    HeaderName(name, params, "(" + t1 + ", " + t2 + ")");
  }

  /** FunctionSignature for several results, given what its parts are. */
  lemma TupleSignatureOf(source: string, params: string, tail: string, rets: string, types: string, name: string)
    requires |TrimSpace(source)| > 0
    requires Between(source, "(", ")") == Ok(params) && Between(source, ")", "{") == Ok(tail)
    requires Retvals(tail) == Ok(rets) && Contains(rets, ",") && TypesOf(rets) == Ok(types)
    requires Between(source, "func ", "(") == Ok(name)
    ensures var ret := if name == "main" then "int" else TupleType + "<" + types + ">";
            FunctionSignature(source) ==
              Ok(Signature(TrimSpace("auto " + name + "(" + ArgumentsOf(params) + ") -> " + ret + " {"), ret, name))
  {
  }

  /**
    A one-line header `func name(params) (t1, t2) {` with two result types
    is rewritten to `auto name(params') -> std::tuple<t1, t2> {`, and the
    return type it records starts with `std::tuple`, as a later `return`
    line of the function needs; `main` still returns `int`. The two types
    are equal, or the first does not occur inside the second (the parameter
    rewrite replaces every occurrence of the first).
  */
  lemma SignatureTupleReturn(name: string, params: string, t1: string, t2: string)
    requires IsWord(name) && TwoResults(t1, t2)
    requires '(' !in params && ')' !in params && '{' !in params
    ensures var ret := if name == "main" then "int" else TupleType + "<" + t1 + ", " + t2 + ">";
            FunctionSignature(Header(name, params, "(" + t1 + ", " + t2 + ")")) ==
              Ok(Signature("auto " + name + "(" + ArgumentsOf(params) + ") -> " + ret + " {", ret, name))
    ensures name != "main" ==>
              HasPrefix(FunctionSignature(Header(name, params, "(" + t1 + ", " + t2 + ")")).value.returnType, TupleType)
  {
    var s := Header(name, params, "(" + t1 + ", " + t2 + ")");
    TupleHeaderParts(name, params, t1, t2);
    var ret := if name == "main" then "int" else TupleType + "<" + t1 + ", " + t2 + ">";
    TupleLayout(t1, t2);
    AutoHeaderTrimmed(name, ArgumentsOf(params), ret);
    TupleSignatureOf(s, params, " (" + t1 + ", " + t2 + ") ", "(" + t1 + "," + ResultGap(t1, t2) + t2 + ")", t1 + ", " + t2, name);
  }

  lemma TupleLayout(t1: string, t2: string)
    ensures TupleType + "<" + (t1 + ", " + t2) + ">" == TupleType + "<" + t1 + ", " + t2 + ">"
    ensures HasPrefix(TupleType + "<" + t1 + ", " + t2 + ">", TupleType)
  {
    assert (TupleType + "<" + t1 + ", " + t2 + ">")[..|TupleType|] == TupleType;
  }
}
