/**
  One-line statement transformers: `if` and `else if` headers, `var`, `const`
  and `type` declarations. Each receives the line as it appears in the
  program, indentation included.
*/
module Statements {
  import opened Outcomes
  import opened GoStrings
  import opened Helpers

  /** IfSentence: `if cond {` becomes `if (cond) {`. */
  function IfSentence(source: string): (r: Result<string>)
    ensures r.Ok? ==> HasPrefix(r.value, "if (") && HasSuffix(r.value, ") {")
    ensures r.Err? <==> Between(source, "if", "{").Err?
  {
    var expression :- Between(source, "if", "{");
    Ok("if (" + TrimSpace(expression) + ") {")
  }

  /** ElseIfSentence: `} else if cond {` becomes `} else if (cond) {`. */
  function ElseIfSentence(source: string): (r: Result<string>)
    ensures r.Ok? ==> HasPrefix(r.value, "} else if (") && HasSuffix(r.value, ") {")
    ensures r.Err? <==> Between(source, "} else if", "{").Err?
  {
    var expression :- Between(source, "} else if", "{");
    Ok("} else if (" + TrimSpace(expression) + ") {")
  }

  /** A condition as written between a keyword and `{`: trimmed, with no `{` in it. */
  predicate IsCondition(cond: string) {
    cond != [] && !IsSpace(cond[0]) && !IsSpace(cond[|cond| - 1]) && '{' !in cond
  }

  /** Text that is all white space contains no marker that starts with a non-space character. */
  lemma SpacesLackMarker(pre: string, t: string)
    requires AllSpace(pre) && t != [] && !IsSpace(t[0])
    ensures forall j :: 0 <= j <= |pre| - |t| ==> !OccursAt(pre, t, j)
  {
    forall j | 0 <= j <= |pre| - |t| ensures !OccursAt(pre, t, j) {
      assert IsSpace(pre[j]);
      assert pre[j..j + |t|][0] == pre[j];
    }
  }

  /** The keyword that opens an indented line is found right after the indentation. */
  lemma KeywordAfterIndent(pre: string, kw: string, rest: string)
    requires AllSpace(pre) && kw != [] && !IsSpace(kw[0])
    ensures Index(pre + kw + rest, kw) == |pre|
  {
    var s := pre + kw + rest;
    assert s[|pre|..|pre| + |kw|] == kw;
    forall j | 0 <= j < |pre| ensures !OccursAt(s, kw, j) {
      assert IsSpace(s[j]);
      if j + |kw| <= |s| {
        assert s[j..j + |kw|][0] == s[j];
      }
    }
    IndexAt(s, kw, |pre|);
  }

  /**
    Between a keyword that starts an indented line and the first `{` after
    it stands the padded condition.
  */
  lemma BetweenKeywordBrace(pre: string, kw: string, cond: string, post: string)
    requires AllSpace(pre) && kw != [] && !IsSpace(kw[0]) && '{' !in kw
    requires IsCondition(cond)
    ensures Between(pre + kw + " " + cond + " {" + post, kw, "{") == Ok(" " + cond + " ")
  {
    var rest := " " + cond + " {" + post;
    var head := pre + kw + " " + cond + " ";
    KeywordBraceLayout(pre, kw, cond, post);
    KeywordAfterIndent(pre, kw, rest);
    assert '{' !in head by {
      SpacesLack(pre, '{');
    }
    IndexAfter(head, '{', post);
    BetweenIndexed(head + "{" + post, kw, "{", |pre|, |head|);
    assert (head + "{" + post)[|pre| + |kw|..|head|] == head[|pre| + |kw|..];
  }

  lemma KeywordBraceLayout(pre: string, kw: string, cond: string, post: string)
    ensures var head := pre + kw + " " + cond + " ";
            pre + kw + " " + cond + " {" + post == head + "{" + post &&
            pre + kw + " " + cond + " {" + post == pre + kw + (" " + cond + " {" + post) &&
            head[|pre| + |kw|..] == " " + cond + " "
  {
    var head := pre + kw + " " + cond + " ";
    assert head == (pre + kw) + (" " + cond + " ");
  }

  /** An indented `if cond {` line yields `if (cond) {`, whatever follows the brace. */
  lemma IfShape(pre: string, cond: string, post: string)
    requires AllSpace(pre) && IsCondition(cond)
    ensures IfSentence(pre + "if " + cond + " {" + post) == Ok("if (" + cond + ") {")
  {
    assert pre + "if " + cond + " {" + post == pre + "if" + " " + cond + " {" + post;
    BetweenKeywordBrace(pre, "if", cond, post);
    TrimSpacePadded(" ", cond, " ");
  }

  /** An indented `} else if cond {` line yields `} else if (cond) {`. */
  lemma ElseIfShape(pre: string, cond: string, post: string)
    requires AllSpace(pre) && IsCondition(cond)
    ensures ElseIfSentence(pre + "} else if " + cond + " {" + post) == Ok("} else if (" + cond + ") {")
  {
    assert pre + "} else if " + cond + " {" + post == pre + "} else if" + " " + cond + " {" + post;
    BetweenKeywordBrace(pre, "} else if", cond, post);
    TrimSpacePadded(" ", cond, " ");
  }

  /**
    VarDeclaration: drops a leading `var `, then turns `name type = value`
    into `auto name = value` and an untyped assignment into `auto ...`; a
    declaration without `=` that splits into exactly three words `w0 name type`
    becomes `type' name` with `string` renamed.
  */
  function VarDeclaration(source: string): (r: string)
    ensures Contains(source, "=") && !HasPrefix(source, "var ") ==> HasPrefix(r, "auto ")
    ensures !Contains(source, "=") && !HasPrefix(source, "var ") && |Split(source, " ")| != 3 ==> r == source
  {
    var output := if HasPrefix(source, "var ") then source[4..] else source;
    if Contains(output, "=") then
      var parts := Split(output, " ");
      "auto " + (if |parts| == 4 then parts[0] + " " + parts[2] + " " + parts[3] else output)
    else
      var parts := Split(output, " ");
      if |parts| == 3 then TypeReplace(parts[2]) + " " + parts[1] else output
  }

  /** A word of a declaration: non-empty, no white space, no `=`. */
  predicate IsToken(w: string) {
    w != [] && forall i :: 0 <= i < |w| ==> !IsSpace(w[i]) && w[i] != '='
  }

  lemma TokenFree(w: string)
    requires IsToken(w)
    ensures ' ' !in w && '=' !in w
  {
    forall i | 0 <= i < |w| ensures w[i] != ' ' {
      assert !IsSpace(w[i]);
    }
  }

  /** Removing the `var ` keyword from the front of a line. */
  lemma DropVar(rest: string)
    ensures HasPrefix("var " + rest, "var ") && ("var " + rest)[4..] == rest
  {
  }

  lemma TypedAssignmentLayout(name: string, typ: string, value: string)
    ensures name + " " + typ + " = " + value == name + [' '] + (typ + [' '] + ("=" + [' '] + value))
  {
  }

  /** A word followed by a space splits off at that space. */
  lemma TokenSplit(w: string, rest: string)
    requires IsToken(w)
    ensures Split(w + [' '] + rest, " ") == [w] + Split(rest, " ")
  {
    TokenFree(w);
    SplitOn(w, ' ', rest);
  }

  lemma AssignedValueWords(value: string)
    requires IsToken(value)
    ensures Split("=" + [' '] + value, " ") == ["=", value]
  {
    TokenFree(value);
    SplitOn("=", ' ', value);
    SplitNone(value, ' ');
  }

  lemma TypedValueWords(typ: string, value: string)
    requires IsToken(typ) && IsToken(value)
    ensures Split(typ + [' '] + ("=" + [' '] + value), " ") == [typ, "=", value]
  {
    TokenSplit(typ, "=" + [' '] + value);
    AssignedValueWords(value);
  }

  /** The words of `name type = value`. */
  lemma TypedAssignmentWords(name: string, typ: string, value: string)
    requires IsToken(name) && IsToken(typ) && IsToken(value)
    ensures Split(name + " " + typ + " = " + value, " ") == [name, typ, "=", value]
    ensures Contains(name + " " + typ + " = " + value, "=")
  {
    TypedAssignmentLayout(name, typ, value);
    TokenSplit(name, typ + [' '] + ("=" + [' '] + value));
    TypedValueWords(typ, value);
    assert [name] + [typ, "=", value] == [name, typ, "=", value];
    TypedAssignmentHasEquals(name, typ, value);
  }

  lemma TypedAssignmentHasEquals(name: string, typ: string, value: string)
    ensures Contains(name + " " + typ + " = " + value, "=")
  {
    var rest := name + " " + typ + " = " + value;
    assert rest[|name| + 1 + |typ| + 1] == '=';
    ContainsChar(rest, '=');
  }

  /** The `var ` keyword in front of the words of a declaration. */
  lemma VarKeyword(name: string, typ: string, value: string)
    ensures var s := "var " + name + " " + typ + " = " + value;
            HasPrefix(s, "var ") && s[4..] == name + " " + typ + " = " + value
  {
    assert "var " + name + " " + typ + " = " + value == "var " + (name + " " + typ + " = " + value);
  }

  /** `var name type = value` becomes `auto name = value`. */
  lemma VarTypedAssignment(name: string, typ: string, value: string)
    requires IsToken(name) && IsToken(typ) && IsToken(value)
    ensures VarDeclaration("var " + name + " " + typ + " = " + value) == "auto " + name + " = " + value
  {
    var rest := name + " " + typ + " = " + value;
    VarKeyword(name, typ, value);
    TypedAssignmentWords(name, typ, value);
    VarAssignBranch("var " + rest, rest);
    AutoLayout(name, value);
  }

  /** The branch of VarDeclaration for a `var` line with `=`. */
  lemma VarAssignBranch(source: string, rest: string)
    requires HasPrefix(source, "var ") && source[4..] == rest && Contains(rest, "=")
    ensures var parts := Split(rest, " ");
            VarDeclaration(source) == "auto " + (if |parts| == 4 then parts[0] + " " + parts[2] + " " + parts[3] else rest)
  {
  }

  lemma AutoLayout(name: string, value: string)
    ensures "auto " + (name + " " + "=" + " " + value) == "auto " + name + " = " + value
  {
    assert name + " " + "=" + " " + value == name + " = " + value;
  }

  /** `var name = value` becomes `auto name = value`. */
  lemma VarAssignment(name: string, value: string)
    requires IsToken(name) && IsToken(value)
    ensures VarDeclaration("var " + name + " = " + value) == "auto " + name + " = " + value
  {
    var rest := name + " = " + value;
    assert "var " + name + " = " + value == "var " + rest;
    assert "auto " + name + " = " + value == "auto " + rest;
    DropVar(rest);
    TokenFree(name);
    TokenFree(value);
    assert rest == name + [' '] + ("=" + [' '] + value);
    SplitOn(name, ' ', "=" + [' '] + value);
    SplitOn("=", ' ', value);
    SplitNone(value, ' ');
    assert rest[|name| + 1] == '=';
    ContainsChar(rest, '=');
  }

  /**
    `var name type` written at the start of a line keeps only `name type`:
    the three-word rule sees the words after `var ` and does not apply.
  */
  lemma VarTopLevelTyped(name: string, typ: string)
    requires IsToken(name) && IsToken(typ)
    ensures VarDeclaration("var " + name + " " + typ) == name + " " + typ
  {
    var rest := name + " " + typ;
    assert "var " + name + " " + typ == "var " + rest;
    DropVar(rest);
    TokenFree(name);
    TokenFree(typ);
    assert '=' !in rest;
    ContainsChar(rest, '=');
    assert rest == name + [' '] + typ;
    SplitOn(name, ' ', typ);
    SplitNone(typ, ' ');
  }

  /**
    An indented `var name type` (indentation without spaces, such as tabs)
    still begins with its indentation, so the three words are
    `<indent>var`, `name` and `type`, and the result is `type' name`.
  */
  lemma VarIndentedTyped(indent: string, name: string, typ: string)
    requires IsToken(indent + "var") && IsToken(name) && IsToken(typ)
    requires indent != []
    ensures VarDeclaration(indent + "var " + name + " " + typ) == TypeReplace(typ) + " " + name
  {
    var first := indent + "var";
    var s := indent + "var " + name + " " + typ;
    assert s == first + [' '] + (name + [' '] + typ);
    assert s[3] == first[3] && !IsSpace(s[3]);
    assert !HasPrefix(s, "var ");
    TokenFree(first);
    TokenFree(name);
    TokenFree(typ);
    assert '=' !in s;
    ContainsChar(s, '=');
    SplitOn(first, ' ', name + [' '] + typ);
    SplitOn(name, ' ', typ);
    SplitNone(typ, ' ');
  }

  /**
    ConstDeclaration: `name = value` in a `const (` block becomes
    `const auto name = value`; two words before `=` (as in `const name =
    value`) give `const <second word> = value`. A line without `=` indexes a
    missing field and more than two words is an explicit panic.
  */
  function ConstDeclaration(source: string): (r: Result<string>)
    ensures !Contains(source, "=") ==> r.Err?
    ensures r.Ok? ==> HasPrefix(r.value, "const ")
  {
    var fields := SplitTwo(source, "=");
    if |fields| < 2 then Err(IndexRange("ConstDeclaration"))
    else
      var left := TrimSpace(fields[0]);
      var right := TrimSpace(fields[1]);
      var words := Split(left, " ");
      if |words| == 1 then Ok("const auto " + left + " = " + right)
      else if |words| == 2 then Ok("const " + words[1] + " = " + right)
      else Err(Explicit(UnrecognizedConst + source))
  }

  /** The message of the panic for a `const` line with more than two words before `=`. */
  const UnrecognizedConst: string := "Unrecognized const expression: "

  /** The first `=` of a line `left = value` whose left part has no `=`. */
  lemma BeforeEquals(left: string, value: string)
    requires '=' !in left
    ensures SplitTwo(left + " = " + value, "=") == [left + " ", " " + value]
  {
    var s := left + " = " + value;
    assert s == (left + " ") + ['='] + (" " + value);
    IndexAfter(left + " ", '=', " " + value);
    assert s[..|left| + 1] == left + " ";
    assert s[|left| + 2..] == " " + value;
  }

  /** Two space-free words separated by a single space split back into two. */
  lemma TwoWords(a: string, b: string)
    requires ' ' !in a && ' ' !in b
    ensures Split(a + " " + b, " ") == [a, b]
  {
    assert a + " " + b == a + [' '] + b;
    SplitOn(a, ' ', b);
    SplitNone(b, ' ');
  }

  /** Three space-free words separated by single spaces split back into three. */
  lemma ThreeWords(a: string, b: string, c: string)
    requires ' ' !in a && ' ' !in b && ' ' !in c
    ensures Split(a + " " + b + " " + c, " ") == [a, b, c]
  {
    assert a + " " + b + " " + c == a + [' '] + (b + [' '] + c);
    SplitOn(a, ' ', b + [' '] + c);
    SplitOn(b, ' ', c);
    SplitNone(c, ' ');
  }

  /** A value after `= ` trims to itself. */
  lemma ValueTrimmed(value: string)
    requires IsToken(value)
    ensures TrimSpace(" " + value) == value
  {
    TrimSpacePadded(" ", value, "");
    assert " " + value + "" == " " + value;
  }

  /** Words before ` = ` trim to themselves. */
  lemma LeftTrimmed(pre: string, left: string)
    requires AllSpace(pre) && left != [] && !IsSpace(left[0]) && !IsSpace(left[|left| - 1])
    ensures TrimSpace(pre + left + " ") == left
  {
    TrimSpacePadded(pre, left, " ");
  }

  /** Words at the start of a line before ` = ` trim to themselves. */
  lemma TrailingTrimmed(left: string)
    requires left != [] && !IsSpace(left[0]) && !IsSpace(left[|left| - 1])
    ensures TrimSpace(left + " ") == left
  {
    TrimLeftClean(left + " ");
    TrimRightSpaces(left, " ");
  }

  /** `const name` splits into the keyword and the name. */
  lemma ConstWords(name: string)
    requires ' ' !in name
    ensures Split("const " + name, " ") == ["const", name]
  {
    assert "const " + name == "const" + [' '] + name;
    SplitOn("const", ' ', name);
    SplitNone(name, ' ');
  }

  /** An indented `name = value` inside a `const (` block. */
  lemma ConstInBlock(pre: string, name: string, value: string)
    requires AllSpace(pre) && IsToken(name) && IsToken(value)
    ensures ConstDeclaration(pre + name + " = " + value) == Ok("const auto " + name + " = " + value)
  {
    SpacesLack(pre, '=');
    TokenFree(name);
    BeforeEquals(pre + name, value);
    LeftTrimmed(pre, name);
    ValueTrimmed(value);
    SplitNone(name, ' ');
  }

  /** A top-level `const name = value` keeps its name. */
  lemma ConstTopLevel(name: string, value: string)
    requires IsToken(name) && IsToken(value)
    ensures ConstDeclaration("const " + name + " = " + value) == Ok("const " + name + " = " + value)
  {
    ConstParts(name, value);
  }

  /** The pieces ConstDeclaration finds in `const name = value`. */
  lemma ConstParts(name: string, value: string)
    requires IsToken(name) && IsToken(value)
    ensures var left := "const " + name;
            SplitTwo(left + " = " + value, "=") == [left + " ", " " + value] &&
            TrimSpace(left + " ") == left && TrimSpace(" " + value) == value &&
            Split(left, " ") == ["const", name]
  {
    var left := "const " + name;
    TokenFree(name);
    BeforeEquals(left, value);
    assert left[0] == 'c' && left[|left| - 1] == name[|name| - 1];
    TrailingTrimmed(left);
    ValueTrimmed(value);
    ConstWords(name);
  }

  /** A `const` line with more than two words before `=` is refused. */
  lemma ConstTooManyWords(a: string, b: string, c: string, value: string)
    requires IsToken(a) && IsToken(b) && IsToken(c) && IsToken(value)
    ensures ConstDeclaration(a + " " + b + " " + c + " = " + value).Err?
  {
    var left := a + " " + b + " " + c;
    TokenFree(a);
    TokenFree(b);
    TokenFree(c);
    BeforeEquals(left, value);
    assert left[0] == a[0] && left[|left| - 1] == c[|c| - 1];
    TrailingTrimmed(left);
    ThreeWords(a, b, c);
  }

  /** TypeDeclaration panics before doing anything. */
  function TypeDeclaration(source: string): (r: Result<string>)
    ensures r.Err?
  {
    Err(Explicit("TYPE IS NOT IMPLEMENTED YET"))
  }
}
