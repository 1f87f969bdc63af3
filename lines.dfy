/**
  Properties of the loop of go2cpp: what one line does to the output lines,
  the brace depth, the map registry and the switch globals, and how the
  lines of the common kinds (blank lines, comments, closing braces, block
  openers and their items, imports, the package clause) are translated.
*/
module Lines {
  import opened Outcomes
  import opened GoStrings
  import opened Helpers
  import opened Statements
  import opened Switches
  import opened Pipeline

  /** No `import (`, `var (`, `type (` or `const (` block is open. */
  predicate OutsideBlocks(loc: Locals) {
    !loc.inImport && !loc.inVar && !loc.inType && !loc.inConst
  }

  /** How much a sequence of lines deepens the braces, blank lines counting zero. */
  function Depth(lines: seq<string>): int {
    if lines == [] then 0 else Balance(Trimmed(lines[0])) + Depth(lines[1..])
  }

  // ---------------------------------------------------------------------------
  // What every line keeps
  // ---------------------------------------------------------------------------

  /**
    A transformer leaves the brace depth alone, only ever adds maps to the
    registry, keeps the globals consistent, and touches the globals only
    for `switch`, `case`, `fallthrough` and `default:` lines.
  */
  lemma StatementKeeps(g: Globals, loc: Locals, line: string, trimmed: string)
    requires Statement(g, loc, line, trimmed).Ok?
    ensures var o := Statement(g, loc, line, trimmed).value;
            o.locals.curlyCount == loc.curlyCount &&
            loc.encounteredHashMaps <= o.locals.encounteredHashMaps &&
            (Valid(g) ==> Valid(o.globals)) &&
            (Classify(loc, trimmed) !in {SwitchLine, CaseLine, FallthroughLine, DefaultLine} ==> o.globals == g)
  {
    match Classify(loc, trimmed)
    case SwitchLine =>
      if Valid(g) {
        StepsKeepValid(g, line);
      }
    case CaseLine =>
      if Valid(g) {
        StepsKeepValid(g, line);
      }
    case FallthroughLine =>
      if Valid(g) {
        StepsKeepValid(g, line);
      }
    case DefaultLine =>
      if Valid(g) {
        StepsKeepValid(g, line);
      }
    case _ =>
  }

  /**
    One pass of the loop: the brace depth moves by the balance of the
    trimmed line, the output lines are only extended, by at most one line,
    the registry only grows and the globals stay consistent.
  */
  lemma LineStepKeeps(st: State, line: string)
    requires LineStep(st, line).Ok?
    ensures var s := LineStep(st, line).value;
            s.locals.curlyCount == st.locals.curlyCount + Balance(Trimmed(line)) &&
            st.lines <= s.lines && |s.lines| <= |st.lines| + 1 &&
            st.locals.encounteredHashMaps <= s.locals.encounteredHashMaps &&
            (Valid(st.globals) ==> Valid(s.globals))
  {
    if |Trimmed(line)| == 0 {
      LineStepBlank(st, line);
      assert CountChar(Trimmed(line), '{') == 0 && CountChar(Trimmed(line), '}') == 0;
    } else {
      LineStepNonEmpty(st, line);
      StatementKeeps(st.globals, Located(st.locals, line), line, Trimmed(line));
    }
  }

  /** The same over any number of lines: at most one output line per input line. */
  lemma {:induction false} RunKeeps(st: State, lines: seq<string>)
    requires Run(st, lines).Ok?
    ensures var s := Run(st, lines).value;
            s.locals.curlyCount == st.locals.curlyCount + Depth(lines) &&
            st.lines <= s.lines && |s.lines| <= |st.lines| + |lines| &&
            st.locals.encounteredHashMaps <= s.locals.encounteredHashMaps &&
            (Valid(st.globals) ==> Valid(s.globals))
    decreases |lines|
  {
    if lines != [] {
      LineStepKeeps(st, lines[0]);
      RunKeeps(LineStep(st, lines[0]).value, lines[1..]);
    }
  }

  /** A whole program started from consistent globals leaves them consistent. */
  lemma TranslationKeepsValid(g: Globals, source: string)
    requires Valid(g) && Translation(g, source).Ok?
    ensures Valid(Translation(g, source).value.globals)
    ensures |Translation(g, source).value.lines| <= |Split(source, "\n")|
  {
    RunKeeps(State([], Fresh, g), Split(source, "\n"));
  }

  // ---------------------------------------------------------------------------
  // Lines of particular kinds
  // ---------------------------------------------------------------------------

  /** A line outside blocks that starts with none of the keywords' first letters and has no `=` is copied. */
  lemma ClassifyPlain(loc: Locals, t: string)
    requires OutsideBlocks(loc) && t != [] && t[0] !in "fscrpi}vtd" && '=' !in t
    ensures Classify(loc, t) == OtherLine
  {
    ContainsChar(t, '=');
    PrefixAt(t, "func", 0);
    PrefixAt(t, "for", 0);
    PrefixAt(t, "switch", 0);
    PrefixAt(t, "case", 0);
    PrefixAt(t, "return", 0);
    PrefixAt(t, "fmt.Print", 0);
    PrefixAt(t, "print", 0);
    PrefixAt(t, "package ", 0);
    PrefixAt(t, "import", 0);
    PrefixAt(t, "if ", 0);
    PrefixAt(t, "} else if ", 0);
    PrefixAt(t, "var ", 0);
    PrefixAt(t, "type ", 0);
    PrefixAt(t, "const ", 0);
  }

  /** The chain's last branch passes a line through unchanged. */
  lemma OtherStatement(g: Globals, loc: Locals, line: string, t: string)
    requires Classify(loc, t) == OtherLine
    ensures Statement(g, loc, line, t) == Ok(Emit(line, loc, g))
  {
  }

  /** A trimmed line that starts with `//` never gets a `;`, whatever its kind and its text. */
  lemma CommentsUnterminated(line: string, trimmed: string, text: string, loc: Locals)
    requires HasPrefix(trimmed, "//")
    ensures Completed(line, trimmed, text, loc) == if HasSuffix(trimmed, "}") then text + "\n" else text
  {
    assert trimmed[0] == '/';
  }

  /** A comment line outside blocks, without `=` and not ending in `}`, is copied as it is. */
  lemma CommentCopied(st: State, line: string)
    requires OutsideBlocks(st.locals)
    requires HasPrefix(Trimmed(line), "//") && '=' !in Trimmed(line) && !HasSuffix(Trimmed(line), "}")
    ensures LineStep(st, line) == Ok(State(st.lines + [line], Located(st.locals, line), st.globals))
  {
    var t := Trimmed(line);
    var l := Located(st.locals, line);
    assert t[0] == '/';
    ClassifyPlain(l, t);
    OtherStatement(st.globals, l, line, t);
    CommentsUnterminated(line, t, line, l);
    LineStepOf(st, line, t, l, Statement(st.globals, l, line, t));
  }

  /**
    A line that is only `}` closes a brace and is followed by an empty line;
    when it closes `main` at depth 0 it returns 0 first, and otherwise it is
    copied.
  */
  lemma ClosingBrace(st: State, line: string)
    requires OutsideBlocks(st.locals) && Trimmed(line) == "}"
    ensures Located(st.locals, line).curlyCount == st.locals.curlyCount - 1
    ensures LineStep(st, line) ==
            Ok(State(st.lines + [(if st.locals.currentFunctionName == "main" && st.locals.curlyCount == 1
                                  then ReplaceFirst(line, "}", "return 0;\n}") else line) + "\n"],
                     Located(st.locals, line), st.globals))
  {
    var t := Trimmed(line);
    var l := Located(st.locals, line);
    assert Balance(t) == -1;
    BraceStatement(st.globals, l, line);
    BraceCompleted(line, l);
    LineStepOf(st, line, t, l, Statement(st.globals, l, line, t));
  }

  /** A bare `}` outside blocks is passed through by the chain. */
  lemma BraceStatement(g: Globals, loc: Locals, line: string)
    requires OutsideBlocks(loc)
    ensures Statement(g, loc, line, "}") == Ok(Emit(line, loc, g))
  {
    ContainsChar("}", '=');
    assert Classify(loc, "}") == OtherLine;
    OtherStatement(g, loc, line, "}");
  }

  /** A bare `}` gets a line break and no `;`, and closes `main` with `return 0;` at depth 0. */
  lemma BraceCompleted(line: string, loc: Locals)
    ensures Completed(line, "}", line, loc) ==
            (if loc.currentFunctionName == "main" && loc.curlyCount == 0 then ReplaceFirst(line, "}", "return 0;\n}") else line) + "\n"
  {
    ContainsChar("}", '=');
    assert LastChar("}") == "}" && Has(Endings, "}");
  }

  lemma ClassifyVarStart(loc: Locals)
    requires OutsideBlocks(loc)
    ensures Classify(loc, "var (") == VarStart
  {
    var t := "var (";
    ContainsChar(t, '=');
    PrefixAt(t, "func", 0);
    PrefixAt(t, "for", 0);
    PrefixAt(t, "switch", 0);
    PrefixAt(t, "case", 0);
    PrefixAt(t, "return", 0);
    PrefixAt(t, "fmt.Print", 0);
    PrefixAt(t, "print", 0);
    PrefixAt(t, "package ", 0);
    PrefixAt(t, "import", 0);
    PrefixAt(t, "if ", 0);
    PrefixAt(t, "} else if ", 0);
  }

  lemma ClassifyTypeStart(loc: Locals)
    requires OutsideBlocks(loc)
    ensures Classify(loc, "type (") == TypeStart
  {
    var t := "type (";
    ContainsChar(t, '=');
    PrefixAt(t, "func", 0);
    PrefixAt(t, "for", 0);
    PrefixAt(t, "switch", 0);
    PrefixAt(t, "case", 1);
    PrefixAt(t, "return", 0);
    PrefixAt(t, "fmt.Print", 0);
    PrefixAt(t, "print", 0);
    PrefixAt(t, "package ", 0);
    PrefixAt(t, "import", 0);
    PrefixAt(t, "if ", 0);
    PrefixAt(t, "} else if ", 0);
  }

  lemma ClassifyConstStart(loc: Locals)
    requires OutsideBlocks(loc)
    ensures Classify(loc, "const (") == ConstStart
  {
    var t := "const (";
    ContainsChar(t, '=');
    PrefixAt(t, "func", 0);
    PrefixAt(t, "for", 0);
    PrefixAt(t, "switch", 0);
    PrefixAt(t, "case", 1);
    PrefixAt(t, "return", 0);
    PrefixAt(t, "fmt.Print", 0);
    PrefixAt(t, "print", 0);
    PrefixAt(t, "package ", 0);
    PrefixAt(t, "import", 0);
    PrefixAt(t, "if ", 0);
    PrefixAt(t, "} else if ", 0);
  }

  /** `var (`, `type (` and `const (` open their block and produce no line. */
  lemma BlockOpens(st: State, line: string)
    requires OutsideBlocks(st.locals)
    requires Trimmed(line) in {"var (", "type (", "const ("}
    ensures LineStep(st, line) ==
            Ok(State(st.lines,
                     st.locals.(inVar := Trimmed(line) == "var (", inType := Trimmed(line) == "type (",
                                inConst := Trimmed(line) == "const ("),
                     st.globals))
  {
    var t := Trimmed(line);
    OpenersBalanced(t);
    var l := Located(st.locals, line);
    assert l == st.locals;
    if t == "var (" {
      ClassifyVarStart(l);
    } else if t == "type (" {
      ClassifyTypeStart(l);
    } else {
      ClassifyConstStart(l);
    }
    OpenerStatement(st.globals, l, line, t);
    LineStepOf(st, line, t, l, Statement(st.globals, l, line, t));
  }

  lemma OpenersBalanced(t: string)
    requires t in {"var (", "type (", "const ("}
    ensures Balance(t) == 0
  {
    assert '{' !in t && '}' !in t;
  }

  /** The chain on a block opener sets that block's flag and produces no line. */
  lemma OpenerStatement(g: Globals, loc: Locals, line: string, t: string)
    requires Classify(loc, t) in {VarStart, TypeStart, ConstStart}
    ensures var k := Classify(loc, t);
            Statement(g, loc, line, t) ==
            Ok(Skip(loc.(inVar := k == VarStart, inType := k == TypeStart, inConst := k == ConstStart), g))
  {
  }

  /** Inside an import block every line is dropped; one with `)` ends the block. */
  lemma ImportBlock(st: State, line: string)
    requires st.locals.inImport && |Trimmed(line)| > 0
    ensures LineStep(st, line) ==
            Ok(State(st.lines, Located(st.locals, line).(inImport := !Contains(Trimmed(line), ")")), st.globals))
  {
    LineStepNonEmpty(st, line);
  }

  /**
    In a `var`, `type` or `const` block a line with `)` ends the block, the
    first of the three that is open, and produces no line.
  */
  lemma BlockEnds(st: State, line: string)
    requires !st.locals.inImport && (st.locals.inVar || st.locals.inType || st.locals.inConst)
    requires Contains(Trimmed(line), ")")
    ensures var l := Located(st.locals, line);
            LineStep(st, line) ==
            Ok(State(st.lines,
                     if l.inVar then l.(inVar := false) else if l.inType then l.(inType := false) else l.(inConst := false),
                     st.globals))
  {
    LineStepNonEmpty(st, line);
  }

  /** Each line of a `var` block is a variable declaration. */
  lemma VarBlockItem(st: State, line: string)
    requires !st.locals.inImport && st.locals.inVar
    requires |Trimmed(line)| > 0 && !Contains(Trimmed(line), ")")
    ensures var l := Located(st.locals, line);
            LineStep(st, line) ==
            Ok(State(st.lines + [Completed(line, Trimmed(line), VarDeclaration(line), l)], l, st.globals))
  {
    var t := Trimmed(line);
    var l := Located(st.locals, line);
    assert Classify(l, t) == VarItem;
    var o := Statement(st.globals, l, line, t);
    assert o == Ok(Emit(VarDeclaration(line), l, st.globals));
    LineStepOf(st, line, t, l, o);
  }

  /** A `type` block cannot be translated: its first item stops the translation. */
  lemma TypeItemFails(st: State, line: string)
    requires !st.locals.inImport && !st.locals.inVar && st.locals.inType
    requires |Trimmed(line)| > 0 && !Contains(Trimmed(line), ")")
    ensures LineStep(st, line).Err?
  {
    LineStepNonEmpty(st, line);
  }

  /**
    An import clause produces no line; it opens an import block when it has
    `(` and no `)`.
  */
  lemma ImportClause(st: State, line: string)
    requires OutsideBlocks(st.locals)
    requires HasPrefix(Trimmed(line), "import") && '=' !in Trimmed(line)
    ensures LineStep(st, line) ==
            Ok(State(st.lines,
                     Located(st.locals, line).(inImport := Contains(Trimmed(line), "(") && !Contains(Trimmed(line), ")")),
                     st.globals))
  {
    var t := Trimmed(line);
    var l := Located(st.locals, line);
    ClassifyImport(l, t);
    ImportStatement(st.globals, l, line, t);
    LineStepOf(st, line, t, l, Statement(st.globals, l, line, t));
  }

  lemma ClassifyImport(loc: Locals, t: string)
    requires OutsideBlocks(loc) && HasPrefix(t, "import") && '=' !in t
    ensures Classify(loc, t) == ImportLine
  {
    ContainsChar(t, '=');
    PrefixAt(t, "func", 0);
    PrefixAt(t, "for", 0);
    PrefixAt(t, "switch", 0);
    PrefixAt(t, "case", 0);
    PrefixAt(t, "return", 0);
    PrefixAt(t, "fmt.Print", 0);
    PrefixAt(t, "print", 0);
    PrefixAt(t, "package ", 0);
  }

  /** An import clause outside a block opens one exactly when it has `(` and no `)`. */
  lemma ImportStatement(g: Globals, loc: Locals, line: string, t: string)
    requires Classify(loc, t) == ImportLine
    ensures Statement(g, loc, line, t) == Ok(Skip(loc.(inImport := Contains(t, "(") && !Contains(t, ")")), g))
  {
  }

  /** The package clause produces no line. */
  lemma PackageClause(st: State, line: string)
    requires OutsideBlocks(st.locals)
    requires HasPrefix(Trimmed(line), "package ") && '=' !in Trimmed(line)
    ensures LineStep(st, line) == Ok(State(st.lines, Located(st.locals, line), st.globals))
  {
    var t := Trimmed(line);
    var l := Located(st.locals, line);
    ClassifyPackage(l, t);
    assert Statement(st.globals, l, line, t) == Ok(Skip(l, st.globals));
    LineStepOf(st, line, t, l, Statement(st.globals, l, line, t));
  }

  lemma ClassifyPackage(loc: Locals, t: string)
    requires OutsideBlocks(loc) && HasPrefix(t, "package ") && '=' !in t
    ensures Classify(loc, t) == PackageLine
  {
    ContainsChar(t, '=');
    PrefixAt(t, "func", 0);
    PrefixAt(t, "for", 0);
    PrefixAt(t, "switch", 0);
    PrefixAt(t, "case", 0);
    PrefixAt(t, "return", 0);
    PrefixAt(t, "fmt.Print", 0);
    PrefixAt(t, "print", 1);
    PrefixAt(t, "package ", 1);
  }

  /**
    In a function with several results, an indented `return values` returns
    the tuple of the values, built with the function's result type.
  */
  lemma TupleReturn(currentReturnType: string, pre: string, values: string)
    requires HasPrefix(currentReturnType, TupleType) && AllSpace(pre)
    ensures Return(currentReturnType, pre + "return " + values) == Ok("return " + currentReturnType + "{" + values + "};")
  {
    var line := pre + "return " + values;
    KeywordAfterIndent(pre, "return ", values);
    assert line[|pre| + |"return "|..] == values;
  }
}
