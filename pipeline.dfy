/**
  go2cpp: the translator proper. The Go program is taken line by line; each
  line is trimmed, classified by the first test of a fixed chain that it
  passes, rewritten by the transformer for its kind, and finished with a
  line break after a closing brace and a `;` where a C++ statement needs
  one. Blocks `import (`, `var (`, `type (` and `const (` are tracked with
  flags, brace depth with a counter, and the maps declared so far in a
  registry. The switch state lives in the package globals, here the fields
  of a Translator. The joined lines go through the whole-program passes.
*/
module Pipeline {
  import opened Outcomes
  import opened GoStrings
  import opened Helpers
  import opened Signatures
  import opened Statements
  import opened Loops
  import opened Printing
  import opened HashMaps
  import opened Switches
  import opened PostPasses

  /** The local variables of go2cpp that live across lines. */
  datatype Locals = Locals(
    currentReturnType: string, currentFunctionName: string,
    inImport: bool, inVar: bool, inType: bool, inConst: bool,
    curlyCount: int, encounteredHashMaps: seq<string>)

  /** The locals when go2cpp starts. */
  const Fresh: Locals := Locals("", "", false, false, false, false, 0, [])

  /** The translation so far: the output lines, the locals and the globals. */
  datatype State = State(lines: seq<string>, locals: Locals, globals: Globals)

  /** The test of the chain that a trimmed line passes first. */
  datatype LineKind =
    | ImportEnd | ImportItem | VarEnd | TypeEnd | ConstEnd | VarItem | TypeItem | ConstItem
    | FuncLine | ForLine | SwitchLine | CaseLine | ReturnLine | PrintLine | AssignLine
    | PackageLine | ImportLine | IfLine | ElseIfLine | VarStart | TypeStart | ConstStart
    | VarLine | TypeLine | ConstLine | FallthroughLine | DefaultLine | OtherLine

  /** What a line becomes: nothing (the loop continues) or a text to finish. */
  datatype Outcome =
    | Skip(locals: Locals, globals: Globals)
    | Emit(text: string, locals: Locals, globals: Globals)

  /** The result of an assignment line: its text and the map registry after it. */
  datatype Assigned = Assigned(text: string, encounteredHashMaps: seq<string>)

  // ---------------------------------------------------------------------------
  // One line
  // ---------------------------------------------------------------------------

  /** The trimmed line, less one trailing `;`. */
  function Trimmed(line: string): string {
    var t := TrimSpace(line);
    if HasSuffix(t, ";") then t[..|t| - 1] else t
  }

  /** How much a trimmed line deepens the braces. */
  function Balance(trimmed: string): int {
    CountChar(trimmed, '{') - CountChar(trimmed, '}')
  }

  function Classify(loc: Locals, trimmed: string): LineKind {
    if loc.inImport && Contains(trimmed, ")") then ImportEnd
    else if loc.inImport then ImportItem
    else if loc.inVar && Contains(trimmed, ")") then VarEnd
    else if loc.inType && Contains(trimmed, ")") then TypeEnd
    else if loc.inConst && Contains(trimmed, ")") then ConstEnd
    else if loc.inVar then VarItem
    else if loc.inType then TypeItem
    else if loc.inConst then ConstItem
    else if HasPrefix(trimmed, "func") then FuncLine
    else if HasPrefix(trimmed, "for") then ForLine
    else if HasPrefix(trimmed, "switch") then SwitchLine
    else if HasPrefix(trimmed, "case") then CaseLine
    else if HasPrefix(trimmed, "return") then ReturnLine
    else if HasPrefix(trimmed, "fmt.Print") || HasPrefix(trimmed, "print") then PrintLine
    else if Contains(trimmed, "=") && !HasPrefix(trimmed, "var ") && !HasPrefix(trimmed, "if ") then AssignLine
    else if HasPrefix(trimmed, "package ") then PackageLine
    else if HasPrefix(trimmed, "import") then ImportLine
    else if HasPrefix(trimmed, "if ") then IfLine
    else if HasPrefix(trimmed, "} else if ") then ElseIfLine
    else if trimmed == "var (" then VarStart
    else if trimmed == "type (" then TypeStart
    else if trimmed == "const (" then ConstStart
    else if HasPrefix(trimmed, "var ") then VarLine
    else if HasPrefix(trimmed, "type ") then TypeLine
    else if HasPrefix(trimmed, "const ") then ConstLine
    else if trimmed == "fallthrough" then FallthroughLine
    else if trimmed == "default:" then DefaultLine
    else OtherLine
  }

  /**
    A `return` line in a function with several results returns the tuple of
    the returned values; a line without `return ` then has no values to take.
  */
  function Return(currentReturnType: string, line: string): (r: Result<string>)
    ensures !HasPrefix(currentReturnType, TupleType) ==> r == Ok(line)
    ensures HasPrefix(currentReturnType, TupleType) ==> (r.Ok? <==> Contains(line, "return "))
  {
    if HasPrefix(currentReturnType, TupleType) then
      var elems := SplitTwo(line, "return ");
      if |elems| < 2 then Err(IndexRange("go2cpp"))
      else Ok("return " + currentReturnType + "{" + elems[1] + "};")
    else Ok(line)
  }

  /** The unordered_map declarations of a map literal `map[K]V{pairs}`, and the registry with the map in it. */
  function MapDeclaration(hashName: string, right: string, maps: seq<string>): (r: Result<Assigned>)
    ensures r.Ok? ==> r.value.encounteredHashMaps == maps + [hashName]
  {
    var keyType :- Between(right, "map[", "]");
    var keyType := TypeReplace(keyType);
    var valueType :- Between(right, "]", "{");
    var valueType := TypeReplace(valueType);
    var elements :- Between(right, "{", "}");
    if ShouldHash(keyType) then
      var values :- Hashed(elements, keyType, false);
      var keys :- Hashed(elements, keyType, true);
      Ok(Assigned("std::unordered_map<std::size_t, " + valueType + "> " + hashName + values + ";\n" +
                  "std::unordered_map<std::size_t, " + keyType + "> " + hashName + KeysSuffix + keys,
                  maps + [hashName]))
    else
      var values :- Hashed(elements, keyType, false);
      Ok(Assigned("std::unordered_map<" + keyType + ", " + valueType + "> " + hashName + values, maps + [hashName]))
  }

  /** The declaration of an array literal `[]T{...}`; one without `{` has no second field. */
  function ArrayDeclaration(left: string, right: string): Result<string> {
    var theType :- Between(right, "]", "{");
    var fields := SplitTwo(right, "{");
    if |fields| < 2 then Err(IndexRange("go2cpp"))
    else Ok(TypeReplace(theType) + " " + TrimSpace(left) + "[] {" + fields[1])
  }

  /** An assignment line: everything before the first `=` and between it and the next. */
  function Assignment(trimmed: string, maps: seq<string>): (r: Result<Assigned>)
    requires Contains(trimmed, "=")
    ensures r.Ok? ==> maps <= r.value.encounteredHashMaps
  {
    SplitAtLeastTwo(trimmed, "=");
    var elem := Split(trimmed, "=");
    var left := TrimSpace(elem[0]);
    var declarationAssignment := HasSuffix(left, ":");
    var left := if declarationAssignment then left[..|left| - 1] else left;
    var right := TrimSpace(elem[1]);
    if Contains(left, ",") then Ok(Assigned("auto [" + left + "] = " + right, maps))
    else if !declarationAssignment then Ok(Assigned(left + " = " + right, maps))
    else if HasPrefix(right, "[]") then
      var text :- ArrayDeclaration(left, right);
      Ok(Assigned(text, maps))
    else if HasPrefix(right, "map[") then
      var r :- MapDeclaration(TrimSpace(left), right, maps);
      Ok(r)
    else Ok(Assigned("auto " + TrimSpace(left) + " = " + TrimSpace(right), maps))
  }

  /** Lift a transformer's text into an outcome with the state unchanged. */
  function Emitting(t: Result<string>, loc: Locals, g: Globals): Result<Outcome> {
    var text :- t;
    Ok(Emit(text, loc, g))
  }

  /** The body of the chain: what the line becomes and how the state changes. */
  function Statement(g: Globals, loc: Locals, line: string, trimmed: string): Result<Outcome> {
    match Classify(loc, trimmed)
    case ImportEnd => Ok(Skip(loc.(inImport := false), g))
    case ImportItem => Ok(Skip(loc, g))
    case VarEnd => Ok(Skip(loc.(inVar := false), g))
    case TypeEnd => Ok(Skip(loc.(inType := false), g))
    case ConstEnd => Ok(Skip(loc.(inConst := false), g))
    case VarItem => Ok(Emit(VarDeclaration(line), loc, g))
    case TypeItem => Emitting(TypeDeclaration(line), loc, g)
    case ConstItem => Emitting(ConstDeclaration(line), loc, g)
    case FuncLine =>
      var sig :- FunctionSignature(trimmed);
      Ok(Emit(sig.output, loc.(currentReturnType := sig.returnType, currentFunctionName := sig.name), g))
    case ForLine => Emitting(ForLoop(line, loc.encounteredHashMaps), loc, g)
    case SwitchLine =>
      var e :- SwitchStep(g, line);
      Ok(Emit(e.text, loc, e.globals))
    case CaseLine =>
      var e :- CaseStep(g, line);
      Ok(Emit(e.text, loc, e.globals))
    case ReturnLine => Emitting(Return(loc.currentReturnType, line), loc, g)
    case PrintLine => Ok(Emit(Print(line), loc, g))
    case AssignLine =>
      var a :- Assignment(trimmed, loc.encounteredHashMaps);
      Ok(Emit(a.text, loc.(encounteredHashMaps := a.encounteredHashMaps), g))
    case PackageLine => Ok(Skip(loc, g))
    case ImportLine =>
      var inImport := if Contains(trimmed, ")") then false else if Contains(trimmed, "(") then true else loc.inImport;
      Ok(Skip(loc.(inImport := inImport), g))
    case IfLine => Emitting(IfSentence(line), loc, g)
    case ElseIfLine => Emitting(ElseIfSentence(line), loc, g)
    case VarStart => Ok(Skip(loc.(inVar := true), g))
    case TypeStart => Ok(Skip(loc.(inType := true), g))
    case ConstStart => Ok(Skip(loc.(inConst := true), g))
    case VarLine => Ok(Emit(VarDeclaration(line), loc, g))
    case TypeLine => Emitting(TypeDeclaration(line), loc, g)
    case ConstLine => Emitting(ConstDeclaration(line), loc, g)
    case FallthroughLine =>
      var e := FallthroughStep(g);
      Ok(Emit(e.text, loc, e.globals))
    case DefaultLine =>
      var e := DefaultStep(g);
      Ok(Emit(e.text, loc, e.globals))
    case OtherLine => Ok(Emit(line, loc, g))
  }

  /** The closing brace of `main` at depth 0 returns 0 first. */
  function MainReturn(line: string, trimmed: string, text: string, loc: Locals): string {
    if loc.currentFunctionName == "main" && trimmed == "}" && loc.curlyCount == 0 then
      ReplaceFirst(line, "}", "return 0;\n}")
    else text
  }

  /** A line ending in `}` is followed by an empty line. */
  function Braced(trimmed: string, text: string): string {
    if HasSuffix(trimmed, "}") then text + "\n" else text
  }

  /**
    The text gets a `;` unless the Go line ends in `{ , } :` without an `=`
    in it, is a comment, or the text ends in one of those or holds a comment.
  */
  function Terminated(trimmed: string, text: string): string {
    if (!Has(Endings, LastChar(trimmed)) || Contains(trimmed, "=")) && !HasPrefix(trimmed, "//") &&
       (!Has(Endings, LastChar(text)) && !Contains(text, "//"))
    then text + ";"
    else text
  }

  /** The line as it goes into the output. */
  function Completed(line: string, trimmed: string, text: string, loc: Locals): string {
    Terminated(trimmed, Braced(trimmed, MainReturn(line, trimmed, text, loc)))
  }

  /** One pass of the loop of go2cpp. */
  function LineStep(st: State, line: string): Result<State> {
    if |Trimmed(line)| == 0 then Ok(st.(lines := st.lines + [line]))
    else Stepped(st.lines, line, Trimmed(line), Statement(st.globals, Located(st.locals, line), line, Trimmed(line)))
  }

  /** The locals a non-empty line is translated with: the brace depth after it. */
  function Located(loc: Locals, line: string): Locals {
    loc.(curlyCount := loc.curlyCount + Balance(Trimmed(line)))
  }

  lemma LineStepBlank(st: State, line: string)
    requires |Trimmed(line)| == 0
    ensures LineStep(st, line) == Ok(st.(lines := st.lines + [line]))
  {
  }

  lemma LineStepNonEmpty(st: State, line: string)
    requires |Trimmed(line)| > 0
    ensures LineStep(st, line) ==
            Stepped(st.lines, line, Trimmed(line), Statement(st.globals, Located(st.locals, line), line, Trimmed(line)))
  {
  }

  lemma LineStepOf(st: State, line: string, trimmed: string, loc: Locals, o: Result<Outcome>)
    requires trimmed == Trimmed(line) && |trimmed| > 0
    requires loc == Located(st.locals, line)
    requires o == Statement(st.globals, loc, line, trimmed)
    ensures LineStep(st, line) == Stepped(st.lines, line, trimmed, o)
  {
    LineStepNonEmpty(st, line);
    assert Located(st.locals, line) == loc;
  }

  /** The state after a non-empty line, or the panic its transformer raised. */
  function Stepped(lines: seq<string>, line: string, trimmed: string, o: Result<Outcome>): Result<State> {
    var o :- o;
    Ok(Applied(lines, line, trimmed, o))
  }

  /** The state after a line's outcome: a skipped line adds nothing, an emitted one its finished text. */
  function Applied(lines: seq<string>, line: string, trimmed: string, o: Outcome): State {
    match o
    case Skip(l, g) => State(lines, l, g)
    case Emit(t, l, g) => State(lines + [Completed(line, trimmed, t, l)], l, g)
  }

  /** The loop of go2cpp over some lines. */
  function Run(st: State, lines: seq<string>): Result<State>
    decreases |lines|
  {
    if lines == [] then Ok(st)
    else
      var st' :- LineStep(st, lines[0]);
      Run(st', lines[1..])
  }

  /** The loop of go2cpp over a whole program, from fresh locals and the given globals. */
  function Translation(g: Globals, source: string): Result<State> {
    Run(State([], Fresh, g), Split(source, "\n"))
  }

  /** The output lines joined and passed through the whole-program passes, in their order. */
  function Finished(lines: seq<string>): string {
    WithIncludes(AddEach(FunctionRules, ReplaceEach(TypeRules, WithLiterals(Join(lines, "\n")))))
  }

  // ---------------------------------------------------------------------------
  // The translator, with the package globals as fields
  // ---------------------------------------------------------------------------

  class Translator {
    var switchExpressionCounter: int
    var firstCase: bool
    var switchLabel: string
    var labelCounter: int

    function Current(): Globals
      reads this
    {
      Globals(switchExpressionCounter, firstCase, switchLabel, labelCounter)
    }

    /** The globals as the program starts. */
    constructor()
      ensures Current() == Initial
    {
      switchExpressionCounter := -1;
      firstCase := false;
      switchLabel := "";
      labelCounter := 0;
    }

    /** Switch: bind the switch expression to a new temporary. */
    method Switch(source: string) returns (r: Result<string>)
      modifies this
      ensures var e := SwitchStep(old(Current()), source);
              (e.Err? ==> r == Err(e.error) && Current() == old(Current())) &&
              (e.Ok? ==> r == Ok(e.value.text) && Current() == e.value.globals)
    {
      var trimmed := TrimSpace(source);
      if |trimmed| < |"switch "| {
        return Err(SliceBounds("Switch"));
      }
      var output := trimmed[|"switch "|..];
      if HasSuffix(output, "{") {
        output := TrimSpace(output[..|output| - 1]);
      }
      switchExpressionCounter := switchExpressionCounter + 1;
      firstCase := true;
      return Ok("auto " + SwitchExpressionVariable(Current()) + " = " + output + "; // switch on " + output);
    }

    /** Case: compare the temporary with the case value; place a pending label. */
    method Case(source: string) returns (r: Result<string>)
      modifies this
      ensures var e := CaseStep(old(Current()), source);
              (e.Err? ==> r == Err(e.error) && Current() == old(Current())) &&
              (e.Ok? ==> r == Ok(e.value.text) && Current() == e.value.globals)
    {
      var s := Between(source, " ", ":");
      if s.Err? {
        return Err(s.error);
      }
      var output: string;
      if firstCase {
        firstCase := false;
        output := "if (";
      } else {
        output := "} else if (";
      }
      output := output + (SwitchExpressionVariable(Current()) + " == " + s.value + ") { // case " + s.value);
      if switchLabel != "" {
        output := output + ("\n" + switchLabel + ":");
        switchLabel := "";
      }
      return Ok(output);
    }

    /** The `fallthrough` branch of go2cpp. */
    method Fallthrough() returns (output: string)
      modifies this
      ensures var e := FallthroughStep(old(Current()));
              output == e.text && Current() == e.globals
    {
      output := "goto " + LabelName(Current()) + "; // fallthrough";
      switchLabel := LabelName(Current());
      labelCounter := labelCounter + 1;
    }

    /** The `default:` branch of go2cpp. */
    method Default() returns (output: string)
      modifies this
      ensures var e := DefaultStep(old(Current()));
              output == e.text && Current() == e.globals
    {
      output := "} else { // default case";
      if switchLabel != "" {
        output := output + "\n" + switchLabel + ":";
        switchLabel := "";
      }
    }

    /** The branch chain of go2cpp for one non-empty trimmed line. */
    method TranslateStatement(loc: Locals, line: string, trimmed: string) returns (r: Result<Outcome>)
      modifies this
      ensures r == Statement(old(Current()), loc, line, trimmed)
      ensures r.Ok? ==> Current() == r.value.globals
    {
      match Classify(loc, trimmed)
      case SwitchLine =>
        var t := Switch(line);
        if t.Err? {
          return Err(t.error);
        }
        return Ok(Emit(t.value, loc, Current()));
      case CaseLine =>
        var t := Case(line);
        if t.Err? {
          return Err(t.error);
        }
        return Ok(Emit(t.value, loc, Current()));
      case FallthroughLine =>
        var t := Fallthrough();
        return Ok(Emit(t, loc, Current()));
      case DefaultLine =>
        var t := Default();
        return Ok(Emit(t, loc, Current()));
      case PrintLine =>
        var t := PrintStatement(line);
        return Ok(Emit(t, loc, Current()));
      case AssignLine =>
        var a := Assign(trimmed, loc.encounteredHashMaps);
        if a.Err? {
          return Err(a.error);
        }
        return Ok(Emit(a.value.text, loc.(encounteredHashMaps := a.value.encounteredHashMaps), Current()));
      case _ =>
        return Statement(Current(), loc, line, trimmed);
    }

    /** One pass of the loop of go2cpp. */
    method TranslateLine(lines: seq<string>, locals: Locals, line: string) returns (r: Result<State>)
      modifies this
      ensures r == LineStep(State(lines, locals, old(Current())), line)
      ensures r.Ok? ==> Current() == r.value.globals
    {
      var trimmedLine := TrimSpace(line);
      if HasSuffix(trimmedLine, ";") {
        trimmedLine := trimmedLine[..|trimmedLine| - 1];
      }
      assert trimmedLine == Trimmed(line);
      if |trimmedLine| == 0 {
        LineStepBlank(State(lines, locals, Current()), line);
        return Ok(State(lines + [line], locals, Current()));
      }
      var loc := locals.(curlyCount := locals.curlyCount + (CountChar(trimmedLine, '{') - CountChar(trimmedLine, '}')));
      var o := TranslateStatement(loc, line, trimmedLine);
      LineStepOf(State(lines, locals, old(Current())), line, trimmedLine, loc, o);
      return Stepped(lines, line, trimmedLine, o);
    }

    /** go2cpp: translate a whole program. */
    method Go2Cpp(source: string) returns (r: Result<string>)
      modifies this
      ensures var t := Translation(old(Current()), source);
              (r.Err? <==> t.Err?) &&
              (t.Err? ==> r.error == t.error) &&
              (t.Ok? ==> r.value == Finished(t.value.lines) && Current() == t.value.globals)
    {
      var input := Split(source, "\n");
      var lines: seq<string> := [];
      var loc := Fresh;
      for i := 0 to |input|
        invariant Run(State(lines, loc, Current()), input[i..]) == Translation(old(Current()), source)
      {
        assert input[i..][1..] == input[i + 1..];
        var step := TranslateLine(lines, loc, input[i]);
        if step.Err? {
          return Err(step.error);
        }
        lines := step.value.lines;
        loc := step.value.locals;
      }
      assert input[|input|..] == [];
      var output := Join(lines, "\n");
      output := LiteralStrings(output);
      output := WholeProgramReplace(output);
      output := AddFunctions(output);
      output := AddIncludes(output);
      return Ok(output);
    }
  }

  /** The assignment branch, with HashElements as a loop. */
  method Assign(trimmed: string, maps: seq<string>) returns (r: Result<Assigned>)
    requires Contains(trimmed, "=")
    ensures r == Assignment(trimmed, maps)
  {
    SplitAtLeastTwo(trimmed, "=");
    var elem := Split(trimmed, "=");
    var left := TrimSpace(elem[0]);
    var declarationAssignment := false;
    if HasSuffix(left, ":") {
      declarationAssignment := true;
      left := left[..|left| - 1];
    }
    var right := TrimSpace(elem[1]);
    if Contains(left, ",") {
      return Ok(Assigned("auto [" + left + "] = " + right, maps));
    } else if declarationAssignment {
      if HasPrefix(right, "[]") {
        var text := ArrayDeclaration(left, right);
        if text.Err? {
          return Err(text.error);
        }
        return Ok(Assigned(text.value, maps));
      } else if HasPrefix(right, "map[") {
        r := DeclareMap(TrimSpace(left), right, maps);
          return;
      } else {
        return Ok(Assigned("auto " + TrimSpace(left) + " = " + TrimSpace(right), maps));
      }
    } else {
      return Ok(Assigned(left + " = " + right, maps));
    }
  }

  /** The map branch of an assignment, with HashElements as a loop. */
  method DeclareMap(hashName: string, right: string, maps: seq<string>) returns (r: Result<Assigned>)
    ensures r == MapDeclaration(hashName, right, maps)
  {
    var keyType := Between(right, "map[", "]");
    if keyType.Err? {
      return Err(keyType.error);
    }
    var valueType := Between(right, "]", "{");
    if valueType.Err? {
      return Err(valueType.error);
    }
    var elements := Between(right, "{", "}");
    if elements.Err? {
      return Err(elements.error);
    }
    var k := TypeReplace(keyType.value);
    var v := TypeReplace(valueType.value);
    if ShouldHash(k) {
      var values := HashElements(elements.value, k, false);
      if values.Err? {
        return Err(values.error);
      }
      var keys := HashElements(elements.value, k, true);
      if keys.Err? {
        return Err(keys.error);
      }
      var newLine := "std::unordered_map<std::size_t, " + v + "> " + hashName + values.value + ";\n";
      newLine := newLine + "std::unordered_map<std::size_t, " + k + "> " + hashName + KeysSuffix + keys.value;
      return Ok(Assigned(newLine, maps + [hashName]));
    } else {
      var values := HashElements(elements.value, k, false);
      if values.Err? {
        return Err(values.error);
      }
      return Ok(Assigned("std::unordered_map<" + k + ", " + v + "> " + hashName + values.value, maps + [hashName]));
    }
  }
}
