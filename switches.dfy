/**
  The package-level state of switch translation and the four steps that use
  it. A Go `switch x {` becomes a temporary `_s__<n>` bound to `x`; each `case`
  becomes an `if`/`else if` on that temporary; `fallthrough` becomes a `goto`
  to a fresh label `_l__<m>` that the next `case` or `default:` places.
*/
module Switches {
  import opened Outcomes
  import opened GoStrings
  import opened Helpers

  /** The values of the four package globals. */
  datatype Globals = Globals(switchExpressionCounter: int, firstCase: bool, switchLabel: string, labelCounter: int)

  /** The globals when the program starts: no switch seen, so the counter is -1. */
  const Initial: Globals := Globals(-1, false, "", 0)

  /** A translated line together with the globals after it. */
  datatype Emitted = Emitted(text: string, globals: Globals)

  const SwitchKeyword: string := "switch "

  /** The temporary that holds the value of the current switch. */
  function SwitchExpressionVariable(g: Globals): string {
    SwitchPrefix + Itoa(g.switchExpressionCounter)
  }

  /** The label the next fallthrough jumps to. */
  function LabelName(g: Globals): string {
    LabelPrefix + Itoa(g.labelCounter)
  }

  /**
    The globals are consistent: the label counter is never negative, the
    switch counter never below its start, and a pending label is the one
    the last fallthrough created.
  */
  predicate Valid(g: Globals) {
    g.labelCounter >= 0 && g.switchExpressionCounter >= -1 &&
    (g.switchLabel == "" || g.switchLabel == LabelPrefix + Itoa(g.labelCounter - 1))
  }

  lemma InitialValid()
    ensures Valid(Initial)
  {
  }

  /**
    Switch: the expression after `switch `, without its brace, bound to a
    new temporary. A line shorter than `switch ` makes Go's slice panic.
  */
  function SwitchStep(g: Globals, source: string): (r: Result<Emitted>)
    ensures r.Err? <==> |TrimSpace(source)| < |SwitchKeyword|
  {
    var trimmed := TrimSpace(source);
    if |trimmed| < |SwitchKeyword| then Err(SliceBounds("Switch"))
    else
      var output := trimmed[|SwitchKeyword|..];
      var output := if HasSuffix(output, "{") then TrimSpace(output[..|output| - 1]) else output;
      var g' := g.(switchExpressionCounter := g.switchExpressionCounter + 1, firstCase := true);
      Ok(Emitted("auto " + SwitchExpressionVariable(g') + " = " + output + "; // switch on " + output, g'))
  }

  /**
    Case: compares the switch temporary with the text between the first
    space and the first colon of the line, and places a pending label.
  */
  function CaseStep(g: Globals, source: string): (r: Result<Emitted>)
    ensures r.Err? <==> Between(source, " ", ":").Err?
  {
    var s :- Between(source, " ", ":");
    var output := CaseHead(g) + CaseBody(g, s);
    if g.switchLabel != "" then Ok(Emitted(output + ("\n" + g.switchLabel + ":"), g.(firstCase := false, switchLabel := "")))
    else Ok(Emitted(output, g.(firstCase := false)))
  }

  /** How a case opens: the first case of a switch starts the `if` chain. */
  function CaseHead(g: Globals): string {
    if g.firstCase then "if (" else "} else if ("
  }

  /** The comparison of the switch temporary with the case value `s`. */
  function CaseBody(g: Globals, s: string): string {
    SwitchExpressionVariable(g) + " == " + s + ") { // case " + s
  }

  /** A `fallthrough` line: jump to a fresh label and leave it pending. */
  function FallthroughStep(g: Globals): Emitted {
    Emitted("goto " + LabelName(g) + "; // fallthrough",
            g.(switchLabel := LabelName(g), labelCounter := g.labelCounter + 1))
  }

  /** A `default:` line: the final `else`, placing a pending label. */
  function DefaultStep(g: Globals): Emitted {
    var output := "} else { // default case";
    if g.switchLabel != "" then Emitted(output + "\n" + g.switchLabel + ":", g.(switchLabel := ""))
    else Emitted(output, g)
  }

  // ---------------------------------------------------------------------------
  // Properties of the steps
  // ---------------------------------------------------------------------------

  /**
    A switch moves the counter up by exactly one, marks the next case as the
    first, binds the temporary of the new counter and leaves the labels alone.
  */
  lemma SwitchCounts(g: Globals, source: string)
    requires SwitchStep(g, source).Ok?
    ensures var e := SwitchStep(g, source).value;
            e.globals.switchExpressionCounter == g.switchExpressionCounter + 1 && e.globals.firstCase &&
            e.globals.switchLabel == g.switchLabel && e.globals.labelCounter == g.labelCounter &&
            HasPrefix(e.text, "auto " + SwitchPrefix + Itoa(g.switchExpressionCounter + 1) + " = ")
  {
    var trimmed := TrimSpace(source);
    var operand := trimmed[|SwitchKeyword|..];
    var output := if HasSuffix(operand, "{") then TrimSpace(operand[..|operand| - 1]) else operand;
    var g' := g.(switchExpressionCounter := g.switchExpressionCounter + 1, firstCase := true);
    SwitchTextPrefix(g', output);
    assert SwitchStep(g, source) == Ok(Emitted("auto " + SwitchExpressionVariable(g') + " = " + output + "; // switch on " + output, g'));
  }

  /** The text of a switch starts by declaring its temporary. */
  lemma SwitchTextPrefix(g: Globals, output: string)
    ensures HasPrefix("auto " + SwitchExpressionVariable(g) + " = " + output + "; // switch on " + output,
                      "auto " + SwitchPrefix + Itoa(g.switchExpressionCounter) + " = ")
  {
    var p := "auto " + SwitchExpressionVariable(g) + " = ";
    TextStarts(p, output + "; // switch on " + output);
    assert "auto " + SwitchExpressionVariable(g) + " = " + output + "; // switch on " + output == p + (output + "; // switch on " + output);
    VariableWords(SwitchPrefix, Itoa(g.switchExpressionCounter));
  }

  lemma TextStarts(p: string, q: string)
    ensures HasPrefix(p + q, p)
  {
    assert (p + q)[..|p|] == p;
  }

  lemma VariableWords(prefix: string, n: string)
    ensures "auto " + (prefix + n) + " = " == "auto " + prefix + n + " = "
  {
  }

  /** Because the counter starts at -1, the first switch of a program uses `_s__0`. */
  lemma FirstSwitch(source: string)
    requires SwitchStep(Initial, source).Ok?
    ensures HasPrefix(SwitchStep(Initial, source).value.text, "auto _s__0 = ")
  {
    SwitchCounts(Initial, source);
    assert Itoa(0) == "0";
    assert "auto " + SwitchPrefix + Itoa(0) + " = " == "auto _s__0 = ";
  }

  /**
    A case opens with `if (` exactly when it is the first after its switch,
    and with `} else if (` otherwise; after it no case is the first.
  */
  lemma CaseOpens(g: Globals, source: string)
    requires CaseStep(g, source).Ok?
    ensures var e := CaseStep(g, source).value;
            (HasPrefix(e.text, "if (") <==> g.firstCase) &&
            (HasPrefix(e.text, "} else if (") <==> !g.firstCase) &&
            !e.globals.firstCase &&
            e.globals.switchExpressionCounter == g.switchExpressionCounter &&
            e.globals.labelCounter == g.labelCounter
  {
    var e := CaseStep(g, source).value;
    var head := CaseHead(g);
    var tail := e.text[|head|..];
    assert e.text == head + tail;
    assert e.text[0] == head[0];
    assert "if ("[0] != "} else if ("[0];
    assert e.text[..|head|] == head;
  }

  /** A pending label is placed by the next case, on its own line, and then cleared. */
  lemma CasePlacesLabel(g: Globals, source: string)
    requires CaseStep(g, source).Ok? && g.switchLabel != ""
    ensures var e := CaseStep(g, source).value;
            HasSuffix(e.text, "\n" + g.switchLabel + ":") && e.globals.switchLabel == ""
  {
    var e := CaseStep(g, source).value;
    var s := Between(source, " ", ":").value;
    var placed := "\n" + g.switchLabel + ":";
    assert e.text == CaseHead(g) + CaseBody(g, s) + placed;
  }

  /** Without a pending label a case places none. */
  lemma CaseWithoutLabel(g: Globals, source: string)
    requires CaseStep(g, source).Ok? && g.switchLabel == ""
    ensures CaseStep(g, source).value.globals == g.(firstCase := false)
  {
  }

  /**
    A fallthrough emits a jump to `_l__<labelCounter>`, leaves that label
    pending and moves the label counter up by one.
  */
  lemma FallthroughLabel(g: Globals)
    ensures var e := FallthroughStep(g);
            e.text == "goto " + LabelPrefix + Itoa(g.labelCounter) + "; // fallthrough" &&
            e.globals.switchLabel == LabelPrefix + Itoa(g.labelCounter) &&
            e.globals.labelCounter == g.labelCounter + 1 &&
            e.globals.switchExpressionCounter == g.switchExpressionCounter && e.globals.firstCase == g.firstCase
  {
  }

  /** The case after a fallthrough places the label the fallthrough jumps to. */
  lemma FallthroughReachesNextCase(g: Globals, source: string)
    requires Between(source, " ", ":").Ok?
    ensures var f := FallthroughStep(g);
            var c := CaseStep(f.globals, source);
            c.Ok? && HasSuffix(c.value.text, "\n" + LabelName(g) + ":") && c.value.globals.switchLabel == ""
  {
    var f := FallthroughStep(g);
    CasePlacesLabel(f.globals, source);
  }

  /** `default:` is the final else and places a pending label, which it clears. */
  lemma DefaultPlacesLabel(g: Globals)
    ensures var e := DefaultStep(g);
            HasPrefix(e.text, "} else { // default case") &&
            (g.switchLabel != "" ==> HasSuffix(e.text, "\n" + g.switchLabel + ":")) &&
            (g.switchLabel == "" ==> e.text == "} else { // default case") &&
            e.globals == g.(switchLabel := "")
  {
    var e := DefaultStep(g);
    var d := "} else { // default case";
    if g.switchLabel != "" {
      assert e.text == d + ("\n" + g.switchLabel + ":");
      assert e.text[..|d|] == d;
    }
  }

  /** Every step keeps the globals consistent. */
  lemma StepsKeepValid(g: Globals, source: string)
    requires Valid(g)
    ensures SwitchStep(g, source).Ok? ==> Valid(SwitchStep(g, source).value.globals)
    ensures CaseStep(g, source).Ok? ==> Valid(CaseStep(g, source).value.globals)
    ensures Valid(FallthroughStep(g).globals)
    ensures Valid(DefaultStep(g).globals)
  {
  }

  /** Labels made at different counter values differ, so each fallthrough has its own target. */
  lemma LabelsDistinct(g1: Globals, g2: Globals)
    ensures LabelName(g1) == LabelName(g2) <==> g1.labelCounter == g2.labelCounter
  {
    if LabelName(g1) == LabelName(g2) {
      assert LabelName(g1)[|LabelPrefix|..] == Itoa(g1.labelCounter);
      assert LabelName(g2)[|LabelPrefix|..] == Itoa(g2.labelCounter);
      ItoaInjective(g1.labelCounter, g2.labelCounter);
    }
  }
}
