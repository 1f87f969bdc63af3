/**
  The passes over the whole translated program: string literals get the `s`
  suffix of std::string_literals, the Go type `string` becomes std::string,
  calls to two Go string functions get C++ definitions, and the headers the
  program uses are included once each. Each Go map of rules is taken in the
  order it is written in.
*/
module PostPasses {
  import opened GoStrings

  /** One map entry: what to look for and what goes with it. */
  datatype Rule = Rule(key: string, value: string)

  // ---------------------------------------------------------------------------
  // Rule tables
  // ---------------------------------------------------------------------------

  const LiteralRules: seq<Rule> := [
    Rule("\")", "\"s)"), Rule("\";", "\"s;"), Rule("\",", "\"s,"), Rule("\"}", "\"s}"),
    Rule("\" }", "\"s }"), Rule("\" )", "\"s )"), Rule("\":", "\"s:")]

  const UsingLiterals: string := "\nusing namespace std::string_literals;\n"

  const TypeRules: seq<Rule> := [Rule(" string ", " std::string "), Rule("(string ", "(std::string ")]

  const ContainsCall: string := "strings.Contains"
  const HasPrefixCall: string := "strings.HasPrefix"
  // In pieces, so that a character can be shown absent from each piece separately.
  const ContainsDefinition: string :=
    "inline auto " + "stringsContains(" + "std::string " + "const& a, " + "std::string " + "const& b) " +
    "-> bool { " + "return " + "a.find(b) " + "!= std::" + "string::npos; }"
  const HasPrefixDefinition: string :=
    "inline auto stringsHasPrefix(std::string const& givenString, std::string const& prefix) -> auto { return 0 == givenString.find(prefix); }"
  const FunctionRules: seq<Rule> := [Rule(ContainsCall, ContainsDefinition), Rule(HasPrefixCall, HasPrefixDefinition)]

  const IncludeRules: seq<Rule> := [
    Rule("std::tuple", "tuple"), Rule("std::endl", "iostream"), Rule("std::cout", "iostream"),
    Rule("std::string", "string"), Rule("std::size", "iterator"), Rule("std::unordered_map", "unordered_map"),
    Rule("std::hash", "functional"), Rule("std::size_t", "cstddef")]

  /** Every key is non-empty, as strings.Replace of a key needs for a real replacement. */
  predicate Keyed(rules: seq<Rule>) {
    forall i :: 0 <= i < |rules| ==> rules[i].key != []
  }

  /** Every value is at least as long as its key. */
  predicate Lengthening(rules: seq<Rule>) {
    forall i :: 0 <= i < |rules| ==> |rules[i].value| >= |rules[i].key|
  }

  /** Some key of the rules occurs in the text. */
  predicate AnyKey(rules: seq<Rule>, s: string) {
    exists i :: 0 <= i < |rules| && Contains(s, rules[i].key)
  }

  // ---------------------------------------------------------------------------
  // Replacing every key by its value, rule after rule
  // ---------------------------------------------------------------------------

  /** Every rule applied in turn with strings.Replace(output, key, value, -1). */
  function ReplaceEach(rules: seq<Rule>, s: string): string
    decreases |rules|
  {
    if rules == [] then s else ReplaceEach(rules[1..], ReplaceAll(s, rules[0].key, rules[0].value))
  }

  /** The text and the flag after the LiteralStrings loop. */
  datatype Rewrite = Rewrite(output: string, found: bool)

  /** The LiteralStrings loop: replace a key only when it occurs, and note that one did. */
  function ReplaceFound(rules: seq<Rule>, output: string, found: bool): Rewrite
    decreases |rules|
  {
    if rules == [] then Rewrite(output, found)
    else if Contains(output, rules[0].key) then
      ReplaceFound(rules[1..], ReplaceAll(output, rules[0].key, rules[0].value), true)
    else ReplaceFound(rules[1..], output, found)
  }

  /** What LiteralStrings returns. */
  function WithLiterals(source: string): string {
    var rw := ReplaceFound(LiteralRules, source, false);
    if rw.found then UsingLiterals + rw.output else rw.output
  }

  method LiteralStrings(source: string) returns (output: string)
    ensures output == WithLiterals(source)
  {
    output := source;
    var hasLiteral := false;
    for i := 0 to |LiteralRules|
      invariant ReplaceFound(LiteralRules[i..], output, hasLiteral) == ReplaceFound(LiteralRules, source, false)
    {
      assert LiteralRules[i..][1..] == LiteralRules[i + 1..];
      var r := LiteralRules[i];
      if Contains(output, r.key) {
        output := ReplaceAll(output, r.key, r.value);
        hasLiteral := true;
      }
    }
    if hasLiteral {
      output := UsingLiterals + output;
    }
  }

  /** Skipping a key that does not occur changes nothing, so the checked loop replaces as the plain one does. */
  lemma {:induction false} ReplaceFoundOutput(rules: seq<Rule>, s: string, found: bool)
    requires Keyed(rules)
    ensures ReplaceFound(rules, s, found).output == ReplaceEach(rules, s)
    decreases |rules|
  {
    if rules != [] {
      assert Keyed(rules[1..]) by {
        forall i | 0 <= i < |rules[1..]| ensures rules[1..][i].key != [] {
          assert rules[1..][i] == rules[i + 1];
        }
      }
      if Contains(s, rules[0].key) {
        ReplaceFoundOutput(rules[1..], ReplaceAll(s, rules[0].key, rules[0].value), true);
      } else {
        ReplaceAllAbsent(s, rules[0].key, rules[0].value);
        ReplaceFoundOutput(rules[1..], s, found);
      }
    }
  }

  /** The flag is set exactly when some key occurs in the text the loop starts from. */
  lemma {:induction false} ReplaceFoundFlag(rules: seq<Rule>, s: string, found: bool)
    ensures ReplaceFound(rules, s, found).found <==> found || AnyKey(rules, s)
    decreases |rules|
  {
    if rules != [] {
      if Contains(s, rules[0].key) {
        ReplaceFoundSticks(rules[1..], ReplaceAll(s, rules[0].key, rules[0].value));
      } else {
        ReplaceFoundFlag(rules[1..], s, found);
        if AnyKey(rules, s) {
          var i :| 0 <= i < |rules| && Contains(s, rules[i].key);
          assert rules[1..][i - 1] == rules[i];
        }
        if AnyKey(rules[1..], s) {
          var i :| 0 <= i < |rules[1..]| && Contains(s, rules[1..][i].key);
          assert rules[1..][i] == rules[i + 1];
        }
      }
    }
  }

  /** Once set, the flag stays set. */
  lemma {:induction false} ReplaceFoundSticks(rules: seq<Rule>, s: string)
    ensures ReplaceFound(rules, s, true).found
    decreases |rules|
  {
    if rules != [] {
      if Contains(s, rules[0].key) {
        ReplaceFoundSticks(rules[1..], ReplaceAll(s, rules[0].key, rules[0].value));
      } else {
        ReplaceFoundSticks(rules[1..], s);
      }
    }
  }

  /** Keys that do not occur are not replaced. */
  lemma {:induction false} ReplaceEachAbsent(rules: seq<Rule>, s: string)
    requires Keyed(rules) && !AnyKey(rules, s)
    ensures ReplaceEach(rules, s) == s
    decreases |rules|
  {
    if rules != [] {
      assert !Contains(s, rules[0].key);
      ReplaceAllAbsent(s, rules[0].key, rules[0].value);
      assert Keyed(rules[1..]) && !AnyKey(rules[1..], s) by {
        forall i | 0 <= i < |rules[1..]| ensures rules[1..][i].key != [] && !Contains(s, rules[1..][i].key) {
          assert rules[1..][i] == rules[i + 1];
        }
      }
      ReplaceEachAbsent(rules[1..], s);
    }
  }

  /** Rules whose values are no shorter than their keys never shorten the text. */
  lemma {:induction false} ReplaceEachLength(rules: seq<Rule>, s: string)
    requires Keyed(rules) && Lengthening(rules)
    ensures |ReplaceEach(rules, s)| >= |s|
    decreases |rules|
  {
    if rules != [] {
      ReplaceAllLength(s, rules[0].key, rules[0].value);
      assert Keyed(rules[1..]) && Lengthening(rules[1..]) by {
        forall i | 0 <= i < |rules[1..]|
          ensures rules[1..][i].key != [] && |rules[1..][i].value| >= |rules[1..][i].key|
        {
          assert rules[1..][i] == rules[i + 1];
        }
      }
      ReplaceEachLength(rules[1..], ReplaceAll(s, rules[0].key, rules[0].value));
    }
  }

  lemma LiteralRulesShape()
    ensures Keyed(LiteralRules) && Lengthening(LiteralRules)
  {
  }

  /**
    LiteralStrings suffixes the literals and puts the using-directive in
    front exactly when the program has a literal followed by one of
    `) ; , } :`, or by a space and `}` or `)`; otherwise the text is unchanged.
  */
  lemma LiteralsPrepended(source: string)
    ensures AnyKey(LiteralRules, source) ==> WithLiterals(source) == UsingLiterals + ReplaceEach(LiteralRules, source)
    ensures !AnyKey(LiteralRules, source) ==> WithLiterals(source) == source
    ensures |WithLiterals(source)| >= |source|
  {
    LiteralRulesShape();
    ReplaceFoundFlag(LiteralRules, source, false);
    ReplaceFoundOutput(LiteralRules, source, false);
    ReplaceEachLength(LiteralRules, source);
    if !AnyKey(LiteralRules, source) {
      ReplaceEachAbsent(LiteralRules, source);
    }
  }

  // ---------------------------------------------------------------------------
  // WholeProgramReplace
  // ---------------------------------------------------------------------------

  method WholeProgramReplace(source: string) returns (output: string)
    ensures output == ReplaceEach(TypeRules, source)
  {
    output := source;
    for i := 0 to |TypeRules|
      invariant ReplaceEach(TypeRules[i..], output) == ReplaceEach(TypeRules, source)
    {
      assert TypeRules[i..][1..] == TypeRules[i + 1..];
      output := ReplaceAll(output, TypeRules[i].key, TypeRules[i].value);
    }
  }

  /**
    A program without the Go type `string` between a space or parenthesis
    and a space is unchanged; one with ` string ` grows.
  */
  lemma TypesReplaced(source: string)
    ensures !AnyKey(TypeRules, source) ==> ReplaceEach(TypeRules, source) == source
    ensures Contains(source, " string ") ==> |ReplaceEach(TypeRules, source)| > |source|
  {
    assert Keyed(TypeRules) && Lengthening(TypeRules);
    if !AnyKey(TypeRules, source) {
      ReplaceEachAbsent(TypeRules, source);
    }
    if Contains(source, " string ") {
      var once := ReplaceAll(source, TypeRules[0].key, TypeRules[0].value);
      ReplaceAllGrows(source, TypeRules[0].key, TypeRules[0].value);
      ReplaceEachLength(TypeRules[1..], once);
    }
  }

  // ---------------------------------------------------------------------------
  // AddFunctions
  // ---------------------------------------------------------------------------

  /** `strings.Contains` without its dot: the name of the C++ helper. */
  function Dotless(k: string): string {
    ReplaceAll(k, ".", "")
  }

  /** The AddFunctions loop: rename the calls of a key that occurs and put its definition in front. */
  function AddEach(rules: seq<Rule>, s: string): string
    decreases |rules|
  {
    if rules == [] then s
    else if Contains(s, rules[0].key) then
      AddEach(rules[1..], rules[0].value + "\n" + ReplaceAll(s, rules[0].key, Dotless(rules[0].key)))
    else AddEach(rules[1..], s)
  }

  method AddFunctions(source: string) returns (output: string)
    ensures output == AddEach(FunctionRules, source)
  {
    output := source;
    for i := 0 to |FunctionRules|
      invariant AddEach(FunctionRules[i..], output) == AddEach(FunctionRules, source)
    {
      assert FunctionRules[i..][1..] == FunctionRules[i + 1..];
      var r := FunctionRules[i];
      if Contains(output, r.key) {
        output := ReplaceAll(output, r.key, ReplaceAll(r.key, ".", ""));
        output := r.value + "\n" + output;
      }
    }
  }

  /** A program that calls neither function is unchanged. */
  lemma {:induction false} AddEachAbsent(rules: seq<Rule>, s: string)
    requires !AnyKey(rules, s)
    ensures AddEach(rules, s) == s
    decreases |rules|
  {
    if rules != [] {
      assert !AnyKey(rules[1..], s) by {
        forall i | 0 <= i < |rules[1..]| ensures !Contains(s, rules[1..][i].key) {
          assert rules[1..][i] == rules[i + 1];
        }
      }
      AddEachAbsent(rules[1..], s);
    }
  }

  /**
    Replacing in text that starts with a part free of the pattern and a
    character the pattern lacks leaves that start alone.
  */
  lemma ReplaceAllAfter(p: string, c: char, rest: string, pat: string, rep: string)
    requires pat != [] && c !in pat && !Contains(p, pat)
    ensures ReplaceAll(p + [c] + rest, pat, rep) == p + [c] + ReplaceAll(rest, pat, rep)
  {
    var s := p + [c] + rest;
    var k := |p| + 1;
    IndexSpec(p, pat);
    forall j | 0 <= j < k ensures !OccursAt(s, pat, j) {
      if j + |pat| <= |p| {
        assert !OccursAt(p, pat, j);
        assert p[j..j + |pat|] == s[j..j + |pat|];
      } else if j + |pat| <= |s| {
        assert s[j..j + |pat|][|p| - j] == c;
        assert pat[|p| - j] != c;
      }
    }
    ReplaceAllKeeps(s, k, pat, rep);
    assert s[..k] == p + [c];
    assert s[k..] == rest;
  }

  /** ReplaceAll copies a start of the text at which no match begins. */
  lemma {:induction false} ReplaceAllKeeps(s: string, k: int, pat: string, rep: string)
    requires pat != [] && 0 <= k <= |s|
    requires forall j :: 0 <= j < k ==> !OccursAt(s, pat, j)
    ensures ReplaceAll(s, pat, rep) == s[..k] + ReplaceAll(s[k..], pat, rep)
    decreases k
  {
    if k == 0 {
      assert s[k..] == s;
    } else if |s| < |pat| {
      assert s[..k] + s[k..] == s;
    } else {
      assert !OccursAt(s, pat, 0);
      ReplaceAllSkip(s, pat, rep);
      var t := s[1..];
      NoMatchShift(s, k, pat);
      ReplaceAllKeeps(t, k - 1, pat, rep);
      TailSlices(s, k, ReplaceAll(s[k..], pat, rep));
    }
  }

  lemma TailSlices(s: string, k: int, x: string)
    requires 0 < k <= |s|
    ensures s[1..][k - 1..] == s[k..]
    ensures [s[0]] + (s[1..][..k - 1] + x) == s[..k] + x
  {
    assert s[..k] == [s[0]] + s[1..][..k - 1];
  }

  /** No match in the first `k` positions means none in the first `k - 1` of the tail. */
  lemma NoMatchShift(s: string, k: int, pat: string)
    requires 0 < k <= |s|
    requires forall j :: 0 <= j < k ==> !OccursAt(s, pat, j)
    ensures forall j :: 0 <= j < k - 1 ==> !OccursAt(s[1..], pat, j)
  {
    forall j | 0 <= j < k - 1 ensures !OccursAt(s[1..], pat, j) {
      OccursShift(s, pat, j);
    }
  }

  /** Where the pattern does not start the text, ReplaceAll keeps the first character. */
  lemma ReplaceAllSkip(s: string, pat: string, rep: string)
    requires pat != [] && |pat| <= |s| && s[..|pat|] != pat
    ensures ReplaceAll(s, pat, rep) == [s[0]] + ReplaceAll(s[1..], pat, rep)
  {
  }

  /** One rule of AddFunctions. */
  function AddOne(r: Rule, s: string): string {
    if Contains(s, r.key) then r.value + "\n" + ReplaceAll(s, r.key, Dotless(r.key)) else s
  }

  /** The two rules of AddFunctions, one after the other. */
  lemma AddTwo(r0: Rule, r1: Rule, s: string)
    ensures AddEach([r0, r1], s) == AddOne(r1, AddOne(r0, s))
  {
    assert [r0, r1][1..] == [r1];
    assert [r1][1..] == [];
    assert AddEach([r0, r1], s) == AddEach([r1], AddOne(r0, s));
    assert AddEach([r1], AddOne(r0, s)) == AddEach([], AddOne(r1, AddOne(r0, s)));
  }

  /** A definition put in front survives a later rule whose key it lacks. */
  lemma DefinitionKept(r0: Rule, r1: Rule, s: string)
    requires r1.key != [] && '\n' !in r1.key && !Contains(r0.value, r1.key)
    ensures Contains(AddOne(r1, r0.value + "\n" + s), r0.value)
  {
    var s1 := r0.value + "\n" + s;
    var d := Dotless(r1.key);
    var tail := ReplaceAll(s, r1.key, d);
    ReplaceAllAfter(r0.value, '\n', s, r1.key, d);
    assert s1 == r0.value + ['\n'] + s;
    assert ReplaceAll(s1, r1.key, d) == r0.value + (['\n'] + tail);
    PrefixContained(r0.value, ['\n'] + tail);
    PrefixContained(r0.value, "\n" + s);
    KeptByRule(r1, s1, r0.value);
  }

  /** Text in both the program and its renamed form survives the rule. */
  lemma KeptByRule(r: Rule, s: string, t: string)
    requires Contains(s, t) && Contains(ReplaceAll(s, r.key, Dotless(r.key)), t)
    ensures Contains(AddOne(r, s), t)
  {
    if Contains(s, r.key) {
      ContainsRight(r.value + "\n", ReplaceAll(s, r.key, Dotless(r.key)), t);
    }
  }

  /** The first of two rules defines its function when its key occurs. */
  lemma DefinedFirst(r0: Rule, r1: Rule, s: string)
    requires Contains(s, r0.key)
    requires r1.key != [] && '\n' !in r1.key && !Contains(r0.value, r1.key)
    ensures Contains(AddEach([r0, r1], s), r0.value)
  {
    AddTwo(r0, r1, s);
    DefinitionKept(r0, r1, ReplaceAll(s, r0.key, Dotless(r0.key)));
  }

  /** A text is part of any text it starts. */
  lemma PrefixContained(x: string, y: string)
    ensures Contains(x + y, x)
  {
    assert (x + y)[..|x|] == x;
    ContainsAt(x + y, x, 0);
  }

  /** Dropping the only dot of a name joins its two halves. */
  lemma DotlessJoin(x: string, y: string)
    requires '.' !in x && '.' !in y
    ensures Dotless(x + "." + y) == x + y
    decreases |x|
  {
    var s := x + "." + y;
    if x == [] {
      assert s[..1] == "." && s[1..] == y;
      ContainsChar(y, '.');
      ReplaceAllAbsent(y, ".", "");
    } else {
      assert s[..1] != "." by {
        assert s[0] == x[0];
      }
      DotlessJoin(x[1..], y);
      assert s[1..] == x[1..] + "." + y;
      assert s == [x[0]] + s[1..];
    }
  }

  lemma DotlessContains()
    ensures Dotless(ContainsCall) == "stringsContains"
  {
    CallWords();
    DotlessJoin("strings", "Contains");
  }

  lemma DotlessHasPrefix()
    ensures Dotless(HasPrefixCall) == "stringsHasPrefix"
  {
    CallWords();
    DotlessJoin("strings", "HasPrefix");
  }

  /** The two calls are a package and a function name joined by a dot. */
  lemma CallWords()
    ensures ContainsCall == "strings" + "." + "Contains" && "strings" + "Contains" == "stringsContains"
    ensures HasPrefixCall == "strings" + "." + "HasPrefix" && "strings" + "HasPrefix" == "stringsHasPrefix"
  {
  }

  lemma DefinitionLacksHasPrefix()
    ensures !Contains(ContainsDefinition, HasPrefixCall)
  {
    assert HasPrefixCall[8] == 'H';
    assert 'H' !in ContainsDefinition;
    AbsentSomeChar(ContainsDefinition, HasPrefixCall, 8);
  }

  /**
    A program that calls `strings.Contains` gets its C++ definition, which
    stays in the output whatever the second rule does.
  */
  lemma ContainsDefined(source: string)
    requires Contains(source, ContainsCall)
    ensures Contains(AddEach(FunctionRules, source), ContainsDefinition)
  {
    DefinitionLacksHasPrefix();
    assert '\n' !in HasPrefixCall;
    DefinedFirst(FunctionRules[0], FunctionRules[1], source);
  }

  /**
    A program that calls `strings.HasPrefix` but not `strings.Contains` gets
    the definition of the former in front of the text with the calls renamed.
  */
  lemma HasPrefixDefined(source: string)
    requires !Contains(source, ContainsCall) && Contains(source, HasPrefixCall)
    ensures AddEach(FunctionRules, source) ==
            HasPrefixDefinition + "\n" + ReplaceAll(source, HasPrefixCall, "stringsHasPrefix")
  {
    AddTwo(FunctionRules[0], FunctionRules[1], source);
    DotlessHasPrefix();
  }

  // ---------------------------------------------------------------------------
  // AddIncludes
  // ---------------------------------------------------------------------------

  function IncludeLine(header: string): string {
    "#include <" + header + ">\n"
  }

  /** The lines one after another. */
  function Concat(lines: seq<string>): string
    decreases |lines|
  {
    if lines == [] then "" else Concat(lines[..|lines| - 1]) + lines[|lines| - 1]
  }

  /**
    The AddIncludes loop: the include of every key that occurs in the
    program, unless the text gathered so far already contains it.
  */
  function IncludeLines(rules: seq<Rule>, source: string, added: seq<string>): seq<string>
    decreases |rules|
  {
    if rules == [] then added
    else
      var line := IncludeLine(rules[0].value);
      if Contains(source, rules[0].key) && !Contains(Concat(added), line) then
        IncludeLines(rules[1..], source, added + [line])
      else IncludeLines(rules[1..], source, added)
  }

  /** What AddIncludes returns. */
  function WithIncludes(source: string): string {
    Concat(IncludeLines(IncludeRules, source, [])) + "\n" + source
  }

  method AddIncludes(source: string) returns (output: string)
    ensures output == WithIncludes(source)
  {
    var includeString := "";
    ghost var added: seq<string> := [];
    for i := 0 to |IncludeRules|
      invariant includeString == Concat(added)
      invariant IncludeLines(IncludeRules[i..], source, added) == IncludeLines(IncludeRules, source, [])
    {
      assert IncludeRules[i..][1..] == IncludeRules[i + 1..];
      var r := IncludeRules[i];
      if Contains(source, r.key) {
        var newInclude := "#include <" + r.value + ">\n";
        if !Contains(includeString, newInclude) {
          includeString := includeString + newInclude;
          added := added + [newInclude];
        }
      }
    }
    output := includeString + "\n" + source;
  }

  predicate Distinct(lines: seq<string>) {
    forall i, j :: 0 <= i < j < |lines| ==> lines[i] != lines[j]
  }

  /** Text in the left part is in the whole. */
  lemma ContainsLeft(x: string, y: string, t: string)
    requires Contains(x, t)
    ensures Contains(x + y, t)
  {
    var i := Index(x, t);
    assert (x + y)[i..i + |t|] == x[i..i + |t|];
    ContainsAt(x + y, t, i);
  }

  /** Text in the right part is in the whole. */
  lemma ContainsRight(x: string, y: string, t: string)
    requires Contains(y, t)
    ensures Contains(x + y, t)
  {
    OccursIn(x, t, y, Index(y, t));
    ContainsAt(x + y, t, |x| + Index(y, t));
  }

  /** A gathered line is part of the gathered text. */
  lemma {:induction false} ConcatContains(lines: seq<string>, k: int)
    requires 0 <= k < |lines|
    ensures Contains(Concat(lines), lines[k])
    decreases |lines|
  {
    var init := lines[..|lines| - 1];
    if k == |lines| - 1 {
      assert OccursAt(lines[k], lines[k], 0);
      ContainsAt(lines[k], lines[k], 0);
      ContainsRight(Concat(init), lines[k], lines[k]);
    } else {
      assert init[k] == lines[k];
      ConcatContains(init, k);
      ContainsLeft(Concat(init), lines[|lines| - 1], lines[k]);
    }
  }

  /** Text once gathered stays part of the gathered text. */
  lemma ConcatGrows(lines: seq<string>, line: string, t: string)
    requires Contains(Concat(lines), t)
    ensures Contains(Concat(lines + [line]), t)
  {
    assert (lines + [line])[..|lines|] == lines;
    ContainsLeft(Concat(lines), line, t);
  }

  /** No include line is gathered twice. */
  lemma {:induction false} IncludeLinesDistinct(rules: seq<Rule>, source: string, added: seq<string>)
    requires Distinct(added)
    ensures Distinct(IncludeLines(rules, source, added))
    decreases |rules|
  {
    if rules != [] {
      var line := IncludeLine(rules[0].value);
      if Contains(source, rules[0].key) && !Contains(Concat(added), line) {
        forall k | 0 <= k < |added| ensures added[k] != line {
          ConcatContains(added, k);
        }
        IncludeLinesDistinct(rules[1..], source, added + [line]);
      } else {
        IncludeLinesDistinct(rules[1..], source, added);
      }
    }
  }

  /** The include of every key that occurs in the program is in the gathered text. */
  lemma {:induction false} IncludeLinesComplete(rules: seq<Rule>, source: string, added: seq<string>, k: int)
    requires 0 <= k < |rules| && Contains(source, rules[k].key)
    ensures Contains(Concat(IncludeLines(rules, source, added)), IncludeLine(rules[k].value))
    decreases |rules|
  {
    var line := IncludeLine(rules[0].value);
    var next := if Contains(source, rules[0].key) && !Contains(Concat(added), line) then added + [line] else added;
    if k == 0 {
      if next != added {
        ConcatContains(next, |added|);
      }
      IncludeLinesKeep(rules[1..], source, next, line);
    } else {
      assert rules[1..][k - 1] == rules[k];
      IncludeLinesComplete(rules[1..], source, next, k - 1);
    }
  }

  /** Gathering more keeps what was gathered. */
  lemma {:induction false} IncludeLinesKeep(rules: seq<Rule>, source: string, added: seq<string>, t: string)
    requires Contains(Concat(added), t)
    ensures Contains(Concat(IncludeLines(rules, source, added)), t)
    decreases |rules|
  {
    if rules != [] {
      var line := IncludeLine(rules[0].value);
      if Contains(source, rules[0].key) && !Contains(Concat(added), line) {
        ConcatGrows(added, line, t);
        IncludeLinesKeep(rules[1..], source, added + [line], t);
      } else {
        IncludeLinesKeep(rules[1..], source, added, t);
      }
    }
  }

  /** Every gathered line is the include of a key that occurs in the program. */
  lemma {:induction false} IncludeLinesSound(rules: seq<Rule>, source: string, added: seq<string>, k: int)
    requires 0 <= k < |IncludeLines(rules, source, added)|
    ensures var l := IncludeLines(rules, source, added)[k];
            (k < |added| && l == added[k]) ||
            exists j :: 0 <= j < |rules| && Contains(source, rules[j].key) && l == IncludeLine(rules[j].value)
    decreases |rules|
  {
    if rules != [] {
      var line := IncludeLine(rules[0].value);
      var l := IncludeLines(rules, source, added)[k];
      if Contains(source, rules[0].key) && !Contains(Concat(added), line) {
        IncludeLinesSound(rules[1..], source, added + [line], k);
        if k >= |added| + 1 || (k < |added| + 1 && l != (added + [line])[k]) {
          var j :| 0 <= j < |rules[1..]| && Contains(source, rules[1..][j].key) && l == IncludeLine(rules[1..][j].value);
          assert rules[1..][j] == rules[j + 1];
        }
      } else {
        IncludeLinesSound(rules[1..], source, added, k);
        if !(k < |added| && l == added[k]) {
          var j :| 0 <= j < |rules[1..]| && Contains(source, rules[1..][j].key) && l == IncludeLine(rules[1..][j].value);
          assert rules[1..][j] == rules[j + 1];
        }
      }
    }
  }

  /**
    AddIncludes puts in front of the unchanged program, and a blank line, a
    block of include lines: none twice, each for a name the program uses,
    and one for every name of the table it uses.
  */
  lemma IncludesOnce(source: string)
    ensures var lines := IncludeLines(IncludeRules, source, []);
            WithIncludes(source) == Concat(lines) + "\n" + source &&
            Distinct(lines) &&
            (forall k :: 0 <= k < |lines| ==>
               exists j :: 0 <= j < |IncludeRules| && Contains(source, IncludeRules[j].key) && lines[k] == IncludeLine(IncludeRules[j].value)) &&
            (forall j :: 0 <= j < |IncludeRules| && Contains(source, IncludeRules[j].key) ==>
               Contains(Concat(lines), IncludeLine(IncludeRules[j].value)))
  {
    var lines := IncludeLines(IncludeRules, source, []);
    IncludeLinesDistinct(IncludeRules, source, []);
    forall k | 0 <= k < |lines|
      ensures exists j :: 0 <= j < |IncludeRules| && Contains(source, IncludeRules[j].key) && lines[k] == IncludeLine(IncludeRules[j].value)
    {
      IncludeLinesSound(IncludeRules, source, [], k);
    }
    forall j | 0 <= j < |IncludeRules| && Contains(source, IncludeRules[j].key)
      ensures Contains(Concat(lines), IncludeLine(IncludeRules[j].value))
    {
      IncludeLinesComplete(IncludeRules, source, [], j);
    }
  }

  /** A program that uses no library name gets only the blank line in front. */
  lemma {:induction false} IncludesNone(rules: seq<Rule>, source: string)
    requires !AnyKey(rules, source)
    ensures IncludeLines(rules, source, []) == []
    decreases |rules|
  {
    if rules != [] {
      assert !AnyKey(rules[1..], source) by {
        forall i | 0 <= i < |rules[1..]| ensures !Contains(source, rules[1..][i].key) {
          assert rules[1..][i] == rules[i + 1];
        }
      }
      IncludesNone(rules[1..], source);
    }
  }
}
