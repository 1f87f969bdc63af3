# go2cpp translation engine, modelled in Dafny

This project models the translation engine of go2cpp, a line-oriented
rewriter that turns a small subset of Go into C++17 text (`main.go`). It
covers four layers of that file:

- **The string helpers**: `between`, `lastchar`, `has`, `hasInt`,
  `splitAtAndTrim`, `TypeReplace` and `shouldHash`.
- **The construct transformers**: function signatures with their arguments,
  return values and `CPPTypes`; `if` / `else if`; the `for` forms; `switch`
  and `case`; `var` and `const` declarations; map literals (`HashElements`);
  and the print-family calls.
- **The `go2cpp` line pipeline.** It keeps:
  - the block flags `inImport`, `inVar`, `inType` and `inConst`;
  - the brace depth `curlyCount`;
  - the registry of declared maps;
  - the current function's name and return type;
  - the four package globals of switch translation: `switchExpressionCounter`, `firstCase`, `switchLabel` and `labelCounter`.
- **The four whole-program passes**: `LiteralStrings`, `WholeProgramReplace`,
  `AddFunctions` and `AddIncludes`.

Modules, leaves first:

| module | file | what it models |
|---|---|---|
| `Outcomes` | `outcomes.dfy` | A Go panic as `Err(Panic)` in a `Result`, which `:-` propagates. |
| `GoStrings` | `gostrings.dfy` | The parts of Go's `strings` and `strconv` that `main.go` calls, on ASCII text: `Index`, `Contains`, `HasPrefix`, `HasSuffix`, `Count` of one character, `TrimSpace`, `Split`, `SplitN(…, 2)`, `Join`, `Replace(…, -1)`, `Replace(…, 1)` and `Itoa`. |
| `Helpers` | `helpers.dfy` | The string helpers. `splitAtAndTrim` is a method whose loop fills the result piece by piece. |
| `Signatures` | `signatures.dfy` | `FunctionArguments` and `CPPTypes` are methods with the source's loops. `FunctionRetvals` and `FunctionSignature` are functions. |
| `Statements` | `statements.dfy` | `IfSentence`, `ElseIfSentence`, `VarDeclaration` and `ConstDeclaration`. `TypeDeclaration` is an error. |
| `Loops` | `loops.dfy` | `ForLoop`, one function per branch of the source. |
| `Printing` | `printing.dfy` | `PrintStatement`. Its character scan (`withinPar`, `withinQuot`, `commaPos`) is a method with a loop, proved against `TopLevelCommas`. |
| `HashMaps` | `hashmaps.dfy` | `HashElements` is a method whose loop accumulates `output` and `first`, proved against `Hashed`. |
| `Switches` | `switches.dfy` | The switch globals as a value `Globals`, and the four steps that read and update them. |
| `PostPasses` | `postpasses.dfy` | The four whole-program passes. Each is a method with the source's loop over its rule table, proved against a function. |
| `Pipeline` | `pipeline.dfy` | The line loop of `go2cpp` and class `Translator`. The class holds the package globals as fields, and its methods `Switch`, `Case`, `Fallthrough`, `Default`, `TranslateStatement`, `TranslateLine` and `Go2Cpp` update them. |
| `Lines` | `lines.dfy` | What the line loop keeps (brace depth, the map registry, consistent globals) and how each kind of line is translated. |
| `Assignments` | `assignments.dfy` | What the assignment branch makes of short declarations, structured bindings, plain assignments and map literals, and how a registered map changes a later range loop. |

The model takes each text exactly as the source passes it. Several
transformers receive the untrimmed line, so indentation matters to them:

- `Case` looks for the first space of the untrimmed line. On a line indented with spaces that is the indentation, not the space after `case`; on a line indented with tabs it is the space after `case`.
- In `a, b := value` the name list keeps the space that stood before `:=`. The model, like the source, emits `auto [a, b ] = value`.
- In the two-variable `for … range` forms, the element name keeps the spaces that surround it in the header. The model, like the source, emits `auto  v  : l`.

Go's panics become `Err` results, each naming the source operation:

- A slice whose bounds are out of order in `between` (the first `b` before the end of the first `a`).
- `Switch` on a line shorter than `switch `.
- `fields[1]` of a `const` line without `=`.
- `elems[1]` of a `return` line without `return ` in a tuple-returning function.
- `fields[1]` of an array literal without `{`.
- `varnames[1]` of a range clause whose comma stands after `:=`.
- The explicit panics for `_` over a list, a `const` line with more than two words, and a map pair without `:`.
- `TypeDeclaration`.

The code does the following, and so does the model:

- A one-variable range with `_` over a list panics. It does not iterate the pairs.
- Arguments are split only at top-level commas: commas with as many `(` as `)` before them and an even number of `"` before them. Parentheses inside string literals count too, and a surplus of `)` also stops the splitting. So `fmt.Println("(", x)` gives `std::cout << "(", x << std::endl`, and in `x, ")", y` only the first comma splits.
- An assignment line is cut at every `=`, and only the pieces before the first and the second `=` are kept. So `ok := a == b` becomes `auto ok = a`, `x = a == b` becomes `x = a`, and `x += 1` becomes `x + = 1`.
- The output stream is `std::cerr` when the call name starts with `print`; being all lower-case is not the test.
- `std::boolalpha` is added unless the untrimmed text right after the first `(` starts with a quote; later arguments are not looked at. No formatting helper is injected.
- `Switch` sets `firstCase` to true.
- The switch globals persist from one `go2cpp` call to the next, because they are package variables. Only the locals of `go2cpp` start afresh.
- A `;` is added when the trimmed line does not end in `{ , } :` or holds `=`, provided neither the trimmed line starts with `//`, nor the translated text ends in one of those characters or holds `//`. So `=` cancels only the first of these exemptions.
- The brace depth is not kept from going negative.
- The code translates no struct bodies, auto-increment constants, multi-line map literals or pointer types, and injects no formatting helper.

## Model

| member | source | states |
|---|---|---|
| GoStrings.IndexSpec | main.go:39-46 | `Index(s, t)` is -1 exactly when `t` occurs nowhere in `s`; otherwise no occurrence starts before it (it is the leftmost). |
| GoStrings.SplitTwo | main.go:501 | `SplitN(s, sep, 2)` has two pieces exactly when `sep` occurs in `s`, and one otherwise. |
| GoStrings.SplitJoin | main.go:531 | Splitting a comma-joined list of comma-free pieces at the comma gives back exactly those pieces. |
| GoStrings.JoinSplit | main.go:714 | Joining the pieces of a `Split` with the same separator rebuilds the original text. |
| GoStrings.CountChar | main.go:583 | A count never exceeds the length, and is zero exactly when the character is absent. |
| GoStrings.TrimLeftShape | main.go:574 | Trimming the front drops only white space, and the result starts with a non-space character or is empty. |
| GoStrings.TrimRightShape | main.go:574 | Trimming the back drops only white space, and the result ends with a non-space character or is empty. |
| GoStrings.ReplaceAllAbsent | main.go:327 | `strings.Replace(s, pat, rep, -1)` leaves `s` unchanged when `pat` does not occur in it. |
| GoStrings.ReplaceAllShowsRep | main.go:65 | When the pattern occurs, the replacement occurs in the result. |
| GoStrings.ReplaceAllGrows | main.go:83 | When the pattern occurs and the replacement is longer, the result is strictly longer. |
| GoStrings.ReplaceAllLength | main.go:83 | A replacement at least as long as the pattern never shortens the text. |
| GoStrings.NatToString | main.go:424 | `strconv.Itoa` of a natural number is a non-empty string of decimal digits. |
| GoStrings.ItoaInjective | main.go:424 | Different integers give different `strconv.Itoa` texts. |
| Helpers.Between | main.go:38-48 | `s` unchanged when `a` or `b` is missing. Otherwise a slice panic exactly when the first `b` starts before the end of the first `a`, and else `s` is the text before `a`, then `a`, the result and the text from `b` on. |
| Helpers.BetweenAt | main.go:38-48 | When the leftmost occurrence of `a` starts at `i`, the leftmost `b` at `j`, and `j` is not before the end of that `a`, the result is the text strictly between them, `s[i+len(a):j]`. |
| Helpers.BetweenDelimited | main.go:38-48 | With one-character markers, the text between the first `a` and the first `b` after it. |
| Helpers.BetweenEnclosed | main.go:38-48 | A text wrapped in two distinct one-character markers gives back its inside. |
| Helpers.LastChar | main.go:180-185 | Empty for an empty line, and otherwise the one-character suffix of the line. |
| Helpers.Has | main.go:187-194 | True exactly when `s` is an element of `l`. |
| Helpers.HasInt | main.go:196-203 | True exactly when `x` is an element of `ints`. The source function has no caller; it is modelled because it is one of the helpers. |
| Helpers.SplitAtAndTrim | main.go:205-214 | The loop fills slot `i` with the trimmed text between cut `i-1` and cut `i`, and the last slot with the trimmed rest. There are `len(poss)+1` pieces. |
| Helpers.RawPiecesJoin | main.go:205-214 | The untrimmed pieces, joined by the character at the cuts, rebuild the text, so no character is lost or repeated. |
| Helpers.TypeReplace | main.go:325-329 | A text without `string` is unchanged; one with it grows and contains `std::string`. |
| Helpers.TypeReplaceChanges | main.go:325-329 | TypeReplace changes its input exactly when `string` occurs in it. |
| Helpers.StringKeysHashed | main.go:518-521 | A key type that mentions `string` is hashed once TypeReplace has renamed it. |
| Helpers.PlainKeysNotHashed | main.go:518-521 | A key type without `:` and `string` is not hashed. |
| Signatures.FunctionArguments | main.go:104-128 | The reverse loop over the parameters, carrying the latest name and type, computes `ArgumentsOf`. |
| Signatures.CarriedTypeFromNext | main.go:110-121 | An untyped parameter gets the type of the nearest typed parameter after it (Go's `a, b int`). |
| Signatures.SingleParameter | main.go:123-125 | One `name type` parameter becomes `type name`. |
| Signatures.BareParameter | main.go:123-127 | A parameter list without comma or space is only trimmed. |
| Signatures.Retvals | main.go:131-146 | Blank return text is returned as is; text without `(` is returned trimmed. |
| Signatures.RetvalsParenthesised | main.go:136-143 | A parenthesised result list with several results becomes `(` + its converted arguments + `)`. |
| Signatures.RetvalsSingle | main.go:131-146 | A single result word, padded with spaces, becomes the word. |
| Signatures.FirstWords | main.go:152-155 | One type per pair: as many types as pairs. |
| Signatures.CPPTypes | main.go:149-157 | The loop over the pairs computes `TypesOf`: the first word of each trimmed pair, joined by `, `. |
| Signatures.FirstWordOfPair | main.go:153-154 | The first word of a padded `type name` pair is the type. |
| Signatures.TypesOfPieces | main.go:149-157 | For `(p1,…,pn)` the result is the first words of `p1 … pn` joined by `, `. |
| Signatures.FunctionSignature | main.go:161-178 | A blank line is returned with empty type and name. `main` returns `int`. The name is the text between `func ` and `(`. The outputs for one result and for two are fixed by SignatureSingleReturn and SignatureTupleReturn. |
| Signatures.HeaderName | main.go:172 | The name of `func name(params) ret {` is `name`. |
| Signatures.HeaderParams | main.go:166 | The parameter text of `func name(params) ret {` is `params`. |
| Signatures.HeaderTail | main.go:167 | The result text of `func name(params) ret {` is ` ret `. |
| Signatures.SignatureSingleReturn | main.go:161-178 | `func name(params) ret {` becomes `auto name(args) -> ret {` with the converted arguments, and `ret` is `int` for `main`. |
| Signatures.SignatureTupleReturn | main.go:161-178 | `func name(params) (t1, t2) {` becomes `auto name(args) -> std::tuple<t1, t2> {`, and the recorded return type starts with `std::tuple`; `main` still returns `int`. It holds for equal types and for a first type that does not occur inside the second. |
| Signatures.TwoTypesArguments | main.go:104-128 | FunctionArguments gives each of two untyped names `t1, t2` the empty carried type: `t1,  t2`. |
| Signatures.SameTypeArguments | main.go:104-128 | FunctionArguments on `t, t` replaces both occurrences of `t` in its second rewrite: `t,    t`. |
| Signatures.TwoTypesRetvals | main.go:131-146 | The result list ` (t1, t2) ` becomes `(t1,` + the spaces FunctionArguments leaves + `t2)`. |
| Signatures.TwoTypesKept | main.go:149-157 | CPPTypes of `(t1,` + any spaces + `t2)` is `t1, t2`. |
| Statements.IfSentence | main.go:313-317 | The result is `if (`…`) {`, and a panic exactly when `between` panics. |
| Statements.IfShape | main.go:313-317 | An indented `if cond {` becomes `if (cond) {`. |
| Statements.ElseIfSentence | main.go:319-323 | The result is `} else if (`…`) {`, and a panic exactly when `between` panics. |
| Statements.ElseIfShape | main.go:319-323 | An indented `} else if cond {` becomes `} else if (cond) {`. |
| Statements.VarDeclaration | main.go:458-476 | A line with `=` and no `var ` prefix starts with `auto `. A line without `=` whose words are not three is returned unchanged. |
| Statements.VarTypedAssignment | main.go:460-468 | `var name type = value` becomes `auto name = value`, with the type dropped. |
| Statements.VarAssignment | main.go:460-468 | `var name = value` becomes `auto name = value`. |
| Statements.VarTopLevelTyped | main.go:469-474 | `var name type` has two words once `var ` is cut, so it stays `name type`. |
| Statements.VarIndentedTyped | main.go:469-474 | An indented `var name type` (three words) becomes the type, after TypeReplace, then the name. |
| Statements.ConstDeclaration | main.go:499-515 | A line without `=` panics; a result starts with `const `. |
| Statements.ConstInBlock | main.go:506-508 | A block item `name = value` becomes `const auto name = value`. |
| Statements.ConstTopLevel | main.go:509-511 | `const name = value` becomes `const name = value`: its second word is taken as the name. |
| Statements.ConstTooManyWords | main.go:513-514 | Three words before `=` panic. |
| Statements.TypeDeclaration | main.go:478-479 | Always a panic. |
| Loops.For | main.go:420 | The header is `for (` followed by the given text. |
| Loops.ForLoop | main.go:348-421 | `between` panics only when its slice does; every result starts with `for (`. |
| Loops.ForHeader | main.go:350-420 | Every result starts with `for (`; a panic only when the header contains `range`. |
| Loops.RangeOne | main.go:355-376 | The one-variable range panics exactly for `_` over a name that is not a registered map. |
| Loops.RangePair | main.go:387-405 | Every two-variable range header starts with `for (`. |
| Loops.RangeClausePair | main.go:378-406 | Every header of the two-variable branch starts with `for (`. |
| Loops.EndlessLoop | main.go:349-353 | `for {` becomes `for (;;) {`. |
| Loops.LoopLine | main.go:349 | An indented `for header {` line is translated by its header alone. |
| Loops.RangeOverMapKeys | main.go:364-368 | `v := range m` over a registered map iterates `m_k__` and binds `v` to `.second`. |
| Loops.RangeOverListIndex | main.go:372-375 | `i := range l` over a non-map counts `i` from 0 below `std::size(l)`. |
| Loops.RangeOverListBlank | main.go:369-371 | `_ := range l` over a non-map panics. |
| Loops.PairHeader | main.go:378-386 | `i, v := range l` takes its index, element and list name from `:=`, `,` and the last word. |
| Loops.PairClause | main.go:379-386 | The two-variable branch reads `i`, ` v ` and `l` from `i, v := range l`. |
| Loops.PairOverListValues | main.go:401-402 | `_, v := range l` over a non-map becomes `for (auto  v  : l) {`, with the element name padded as the header had it. |
| Loops.PairOverListEntries | main.go:403-405 | `i, v := range l` over a non-map becomes `for (std::size_t i = 0; i < std::size(l); i++) {`, then `auto  v  = l[i]`. |
| Loops.PairOverMapValues | main.go:389-394 | `_, v := range m` over a registered map becomes `for (auto m_h__ : m) {`, then `auto  v  = m_h__.second`. |
| Loops.PairOverMapEntries | main.go:395-398 | `k, v := range m` iterates `m_k__`, binding `k` to `.second` and `v` to `m.at(….first)`. |
| Loops.BlankSeveralNames | main.go:408-415 | `_, v, w := range l` (names without an `r`) becomes `for (auto & v, w  : l) {`: the text between the first `,` and the first `:` is bound by reference to what follows `range `. |
| Loops.CommaAfterWalrus | main.go:378-383 | A range clause whose only comma follows `:=` gives one variable name, so `varnames[1]` panics. |
| Loops.ClauseHeader | main.go:416-418 | `v := rest` without `range` becomes `for (auto v = rest) {`. |
| Loops.ConditionHeader | main.go:420 | A header without `range` and `:=` is put in parentheses unchanged. |
| Printing.ScanCounts | main.go:260-266 | After `n` characters, `withinPar` is the count of `(` minus `)`, and `withinQuot` is whether the quotes are odd. |
| Printing.ScanCommas | main.go:257-270 | A position is recorded exactly when it holds a comma, the count of `(` minus the count of `)` before it is 0 (quoted or not), and an even number of `"` precede it; positions increase. |
| Printing.ScanNoCommas | main.go:267-268 | Without any top-level comma nothing is recorded. |
| Printing.ScanCommaCount | main.go:267-268 | No more positions are recorded than there are commas. |
| Printing.TopLevelCommasExact | main.go:257-270 | The recorded positions are exactly the commas of the arguments with as many `(` as `)` before them, quoted or not, and an even number of `"` before them, in increasing order. |
| Printing.FindCommas | main.go:257-270 | The character loop computes the top-level comma positions. |
| Printing.OnlyStrings | main.go:238-248 | True exactly when there is a piece after the first `(` and every such piece starts with a quote. |
| Printing.OnlyStringsOfTwo | main.go:239-247 | With the two pieces `SplitN` gives, the test is whether the text after `(` starts with a quote. |
| Printing.InsertArguments | main.go:273-281 | The arguments as inserted: the pieces between top-level commas, or the arguments unchanged. |
| Printing.InsertedPieces | main.go:273-278 | With commas, `len(commaPos)+1` pieces, each the trimmed raw piece, joined by ` << " " << `. The raw pieces rebuild the arguments. |
| Printing.TwoArguments | main.go:273-278 | `a, b` is inserted as `a << " " << b`. |
| Printing.StringLiteralArgument | main.go:279-281 | One string literal is inserted unchanged. |
| Printing.PrintStatement | main.go:216-287 | The method computes `Print`: nothing without `(`, else the call rendered from its name, text after `(` and arguments. |
| Printing.RenderStatement | main.go:228-286 | The stream, the optional boolalpha, the arguments and the optional `std::endl`, in the source's order of appends. |
| Printing.PrintWithoutCall | main.go:217-220 | A line without `(` gives the empty string. |
| Printing.RenderStream | main.go:228-232 | Every rendered call starts with its stream. |
| Printing.PrintStreamChoice | main.go:228-232 | The output starts with `std::cerr << ` exactly when the name starts with `print`, and with `std::cout << ` exactly when it does not. |
| Printing.PrintNewline | main.go:252-285 | For a call with arguments, the output is the stream, `std::boolalpha << ` unless the text right after `(` starts with a quote, and the inserted arguments; ` << std::endl` follows exactly when the name ends in `ln`. (Without arguments every call ends in `std::endl`; see NoArguments.) |
| Printing.PrintBoolalpha | main.go:239-255 | For a call with arguments whose untrimmed text right after `(` does not start with a quote, `std::boolalpha << ` follows the stream. |
| Printing.NoArguments | main.go:233-236 | `name()` becomes the stream followed by `std::endl`. |
| HashMaps.Entry | main.go:540-543 | A pair panics exactly when it has no `:`. |
| HashMaps.Entries | main.go:534-555 | One entry per pair when no pair fails. |
| HashMaps.EntriesFailEarly | main.go:541-543 | The first failing pair decides the outcome, whatever follows it. |
| HashMaps.Hashed | main.go:528-530 | A source without a comma is returned unchanged. |
| HashMaps.HashElements | main.go:527-558 | The loop with `first` and `output` computes `Hashed`: `{` + the entries joined by `,` + `}`, or the first pair's panic. |
| HashMaps.EntriesFail | main.go:540-543 | The entries fail exactly when some pair lacks `:`. |
| HashMaps.EntriesEach | main.go:534-554 | Entry `i` of the result is the entry of pair `i`. |
| HashMaps.HashedFails | main.go:527-543 | HashElements panics exactly when the source has a comma and some comma-separated piece lacks `:`. |
| HashMaps.EntryShape | main.go:540-554 | `key:value` becomes `{std::hash<T>{}(key), key or value}` for a `std::` key type, else `{key, value}`. |
| HashMaps.HashedPairs | main.go:527-558 | Comma-free pairs with colons, joined by commas, translate pair by pair in order. |
| Switches.InitialValid | main.go:30-35 | The globals at program start are consistent. |
| Switches.SwitchStep | main.go:431-439 | A panic exactly when the trimmed line is shorter than `switch `. |
| Switches.SwitchCounts | main.go:431-439 | The counter rises by exactly one and `firstCase` is set. The labels are untouched. The text starts by binding `_s__<counter>`. |
| Switches.FirstSwitch | main.go:431-439 | The counter starts at -1, so the first switch binds `_s__0`. |
| Switches.CaseStep | main.go:441-443 | A case panics exactly when `between` on its line panics. |
| Switches.CaseOpens | main.go:441-450 | The text starts with `if (` exactly for the first case, and with `} else if (` exactly otherwise. `firstCase` is cleared and the counters are kept. |
| Switches.CasePlacesLabel | main.go:451-454 | A pending label ends the case text on its own line and is cleared. |
| Switches.CaseWithoutLabel | main.go:441-456 | Without a pending label only `firstCase` changes. |
| Switches.FallthroughLabel | main.go:692-695 | The text is `goto _l__<labelCounter>; // fallthrough`, that label becomes pending, and the counter rises by one. |
| Switches.FallthroughReachesNextCase | main.go:692-695 | The case after a fallthrough places the fallthrough's label and clears it. |
| Switches.DefaultPlacesLabel | main.go:696-701 | `} else { // default case`, with a pending label on its own line after it. Only the label is cleared. |
| Switches.StepsKeepValid | main.go:30-35 | Every step keeps the globals consistent. The label counter is never negative, and a pending label is the last one made. |
| Switches.LabelsDistinct | main.go:427-429 | Two labels agree exactly when their counters do, so each fallthrough has its own target. |
| PostPasses.LiteralStrings | main.go:51-73 | The loop over the replacement table computes `WithLiterals`. |
| PostPasses.ReplaceFoundOutput | main.go:63-68 | The text after the loop is every rule's replacement applied in turn. |
| PostPasses.ReplaceFoundFlag | main.go:62-68 | `hasLiteral` ends true exactly when it started true or some key occurs at its turn. |
| PostPasses.ReplaceFoundSticks | main.go:66 | Once set, `hasLiteral` stays set. |
| PostPasses.ReplaceEachAbsent | main.go:63-68 | When no key occurs the text is unchanged. |
| PostPasses.ReplaceEachLength | main.go:63-68 | Rules whose values are at least as long as their keys never shorten the text. |
| PostPasses.LiteralRulesShape | main.go:53-61 | Every literal key is non-empty and no longer than its value. |
| PostPasses.LiteralsPrepended | main.go:69-72 | When a key occurs, the using-declaration comes first, then the replaced text; otherwise the text is unchanged. The result never shrinks. |
| PostPasses.WholeProgramReplace | main.go:76-86 | The loop replaces ` string ` and then `(string ` everywhere, with the std:: names. |
| PostPasses.TypesReplaced | main.go:78-84 | Without either key the text is unchanged; with ` string ` it grows. |
| PostPasses.AddFunctions | main.go:88-101 | The loop computes `AddEach` over the two rules. |
| PostPasses.AddEachAbsent | main.go:94-99 | When no call occurs the text is unchanged. |
| PostPasses.AddTwo | main.go:94-99 | The two rules are applied one after the other. |
| PostPasses.KeptByRule | main.go:95-98 | A text present before and after a rule's renaming is present after the rule. |
| PostPasses.DefinitionKept | main.go:95-98 | The second rule does not remove the definition the first rule put in front. |
| PostPasses.DefinedFirst | main.go:94-98 | When `strings.Contains` is called, its C++ definition is in the output. |
| PostPasses.DotlessJoin | main.go:96 | Deleting the dot of `x.y`, with dot-free `x` and `y`, gives `xy`. |
| PostPasses.DotlessContains | main.go:96 | `strings.Contains` is renamed `stringsContains`. |
| PostPasses.DotlessHasPrefix | main.go:96 | `strings.HasPrefix` is renamed `stringsHasPrefix`. |
| PostPasses.DefinitionLacksHasPrefix | main.go:91-92 | The definition of `stringsContains` does not call `strings.HasPrefix`. |
| PostPasses.ContainsDefined | main.go:94-99 | A program calling `strings.Contains` gets its definition. |
| PostPasses.HasPrefixDefined | main.go:94-99 | A program calling only `strings.HasPrefix` gets its definition, a line break, and the program with the calls renamed. |
| PostPasses.AddIncludes | main.go:289-311 | The loop computes `WithIncludes`: the include lines, an empty line, and the program. |
| PostPasses.IncludeLinesDistinct | main.go:304-307 | No include line is added twice. |
| PostPasses.IncludeLinesComplete | main.go:302-307 | Every header whose key occurs in the program is included. |
| PostPasses.IncludeLinesKeep | main.go:305-306 | Include lines already added stay. |
| PostPasses.IncludeLinesSound | main.go:302-309 | Every include line belongs to a key that occurs in the program. |
| PostPasses.IncludesOnce | main.go:289-311 | The output is the include lines, `\n` and the unchanged program. There is an include exactly for each header some occurring key needs, and none twice. |
| PostPasses.IncludesNone | main.go:302-310 | Without any key there are no include lines. |
| Pipeline.Return | main.go:612-618 | Outside a tuple-returning function the line is kept. Inside one, a panic exactly when the line lacks `return `. |
| Pipeline.MapDeclaration | main.go:642-656 | A declared map is added to the registry. |
| Pipeline.DeclareMap | main.go:642-656 | The method, with HashElements as a loop, computes MapDeclaration; its text is fixed by Assignments.MapLiteral. |
| Pipeline.Assignment | main.go:621-662 | An assignment never removes a map from the registry. |
| Pipeline.Assign | main.go:621-662 | The assignment branch: destructuring, plain assignment, array literal, map literal or `auto`. |
| Pipeline.LineStepBlank | main.go:578-581 | A line that is blank after trimming is copied through unchanged, and nothing else changes. |
| Pipeline.Translator.constructor | main.go:30-35 | The globals start with the counter at -1, no pending label and label counter 0. |
| Pipeline.Translator.Switch | main.go:431-439 | Updates the fields as `SwitchStep` says, and leaves them alone on a panic. |
| Pipeline.Translator.Case | main.go:441-456 | Updates the fields as `CaseStep` says, and leaves them alone on a panic. |
| Pipeline.Translator.Fallthrough | main.go:692-695 | Emits the jump and updates the fields as `FallthroughStep` says. |
| Pipeline.Translator.Default | main.go:696-701 | Emits the default branch and updates the fields as `DefaultStep` says. |
| Pipeline.Translator.TranslateStatement | main.go:584-702 | The chain of tests: the outcome of the first test the line passes, with the fields updated to its globals. |
| Pipeline.Translator.TranslateLine | main.go:573-712 | One pass of the line loop leaves the state `LineStep` gives. |
| Pipeline.Translator.Go2Cpp | main.go:560-723 | The loop over the lines, from fresh locals, followed by the four passes in their order. It panics exactly when a line does. |
| Lines.StatementKeeps | main.go:584-702 | A transformer leaves the depth alone, only adds maps and keeps the globals consistent. Only switch, case, fallthrough and default lines change the globals. |
| Lines.LineStepKeeps | main.go:582-583 | Each line moves the depth by its `{` count minus its `}` count, and adds at most one output line. |
| Lines.RunKeeps | main.go:572-713 | Over many lines the depth moves by their total balance, lines are only appended (at most one each), and maps stay registered. |
| Lines.TranslationKeepsValid | main.go:560-713 | A translation keeps the globals consistent and yields no more lines than the input has. |
| Lines.ClassifyPlain | main.go:604-702 | A line outside blocks that starts with no keyword letter and has no `=` passes no test. |
| Lines.CommentsUnterminated | main.go:709-711 | A `//` line never gets a `;`. |
| Lines.CommentCopied | main.go:709-712 | A comment line outside blocks, with no `=` or trailing `}`, is copied unchanged. |
| Lines.ClosingBrace | main.go:703-708 | A bare `}` lowers the depth by one, gets `return 0;` first exactly when it closes `main` at depth 0, and is followed by a line break. |
| Lines.BraceStatement | main.go:702 | A bare `}` outside blocks is emitted as it is. |
| Lines.BraceCompleted | main.go:703-708 | A bare `}` is completed with `return 0;` in `main` at depth 0 and with a line break. |
| Lines.ClassifyVarStart | main.go:677-679 | `var (` outside blocks opens a var block. |
| Lines.ClassifyTypeStart | main.go:680-682 | `type (` outside blocks opens a type block. |
| Lines.ClassifyConstStart | main.go:683-685 | `const (` outside blocks opens a const block. |
| Lines.BlockOpens | main.go:677-685 | A block opener emits nothing and sets exactly its own flag. |
| Lines.OpenersBalanced | main.go:583 | The openers hold no braces. |
| Lines.OpenerStatement | main.go:677-685 | An opener is skipped with its flag set. |
| Lines.ImportBlock | main.go:584-588 | Inside an import block every non-blank line is skipped, and a `)` ends the block. Blank lines are copied, as everywhere. |
| Lines.BlockEnds | main.go:589-597 | A `)` in a var, type or const block ends that block and emits nothing. |
| Lines.VarBlockItem | main.go:598-599 | A var block item is translated by VarDeclaration on the untrimmed line. |
| Lines.TypeItemFails | main.go:600-601 | A type block item panics. |
| Lines.ImportClause | main.go:665-672 | An import line is skipped and leaves the import block open when it has `(` and no `)`. |
| Lines.ClassifyImport | main.go:665 | An `import` line outside blocks is an import. |
| Lines.ImportStatement | main.go:665-672 | An import line is skipped, with `inImport` set from its parentheses. |
| Lines.PackageClause | main.go:663-664 | A package clause is skipped. |
| Lines.ClassifyPackage | main.go:663 | A `package ` line outside blocks is a package clause. |
| Lines.TupleReturn | main.go:612-615 | In a tuple-returning function, an indented `return values` becomes `return <type>{values};`. |
| Assignments.ShortDeclaration | main.go:621-659 | `name := value`, for a single name and a value that hold no `=` and no outer white space, the value being neither an array nor a map literal, becomes `auto name = value`. |
| Assignments.Destructuring | main.go:630-631 | `a, b := value` becomes the structured binding `auto [a, b ] = value`. |
| Assignments.PlainAssignment | main.go:621-661 | A plain assignment `name = value`, for a single name not ending in `:` and a value that hold no `=` and no outer white space, is kept as it is. |
| Assignments.MapRegistered | main.go:642-656 | A map literal `name := map[K]V{…}` that translates adds `name` to the registry. |
| Assignments.MapLiteralParts | main.go:643-645 | In `map[k]v{e}` the key type is `k`, the value type `v` and the elements `e`. |
| Assignments.MapLiteral | main.go:642-656 | For a key type that contains `std::` after renaming, two maps: `std::unordered_map<std::size_t, V> name` with the hashed values, then `std::unordered_map<std::size_t, K> name_k__` with the hashed keys. For any other key type, one `std::unordered_map<K, V> name`. A panic exactly when the pairs panic; `name` is registered. |
| Assignments.MapThenRange | main.go:389-398 | After `m := map[K]V{…}`, `for k, v := range m` iterates the key table of `m` and binds `v` with `m.at(…)`. It does not count an index. |

## Left out

- `main` (main.go:725 on): argument parsing, reading the file or standard input, running clang-format and the C++ compiler, and writing the binary. All of it is process I/O.
- The debug print of the constant's words (main.go:505) and the `UNRECOGNIZED LINE` message on standard error (main.go:635). Both are output only; the line's value is modelled.
- The body of `TypeDeclaration` after its panic (main.go:480-496) cannot run, so the model has only the panic.
- Go map iteration order is unspecified in the four passes (main.go:63, 82, 94, 302). The model takes each table in the order it is written. The include properties (each header once, exactly the needed ones) hold in any order. The order of rewrites and of the prepended definitions is that of the model.
- Strings are ASCII. Characters stand for bytes, `range` over the arguments (main.go:260) yields the same positions, and TrimSpace trims only the six ASCII white-space characters.
- Go's `int` is 64 bits wide. The counters are unbounded here, and their wrap-around after 2^63 steps is not modelled.
- A panic ends the Go process. The model returns `Err`, so no state is observable after it.
- Signatures.SignatureTupleReturn: it covers two results that are equal, or where the first does not occur inside the second. FunctionSignature also computes three or more results, and a first type inside a different second one, but no lemma describes those outputs. In the latter case the parameter rewrite also changes the second type.
- Pipeline.Translator.Go2Cpp: on a panic the contract does not state the fields, because the Go program has ended by then.
- Pipeline.Translator.TranslateStatement: on a panic the contract does not state the fields, for the same reason.
- Pipeline.Translator.TranslateLine: on a panic the contract does not state the fields, for the same reason.
