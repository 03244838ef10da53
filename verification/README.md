# BadNamesChecker, modelled in Dafny

`BadNamesChecker` is an Error Prone bug checker. The host compiler hands it
nine kinds of syntax node. For each node it answers "no match" or a single
WARNING description:

- Identifiers and method calls are checked against the placeholder names
  `foo`, `bar` and `test`.
- Method and variable declarations are checked for name length. Variable names
  that are too short are reported too.
- Class declarations are checked for name length and for a degenerate rendering.
- An `if` or `while` whose condition renders as `false` is reported, and so is
  an `if` with no `else`.
- A `return` whose rendering is `null` is reported, and so is a `switch` with
  no cases.

A call whose callee is neither `x.name` nor `name` makes the checker throw
instead of answering.

The project models that engine as pure functions over an immutable node value:

- `wrappers.dfy` (`Wrappers`): the `Option` type shared by the other modules.
- `syntax.dfy` (`Syntax`): the node datatype. Each constructor carries only
  what its matcher reads: names, `hasElse`, the case count, and the host's
  `toString()` renderings as opaque strings.
- `java_text.dfy` (`JavaText`): the Java text operations the checker uses.
  These are `Name.contentEquals` (a loop), `String.matches` with a literal
  pattern (a whole-string match) and `String.format` with a `%s` conversion.
  It also has `Unformat`, which reads an argument back out of a formatted
  message.
- `diagnostics.dfy` (`Diagnostics`): the rules, their message templates,
  the description value and the `Outcome`. An `Outcome` is `NoMatch`,
  `Match(diagnostic)` or `Malformed(invocation)`. `Malformed` stands for the
  thrown `IllegalStateException`.
- `checker.dfy` (`Checker`): one function per `match*` method, each following
  the source's `if` chain, plus `checkName` and the dispatch `Evaluate`.
- `rule_table.dfy` (`RuleTable`): an independent, declarative account of the
  rules. For each node kind, `ChainOf` lists its rules in order. For each rule,
  `Fires` gives its trigger condition taken alone. `FirstFiring` picks the
  first rule that fires. The lemmas prove that `Evaluate` reports exactly the
  first firing rule, and nothing else.
- `checker_facts.dfy` (`CheckerFacts`): per-kind promises and the exact
  threshold boundaries.

Three behaviours of the code are modelled as written:

- `matchWhileLoop` tests the same guard twice. The model keeps both tests,
  and `UnreachableCodeNeverReported` proves that the second message
  ("Unreachable code") can never be produced.
- The second class test measures the whole declaration's rendering, not the
  simple name. `ClassBoundaries` shows a class with an empty name passing and
  a two-character rendering being reported.
- The `if` and `while` tests compare the condition's rendering with the text
  `false`. The `return` test matches the whole statement's rendering against
  `null`. Both are textual comparisons, not constant evaluation.

## Model

| member | source | states |
|---|---|---|
| JavaText.ContentEquals | bad_names_plugin/src/main/java/edu/appstate/cs/checker/BadNamesChecker.java:74-76 | `contentEquals` answers true exactly when the name and the text are the same character sequence |
| JavaText.Matches | bad_names_plugin/src/main/java/edu/appstate/cs/checker/BadNamesChecker.java:122 | `matches` with a metacharacter-free pattern holds exactly when the whole string equals the pattern, so it is not a substring search |
| JavaText.Format | bad_names_plugin/src/main/java/edu/appstate/cs/checker/BadNamesChecker.java:64 | formatting a template that has no `%` returns the template unchanged |
| JavaText.FormatCopiesPlainPrefix | bad_names_plugin/src/main/java/edu/appstate/cs/checker/BadNamesChecker.java:64 | text before the first conversion passes through formatting verbatim |
| JavaText.FormatSingleSlot | bad_names_plugin/src/main/java/edu/appstate/cs/checker/BadNamesChecker.java:78 | a template made of text, one `%s` and text formats to that text around the argument |
| JavaText.Unformat | bad_names_plugin/src/main/java/edu/appstate/cs/checker/BadNamesChecker.java:78 | an argument is recovered exactly when the message is prefix + argument + suffix; otherwise no argument at all fits |
| JavaText.UnformatInverse | bad_names_plugin/src/main/java/edu/appstate/cs/checker/BadNamesChecker.java:78 | reading back a filled one-slot template returns the argument that was put in |
| JavaText.UnformatFormat | bad_names_plugin/src/main/java/edu/appstate/cs/checker/BadNamesChecker.java:78 | formatting then unformatting a one-slot template is the identity on the argument |
| JavaText.FormatInjective | bad_names_plugin/src/main/java/edu/appstate/cs/checker/BadNamesChecker.java:78 | two different arguments never format to the same message |
| JavaText.FormatShowsArgument | bad_names_plugin/src/main/java/edu/appstate/cs/checker/BadNamesChecker.java:78 | the argument appears verbatim inside the formatted message |
| Diagnostics.TemplateFormats | bad_names_plugin/src/main/java/edu/appstate/cs/checker/BadNamesChecker.java:64 | `String.format` on a template as written gives the same text as filling the template's parsed prefix and suffix |
| Diagnostics.TemplatesWellFormed | bad_names_plugin/src/main/java/edu/appstate/cs/checker/BadNamesChecker.java:64-164 | every rule's template, as the source writes it, holds no `%` beyond its one `%s` slot, so `String.format` is defined on it |
| Diagnostics.MessageIsFormat | bad_names_plugin/src/main/java/edu/appstate/cs/checker/BadNamesChecker.java:64-164 | each rule's message is exactly what `String.format` makes of that rule's written template and the argument |
| Diagnostics.MessageRecoversArgument | bad_names_plugin/src/main/java/edu/appstate/cs/checker/BadNamesChecker.java:149 | every formatted rule message contains its name or rendering, and that argument can be read back |
| Diagnostics.MessageInjective | bad_names_plugin/src/main/java/edu/appstate/cs/checker/BadNamesChecker.java:134 | under one rule, different offenders always get different messages |
| Diagnostics.MalformedMessage | bad_names_plugin/src/main/java/edu/appstate/cs/checker/BadNamesChecker.java:85-87 | the exception text is "Method name … is malformed." around the invocation's rendering, which can be read back from it |
| Diagnostics.MalformedMessageIsFormat | bad_names_plugin/src/main/java/edu/appstate/cs/checker/BadNamesChecker.java:86 | the exception text is exactly `String.format` of "Method name %s is malformed." with the invocation's rendering |
| Checker.CheckName | bad_names_plugin/src/main/java/edu/appstate/cs/checker/BadNamesChecker.java:72-83 | a name is reported exactly when it is `foo`, `bar` or `test`, with message "<name> is a bad identifier name"; every other name is NoMatch |
| Checker.MatchIdentifier | bad_names_plugin/src/main/java/edu/appstate/cs/checker/BadNamesChecker.java:28-34 | an identifier is reported exactly when its name is `foo`, `bar` or `test`, anchored at the identifier itself with message "<name> is a bad identifier name" and severity WARNING; every other identifier is NoMatch |
| Checker.IsDenylisted | bad_names_plugin/src/main/java/edu/appstate/cs/checker/BadNamesChecker.java:74-76 | the short-circuit chain of `contentEquals` tests is true exactly for the three placeholder names |
| Checker.MatchMethodInvocation | bad_names_plugin/src/main/java/edu/appstate/cs/checker/BadNamesChecker.java:40-52 | a call is checked under its member-select or bare identifier name; any other callee gives the malformed error carrying the call's rendering, and only then |
| Checker.MatchMethod | bad_names_plugin/src/main/java/edu/appstate/cs/checker/BadNamesChecker.java:62-69 | a method declaration is reported exactly when its name is longer than 15, with the name in the message |
| Checker.MatchIf | bad_names_plugin/src/main/java/edu/appstate/cs/checker/BadNamesChecker.java:91-102 | a `false` condition gives "Dead code" with or without an else; otherwise a missing else gives "Found an if without an else"; only a non-`false` condition with an else is clean |
| Checker.MatchWhileLoop | bad_names_plugin/src/main/java/edu/appstate/cs/checker/BadNamesChecker.java:107-117 | a loop is reported exactly when its condition renders `false`, and always as "Infinite loop" |
| Checker.MatchReturn | bad_names_plugin/src/main/java/edu/appstate/cs/checker/BadNamesChecker.java:122-127 | a return is reported exactly when its whole rendering is `null` |
| Checker.MatchClass | bad_names_plugin/src/main/java/edu/appstate/cs/checker/BadNamesChecker.java:132-142 | a simple name over 20 is "too long" and is tested first; otherwise a rendering under 3 characters is "more descriptive"; only then clean |
| Checker.MatchVariable | bad_names_plugin/src/main/java/edu/appstate/cs/checker/BadNamesChecker.java:147-157 | a name over 15 is "too long", otherwise one under 3 is "more descriptive"; lengths 3 to 15 are clean |
| Checker.MatchSwitch | bad_names_plugin/src/main/java/edu/appstate/cs/checker/BadNamesChecker.java:162-167 | a switch is reported exactly when it has no cases, with its rendering in the message |
| Checker.Evaluate | bad_names_plugin/src/main/java/edu/appstate/cs/checker/BadNamesChecker.java:17-26 | every description is anchored at the node evaluated, with severity WARNING; the error arises only for an unresolvable callee; unsubscribed kinds are never reported |
| RuleTable.FirstFiring | bad_names_plugin/src/main/java/edu/appstate/cs/checker/BadNamesChecker.java:89-103 | the chosen rule fires and no earlier rule in the chain does; nothing is chosen exactly when no rule fires |
| RuleTable.EvaluateFollowsTable | bad_names_plugin/src/main/java/edu/appstate/cs/checker/BadNamesChecker.java:28-168 | for every node, the matchers give the table's verdict: the malformed error, else the first firing rule of the node's kind with that rule's message, else NoMatch |
| RuleTable.ReportedRuleFires | bad_names_plugin/src/main/java/edu/appstate/cs/checker/BadNamesChecker.java:28-168 | a reported rule belongs to the node's kind, its condition holds on the node, and no earlier rule's does |
| RuleTable.NoMatchIffNothingFires | bad_names_plugin/src/main/java/edu/appstate/cs/checker/BadNamesChecker.java:28-168 | a node is clean exactly when it is not a malformed call and none of its kind's rules fires |
| RuleTable.ShadowedNeverFirst | bad_names_plugin/src/main/java/edu/appstate/cs/checker/BadNamesChecker.java:107-117 | a rule whose condition implies an earlier rule's condition is never the one chosen |
| RuleTable.UnreachableCodeNeverReported | bad_names_plugin/src/main/java/edu/appstate/cs/checker/BadNamesChecker.java:112-116 | the "Unreachable code" description is never produced for any node |
| RuleTable.VariableRulesExclusive | bad_names_plugin/src/main/java/edu/appstate/cs/checker/BadNamesChecker.java:147-157 | the two variable-name rules never both fire, so trying them in either order picks the same rule |
| RuleTable.IfRulesOverlap | bad_names_plugin/src/main/java/edu/appstate/cs/checker/BadNamesChecker.java:91-102 | a `false` condition without an else fires both if rules, and the earlier one ("Dead code") is reported |
| RuleTable.DiagnosticQuotesSubject | bad_names_plugin/src/main/java/edu/appstate/cs/checker/BadNamesChecker.java:64-164 | every formatted description's message gives back the offending name or the node's rendering |
| CheckerFacts.IdentifierDenylist | bad_names_plugin/src/main/java/edu/appstate/cs/checker/BadNamesChecker.java:29-34 | an identifier is reported iff it is one of `foo`, `bar`, `test`, and the message contains the name |
| CheckerFacts.CallNameResolution | bad_names_plugin/src/main/java/edu/appstate/cs/checker/BadNamesChecker.java:40-52 | a call with member-select or bare-identifier callee is judged as an identifier of that name is; any other callee is the malformed error, never NoMatch and never a match |
| CheckerFacts.MalformedCallReported | bad_names_plugin/src/main/java/edu/appstate/cs/checker/BadNamesChecker.java:49 | an unresolvable callee yields the error, whose text quotes the invocation |
| CheckerFacts.MethodNameBoundary | bad_names_plugin/src/main/java/edu/appstate/cs/checker/BadNamesChecker.java:62 | a 15-character method name is clean and a 16-character one is reported |
| CheckerFacts.VariableNameBoundaries | bad_names_plugin/src/main/java/edu/appstate/cs/checker/BadNamesChecker.java:147-157 | lengths 2 and 16 are reported as too short and too long; lengths 3 and 15 are clean |
| CheckerFacts.ClassBoundaries | bad_names_plugin/src/main/java/edu/appstate/cs/checker/BadNamesChecker.java:132-142 | a 20-character class name is clean and a 21-character one is too long; a two-character rendering is reported; an empty name with a long rendering is clean |
| CheckerFacts.ClassLongNameWins | bad_names_plugin/src/main/java/edu/appstate/cs/checker/BadNamesChecker.java:132-136 | a class name over 20 is reported as too long whatever the rendering |
| CheckerFacts.IfCases | bad_names_plugin/src/main/java/edu/appstate/cs/checker/BadNamesChecker.java:91-102 | the three cases of the if rules, each with its exact message |
| CheckerFacts.WhileCases | bad_names_plugin/src/main/java/edu/appstate/cs/checker/BadNamesChecker.java:107-117 | a loop is reported iff its condition renders `false`, always as "Infinite loop: " followed by the loop's rendering |
| CheckerFacts.ReturnCases | bad_names_plugin/src/main/java/edu/appstate/cs/checker/BadNamesChecker.java:122 | the rendering `null` matches; `return null;` and `nullx` do not |
| CheckerFacts.SwitchCases | bad_names_plugin/src/main/java/edu/appstate/cs/checker/BadNamesChecker.java:162-167 | a switch is reported iff it has zero cases, with "Empty switch statement: " followed by its rendering |

## Left out

- The Error Prone plumbing is left out: `BugChecker`, `VisitorState`, the
  `Description` builder, and the `@AutoService`/`@BugPattern` registration
  (lines 15-16). A description is a plain value. Its severity is always
  WARNING, as the `@BugPattern` declares. Its check name and link are not
  carried.
- The host's traversal is left out, and so is how it collects descriptions
  across a tree. It lives in the host framework, not in this file. `Evaluate`
  judges one node at a time.
- javac's `toString()` of trees is outside this model. Every rendering is an
  opaque string supplied with the node. In particular, the model does not
  say whether javac ever renders a condition or a return statement as the
  bare texts `false` or `null`.
- Java `Name`/`String` internals are simplified: text is a sequence of
  `char`, and `length()` is the sequence length. Surrogate pairs and
  normalisation are ignored.
- The thrown `IllegalStateException` is the `Malformed` outcome, not control
  flow. Its message is given by `MalformedMessage`.
- JavaText.Format: models only the `%s` conversion. Each `%s` is replaced by
  the one argument. Java would throw if a second `%s` had no argument, and
  would treat other `%` conversions differently. No template of the checker
  has either.
- JavaText.Matches: requires a pattern free of regular-expression
  metacharacters. The general `java.util.regex` engine is not modelled. The
  only pattern the checker uses, `null`, is such a pattern.
- The switch's case list is reduced to its count, because only its emptiness
  is read.
