/**
 What a matcher returns: no match, one warning anchored at the node, or the
 malformed-invocation error that the checker throws instead of answering.
 */
module Diagnostics {
  import opened Wrappers
  import opened JavaText
  import opened Syntax

  /** Every rule of this checker is registered with severity WARNING. */
  datatype Severity = Warning

  /** One tag per `setMessage` call of the checker. */
  datatype Rule =
    | BadIdentifierName
    | LongMethodName
    | DeadIf
    | IfWithoutElse
    | InfiniteLoop
    | UnreachableLoopBody
    | ReturnsNull
    | LongClassName
    | ShortClass
    | LongVariableName
    | ShortVariableName
    | EmptySwitch

  /**
   A message template as `java.util.Formatter` parses it: fixed text, one `%s`
   conversion, fixed text; or a message set literally, with no formatting.
   */
  datatype Template = Slot(prefix: string, suffix: string) | Literal(text: string)
  {
    /** The template as it is written in the source. */
    function Text(): string {
      match this
      case Slot(p, q) => p + "%s" + q
      case Literal(t) => t
    }

    /** The fixed text holds no further conversion. */
    predicate WellFormed() {
      match this
      case Slot(p, q) => '%' !in p && '%' !in q
      case Literal(t) => '%' !in t
    }

    /** The message produced for `arg`: the argument dropped into the slot. */
    function Apply(arg: string): string {
      match this
      case Slot(p, q) => p + arg + q
      case Literal(t) => t
    }
  }

  /** Formatting the written template gives the same text as filling the parsed one. */
  lemma TemplateFormats(t: Template, arg: string)
    requires t.WellFormed()
    ensures Format(t.Text(), arg) == t.Apply(arg)
  {
    if t.Slot? {
      FormatSingleSlot(t.prefix, t.suffix, arg);
    }
  }

  /** The message template of each rule, split at its `%s`. */
  function TemplateOf(rule: Rule): Template {
    match rule
    case BadIdentifierName => Slot("", " is a bad identifier name")
    case LongMethodName => Slot("", " is too long for a method name, shame on you")
    case DeadIf => Slot("Dead code: ", "")
    case IfWithoutElse => Literal("Found an if without an else")
    case InfiniteLoop => Slot("Infinite loop: ", "")
    case UnreachableLoopBody => Slot("Unreachable code: ", "")
    case ReturnsNull => Slot("Try not to return null: ", "")
    case LongClassName => Slot("Class name is too long: ", "")
    case ShortClass => Slot("Make your class name more descriptive: ", "")
    case LongVariableName => Slot("Variable name is too long: ", "")
    case ShortVariableName => Slot("Make your variable name more descriptive: ", "")
    case EmptySwitch => Slot("Empty switch statement: ", "")
  }

  /** The message a rule reports about `arg` (a name or a rendering). */
  function Message(rule: Rule, arg: string): string {
    TemplateOf(rule).Apply(arg)
  }

  /*
   One lemma per template: each first checks its literal on its own, which is
   cheap, and only then looks the template up; all twelve literals in one
   proof would be too costly.
   */
  lemma WellFormedBadIdentifierName() ensures TemplateOf(BadIdentifierName).WellFormed() {
    assert '%' !in " is a bad identifier name";
  }
  lemma WellFormedLongMethodName() ensures TemplateOf(LongMethodName).WellFormed() {
    assert '%' !in " is too long for a method name, shame on you";
  }
  lemma WellFormedDeadIf() ensures TemplateOf(DeadIf).WellFormed() {
    assert '%' !in "Dead code: ";
  }
  lemma WellFormedIfWithoutElse() ensures TemplateOf(IfWithoutElse).WellFormed() {
    assert '%' !in "Found an if without an else";
  }
  lemma WellFormedInfiniteLoop() ensures TemplateOf(InfiniteLoop).WellFormed() {
    assert '%' !in "Infinite loop: ";
  }
  lemma WellFormedUnreachableLoopBody() ensures TemplateOf(UnreachableLoopBody).WellFormed() {
    assert '%' !in "Unreachable code: ";
  }
  lemma WellFormedReturnsNull() ensures TemplateOf(ReturnsNull).WellFormed() {
    assert '%' !in "Try not to return null: ";
  }
  lemma WellFormedLongClassName() ensures TemplateOf(LongClassName).WellFormed() {
    assert '%' !in "Class name is too long: ";
  }
  lemma WellFormedShortClass() ensures TemplateOf(ShortClass).WellFormed() {
    assert '%' !in "Make your class name more descriptive: ";
  }
  lemma WellFormedLongVariableName() ensures TemplateOf(LongVariableName).WellFormed() {
    assert '%' !in "Variable name is too long: ";
  }
  lemma WellFormedShortVariableName() ensures TemplateOf(ShortVariableName).WellFormed() {
    assert '%' !in "Make your variable name more descriptive: ";
  }
  lemma WellFormedEmptySwitch() ensures TemplateOf(EmptySwitch).WellFormed() {
    assert '%' !in "Empty switch statement: ";
  }

  /** No rule's template carries a conversion beyond its one slot. */
  lemma TemplatesWellFormed(rule: Rule)
    ensures TemplateOf(rule).WellFormed()
  {
    match rule
    case BadIdentifierName => WellFormedBadIdentifierName();
    case LongMethodName => WellFormedLongMethodName();
    case DeadIf => WellFormedDeadIf();
    case IfWithoutElse => WellFormedIfWithoutElse();
    case InfiniteLoop => WellFormedInfiniteLoop();
    case UnreachableLoopBody => WellFormedUnreachableLoopBody();
    case ReturnsNull => WellFormedReturnsNull();
    case LongClassName => WellFormedLongClassName();
    case ShortClass => WellFormedShortClass();
    case LongVariableName => WellFormedLongVariableName();
    case ShortVariableName => WellFormedShortVariableName();
    case EmptySwitch => WellFormedEmptySwitch();
  }

  /** Every rule's message is what `String.format` makes of the template as the source writes it. */
  lemma MessageIsFormat(rule: Rule, arg: string)
    ensures Message(rule, arg) == Format(TemplateOf(rule).Text(), arg)
  {
    TemplatesWellFormed(rule);
    TemplateFormats(TemplateOf(rule), arg);
  }

  /** The offending name or rendering can be read back out of the message, and is visible in it. */
  lemma MessageRecoversArgument(rule: Rule, arg: string)
    requires TemplateOf(rule).Slot?
    ensures Unformat(TemplateOf(rule).prefix, TemplateOf(rule).suffix, Message(rule, arg)) == Some(arg)
    ensures IsInfix(arg, Message(rule, arg))
  {
    var t := TemplateOf(rule);
    UnformatInverse(t.prefix, t.suffix, arg);
    assert OccursAt(arg, Message(rule, arg), |t.prefix|);
  }

  /** Two different offenders never share a message under the same rule. */
  lemma MessageInjective(rule: Rule, a: string, b: string)
    requires TemplateOf(rule).Slot?
    requires Message(rule, a) == Message(rule, b)
    ensures a == b
  {
    MessageRecoversArgument(rule, a);
    MessageRecoversArgument(rule, b);
  }

  /** The description a matcher builds: where, which rule, what text, how severe. */
  datatype Diagnostic = Diagnostic(anchor: Node, rule: Rule, message: string, severity: Severity)

  /** `Malformed` stands for the IllegalStateException thrown on an unresolvable callee. */
  datatype Outcome =
    | NoMatch
    | Match(diagnostic: Diagnostic)
    | Malformed(invocation: string)

  /** `buildDescription(anchor).setMessage(...).build()`. */
  function Report(anchor: Node, rule: Rule, arg: string): Outcome {
    Match(Diagnostic(anchor, rule, Message(rule, arg), Warning))
  }

  const MalformedTemplate: Template := Slot("Method name ", " is malformed.")

  lemma MalformedTemplateWellFormed() ensures MalformedTemplate.WellFormed() {}

  /** The text of the exception raised for a malformed invocation: it names the invocation. */
  function MalformedMessage(invocation: string): (r: string)
    ensures Unformat("Method name ", " is malformed.", r) == Some(invocation)
    ensures IsInfix(invocation, r)
  {
    var r := MalformedTemplate.Apply(invocation);
    UnformatInverse("Method name ", " is malformed.", invocation);
    assert OccursAt(invocation, r, |"Method name "|);
    r
  }

  /** The exception text is what `String.format` makes of the template as the source writes it. */
  lemma MalformedMessageIsFormat(invocation: string)
    ensures MalformedMessage(invocation) == Format(MalformedTemplate.Text(), invocation)
  {
    MalformedTemplateWellFormed();
    TemplateFormats(MalformedTemplate, invocation);
  }
}
