/**
 The bad-names checker: one matcher per syntax-node kind it subscribes to,
 each trying its rules in a fixed order and answering with the first that
 applies, and the dispatch that hands a node to its kind's matcher.
 */
module Checker {
  import opened Wrappers
  import opened JavaText
  import opened Syntax
  import opened Diagnostics

  /** Placeholder names the checker rejects, tested in this order. */
  const DenyList: seq<string> := ["foo", "bar", "test"]

  const MaxMethodNameLength := 15
  const MaxVariableNameLength := 15
  const MinVariableNameLength := 3
  const MaxClassNameLength := 20
  const MinClassRenderingLength := 3

  /** A condition rendered as exactly this text is taken to be constantly false. */
  const FalseCondition := "false"

  /** The pattern a return statement's rendering must match as a whole. */
  const NullPattern := "null"

  /** The name check shared by identifiers and calls: a denylisted name is reported. */
  function CheckName(anchor: Node, name: string): (r: Outcome)
    ensures r.Match? <==> name == "foo" || name == "bar" || name == "test"
    ensures r.NoMatch? <==> !(name == "foo" || name == "bar" || name == "test")
    ensures r.Match? ==>
      r.diagnostic == Diagnostic(anchor, BadIdentifierName, name + " is a bad identifier name", Warning)
  {
    if name in DenyList then Report(anchor, BadIdentifierName, name) else NoMatch
  }

  /**
   The short-circuit chain of `contentEquals` tests against the denylist, as
   the source runs it. `CheckName` states the same test as membership; the
   two agree because both contracts name exactly the three placeholders.
   */
  method IsDenylisted(name: string) returns (denied: bool)
    ensures denied <==> name == "foo" || name == "bar" || name == "test"
  {
    var i := 0;
    while i < |DenyList|
      invariant 0 <= i <= |DenyList|
      invariant forall j :: 0 <= j < i ==> DenyList[j] != name
    {
      denied := ContentEquals(name, DenyList[i]);
      if denied {
        return;
      }
      i := i + 1;
    }
    assert DenyList[0] == "foo" && DenyList[1] == "bar" && DenyList[2] == "test";
    denied := false;
  }

  /** An identifier use is judged by the name check under its own name. */
  function MatchIdentifier(n: Node): (r: Outcome)
    requires n.Identifier?
    ensures r.Match? <==> n.name == "foo" || n.name == "bar" || n.name == "test"
    ensures r.NoMatch? <==> !(n.name == "foo" || n.name == "bar" || n.name == "test")
    ensures r.Match? ==>
      r.diagnostic == Diagnostic(n, BadIdentifierName, n.name + " is a bad identifier name", Warning)
  {
    CheckName(n, n.name)
  }

  /** The name a call goes by: the selected member's, or the bare identifier; otherwise none. */
  function ResolveCallee(callee: Callee): Option<string> {
    match callee
    case MemberSelect(identifier) => Some(identifier)
    case Ident(name) => Some(name)
    case OtherSelect(_) => None
  }

  /** A call is checked under its resolved name; an unresolvable callee is an error, not a verdict. */
  function MatchMethodInvocation(n: Node): (r: Outcome)
    requires n.MethodInvocation?
    ensures r.Malformed? <==> n.callee.OtherSelect?
    ensures r.Malformed? ==> r.invocation == n.rendering
    ensures n.callee.MemberSelect? ==> r == CheckName(n, n.callee.identifier)
    ensures n.callee.Ident? ==> r == CheckName(n, n.callee.name)
  {
    match ResolveCallee(n.callee)
    case Some(name) => CheckName(n, name)
    case None => Malformed(n.rendering)
  }

  function MatchMethod(n: Node): (r: Outcome)
    requires n.MethodDecl?
    ensures r.Match? <==> |n.name| > MaxMethodNameLength
    ensures r.NoMatch? <==> |n.name| <= MaxMethodNameLength
    ensures r.Match? ==>
      r.diagnostic == Diagnostic(n, LongMethodName, n.name + " is too long for a method name, shame on you", Warning)
  {
    if |n.name| > MaxMethodNameLength then Report(n, LongMethodName, n.name) else NoMatch
  }

  /** Dead code is tested first, so a false condition is reported as such even without an else. */
  function MatchIf(n: Node): (r: Outcome)
    requires n.If?
    ensures r.NoMatch? <==> n.condition != "false" && n.hasElse
    ensures n.condition == "false" ==>
      r == Match(Diagnostic(n, DeadIf, "Dead code: " + n.rendering, Warning))
    ensures n.condition != "false" && !n.hasElse ==>
      r == Match(Diagnostic(n, IfWithoutElse, "Found an if without an else", Warning))
  {
    if n.condition == FalseCondition then Report(n, DeadIf, n.rendering)
    else if !n.hasElse then Report(n, IfWithoutElse, n.rendering)
    else NoMatch
  }

  /** Both tests of the source are kept; the second repeats the first's guard. */
  function MatchWhileLoop(n: Node): (r: Outcome)
    requires n.While?
    ensures r.Match? <==> n.condition == "false"
    ensures r.NoMatch? <==> n.condition != "false"
    ensures r.Match? ==> r.diagnostic == Diagnostic(n, InfiniteLoop, "Infinite loop: " + n.rendering, Warning)
  {
    var loop := n.rendering;
    if n.condition == FalseCondition then Report(n, InfiniteLoop, loop)
    else if n.condition == FalseCondition then Report(n, UnreachableLoopBody, loop)
    else NoMatch
  }

  /** `matches("null")` on the whole statement's rendering. */
  function MatchReturn(n: Node): (r: Outcome)
    requires n.Return?
    ensures r.Match? <==> n.rendering == "null"
    ensures r.NoMatch? <==> n.rendering != "null"
    ensures r.Match? ==> r.diagnostic == Diagnostic(n, ReturnsNull, "Try not to return null: null", Warning)
  {
    if Matches(n.rendering, NullPattern) then Report(n, ReturnsNull, n.rendering) else NoMatch
  }

  /** The second test measures the whole declaration's rendering, not the name. */
  function MatchClass(n: Node): (r: Outcome)
    requires n.ClassDecl?
    ensures r.NoMatch? <==> |n.simpleName| <= MaxClassNameLength && |n.rendering| >= MinClassRenderingLength
    ensures |n.simpleName| > MaxClassNameLength ==>
      r == Match(Diagnostic(n, LongClassName, "Class name is too long: " + n.simpleName, Warning))
    ensures |n.simpleName| <= MaxClassNameLength && |n.rendering| < MinClassRenderingLength ==>
      r == Match(Diagnostic(n, ShortClass, "Make your class name more descriptive: " + n.simpleName, Warning))
  {
    if |n.simpleName| > MaxClassNameLength then Report(n, LongClassName, n.simpleName)
    else if |n.rendering| < MinClassRenderingLength then Report(n, ShortClass, n.simpleName)
    else NoMatch
  }

  function MatchVariable(n: Node): (r: Outcome)
    requires n.VariableDecl?
    ensures r.NoMatch? <==> MinVariableNameLength <= |n.name| <= MaxVariableNameLength
    ensures |n.name| > MaxVariableNameLength ==>
      r == Match(Diagnostic(n, LongVariableName, "Variable name is too long: " + n.name, Warning))
    ensures |n.name| < MinVariableNameLength ==>
      r == Match(Diagnostic(n, ShortVariableName, "Make your variable name more descriptive: " + n.name, Warning))
  {
    if |n.name| > MaxVariableNameLength then Report(n, LongVariableName, n.name)
    else if |n.name| < MinVariableNameLength then Report(n, ShortVariableName, n.name)
    else NoMatch
  }

  function MatchSwitch(n: Node): (r: Outcome)
    requires n.Switch?
    ensures r.Match? <==> n.caseCount == 0
    ensures r.NoMatch? <==> n.caseCount > 0
    ensures r.Match? ==> r.diagnostic == Diagnostic(n, EmptySwitch, "Empty switch statement: " + n.rendering, Warning)
  {
    if n.caseCount == 0 then Report(n, EmptySwitch, n.rendering) else NoMatch
  }

  /** The host hands each node to the matcher registered for its kind; other kinds are never reported. */
  function Evaluate(n: Node): (r: Outcome)
    ensures r.Match? ==> r.diagnostic.anchor == n && r.diagnostic.severity == Warning
    ensures r.Malformed? <==> n.MethodInvocation? && n.callee.OtherSelect?
    ensures r.Malformed? ==> r.invocation == n.rendering
    ensures !Subscribed(n) ==> r == NoMatch
  {
    match n
    case Identifier(_) => MatchIdentifier(n)
    case MethodInvocation(_, _) => MatchMethodInvocation(n)
    case MethodDecl(_) => MatchMethod(n)
    case VariableDecl(_) => MatchVariable(n)
    case ClassDecl(_, _) => MatchClass(n)
    case If(_, _, _) => MatchIf(n)
    case While(_, _) => MatchWhileLoop(n)
    case Return(_) => MatchReturn(n)
    case Switch(_, _) => MatchSwitch(n)
    case Other => NoMatch
  }
}
