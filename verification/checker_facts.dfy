/**
 The checker's promises stated node kind by node kind, over all inputs where
 they are general and at the exact thresholds where they are boundaries.
 */
module CheckerFacts {
  import opened JavaText
  import opened Syntax
  import opened Diagnostics
  import opened Checker
  import opened RuleTable

  /** An identifier is reported exactly when it is one of the three placeholders, and the message names it. */
  lemma IdentifierDenylist(name: string)
    ensures Evaluate(Identifier(name)).Match? <==> name in {"foo", "bar", "test"}
    ensures Evaluate(Identifier(name)).NoMatch? <==> name !in {"foo", "bar", "test"}
    ensures Evaluate(Identifier(name)).Match? ==>
      && Evaluate(Identifier(name)).diagnostic.message == name + " is a bad identifier name"
      && IsInfix(name, Evaluate(Identifier(name)).diagnostic.message)
  {
    if name in {"foo", "bar", "test"} {
      MessageRecoversArgument(BadIdentifierName, name);
    }
  }

  /**
   A call is judged by the name it resolves to, exactly as an identifier of
   that name is; a callee of any other form is an error, never a verdict.
   */
  lemma CallNameResolution(callee: Callee, rendering: string)
    ensures var call := Evaluate(MethodInvocation(callee, rendering));
      match callee
      case MemberSelect(identifier) =>
        && (call.Match? <==> Evaluate(Identifier(identifier)).Match?)
        && (call.Match? ==> call.diagnostic.message == Evaluate(Identifier(identifier)).diagnostic.message)
      case Ident(name) =>
        && (call.Match? <==> Evaluate(Identifier(name)).Match?)
        && (call.Match? ==> call.diagnostic.message == Evaluate(Identifier(name)).diagnostic.message)
      case OtherSelect(_) =>
        call == Malformed(rendering) && !call.NoMatch? && !call.Match?
  {
  }

  /** The malformed-call error quotes the offending invocation. */
  lemma MalformedCallReported(callee: Callee, rendering: string)
    requires callee.OtherSelect?
    ensures var r := Evaluate(MethodInvocation(callee, rendering));
      r.Malformed? && IsInfix(rendering, MalformedMessage(r.invocation))
  {
  }

  /** Method names: at most 15 characters pass, 16 and more are reported. */
  lemma MethodNameBoundary()
    ensures Evaluate(MethodDecl("abcdefghijklmno")).NoMatch?
    ensures Evaluate(MethodDecl("abcdefghijklmnop")).Match?
    ensures Evaluate(MethodDecl("abcdefghijklmnop")).diagnostic.message ==
      "abcdefghijklmnop" + " is too long for a method name, shame on you"
  {
  }

  /** Variable names: 3 to 15 characters pass; outside that exactly one of the two messages is given. */
  lemma VariableNameBoundaries()
    ensures Evaluate(VariableDecl("ab")).Match?
    ensures Evaluate(VariableDecl("ab")).diagnostic.rule == ShortVariableName
    ensures Evaluate(VariableDecl("abc")).NoMatch?
    ensures Evaluate(VariableDecl("abcdefghijklmno")).NoMatch?
    ensures Evaluate(VariableDecl("abcdefghijklmnop")).Match?
    ensures Evaluate(VariableDecl("abcdefghijklmnop")).diagnostic.rule == LongVariableName
  {
  }

  /** Class names up to 20 characters pass; 21 is too long; a rendering under 3 characters is reported. */
  lemma ClassBoundaries()
    ensures Evaluate(ClassDecl("ABCDEFGHIJKLMNOPQRST", "class ABCDEFGHIJKLMNOPQRST {}")).NoMatch?
    ensures Evaluate(ClassDecl("ABCDEFGHIJKLMNOPQRSTU", "class ABCDEFGHIJKLMNOPQRSTU {}")).diagnostic.rule
      == LongClassName
    ensures Evaluate(ClassDecl("A", "AB")).diagnostic.rule == ShortClass
    ensures Evaluate(ClassDecl("", "class  {}")).NoMatch?
  {
  }

  /** The long-name test is tried first, whatever the rendering's length. */
  lemma ClassLongNameWins(simpleName: string, rendering: string)
    requires |simpleName| > 20
    ensures Evaluate(ClassDecl(simpleName, rendering)).Match?
    ensures Evaluate(ClassDecl(simpleName, rendering)).diagnostic.rule == LongClassName
  {
  }

  /** A condition rendered "false" is dead code with or without an else; otherwise only a missing else is reported. */
  lemma IfCases(condition: string, hasElse: bool, rendering: string)
    ensures var r := Evaluate(If(condition, hasElse, rendering));
      && (condition == "false" ==> r.Match? && r.diagnostic.message == "Dead code: " + rendering)
      && (condition != "false" && !hasElse ==> r.Match? && r.diagnostic.message == "Found an if without an else")
      && (condition != "false" && hasElse ==> r.NoMatch?)
  {
  }

  /** A loop is reported exactly when its condition renders "false", and always as an infinite loop. */
  lemma WhileCases(condition: string, rendering: string)
    ensures var r := Evaluate(While(condition, rendering));
      && (r.Match? <==> condition == "false")
      && (r.Match? ==> r.diagnostic.rule == InfiniteLoop && r.diagnostic.message == "Infinite loop: " + rendering)
  {
  }

  /** Only a rendering that is the whole text "null" matches; the usual statement text does not. */
  lemma ReturnCases()
    ensures Evaluate(Return("null")).Match?
    ensures Evaluate(Return("return null;")).NoMatch?
    ensures Evaluate(Return("nullx")).NoMatch?
  {
  }

  /** A switch is reported exactly when it has no cases. */
  lemma SwitchCases(caseCount: nat, rendering: string)
    ensures Evaluate(Switch(caseCount, rendering)).Match? <==> caseCount == 0
    ensures Evaluate(Switch(caseCount, rendering)).Match? ==>
      Evaluate(Switch(caseCount, rendering)).diagnostic.message == "Empty switch statement: " + rendering
  {
  }
}
