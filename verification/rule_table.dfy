/**
 A declarative account of the checker: for each node kind, the rules in the
 order they are tried, and for each rule the condition under which it fires
 taken on its own. The checker reports the first rule that fires, and only
 that one; the lemmas below prove that the matchers behave exactly so.
 */
module RuleTable {
  import opened Wrappers
  import opened JavaText
  import opened Syntax
  import opened Diagnostics
  import opened Checker

  /** The rules registered for a node's kind, in the order its matcher tries them. */
  function ChainOf(n: Node): seq<Rule> {
    match n
    case Identifier(_) => [BadIdentifierName]
    case MethodInvocation(_, _) => [BadIdentifierName]
    case MethodDecl(_) => [LongMethodName]
    case VariableDecl(_) => [LongVariableName, ShortVariableName]
    case ClassDecl(_, _) => [LongClassName, ShortClass]
    case If(_, _, _) => [DeadIf, IfWithoutElse]
    case While(_, _) => [InfiniteLoop, UnreachableLoopBody]
    case Return(_) => [ReturnsNull]
    case Switch(_, _) => [EmptySwitch]
    case Other => []
  }

  predicate IsPlaceholder(name: string) {
    name == "foo" || name == "bar" || name == "test"
  }

  /** A call whose callee is neither a member select nor a bare identifier. */
  predicate IsMalformedCall(n: Node) {
    n.MethodInvocation? && n.callee.OtherSelect?
  }

  /** The condition under which `rule` objects to `n`, regardless of any other rule. */
  predicate Fires(n: Node, rule: Rule) {
    match rule
    case BadIdentifierName =>
      || (n.Identifier? && IsPlaceholder(n.name))
      || (n.MethodInvocation? && n.callee.MemberSelect? && IsPlaceholder(n.callee.identifier))
      || (n.MethodInvocation? && n.callee.Ident? && IsPlaceholder(n.callee.name))
    case LongMethodName => n.MethodDecl? && |n.name| >= 16
    case DeadIf => n.If? && n.condition == "false"
    case IfWithoutElse => n.If? && !n.hasElse
    case InfiniteLoop => n.While? && n.condition == "false"
    case UnreachableLoopBody => n.While? && n.condition == "false"
    case ReturnsNull => n.Return? && n.rendering == "null"
    case LongClassName => n.ClassDecl? && |n.simpleName| >= 21
    case ShortClass => n.ClassDecl? && |n.rendering| <= 2
    case LongVariableName => n.VariableDecl? && |n.name| >= 16
    case ShortVariableName => n.VariableDecl? && |n.name| <= 2
    case EmptySwitch => n.Switch? && n.caseCount == 0
  }

  /** What a rule's message quotes: the offending name, or the node's rendering. */
  function Subject(n: Node): string {
    match n
    case Identifier(name) => name
    case MethodInvocation(callee, rendering) =>
      (match callee
       case MemberSelect(identifier) => identifier
       case Ident(name) => name
       case OtherSelect(_) => rendering)
    case MethodDecl(name) => name
    case VariableDecl(name) => name
    case ClassDecl(simpleName, _) => simpleName
    case If(_, _, rendering) => rendering
    case While(_, rendering) => rendering
    case Return(rendering) => rendering
    case Switch(_, rendering) => rendering
    case Other => ""
  }

  /** The position of the first rule of `chain` that fires on `n`, if any does. */
  function FirstFiring(n: Node, chain: seq<Rule>): (r: Option<nat>)
    ensures r.Some? ==>
      && r.value < |chain|
      && Fires(n, chain[r.value])
      && forall j :: 0 <= j < r.value ==> !Fires(n, chain[j])
    ensures r.None? <==> forall j :: 0 <= j < |chain| ==> !Fires(n, chain[j])
    decreases |chain|
  {
    if chain == [] then None
    else if Fires(n, chain[0]) then Some(0)
    else match FirstFiring(n, chain[1..])
      case None => None
      case Some(i) => Some(i + 1)
  }

  /** The outcome the table prescribes: the malformed-call error, else the first firing rule. */
  function Prescribed(n: Node): Outcome {
    if IsMalformedCall(n) then Malformed(n.rendering)
    else match FirstFiring(n, ChainOf(n))
      case None => NoMatch
      case Some(i) =>
        var rule := ChainOf(n)[i];
        Match(Diagnostic(n, rule, Message(rule, Subject(n)), Warning))
  }

  /** The matchers, written as the source writes them, do exactly what the table prescribes. */
  lemma EvaluateFollowsTable(n: Node)
    ensures Evaluate(n) == Prescribed(n)
  {
    match n
    case Identifier(_) => NameFollowsTable(n);
    case MethodInvocation(_, _) => NameFollowsTable(n);
    case MethodDecl(_) => SingleRuleFollowsTable(n);
    case VariableDecl(_) => VariableFollowsTable(n);
    case ClassDecl(_, _) => ClassFollowsTable(n);
    case If(_, _, _) => IfFollowsTable(n);
    case While(_, _) => WhileFollowsTable(n);
    case Return(_) => SingleRuleFollowsTable(n);
    case Switch(_, _) => SingleRuleFollowsTable(n);
    case Other =>
  }

  /*
   One lemma per group of kinds. For the kinds with two rules, the position of
   the first firing rule is pinned down case by case.
   */
  lemma NameFollowsTable(n: Node)
    requires n.Identifier? || n.MethodInvocation?
    ensures Evaluate(n) == Prescribed(n)
  {
  }

  lemma SingleRuleFollowsTable(n: Node)
    requires n.MethodDecl? || n.Return? || n.Switch?
    ensures Evaluate(n) == Prescribed(n)
  {
  }

  lemma VariableFollowsTable(n: Node)
    requires n.VariableDecl?
    ensures Evaluate(n) == Prescribed(n)
  {
    var chain := ChainOf(n);
    if |n.name| > MaxVariableNameLength {
      assert Fires(n, chain[0]);
    } else if |n.name| < MinVariableNameLength {
      assert !Fires(n, chain[0]) && Fires(n, chain[1]);
    }
  }

  lemma ClassFollowsTable(n: Node)
    requires n.ClassDecl?
    ensures Evaluate(n) == Prescribed(n)
  {
    var chain := ChainOf(n);
    if |n.simpleName| > MaxClassNameLength {
      assert Fires(n, chain[0]);
    } else if |n.rendering| < MinClassRenderingLength {
      assert !Fires(n, chain[0]) && Fires(n, chain[1]);
    }
  }

  lemma IfFollowsTable(n: Node)
    requires n.If?
    ensures Evaluate(n) == Prescribed(n)
  {
    var chain := ChainOf(n);
    if n.condition == FalseCondition {
      assert Fires(n, chain[0]);
    } else if !n.hasElse {
      assert !Fires(n, chain[0]) && Fires(n, chain[1]);
    }
  }

  lemma WhileFollowsTable(n: Node)
    requires n.While?
    ensures Evaluate(n) == Prescribed(n)
  {
    var chain := ChainOf(n);
    if n.condition == FalseCondition {
      assert Fires(n, chain[0]);
    }
  }

  /** Soundness: a reported rule belongs to the node's kind, fires on it, and no earlier rule does. */
  lemma ReportedRuleFires(n: Node)
    requires Evaluate(n).Match?
    ensures exists i ::
      && 0 <= i < |ChainOf(n)|
      && ChainOf(n)[i] == Evaluate(n).diagnostic.rule
      && Fires(n, ChainOf(n)[i])
      && forall j :: 0 <= j < i ==> !Fires(n, ChainOf(n)[j])
  {
    EvaluateFollowsTable(n);
  }

  /** Completeness: a well-formed node is clean exactly when none of its kind's rules fires. */
  lemma NoMatchIffNothingFires(n: Node)
    ensures Evaluate(n).NoMatch? <==>
      !IsMalformedCall(n) && forall rule :: rule in ChainOf(n) ==> !Fires(n, rule)
  {
    EvaluateFollowsTable(n);
    var chain := ChainOf(n);
    if !IsMalformedCall(n) && FirstFiring(n, chain).Some? {
      assert chain[FirstFiring(n, chain).value] in chain;
    }
  }

  /** A rule whose condition implies that of an earlier rule in the chain is never the first to fire. */
  lemma ShadowedNeverFirst(n: Node, chain: seq<Rule>, earlier: nat, later: nat)
    requires earlier < later < |chain|
    requires Fires(n, chain[later]) ==> Fires(n, chain[earlier])
    ensures FirstFiring(n, chain) != Some(later)
  {
  }

  /** The second while-loop test repeats the first, so "Unreachable code" is never reported. */
  lemma UnreachableCodeNeverReported(n: Node)
    ensures Evaluate(n).Match? ==> Evaluate(n).diagnostic.rule != UnreachableLoopBody
  {
    EvaluateFollowsTable(n);
    if n.While? {
      ShadowedNeverFirst(n, ChainOf(n), 0, 1);
    }
  }

  /** The two variable-name rules never both fire, so their order cannot change the verdict. */
  lemma VariableRulesExclusive(n: Node)
    ensures !(Fires(n, LongVariableName) && Fires(n, ShortVariableName))
    ensures var forward := FirstFiring(n, [LongVariableName, ShortVariableName]);
      var backward := FirstFiring(n, [ShortVariableName, LongVariableName]);
      && (forward.Some? <==> backward.Some?)
      && (forward.Some? ==>
            [LongVariableName, ShortVariableName][forward.value]
            == [ShortVariableName, LongVariableName][backward.value])
  {
  }

  /** Unlike the variable rules, the two if-statement rules overlap: there, order decides. */
  lemma IfRulesOverlap()
    ensures var n := If("false", false, "if (false) x();");
      && Fires(n, DeadIf) && Fires(n, IfWithoutElse)
      && Evaluate(n).Match? && Evaluate(n).diagnostic.rule == DeadIf
  {
  }

  /** Each slotted message gives back what it quotes: the offending name or the rendering. */
  lemma DiagnosticQuotesSubject(n: Node)
    requires Evaluate(n).Match?
    requires TemplateOf(Evaluate(n).diagnostic.rule).Slot?
    ensures var d := Evaluate(n).diagnostic;
      var t := TemplateOf(d.rule);
      Unformat(t.prefix, t.suffix, d.message) == Some(Subject(n))
  {
    EvaluateFollowsTable(n);
    var d := Evaluate(n).diagnostic;
    assert d.message == Message(d.rule, Subject(n));
    UnformatInverse(TemplateOf(d.rule).prefix, TemplateOf(d.rule).suffix, Subject(n));
  }
}
