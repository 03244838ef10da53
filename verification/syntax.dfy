/**
 The syntax nodes the checker is shown, reduced to what its matchers read.
 Every `rendering`, and the `condition` of an `if` or `while`, is the host
 compiler's `toString()` of the tree concerned; it is supplied with the node
 and never derived from the node's structure.
 */
module Syntax {

  /** The callee of a method invocation, as `getMethodSelect()` returns it. */
  datatype Callee =
    | MemberSelect(identifier: string)  // `receiver.name(...)`: the selected member's simple name
    | Ident(name: string)               // `name(...)`
    | OtherSelect(rendering: string)    // any other tree in callee position

  datatype Node =
    | Identifier(name: string)
    | MethodInvocation(callee: Callee, rendering: string)
    | MethodDecl(name: string)
    | VariableDecl(name: string)
    | ClassDecl(simpleName: string, rendering: string)  // `rendering` is the whole declaration
    | If(condition: string, hasElse: bool, rendering: string)  // `condition` is `getCondition().toString()`
    | While(condition: string, rendering: string)              // `condition` is `getCondition().toString()`
    | Return(rendering: string)                          // the whole statement
    | Switch(caseCount: nat, rendering: string)
    | Other                                              // a kind the checker does not subscribe to

  /** The node kinds the checker registers a matcher for. */
  predicate Subscribed(n: Node) {
    !n.Other?
  }
}
