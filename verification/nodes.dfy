/** The AST nodes the lowering builds or inspects, with node contents abstracted away:
    the statements of a converted try region's replacement block, the label statements
    of the label/state table, the ensure methods, and the callee shapes that decide
    whether an invocation goes to a superclass method. */
module Nodes {
  import opened Types

  /** A statement of a converted region's replacement block. */
  datatype Stmt =
    | SetState(stateNumber: int)         // `_state = stateNumber` (SetStateTo)
    | ProtectedBlock(tryStatement: NodeId) // the protected block of that try statement, verbatim
    | CallEnsure(stateNumber: int)       // `self.$ensure<stateNumber>()`

  /** A label statement `$state$<index>`, created for the node `source`. */
  datatype Label = Label(index: nat, source: NodeId)

  /** The private method `$ensure<stateNumber>` whose body is the ensure block of
      `tryStatement`. */
  datatype EnsureMethod = EnsureMethod(stateNumber: int, tryStatement: NodeId)

  /** A method as an invocation target: its name and number of parameters. */
  datatype MethodRef = MethodRef(name: string, parameterCount: nat)

  /** Expressions, as far as the callee of an invocation is concerned. */
  datatype Expression =
    | SuperLiteral
    | SelfLiteral
    | ReferenceExpression(name: string)
    | MemberReferenceExpression(target: Expression, member: string)
    | OtherExpression(node: NodeId)

  /** A method invocation: its callee expression and the method it is bound to. */
  datatype MethodInvocation = MethodInvocation(target: Expression, boundMethod: MethodRef)

  /** The callee with one member access stripped off (`q.m` becomes `q`); any other
      expression is its own qualifier. */
  function Qualifier(e: Expression): Expression {
    if e.MemberReferenceExpression? then e.target else e
  }

  /** An invocation goes to a superclass method when its callee is `super` itself
      (`super(...)`) or a member accessed directly on `super` (`super.m(...)`): exactly
      when the callee, stripped of at most one member access, is `super`. */
  function IsInvocationOnSuperMethod(node: MethodInvocation): (r: bool)
    ensures r <==> Qualifier(node.target) == SuperLiteral
  {
    if node.target.SuperLiteral? then true
    else node.target.MemberReferenceExpression? && node.target.target.SuperLiteral?
  }

  /** The accessor added to the original declaring type for a `super` call: a method with a
      fresh name that forwards its parameters to `superMethod`. */
  datatype Accessor = Accessor(name: GeneratedName, superMethod: MethodRef)
}
