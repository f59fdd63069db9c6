/** The entities the state-machine lowering works with, reduced to what it looks at:
    resolved types are opaque named ids, parameters and locals carry their name, type
    and the few flags the lowering tests, and fields are named by the compilation's
    unique-name allocator. */
module Types {

  datatype Option<T> = None | Some(value: T) {
    function GetOr(default: T): T {
      match this
      case Some(v) => v
      case None => default
    }
  }

  datatype Result<T, E> = Success(value: T) | Failure(error: E)

  /** A resolved type entity (a generic parameter, a class, a constructed type, ...).
      The lowering only compares types and reads their names. */
  datatype Type = Type(name: string, id: nat)

  /** The generator type replacer: a dictionary from the source's generic parameters to
      the state machine's own copies. */
  type TypeMap = map<Type, Type>

  /** Maps a type through the replacer; a type it has no entry for comes back unchanged. */
  function MapType(replacer: TypeMap, t: Type): Type {
    if t in replacer then replacer[t] else t
  }

  /** A name handed out by the compilation's unique-name allocator: `$base$serial`. */
  datatype GeneratedName = GeneratedName(base: string, serial: nat)

  type NodeId = nat

  /** The kind of an AST node, as far as the lowering distinguishes them. */
  datatype NodeKind = ExceptionHandler | OtherNode

  /** A local's original declaration, reduced to the kind of its parent node. */
  datatype Declaration = Declaration(parentNode: NodeKind)

  /** A method parameter: its name, declared type and whether the body uses it. */
  datatype InternalParameter = InternalParameter(name: string, position: nat, typ: Type, isUsed: bool)

  /** A local variable entity, bound to the `Local` node `local`. */
  datatype InternalLocal = InternalLocal(local: NodeId, name: string, typ: Type, originalDeclaration: Option<Declaration>)

  /** A variable entity that references in the body can be bound to. */
  datatype Entity = ParameterEntity(parameter: InternalParameter) | LocalEntity(localEntity: InternalLocal)

  /** A `Local` declaration node of a method, with the entity it is bound to. */
  datatype Local = Local(node: NodeId, entity: InternalLocal)

  /** A field added to the state-machine class. */
  datatype Field = Field(name: GeneratedName, typ: Type)

  datatype ConstructorParameter = ConstructorParameter(name: string, typ: Type)

  /** A statement of the state machine's constructor body. */
  datatype ConstructorStatement =
    | SuperConstructorInvocation
    | AssignFromParameter(field: Field, parameter: ConstructorParameter)
}
