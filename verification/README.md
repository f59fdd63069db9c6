# State-machine lowering of generators (Boo compiler)

This project models the core of `MethodToStateMachineTransformer`, the compiler step of the
Boo compiler that turns a method containing `yield` into a state-machine class. This
class is the abstract base of the step; its subclasses provide the hooks listed under
"Left out". The model has four parts.

- **Try-region converter and label/state table** (`StateMachine.MethodToStateMachineTransformer`,
  `TryStatementInfo`). The traversal pushes each `try` region on a stack whose entries are
  linked to their parents. A region that straddles a `yield` is converted once. It takes
  the next slot of the label table as its state number; that slot is an alias of the
  finished label, owned by the region. When the traversal leaves a converted region, the
  region gets the replacement block
  `[set its state, protected block, restore the enclosing state, call $ensure<n>]`, an
  ensure method, and a place in the converted list. The enclosing region is converted
  first. The label list and its owner list always have the same length, and the invariant
  `TryValid` holds across every operation.
- **Capture and hoisting** (`Hoisting`, plus the capture methods of the transformer class).
  - Each used parameter becomes a field. A constructor parameter and an assignment
    initialise that field.
  - Each local becomes a field, except an exception-handler variable, which moves to the
    driver method (`MoveNext`) under a fresh entity.
  - The back reference `self_` is created lazily, at most once.
  - Each field draws a fresh name from the unique-name counter.
  - The transformer's methods are proved against the pure functions of `Hoisting`, and
    the lemmas there state what those functions do. Every capture method also keeps the
    invariant `Hoisting.Valid` of the class's capture state. Among other things, this
    invariant says that field names are unique.
- **Generic substitution** (`Generics`).
  - The source's generic parameters are the declaring type's followed by the method's.
    They are cloned into the state machine together with a replacer map.
  - `MapParamType` does a first-match substitution by name.
  - `RemapMethod` uses a `SingleOrDefault` substitution and has two error guards.
  - Over the same parameter list with distinct names, the two substitutions agree. In
    the source they run over different lists. `MapParamType` substitutes against the
    source's own generic parameters (`_genericParams`, line 115). `RemapMethod`
    substitutes against the state machine's copies (line 352). So the agreement is a
    statement about the two loops, not about their results in the source.
- **Super calls** (`Nodes.IsInvocationOnSuperMethod`,
  `MethodToStateMachineTransformer.OnMethodInvocationExpression`). A call on `super` gets
  an accessor in the original declaring type.

`Scenarios` states, as verified postconditions, what the class's operations produce on
small concrete inputs:
- nested regions around a yield;
- a region without a yield;
- the capture of a generator;
- two local nodes that share one handler entity.

Entities are reduced to what the step reads:
- Types are named ids, and `MapType` is a dictionary lookup.
- Parameters and locals carry a name, a type and the flags that are tested.
- AST nodes are ids.
- The compilation's unique-name allocator (`Context.GetUniqueName`) is a counter
  (`nextSerial`) that produces `GeneratedName(base, serial)`.

A `Dictionary.Add` of a duplicate key throws in the source. The model makes this an
explicit outcome: `AddToMoveNextMethod` returns `added == false`, and
`TransformLocalsIntoFields` returns `failedOn == Some(local)` without clearing the locals.
AddToMoveNextMethod rebinds the `Local` node itself, and that node stays in the method's
list. So on that failure path, the handler locals before the failing one are already
rebound to their driver entities.

## Model

| member | source | states |
|---|---|---|
| StateMachine.MethodToStateMachineTransformer.EnterTryStatement | src/Boo.Lang.Compiler/Steps/StateMachine/MethodToStateMachineTransformer.cs:441-449 | pushes exactly one fresh, unconverted region (state -1, empty block) whose parent is the previous top, or null on an empty stack; the rest of the stack is unchanged; visits the children; keeps `TryValid` |
| StateMachine.MethodToStateMachineTransformer.CreateLabel | src/Boo.Lang.Compiler/Steps/StateMachine/MethodToStateMachineTransformer.cs:495-501 | appends the label numbered by the old label count, and as its owner the innermost region or null; the two lists stay the same length |
| StateMachine.MethodToStateMachineTransformer.ConvertTryStatement | src/Boo.Lang.Compiler/Steps/StateMachine/MethodToStateMachineTransformer.cs:479-493 | idempotent: an already-flagged region changes nothing; otherwise the region is flagged, its state number becomes the old label count, a copy of the finished label is appended with the region as owner, and its block is `[SetState(n)]` |
| StateMachine.MethodToStateMachineTransformer.LeaveTryStatement | src/Boo.Lang.Compiler/Steps/StateMachine/MethodToStateMachineTransformer.cs:457-477 | pops exactly one region; an unconverted one leaves tables, lists and regions untouched; a converted one first converts its parent (when present), then gets `[SetState(own), ProtectedBlock, SetState(parent's or finished state), CallEnsure(own)]`, the ensure method `$ensure<own>`, and one more entry in the converted list; keeps `TryValid` |
| StateMachine.MethodToStateMachineTransformer.PopTryStatement | src/Boo.Lang.Compiler/Steps/StateMachine/MethodToStateMachineTransformer.cs:459-462 | the popped region was the top; it is on neither the stack nor the converted list, and its parent is the new innermost region |
| StateMachine.MethodToStateMachineTransformer.CompleteConvertedTryStatement | src/Boo.Lang.Compiler/Steps/StateMachine/MethodToStateMachineTransformer.cs:463-475 | completes a converted region's block to four statements, names its ensure method after its state, and appends it to the converted list, keeping `TryValid` |
| StateMachine.MethodToStateMachineTransformer.constructor | src/Boo.Lang.Compiler/Steps/StateMachine/MethodToStateMachineTransformer.cs:144-160 | the generic parameters are the declaring type's, then the method's (line 85); the state machine's generic parameters are same-named copies, pairwise distinct and none of them a source parameter; the replacer's keys are exactly the source parameters, each mapped to a same-named copy and a parameter that occurs once to its own copy, and mapping any type never yields a source parameter (lines 149-153); the constructor body only chains to the base constructor (lines 503-508); the tables are empty |
| StateMachine.TryStatementInfo.constructor | src/Boo.Lang.Compiler/Steps/StateMachine/MethodToStateMachineTransformer.cs:425-435 | a new region records its statement and parent and starts unconverted, with state number -1, no block and no ensure method |
| StateMachine.MethodToStateMachineTransformer.UniqueName | src/Boo.Lang.Compiler/Steps/StateMachine/MethodToStateMachineTransformer.cs:391-394 | returns the counter's next name and advances the counter by one |
| StateMachine.MethodToStateMachineTransformer.DeclareFieldInitializedFromConstructorParameter | src/Boo.Lang.Compiler/Steps/StateMachine/MethodToStateMachineTransformer.cs:236-257 | maps the type through the replacer, then adds one field with a fresh name, one constructor parameter with the plain name, and the assignment `field = parameter` at the end of the constructor; keeps `Valid`, so the new field name is unique |
| StateMachine.MethodToStateMachineTransformer.TransformParametersIntoFieldsInitializedByConstructor | src/Boo.Lang.Compiler/Steps/StateMachine/MethodToStateMachineTransformer.cs:166-181 | the new capture state is `HoistParameters` of the old one, and `Valid` holds; the lemmas below say what that state is |
| StateMachine.MethodToStateMachineTransformer.AddToMoveNextMethod | src/Boo.Lang.Compiler/Steps/StateMachine/MethodToStateMachineTransformer.cs:199-205 | adds exactly when the entity is not yet in `entityMapper`: the local node is rebound, in place in the method's locals, to a new entity made for that node (`DriverLocal`), of the mapped type, which `entityMapper` records, and the node joins the driver's locals; otherwise (the `Add` throws) nothing changes |
| StateMachine.MethodToStateMachineTransformer.AddInternalFieldFor | src/Boo.Lang.Compiler/Steps/StateMachine/MethodToStateMachineTransformer.cs:207-211 | one new field with a fresh name and the mapped type, recorded in `mapping` for the local; keeps `Valid` |
| StateMachine.MethodToStateMachineTransformer.TransformLocalsIntoFields | src/Boo.Lang.Compiler/Steps/StateMachine/MethodToStateMachineTransformer.cs:183-196 | the new capture state and outcome are `HoistLocals` of the old state, and `Valid` holds; on success the method's locals are empty; when the walk throws at the k-th local, the list is not cleared, the locals before k are rebound (`Rebound`) and the rest are as they were |
| StateMachine.MethodToStateMachineTransformer.ExternalEnumeratorSelf | src/Boo.Lang.Compiler/Steps/StateMachine/MethodToStateMachineTransformer.cs:410-423 | the new capture state is `EnsureExternalSelf` of the old one at the mapped declaring type, the field returned is the stored `self_`, and `Valid` holds |
| StateMachine.MethodToStateMachineTransformer.OnMethodInvocationExpression | src/Boo.Lang.Compiler/Steps/StateMachine/MethodToStateMachineTransformer.cs:366-389 | a call on a superclass method adds exactly one accessor to the declaring type, with a fresh name based on the method's name, forwarding to that method; any other call changes nothing |
| Nodes.IsInvocationOnSuperMethod | src/Boo.Lang.Compiler/Steps/StateMachine/MethodToStateMachineTransformer.cs:401-408 | true exactly when the callee, with at most one member access removed, is `super` (`super(...)` or `super.m(...)`) |
| Hoisting.Initial | src/Boo.Lang.Compiler/Steps/StateMachine/MethodToStateMachineTransformer.cs:503-508 | the empty class, whose constructor only chains to its base, satisfies the capture invariant `Valid` |
| Hoisting.EnsureExternalSelf | src/Boo.Lang.Compiler/Steps/StateMachine/MethodToStateMachineTransformer.cs:410-423 | after the call a back reference exists; if one existed before, nothing changes |
| Hoisting.ExternalSelfCreatedOnce | src/Boo.Lang.Compiler/Steps/StateMachine/MethodToStateMachineTransformer.cs:410-423 | a second request is the identity; the first appends exactly one field named `self_` with the next serial, one constructor parameter and one assignment |
| Hoisting.DeclareParameterFieldValid | src/Boo.Lang.Compiler/Steps/StateMachine/MethodToStateMachineTransformer.cs:236-257 | the new field's name differs from every existing field's, and the capture invariant is preserved |
| Hoisting.EnsureExternalSelfValid | src/Boo.Lang.Compiler/Steps/StateMachine/MethodToStateMachineTransformer.cs:410-423 | creating the back reference preserves the capture invariant |
| Hoisting.DeclareParameterField | src/Boo.Lang.Compiler/Steps/StateMachine/MethodToStateMachineTransformer.cs:242-257 | declaring a field from a constructor parameter appends one field with the next unique name, one constructor parameter and one assignment, and advances the counter by one; `mapping`, `entityMapper`, the driver's locals and the back reference are unchanged |
| Hoisting.HoistLocal | src/Boo.Lang.Compiler/Steps/StateMachine/MethodToStateMachineTransformer.cs:207-211 | `AddInternalField` with a unique name: one new field of the mapped type after the old ones, recorded in `mapping` for the local; the constructor, `entityMapper` and the driver's locals are unchanged |
| Hoisting.HoistLocalKeepsMapping | src/Boo.Lang.Compiler/Steps/StateMachine/MethodToStateMachineTransformer.cs:207-211 | hoisting one more local keeps the fields recorded for earlier, different locals and maps the new one to the field drawn with the next serial |
| Hoisting.DriverLocal | src/Boo.Lang.Compiler/Steps/StateMachine/MethodToStateMachineTransformer.cs:201 | the new entity of line 201 belongs to the `Local` node being processed, keeps its name, has the mapped type, and is not itself a handler variable |
| Hoisting.KeepInDriver | src/Boo.Lang.Compiler/Steps/StateMachine/MethodToStateMachineTransformer.cs:199-205 | `AddToMoveNextMethod` when the `Add` succeeds: the driver's locals gain the node as `Rebound` leaves it, `entityMapper` sends the old entity to that node's new entity, and no field, constructor parameter or name is drawn |
| Hoisting.HoistParameters | src/Boo.Lang.Compiler/Steps/StateMachine/MethodToStateMachineTransformer.cs:166-181 | the parameter loop draws exactly one unique name per used parameter and leaves `entityMapper` and the driver's locals alone |
| Hoisting.HoistLocalValid | src/Boo.Lang.Compiler/Steps/StateMachine/MethodToStateMachineTransformer.cs:207-211 | hoisting a local into a field preserves the capture invariant |
| Hoisting.UsedParameters | src/Boo.Lang.Compiler/Steps/StateMachine/MethodToStateMachineTransformer.cs:168-173 | the selected parameters are exactly the used ones |
| Hoisting.HoistParametersValid | src/Boo.Lang.Compiler/Steps/StateMachine/MethodToStateMachineTransformer.cs:166-181 | hoisting the parameters preserves the capture invariant |
| Hoisting.HoistParametersFields | src/Boo.Lang.Compiler/Steps/StateMachine/MethodToStateMachineTransformer.cs:166-181 | the old fields are kept; exactly one field per used parameter is appended, in order, with the k-th fresh name and the mapped type; unused parameters add nothing |
| Hoisting.HoistParametersConstructor | src/Boo.Lang.Compiler/Steps/StateMachine/MethodToStateMachineTransformer.cs:166-181 | one constructor parameter (plain name, mapped type) and one assignment to the matching field per used parameter, in order, after the old ones |
| Hoisting.HoistParametersMappingKeys | src/Boo.Lang.Compiler/Steps/StateMachine/MethodToStateMachineTransformer.cs:166-181 | `mapping` gains exactly the used parameters; other entries, the back reference and the driver state are unchanged |
| Hoisting.HoistParametersMappingValues | src/Boo.Lang.Compiler/Steps/StateMachine/MethodToStateMachineTransformer.cs:166-181 | each used parameter maps to the field created for it |
| Hoisting.HoistLocals | src/Boo.Lang.Compiler/Steps/StateMachine/MethodToStateMachineTransformer.cs:183-196 | a walk that stops stops on a local of the method that is an exception-handler variable |
| Hoisting.IsExceptionHandlerVariable | src/Boo.Lang.Compiler/Steps/StateMachine/MethodToStateMachineTransformer.cs:213-218 | a local is a handler variable exactly when it has an original declaration whose parent node is an exception handler; a local without one is not |
| Hoisting.Rebound | src/Boo.Lang.Compiler/Steps/StateMachine/MethodToStateMachineTransformer.cs:199-205 | a local the walk has already passed keeps its node id, and its entity changes exactly when it is a handler variable |
| Hoisting.HandlerLocals | src/Boo.Lang.Compiler/Steps/StateMachine/MethodToStateMachineTransformer.cs:213-218 | selects exactly the locals whose original declaration sits in an exception handler |
| Hoisting.HoistedLocals | src/Boo.Lang.Compiler/Steps/StateMachine/MethodToStateMachineTransformer.cs:183-196 | selects exactly the locals that are not exception-handler variables |
| Hoisting.LocalsArePartitioned | src/Boo.Lang.Compiler/Steps/StateMachine/MethodToStateMachineTransformer.cs:185-195 | every local goes to exactly one side: the handler locals and the hoisted locals together number the locals |
| Hoisting.HoistLocalsValid | src/Boo.Lang.Compiler/Steps/StateMachine/MethodToStateMachineTransformer.cs:183-196 | hoisting locals preserves the capture invariant, whether or not the walk completes |
| Hoisting.HoistLocalsStopsAt | src/Boo.Lang.Compiler/Steps/StateMachine/MethodToStateMachineTransformer.cs:199-205 | once adding a handler local has thrown, the later locals change nothing |
| Hoisting.HoistLocalsFailsAt | src/Boo.Lang.Compiler/Steps/StateMachine/MethodToStateMachineTransformer.cs:199-205 | when the walk has reached a handler local whose entity is already mapped, the walk stops there: the capture is the one before that local, and that local is the one that failed |
| Hoisting.HoistLocalsCompletes | src/Boo.Lang.Compiler/Steps/StateMachine/MethodToStateMachineTransformer.cs:199-205 | with distinct entities, none of them already in `entityMapper`, the walk never throws |
| Hoisting.HoistLocalsDriverLocals | src/Boo.Lang.Compiler/Steps/StateMachine/MethodToStateMachineTransformer.cs:199-205 | the driver's locals gain exactly the handler locals, in order, each rebound to its driver entity of the mapped type |
| Hoisting.HoistLocalsEntityMapper | src/Boo.Lang.Compiler/Steps/StateMachine/MethodToStateMachineTransformer.cs:199-205 | `entityMapper` gains exactly the handler locals' entities, each mapped to its driver entity; old entries are kept |
| Hoisting.HoistLocalsFields | src/Boo.Lang.Compiler/Steps/StateMachine/MethodToStateMachineTransformer.cs:207-211 | exactly one field per non-handler local is appended, in order, with the k-th fresh name and the mapped type; the constructor is unchanged |
| Hoisting.HoistLocalsMappingKeys | src/Boo.Lang.Compiler/Steps/StateMachine/MethodToStateMachineTransformer.cs:207-211 | `mapping` gains exactly the non-handler locals' entities |
| Hoisting.HoistLocalsMappingValues | src/Boo.Lang.Compiler/Steps/StateMachine/MethodToStateMachineTransformer.cs:207-211 | with distinct entities, each hoisted local maps to the field created for it |
| Generics.FirstNamed | src/Boo.Lang.Compiler/Steps/StateMachine/MethodToStateMachineTransformer.cs:115-120 | none exactly when no parameter has the name; otherwise the first parameter with that name |
| Generics.SubstituteByName | src/Boo.Lang.Compiler/Steps/StateMachine/MethodToStateMachineTransformer.cs:112-122 | preserves length and names; an argument is replaced by a same-named parameter when one exists, and otherwise stays |
| Generics.Substitute | src/Boo.Lang.Compiler/Steps/StateMachine/MethodToStateMachineTransformer.cs:114-121 | one argument after substitution keeps its name, and is either itself or one of the parameters |
| Generics.SubstituteByNameIdempotent | src/Boo.Lang.Compiler/Steps/StateMachine/MethodToStateMachineTransformer.cs:112-122 | substituting a second time changes nothing |
| Generics.MapParamType | src/Boo.Lang.Compiler/Steps/StateMachine/MethodToStateMachineTransformer.cs:103-129 | a parameter without a constructed generic type comes back unchanged; otherwise its arguments are substituted by name, first match, and its type is rebuilt over them from the same definition |
| Generics.FirstNamedAt | src/Boo.Lang.Compiler/Steps/StateMachine/MethodToStateMachineTransformer.cs:115-120 | the inner loop's `break` at the first same-named parameter finds the same parameter as `FirstNamed` |
| Generics.Named | src/Boo.Lang.Compiler/Steps/StateMachine/MethodToStateMachineTransformer.cs:337 | the parameters with a given name, as `SingleOrDefault` filters them |
| Generics.SingleNamed | src/Boo.Lang.Compiler/Steps/StateMachine/MethodToStateMachineTransformer.cs:337-340 | fails exactly when more than one parameter has the name; otherwise returns the same-named parameter, or none when no parameter has the name |
| Generics.MapArgument | src/Boo.Lang.Compiler/Steps/StateMachine/MethodToStateMachineTransformer.cs:337-340 | one argument of `RemapMethod`'s loop fails exactly when several parameters have its name; otherwise it keeps its name and is either itself or one of the parameters |
| Generics.RemapArguments | src/Boo.Lang.Compiler/Steps/StateMachine/MethodToStateMachineTransformer.cs:335-341 | the argument loop of `RemapMethod`: when it succeeds, one mapped argument per argument |
| Generics.RemapArgumentsSuccess | src/Boo.Lang.Compiler/Steps/StateMachine/MethodToStateMachineTransformer.cs:333-341 | the argument loop (`RemapArguments`) succeeds exactly when no argument is ambiguous, that is when `SingleOrDefault` succeeds on every argument's name |
| Generics.RemapArgumentsValues | src/Boo.Lang.Compiler/Steps/StateMachine/MethodToStateMachineTransformer.cs:333-341 | after a successful loop, each argument has become its only same-named parameter, or has stayed when no parameter has its name |
| Generics.RemapArgumentsFailure | src/Boo.Lang.Compiler/Steps/StateMachine/MethodToStateMachineTransformer.cs:333-341 | a failing loop fails with the error of its first ambiguous argument, and every earlier argument was unambiguous |
| Generics.RemapMethod | src/Boo.Lang.Compiler/Steps/StateMachine/MethodToStateMachineTransformer.cs:322-344 | a generic member fails with "generic methods not implemented"; a member whose declaring type has no generic info fails with "nested generic types not implemented"; otherwise the member is re-derived over the substituted arguments (`RemapArguments`), and that loop's failure propagates |
| Generics.FailureIsSticky | src/Boo.Lang.Compiler/Steps/StateMachine/MethodToStateMachineTransformer.cs:335-340 | an exception in the argument loop aborts it: once a prefix fails, the whole list fails with the same error |
| Generics.RemapAgreesWithFirstMatch | src/Boo.Lang.Compiler/Steps/StateMachine/MethodToStateMachineTransformer.cs:333-341 | given one parameter list with distinct names, `RemapMethod`'s `SingleOrDefault` loop never fails and equals `MapParamType`'s first-match loop over that same list (the source runs them over different lists: the state machine's copies and `_genericParams`) |
| Generics.NamedOfDistinct | src/Boo.Lang.Compiler/Steps/StateMachine/MethodToStateMachineTransformer.cs:337 | with distinct names, at most one parameter matches, and it is the first match |
| Generics.LastIndex | src/Boo.Lang.Compiler/Steps/StateMachine/MethodToStateMachineTransformer.cs:149-153 | the last position holding a parameter, which decides which `Replace` wins |
| Generics.ReplacerEntry | src/Boo.Lang.Compiler/Steps/StateMachine/MethodToStateMachineTransformer.cs:149-153 | a parameter has a replacer entry exactly when it was cloned, and the entry is the copy made at its last occurrence |
| Generics.Replacer | src/Boo.Lang.Compiler/Steps/StateMachine/MethodToStateMachineTransformer.cs:149-153 | after the first `n` parameters are cloned, the replacer sends each key to a same-named type whose id is one of the `n` fresh ids |
| Generics.Copies | src/Boo.Lang.Compiler/Steps/StateMachine/MethodToStateMachineTransformer.cs:149-153 | one copy per generic parameter, with the same name and a fresh identity |
| Generics.CopiesAreFresh | src/Boo.Lang.Compiler/Steps/StateMachine/MethodToStateMachineTransformer.cs:149-153 | the copies are pairwise distinct and differ from every source parameter |
| Generics.ReplacerMapsToCopies | src/Boo.Lang.Compiler/Steps/StateMachine/MethodToStateMachineTransformer.cs:149-153 | the replacer's keys are exactly the source parameters; each maps to a same-named copy, and a parameter that occurs once maps to its own copy |
| Generics.ReplacerImageIsFresh | src/Boo.Lang.Compiler/Steps/StateMachine/MethodToStateMachineTransformer.cs:149-153 | mapping any type through the finished replacer never yields a source parameter: a source parameter maps to a copy with a fresh identity, and any other type stays |
| Generics.CloneGenericParameters | src/Boo.Lang.Compiler/Steps/StateMachine/MethodToStateMachineTransformer.cs:85-153 | the declaring type's parameters, then the method's (line 85), with fresh same-named copies (the clone loop, lines 149-153) and a replacer from every source parameter to a copy; mapping any type never yields a source parameter |
| Scenarios.NestedTryRegions | src/Boo.Lang.Compiler/Steps/StateMachine/MethodToStateMachineTransformer.cs:457-501 | for `try: (try: yield)`, the inner block restores the outer state 3, the outer block restores the finished state 0, and the label table is `[finished, finished, yield label, finished]` |
| Scenarios.RegionWithoutYield | src/Boo.Lang.Compiler/Steps/StateMachine/MethodToStateMachineTransformer.cs:457-460 | a region without a yield is left unconverted: state -1, no block, no converted entry, and an empty stack |
| Scenarios.HoistGeneratorVariables | src/Boo.Lang.Compiler/Steps/StateMachine/MethodToStateMachineTransformer.cs:166-196 | from the initial class, the parameters and then the locals of the generator below reach the stated capture state, and the method is left with no locals |
| Scenarios.GeneratorParameters | src/Boo.Lang.Compiler/Steps/StateMachine/MethodToStateMachineTransformer.cs:166-181 | for `def g(a, b)` using only `b`, only `b` gets a field, a constructor parameter and an assignment |
| Scenarios.GeneratorLocals | src/Boo.Lang.Compiler/Steps/StateMachine/MethodToStateMachineTransformer.cs:183-211 | the local `x` becomes a field and the handler variable `e` becomes a driver local |
| Scenarios.GeneratorSelf | src/Boo.Lang.Compiler/Steps/StateMachine/MethodToStateMachineTransformer.cs:410-423 | `self_` is the third field and the second constructor parameter, and a second request is the identity |
| Scenarios.CaptureOfAGenerator | src/Boo.Lang.Compiler/Steps/StateMachine/MethodToStateMachineTransformer.cs:166-196 | the transformer's own methods reach the capture state above without failing, and two requests for `self_` return the same field |
| Scenarios.DuplicateHandlerStops | src/Boo.Lang.Compiler/Steps/StateMachine/MethodToStateMachineTransformer.cs:183-205 | for two nodes bound to one handler entity, the first moves to the driver and the walk stops at the second |
| Scenarios.DuplicateHandlerEntity | src/Boo.Lang.Compiler/Steps/StateMachine/MethodToStateMachineTransformer.cs:183-205 | the transformer fails on the second node; the method's locals are the first node rebound to its driver entity, then the second node unchanged; the driver holds the first node |
| Scenarios.BoxGenericParameters | src/Boo.Lang.Compiler/Steps/StateMachine/MethodToStateMachineTransformer.cs:144-153 | for `Box[of T].M[of U]`, the replacer sends `T` and `U` to the state machine's first and second generic parameters, and neither copy is the source parameter |

## Left out

- The AST is reduced to ids. `ReplaceCurrentNode`, `Bind`, and the rewriting done by `OnReferenceExpression`, `OnSelfLiteralExpression`, `OnSuperLiteralExpression`, `OnDeclaration` and the type-reference visitors (lines 260-320 and 358-364) are not modelled. The tables they read (`mapping`, `entityMapper`, the back reference) are modelled.
- The traversal of children (`base.OnMethodInvocationExpression`, `base.OnMemberReferenceExpression`) is not modelled. `OnMethodInvocationExpression` is modelled from the point after those children are visited, so a `self_` created while visiting them is not counted against the unique-name counter.
- `OnMemberReferenceExpression` (lines 346-357) is not modelled as its own member. Its guard leaves the entity unchanged when the state machine has no generic parameters, and otherwise it calls `RemapMethod`, which is modelled.
- `Generics.RemapMethod`: `GenericConstructedType.Map` is reduced to pairing the member with the new arguments. A thrown `CompilerError` becomes a `Failure`, and `SingleOrDefault`'s exception on several matches becomes `AmbiguousGenericParameter`.
- `MapType` is a dictionary lookup that leaves a type without an entry unchanged. It does not map inside constructed, array or callable types.
- `CallMethodOnSelf` (lines 220-234) is reduced to the `CallEnsure` statement. The generic construction of the self type is not modelled. The body of an ensure method is the region's ensure block, recorded by node id.
- The body of a super-call accessor, which forwards every parameter, is recorded as the target method only.
- The abstract and virtual hooks `SaveStateMachineClass`, `CreateMoveNext`, `SetupStateMachine`, `PropagateReferences`, `StateMachineClassName`, `GetStateMachineGenericParams` and `PrepareConstructorCalls` belong to the generator and async subclasses and are not part of this model.
- `SetStateTo` is the `SetState` statement. The assignment to the `_state` field is not built.
- `Context.GetUniqueName` is modelled as a counter. Names are unique by serial number, which stands in for the allocator's global uniqueness.
- StateMachine.MethodToStateMachineTransformer.ConvertTryStatement: requires `_finishedStateNumber` to index an existing label whenever the region is not yet converted. The source reads `_labels[_finishedStateNumber]` and would throw otherwise; the subclasses create the finished label first.
- StateMachine.MethodToStateMachineTransformer.LeaveTryStatement: carries the same requirement when it has to convert the enclosing region.
- StateMachine.MethodToStateMachineTransformer.constructor: requires the identities of the source generic parameters to lie below `firstFreshId`. This is how the model says that the cloned parameters are new entities.
- `Local` nodes are values in the model. Rebinding a node in place is modelled by replacing it, at its position, in the method's list of locals and by the copy added to the driver's locals. A node that appeared twice in one list would be updated at one position only; a method's locals are distinct nodes.
- `TryStatementInfo._replacement` is `null` until conversion in the source and the empty block in the model.
- Hoisting.HoistParametersMappingValues: requires distinct parameters. In the source, parameters are distinct entities; with duplicates, the later field wins.
- Hoisting.HoistLocalsMappingValues: requires distinct local entities, for the same reason.
