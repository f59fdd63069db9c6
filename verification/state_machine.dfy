/** The transformer object that lowers a method with yields into a state-machine class:
    its capture and hoisting of variables (specified by the functions of module
    Hoisting), the `super`-call accessors, and the try-region converter with the
    label/state table: a stack of regions with parent links; a region that straddles a
    yield is converted once, taking the next slot of the table (an alias of the finished
    label), and on leaving it gets the replacement block [set state, protected block,
    restore state, call ensure]. */
module StateMachine {
  import opened Types
  import opened Nodes
  import opened Hoisting
  import Generics

  /** One exception-protected region met during the traversal. */
  class TryStatementInfo {
    const statement: NodeId
    const parent: TryStatementInfo?

    var containsYield: bool
    var stateNumber: int
    /** The replacement block; empty until the region is converted. */
    var replacement: seq<Stmt>
    var ensureMethod: Option<EnsureMethod>

    constructor (statement: NodeId, parent: TryStatementInfo?)
      ensures this.statement == statement && this.parent == parent
      ensures !containsYield && stateNumber == -1 && replacement == [] && ensureMethod == None
    {
      this.statement := statement;
      this.parent := parent;
      containsYield := false;
      stateNumber := -1;
      replacement := [];
      ensureMethod := None;
    }
  }

  class MethodToStateMachineTransformer {
    /** The type declaring the source method. */
    const declaringType: Type
    /** The generic parameters of the declaring type, then of the method. */
    const genericParams: seq<Type>
    /** The state-machine class's own copies of `genericParams`. */
    const stateMachineGenericParams: seq<Type>
    /** Maps each source generic parameter to its copy. */
    const replacer: TypeMap

    // The state-machine class under construction.
    var fields: seq<Field>
    var constructorParameters: seq<ConstructorParameter>
    var constructorBody: seq<ConstructorStatement>
    var ensureMethods: seq<EnsureMethod>
    var externalSelfField: Option<Field>
    /** Locals of the driver method (MoveNext). */
    var moveNextLocals: seq<Local>

    /** Locals of the source method. */
    var methodLocals: seq<Local>
    /** Accessors added to the original declaring type for `super` calls. */
    var declaringTypeAccessors: seq<Accessor>
    /** Hoisted parameters and locals, with the field that now holds each. */
    var mapping: map<Entity, Field>
    /** Handler locals, with the driver local that replaces each. */
    var entityMapper: map<Entity, Entity>
    /** The compilation's unique-name counter. */
    var nextSerial: nat

    // The label/state table and the try-region converter.
    var labels: seq<Label>
    var tryStatementInfoForLabels: seq<TryStatementInfo?>
    var tryStatementStack: seq<TryStatementInfo>
    var convertedTryStatements: seq<TryStatementInfo>
    var finishedStateNumber: int
    /** Every region this transformer has entered. */
    ghost var Regions: set<TryStatementInfo>

    /** The fields that capture changes, as one value. */
    function CaptureState(): Capture
      reads this`fields, this`constructorParameters, this`constructorBody, this`externalSelfField,
            this`mapping, this`entityMapper, this`moveNextLocals, this`nextSerial
    {
      Capture(fields, constructorParameters, constructorBody, externalSelfField, mapping, entityMapper, moveNextLocals, nextSerial)
    }

    /** A converted region owns the slot of its state number and its block starts by setting
        that state; an unconverted one has no state number, block or ensure method. */
    ghost predicate RegionValid(r: TryStatementInfo)
      reads this`tryStatementInfoForLabels, r
    {
      if r.containsYield then
        && 0 <= r.stateNumber < |tryStatementInfoForLabels|
        && tryStatementInfoForLabels[r.stateNumber] == r
        && |r.replacement| >= 1
        && r.replacement[0] == SetState(r.stateNumber)
      else
        r.stateNumber == -1 && r.replacement == [] && r.ensureMethod == None
    }

    /** The stack holds distinct regions, each the parent of the next; a converted region
        still on the stack has only its first statement so far. */
    ghost predicate StackValid()
      reads this`tryStatementStack, this`Regions, Regions
    {
      && (forall i :: 0 <= i < |tryStatementStack| ==> tryStatementStack[i] in Regions)
      && (forall i, j :: 0 <= i < j < |tryStatementStack| ==> tryStatementStack[i] != tryStatementStack[j])
      && (|tryStatementStack| > 0 ==> tryStatementStack[0].parent == null)
      && (forall i :: 1 <= i < |tryStatementStack| ==> tryStatementStack[i].parent == tryStatementStack[i - 1])
      && (forall i :: 0 <= i < |tryStatementStack| && tryStatementStack[i].containsYield ==>
            && tryStatementStack[i].replacement == [SetState(tryStatementStack[i].stateNumber)]
            && tryStatementStack[i].ensureMethod == None)
    }

    /** Each region left while converted appears once in the converted list, no longer on
        the stack, with its four-statement block and the ensure method named after its state. */
    ghost predicate ConvertedValid()
      reads this`tryStatementStack, this`convertedTryStatements, this`ensureMethods, this`Regions, Regions
    {
      && |ensureMethods| == |convertedTryStatements|
      && (forall i :: 0 <= i < |convertedTryStatements| ==> convertedTryStatements[i] in Regions)
      && (forall i, j :: 0 <= i < j < |convertedTryStatements| ==>
            convertedTryStatements[i] != convertedTryStatements[j])
      && (forall i :: 0 <= i < |convertedTryStatements| ==>
            && convertedTryStatements[i] !in tryStatementStack
            && convertedTryStatements[i].containsYield
            && |convertedTryStatements[i].replacement| == 4
            && ensureMethods[i] == EnsureMethod(convertedTryStatements[i].stateNumber, convertedTryStatements[i].statement)
            && convertedTryStatements[i].ensureMethod == Some(ensureMethods[i]))
    }

    /** The label table and its owner list stay in lockstep, owners are regions of this
        transformer, and every region, the stack and the converted list are consistent. */
    ghost predicate TryValid()
      reads this`labels, this`tryStatementInfoForLabels, this`tryStatementStack,
            this`convertedTryStatements, this`ensureMethods, this`Regions, Regions
    {
      && |labels| == |tryStatementInfoForLabels|
      && (forall i :: 0 <= i < |tryStatementInfoForLabels| && tryStatementInfoForLabels[i] != null ==>
            tryStatementInfoForLabels[i] in Regions)
      && (forall r :: r in Regions ==> RegionValid(r))
      && StackValid()
      && ConvertedValid()
    }

    /** The innermost region being traversed, or null outside every region. */
    function CurrentTry(): TryStatementInfo?
      reads this`tryStatementStack
    {
      if |tryStatementStack| > 0 then tryStatementStack[|tryStatementStack| - 1] else null
    }

    /** The transformer for one source method, with the state-machine class created: its
        generic parameters fresh same-named copies of the declaring type's and the method's,
        a replacer from each source parameter to its copy, and an empty constructor that
        chains to the base constructor. */
    constructor (declaringType: Type, locals: seq<Local>, typeParams: seq<Type>, methodParams: seq<Type>,
                 firstFreshId: nat, firstSerial: nat)
      requires forall p :: p in typeParams + methodParams ==> p.id < firstFreshId
      ensures CaptureState() == Initial(firstSerial) && TryValid()
      ensures this.declaringType == declaringType && methodLocals == locals && declaringTypeAccessors == []
      ensures genericParams == typeParams + methodParams
      ensures |stateMachineGenericParams| == |genericParams|
      ensures forall i :: 0 <= i < |genericParams| ==> stateMachineGenericParams[i].name == genericParams[i].name
      ensures forall i, j :: 0 <= i < j < |stateMachineGenericParams| ==> stateMachineGenericParams[i] != stateMachineGenericParams[j]
      ensures forall c :: c in stateMachineGenericParams ==> c !in genericParams
      ensures forall p :: p in replacer <==> p in genericParams
      ensures forall p :: p in replacer ==> replacer[p] in stateMachineGenericParams && replacer[p].name == p.name
      ensures forall i :: 0 <= i < |genericParams| && (forall j :: i < j < |genericParams| ==> genericParams[j] != genericParams[i]) ==>
                replacer[genericParams[i]] == stateMachineGenericParams[i]
      ensures forall t :: MapType(replacer, t) !in genericParams
      ensures labels == [] && tryStatementInfoForLabels == [] && tryStatementStack == []
      ensures convertedTryStatements == [] && ensureMethods == [] && Regions == {}
    {
      var params, copies, typeReplacer := Generics.CloneGenericParameters(typeParams, methodParams, firstFreshId);
      this.declaringType := declaringType;
      genericParams := params;
      stateMachineGenericParams := copies;
      replacer := typeReplacer;
      fields := [];
      constructorParameters := [];
      constructorBody := [SuperConstructorInvocation];
      ensureMethods := [];
      externalSelfField := None;
      moveNextLocals := [];
      methodLocals := locals;
      declaringTypeAccessors := [];
      mapping := map[];
      entityMapper := map[];
      nextSerial := firstSerial;
      labels := [];
      tryStatementInfoForLabels := [];
      tryStatementStack := [];
      convertedTryStatements := [];
      finishedStateNumber := 0;
      Regions := {};
    }

    // ---------------------------------------------------------------- capture and hoisting

    /** Context.GetUniqueName: the next name of the counter, which then moves on. */
    method UniqueName(name: string) returns (n: GeneratedName)
      modifies this`nextSerial
      ensures n == GeneratedName(name, old(nextSerial)) && nextSerial == old(nextSerial) + 1
    {
      n := GeneratedName(name, nextSerial);
      nextSerial := nextSerial + 1;
    }

    /** Adds a field with a unique name based on `parameterName` and the mapped type, a
        constructor parameter with the plain name, and `field = parameter` to the
        constructor's body. */
    method DeclareFieldInitializedFromConstructorParameter(parameterName: string, parameterType: Type)
      returns (field: Field)
      requires Valid(CaptureState())
      modifies this`fields, this`constructorParameters, this`constructorBody, this`nextSerial
      ensures Valid(CaptureState())
      ensures field == NewField(old(CaptureState()), parameterName, MapType(replacer, parameterType))
      ensures CaptureState() == DeclareParameterField(old(CaptureState()), parameterName, MapType(replacer, parameterType))
    {
      var mappedType := MapType(replacer, parameterType);
      DeclareParameterFieldValid(CaptureState(), parameterName, mappedType);
      var name := UniqueName(parameterName);
      field := Field(name, mappedType);
      fields := fields + [field];
      var parameter := ConstructorParameter(parameterName, mappedType);
      constructorParameters := constructorParameters + [parameter];
      constructorBody := constructorBody + [AssignFromParameter(field, parameter)];
    }

    /** Every used parameter, in order, gets a field initialised from a constructor
        parameter, and `mapping` sends the parameter to that field. */
    method TransformParametersIntoFieldsInitializedByConstructor(parameters: seq<InternalParameter>)
      requires Valid(CaptureState())
      modifies this`fields, this`constructorParameters, this`constructorBody, this`nextSerial, this`mapping
      ensures Valid(CaptureState())
      ensures CaptureState() == HoistParameters(old(CaptureState()), parameters, replacer)
    {
      ghost var start := CaptureState();
      for i := 0 to |parameters|
        invariant CaptureState() == HoistParameters(start, parameters[..i], replacer)
      {
        var parameter := parameters[i];
        assert parameters[..i + 1][..i] == parameters[..i];
        HoistParametersValid(start, parameters[..i], replacer);
        if parameter.isUsed {
          var field := DeclareFieldInitializedFromConstructorParameter(parameter.name, parameter.typ);
          mapping := mapping[ParameterEntity(parameter) := field];
        }
      }
      assert parameters[..|parameters|] == parameters;
      HoistParametersValid(start, parameters, replacer);
    }

    /** AddToMoveNextMethod on the `i`-th local node of the method: the node is rebound, in
        place, to a new entity of the mapped type, which `entityMapper` records, and joins
        the driver's locals. Adding an entity that `entityMapper` already holds throws
        before anything changes. */
    method AddToMoveNextMethod(i: nat) returns (added: bool)
      requires i < |methodLocals| && Valid(CaptureState())
      modifies this`entityMapper, this`moveNextLocals, this`methodLocals
      ensures Valid(CaptureState())
      ensures var local := old(methodLocals[i]);
        && (added <==> LocalEntity(local.entity) !in old(entityMapper))
        && (added ==>
              && CaptureState() == KeepInDriver(old(CaptureState()), local, replacer)
              && methodLocals == old(methodLocals)[i := Local(local.node, DriverLocal(local, replacer))])
        && (!added ==> CaptureState() == old(CaptureState()) && methodLocals == old(methodLocals))
    {
      var local := methodLocals[i];
      if LocalEntity(local.entity) in entityMapper {
        return false;
      }
      var newLocal := DriverLocal(local, replacer);
      entityMapper := entityMapper[LocalEntity(local.entity) := LocalEntity(newLocal)];
      methodLocals := methodLocals[i := Local(local.node, newLocal)];
      moveNextLocals := moveNextLocals + [Local(local.node, newLocal)];
      added := true;
    }

    /** AddInternalFieldFor: a field with a unique name based on the local's, of the mapped
        type, which `mapping` records for the local. */
    method AddInternalFieldFor(entity: InternalLocal)
      requires Valid(CaptureState())
      modifies this`fields, this`nextSerial, this`mapping
      ensures Valid(CaptureState())
      ensures CaptureState() == HoistLocal(old(CaptureState()), entity, replacer)
    {
      HoistLocalValid(CaptureState(), entity, replacer);
      var name := UniqueName(entity.name);
      var field := Field(name, MapType(replacer, entity.typ));
      fields := fields + [field];
      mapping := mapping[LocalEntity(entity) := field];
    }

    /** Every local of the source method goes to exactly one place: an exception-handler
        variable to the driver's locals (its node rebound in place), any other local to a
        new field; then the source method is left with no locals. When a handler local's
        entity is already in `entityMapper` the walk stops there, the exception
        propagating: the locals are not cleared, those before it are rebound and the rest
        are as they were. */
    method TransformLocalsIntoFields() returns (failedOn: Option<Local>)
      requires Valid(CaptureState())
      modifies this`fields, this`nextSerial, this`mapping, this`entityMapper, this`moveNextLocals, this`methodLocals
      ensures Valid(CaptureState())
      ensures var h := HoistLocals(old(CaptureState()), old(methodLocals), replacer);
        CaptureState() == h.state && failedOn == h.failedOn
      ensures failedOn.None? ==> methodLocals == []
      ensures failedOn.Some? ==>
        exists k :: 0 <= k < |old(methodLocals)| && old(methodLocals)[k] == failedOn.value
          && HoistLocals(old(CaptureState()), old(methodLocals)[..k], replacer).failedOn == None
          && |methodLocals| == |old(methodLocals)|
          && (forall j :: 0 <= j < k ==> methodLocals[j] == Rebound(old(methodLocals)[j], replacer))
          && (forall j :: k <= j < |methodLocals| ==> methodLocals[j] == old(methodLocals)[j])
    {
      var locals := methodLocals;
      ghost var start := CaptureState();
      for i := 0 to |locals|
        invariant |methodLocals| == |locals|
        invariant forall j :: 0 <= j < i ==> methodLocals[j] == Rebound(locals[j], replacer)
        invariant forall j :: i <= j < |locals| ==> methodLocals[j] == locals[j]
        invariant HoistLocals(start, locals[..i], replacer) == Hoisted(CaptureState(), None)
        invariant Valid(CaptureState())
      {
        var local := locals[i];
        assert locals[..i + 1][..i] == locals[..i];
        if IsExceptionHandlerVariable(local.entity) {
          var added := AddToMoveNextMethod(i);
          if !added {
            HoistLocalsFailsAt(start, locals, i, replacer);
            return Some(local);
          }
          continue;
        }
        AddInternalFieldFor(local.entity);
      }
      assert locals[..|locals|] == locals;
      methodLocals := [];
      failedOn := None;
    }

    /** ExternalEnumeratorSelf: the back reference `self_` to the original instance is
        declared like a captured parameter on the first call; every call returns it. */
    method ExternalEnumeratorSelf() returns (field: Field)
      requires Valid(CaptureState())
      modifies this`externalSelfField, this`fields, this`constructorParameters, this`constructorBody, this`nextSerial
      ensures Valid(CaptureState())
      ensures CaptureState() == EnsureExternalSelf(old(CaptureState()), MapType(replacer, declaringType))
      ensures externalSelfField == Some(field)
    {
      if externalSelfField.None? {
        var selfField := DeclareFieldInitializedFromConstructorParameter("self_", declaringType);
        externalSelfField := Some(selfField);
      }
      field := externalSelfField.value;
    }

    /** A call on a superclass method gets, in the original declaring type, an accessor with
        a unique name that forwards to that method, and is rebound to it; any other call is
        left alone. */
    method OnMethodInvocationExpression(node: MethodInvocation) returns (accessor: Option<Accessor>)
      modifies this`declaringTypeAccessors, this`nextSerial
      ensures IsInvocationOnSuperMethod(node) ==>
        && accessor == Some(Accessor(GeneratedName(node.boundMethod.name, old(nextSerial)), node.boundMethod))
        && declaringTypeAccessors == old(declaringTypeAccessors) + [accessor.value]
        && nextSerial == old(nextSerial) + 1
      ensures !IsInvocationOnSuperMethod(node) ==>
        accessor == None && declaringTypeAccessors == old(declaringTypeAccessors) && nextSerial == old(nextSerial)
    {
      var superInvocation := IsInvocationOnSuperMethod(node);
      if !superInvocation {
        return None;
      }
      var name := UniqueName(node.boundMethod.name);
      var created := Accessor(name, node.boundMethod);
      declaringTypeAccessors := declaringTypeAccessors + [created];
      accessor := Some(created);
    }

    // ---------------------------------------------------------------- try regions and labels

    /** A fresh, unconverted region whose parent is the innermost region so far (null
        outside every region) is pushed; the children are then visited. */
    method EnterTryStatement(node: NodeId) returns (visitChildren: bool)
      requires TryValid()
      modifies this`tryStatementStack, this`Regions
      ensures TryValid()
      ensures visitChildren
      ensures |tryStatementStack| == |old(tryStatementStack)| + 1
      ensures tryStatementStack[..|old(tryStatementStack)|] == old(tryStatementStack)
      ensures var info := tryStatementStack[|tryStatementStack| - 1];
        && fresh(info)
        && info.statement == node && info.parent == old(CurrentTry())
        && !info.containsYield && info.stateNumber == -1 && info.replacement == [] && info.ensureMethod == None
        && Regions == old(Regions) + {info}
    {
      var info := new TryStatementInfo(node, CurrentTry());
      tryStatementStack := tryStatementStack + [info];
      Regions := Regions + {info};
      visitChildren := true;
    }

    /** A new label `$state$<n>`, n the old number of labels, is appended, owned by the
        innermost region (null outside every region). */
    method CreateLabel(sourceNode: NodeId) returns (newLabel: Label)
      requires TryValid()
      modifies this`labels, this`tryStatementInfoForLabels
      ensures TryValid()
      ensures newLabel == Label(old(|labels|), sourceNode)
      ensures labels == old(labels) + [newLabel]
      ensures tryStatementInfoForLabels == old(tryStatementInfoForLabels) + [CurrentTry()]
    {
      newLabel := Label(|labels|, sourceNode);
      labels := labels + [newLabel];
      tryStatementInfoForLabels := tryStatementInfoForLabels + [CurrentTry()];
    }

    /** Converting a region that contains a yield: the first time, it is flagged, takes the
        next slot of the table (an alias of the finished label, owned by the region) as its
        state number, and its block starts by setting that state; later calls change nothing. */
    method ConvertTryStatement(currentTry: TryStatementInfo)
      requires TryValid() && currentTry in Regions
      requires !currentTry.containsYield ==> 0 <= finishedStateNumber < |labels|
      modifies this`labels, this`tryStatementInfoForLabels
      modifies currentTry`containsYield, currentTry`stateNumber, currentTry`replacement
      ensures TryValid()
      ensures currentTry.containsYield
      ensures old(currentTry.containsYield) ==>
        && labels == old(labels) && tryStatementInfoForLabels == old(tryStatementInfoForLabels)
        && currentTry.stateNumber == old(currentTry.stateNumber) && currentTry.replacement == old(currentTry.replacement)
      ensures !old(currentTry.containsYield) ==>
        && currentTry.stateNumber == old(|labels|)
        && labels == old(labels) + [old(labels[finishedStateNumber])]
        && tryStatementInfoForLabels == old(tryStatementInfoForLabels) + [currentTry]
        && currentTry.replacement == [SetState(currentTry.stateNumber)]
    {
      if currentTry.containsYield {
        return;
      }
      currentTry.containsYield := true;
      currentTry.stateNumber := |labels|;
      labels := labels + [labels[finishedStateNumber]];
      tryStatementInfoForLabels := tryStatementInfoForLabels + [currentTry];
      currentTry.replacement := [SetState(currentTry.stateNumber)];
    }

    /** Leaving a region pops it. An unconverted region leaves no other trace. A converted
        one first has its enclosing region converted, if there is one, and then gets the
        block [set its state, its protected block, set the enclosing region's state (the
        finished state at the outermost level), call its ensure method], an ensure method
        named after its state, and a place in the converted list. */
    method LeaveTryStatement(node: NodeId)
      requires TryValid() && |tryStatementStack| > 0
      requires var info := tryStatementStack[|tryStatementStack| - 1];
        info.containsYield && info.parent != null && !info.parent.containsYield ==>
          0 <= finishedStateNumber < |labels|
      modifies this`tryStatementStack, this`convertedTryStatements, this`ensureMethods
      modifies this`labels, this`tryStatementInfoForLabels
      modifies tryStatementStack[|tryStatementStack| - 1], tryStatementStack[|tryStatementStack| - 1].parent
      ensures TryValid()
      ensures tryStatementStack == old(tryStatementStack[..|tryStatementStack| - 1])
      ensures var info := old(tryStatementStack[|tryStatementStack| - 1]);
        !old(info.containsYield) ==>
          && labels == old(labels) && tryStatementInfoForLabels == old(tryStatementInfoForLabels)
          && convertedTryStatements == old(convertedTryStatements) && ensureMethods == old(ensureMethods)
          && unchanged(info) && (info.parent != null ==> unchanged(info.parent))
      ensures var info := old(tryStatementStack[|tryStatementStack| - 1]);
        old(info.containsYield) && info.parent == null ==>
          && labels == old(labels) && tryStatementInfoForLabels == old(tryStatementInfoForLabels)
      ensures var info := old(tryStatementStack[|tryStatementStack| - 1]);
        old(info.containsYield) && info.parent != null ==>
          && info.parent.containsYield
          && (old(info.parent.containsYield) ==>
                && labels == old(labels) && tryStatementInfoForLabels == old(tryStatementInfoForLabels)
                && info.parent.stateNumber == old(info.parent.stateNumber)
                && info.parent.replacement == old(info.parent.replacement))
          && (!old(info.parent.containsYield) ==>
                && info.parent.stateNumber == old(|labels|)
                && labels == old(labels) + [old(labels[finishedStateNumber])]
                && tryStatementInfoForLabels == old(tryStatementInfoForLabels) + [info.parent]
                && info.parent.replacement == [SetState(info.parent.stateNumber)])
      ensures var info := old(tryStatementStack[|tryStatementStack| - 1]);
        old(info.containsYield) ==>
          && info.containsYield && info.stateNumber == old(info.stateNumber)
          && info.replacement == [SetState(info.stateNumber), ProtectedBlock(node),
                                  SetState(if info.parent != null then info.parent.stateNumber else finishedStateNumber),
                                  CallEnsure(info.stateNumber)]
          && info.ensureMethod == Some(EnsureMethod(info.stateNumber, info.statement))
          && ensureMethods == old(ensureMethods) + [EnsureMethod(info.stateNumber, info.statement)]
          && convertedTryStatements == old(convertedTryStatements) + [info]
    {
      var info := PopTryStatement();
      if info.containsYield {
        var currentTry := CurrentTry();
        var restoreState := finishedStateNumber;
        if currentTry != null {
          ConvertTryStatement(currentTry);
          restoreState := currentTry.stateNumber;
        }
        CompleteConvertedTryStatement(info, node, restoreState);
      }
    }

    /** Pops the innermost region, which is then on neither the stack nor the converted
        list; its parent is the new innermost region. */
    method PopTryStatement() returns (info: TryStatementInfo)
      requires TryValid() && |tryStatementStack| > 0
      modifies this`tryStatementStack
      ensures TryValid()
      ensures info == old(tryStatementStack[|tryStatementStack| - 1])
      ensures tryStatementStack == old(tryStatementStack[..|tryStatementStack| - 1])
      ensures info in Regions && info !in tryStatementStack && info !in convertedTryStatements
      ensures info.parent == CurrentTry()
      ensures info.containsYield ==> info.replacement == [SetState(info.stateNumber)] && info.ensureMethod == None
    {
      info := tryStatementStack[|tryStatementStack| - 1];
      tryStatementStack := tryStatementStack[..|tryStatementStack| - 1];
    }

    /** Completes the block of a converted region that has just been left: its protected
        block, the state to restore, and the call of its ensure method, which is added;
        the region joins the converted list. */
    method CompleteConvertedTryStatement(info: TryStatementInfo, node: NodeId, restoreState: int)
      requires TryValid() && info in Regions && info !in tryStatementStack && info !in convertedTryStatements
      requires info.containsYield && info.replacement == [SetState(info.stateNumber)]
      modifies info`replacement, info`ensureMethod, this`ensureMethods, this`convertedTryStatements
      ensures TryValid()
      ensures info.replacement == [SetState(info.stateNumber), ProtectedBlock(node), SetState(restoreState), CallEnsure(info.stateNumber)]
      ensures info.ensureMethod == Some(EnsureMethod(info.stateNumber, info.statement))
      ensures ensureMethods == old(ensureMethods) + [EnsureMethod(info.stateNumber, info.statement)]
      ensures convertedTryStatements == old(convertedTryStatements) + [info]
    {
      info.replacement := info.replacement + [ProtectedBlock(node), SetState(restoreState)];
      var ensureMethod := EnsureMethod(info.stateNumber, info.statement);
      info.ensureMethod := Some(ensureMethod);
      ensureMethods := ensureMethods + [ensureMethod];
      info.replacement := info.replacement + [CallEnsure(info.stateNumber)];
      convertedTryStatements := convertedTryStatements + [info];
    }
  }
}
