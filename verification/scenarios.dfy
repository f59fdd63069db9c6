/** What the transformer's operations produce on small concrete methods, called in the
    order a traversal of the method body calls them, stated as postconditions. */
module Scenarios {
  import opened Types
  import opened Nodes
  import opened Hoisting
  import opened StateMachine

  /** `try: (try: yield; ensure: ...) ensure: ...` with the finished label created first:
      leaving the inner region converts the outer one, which takes the state after the
      yield's label; the inner block restores the outer region's state and the outer
      block the finished state. */
  method NestedTryRegions() returns (outer: seq<Stmt>, inner: seq<Stmt>, stateLabels: seq<Label>)
    ensures inner == [SetState(1), ProtectedBlock(20), SetState(3), CallEnsure(1)]
    ensures outer == [SetState(3), ProtectedBlock(10), SetState(0), CallEnsure(3)]
    ensures stateLabels == [Label(0, 1), Label(0, 1), Label(2, 30), Label(0, 1)]
  {
    var t := new MethodToStateMachineTransformer(Type("Generator", 0), [], [], [], 1, 0);
    var outerInfo, innerInfo := EnterRegionsAroundYield(t);
    LeaveInnerRegion(t, outerInfo, innerInfo);
    t.LeaveTryStatement(10);
    outer, inner, stateLabels := outerInfo.replacement, innerInfo.replacement, t.labels;
  }

  /** Leaving the inner region of NestedTryRegions: the outer region is converted and
      takes state 3. */
  method LeaveInnerRegion(t: MethodToStateMachineTransformer, outerInfo: TryStatementInfo, innerInfo: TryStatementInfo)
    requires t.TryValid() && t.tryStatementStack == [outerInfo, innerInfo]
    requires innerInfo.parent == outerInfo && outerInfo.parent == null
    requires innerInfo.containsYield && innerInfo.stateNumber == 1 && !outerInfo.containsYield
    requires t.labels == [Label(0, 1), Label(0, 1), Label(2, 30)] && t.finishedStateNumber == 0
    modifies t`tryStatementStack, t`convertedTryStatements, t`ensureMethods, t`labels, t`tryStatementInfoForLabels
    modifies outerInfo, innerInfo
    ensures t.TryValid() && t.tryStatementStack == [outerInfo] && t.finishedStateNumber == 0
    ensures innerInfo.replacement == [SetState(1), ProtectedBlock(20), SetState(3), CallEnsure(1)]
    ensures outerInfo.containsYield && outerInfo.stateNumber == 3 && outerInfo.parent == null
    ensures t.labels == [Label(0, 1), Label(0, 1), Label(2, 30), Label(0, 1)]
  {
    t.LeaveTryStatement(20);
  }

  /** The traversal up to the yield of NestedTryRegions: the finished label, the two
      regions, the inner one converted by the yield, and the yield's own label. */
  method EnterRegionsAroundYield(t: MethodToStateMachineTransformer) returns (outerInfo: TryStatementInfo, innerInfo: TryStatementInfo)
    requires t.TryValid() && t.labels == [] && t.tryStatementStack == [] && t.convertedTryStatements == []
    modifies t`labels, t`tryStatementInfoForLabels, t`tryStatementStack, t`Regions, t`finishedStateNumber
    ensures t.TryValid() && fresh(outerInfo) && fresh(innerInfo)
    ensures t.tryStatementStack == [outerInfo, innerInfo] && t.convertedTryStatements == []
    ensures innerInfo.parent == outerInfo && outerInfo.parent == null
    ensures innerInfo.containsYield && innerInfo.stateNumber == 1 && !outerInfo.containsYield
    ensures t.labels == [Label(0, 1), Label(0, 1), Label(2, 30)] && t.finishedStateNumber == 0
  {
    outerInfo, innerInfo := EnterTwoRegions(t);
    // the yield inside the inner region
    t.ConvertTryStatement(innerInfo);
    var resume := t.CreateLabel(30);
  }

  /** The finished label, then the two regions of NestedTryRegions, entered one inside the
      other. */
  method EnterTwoRegions(t: MethodToStateMachineTransformer) returns (outerInfo: TryStatementInfo, innerInfo: TryStatementInfo)
    requires t.TryValid() && t.labels == [] && t.tryStatementStack == [] && t.convertedTryStatements == []
    modifies t`labels, t`tryStatementInfoForLabels, t`tryStatementStack, t`Regions, t`finishedStateNumber
    ensures t.TryValid() && fresh(outerInfo) && fresh(innerInfo)
    ensures t.tryStatementStack == [outerInfo, innerInfo] && t.convertedTryStatements == []
    ensures innerInfo.parent == outerInfo && outerInfo.parent == null
    ensures !innerInfo.containsYield && !outerInfo.containsYield && innerInfo in t.Regions
    ensures t.labels == [Label(0, 1)] && t.finishedStateNumber == 0
  {
    var finished := t.CreateLabel(1);
    t.finishedStateNumber := finished.index;
    var visitOuter := t.EnterTryStatement(10);
    outerInfo := t.CurrentTry();
    var visitInner := t.EnterTryStatement(20);
    innerInfo := t.CurrentTry();
  }

  /** A region without a yield is left as it is: no state, no block, no ensure method. */
  method RegionWithoutYield() returns (stateNumber: int, block: seq<Stmt>, converted: nat, depth: nat)
    ensures stateNumber == -1 && block == [] && converted == 0 && depth == 0
  {
    var t := new MethodToStateMachineTransformer(Type("Generator", 0), [], [], [], 1, 0);
    var finished := t.CreateLabel(1);
    t.finishedStateNumber := finished.index;
    var visit := t.EnterTryStatement(10);
    var info := t.CurrentTry();
    var body := t.CreateLabel(11);
    t.LeaveTryStatement(10);
    stateNumber, block, converted, depth := info.stateNumber, info.replacement, |t.convertedTryStatements|, |t.tryStatementStack|;
  }

  // A generator `def g(a, b)` of class `Generator` that uses only `b`, with a local `x` and
  // a variable `e` declared by an exception handler.
  const ParamA := InternalParameter("a", 0, Type("int", 1), false)
  const ParamB := InternalParameter("b", 1, Type("int", 1), true)
  const LocalX := Local(6, InternalLocal(6, "x", Type("string", 2), None))
  const LocalE := Local(7, InternalLocal(7, "e", Type("Exception", 3), Some(Declaration(ExceptionHandler))))
  const FieldB := Field(GeneratedName("b", 0), Type("int", 1))
  const FieldX := Field(GeneratedName("x", 1), Type("string", 2))
  const FieldSelf := Field(GeneratedName("self_", 2), Type("Generator", 0))
  const DriverE := Local(7, InternalLocal(7, "e", Type("Exception", 3), None))

  const ParameterB := ConstructorParameter("b", Type("int", 1))
  const ParameterSelf := ConstructorParameter("self_", Type("Generator", 0))

  /** The capture state after the parameters: `b` is a field set by the constructor. */
  const AfterParameters := Capture([FieldB], [ParameterB], [SuperConstructorInvocation, AssignFromParameter(FieldB, ParameterB)],
                                   None, map[ParameterEntity(ParamB) := FieldB], map[], [], 1)

  /** The capture state after the locals: `x` is a field too, `e` is a local of the driver. */
  const AfterLocals := AfterParameters.(fields := [FieldB, FieldX],
                                        mapping := map[ParameterEntity(ParamB) := FieldB, LocalEntity(LocalX.entity) := FieldX],
                                        entityMapper := map[LocalEntity(LocalE.entity) := LocalEntity(DriverE.entity)],
                                        moveNextLocals := [DriverE], nextSerial := 2)

  /** Only the used parameter `b` is captured; the unused `a` leaves no trace. */
  lemma {:induction false} GeneratorParameters()
    ensures HoistParameters(Initial(0), [ParamA, ParamB], map[]) == AfterParameters
  {
    assert HoistParameters(Initial(0), [ParamA], map[]) == Initial(0) by {
      assert [ParamA][..0] == [];
    }
    assert [ParamA, ParamB][..1] == [ParamA];
  }

  /** The local `x` becomes a field and the exception variable `e` moves to the driver. */
  lemma {:induction false} GeneratorLocals()
    ensures HoistLocals(AfterParameters, [LocalX, LocalE], map[]) == Hoisted(AfterLocals, None)
  {
    var withX := AfterParameters.(fields := [FieldB, FieldX],
                                  mapping := map[ParameterEntity(ParamB) := FieldB, LocalEntity(LocalX.entity) := FieldX],
                                  nextSerial := 2);
    assert HoistLocals(AfterParameters, [LocalX], map[]) == Hoisted(withX, None) by {
      assert [LocalX][..0] == [];
    }
    assert [LocalX, LocalE][..1] == [LocalX];
  }

  /** `self_` is declared once, after the captured variables, and the constructor takes it
      after `b`. */
  lemma {:induction false} GeneratorSelf()
    ensures var c := EnsureExternalSelf(AfterLocals, Type("Generator", 0));
      && c.fields == [FieldB, FieldX, FieldSelf]
      && c.constructorParameters == [ParameterB, ParameterSelf]
      && c.constructorBody == [SuperConstructorInvocation, AssignFromParameter(FieldB, ParameterB),
                               AssignFromParameter(FieldSelf, ParameterSelf)]
      && c.externalSelfField == Some(FieldSelf)
      && EnsureExternalSelf(c, Type("Generator", 0)) == c
  {
  }

  /** The transformer captures the generator: `b` and `x` become fields, `e` moves to the
      driver, and asking for `self_` twice declares it once. */
  method CaptureOfAGenerator() returns (capture: Capture, failedOn: Option<Local>, first: Field, second: Field)
    ensures failedOn == None && first == second && first == FieldSelf
    ensures capture == EnsureExternalSelf(AfterLocals, Type("Generator", 0))
  {
    var t := new MethodToStateMachineTransformer(Type("Generator", 0), [LocalX, LocalE], [], [], 4, 0);
    assert t.replacer == map[];
    failedOn := HoistGeneratorVariables(t);
    first := t.ExternalEnumeratorSelf();
    second := t.ExternalEnumeratorSelf();
    capture := t.CaptureState();
    GeneratorSelf();
  }

  /** The parameters, then the locals, of the generator are captured. */
  method HoistGeneratorVariables(t: MethodToStateMachineTransformer) returns (failedOn: Option<Local>)
    requires t.CaptureState() == Initial(0) && t.methodLocals == [LocalX, LocalE]
    requires t.replacer == map[]
    modifies t`fields, t`constructorParameters, t`constructorBody, t`nextSerial, t`mapping
    modifies t`entityMapper, t`moveNextLocals, t`methodLocals
    ensures t.CaptureState() == AfterLocals && Valid(t.CaptureState()) && failedOn == None && t.methodLocals == []
  {
    t.TransformParametersIntoFieldsInitializedByConstructor([ParamA, ParamB]);
    GeneratorParameters();
    failedOn := t.TransformLocalsIntoFields();
    GeneratorLocals();
  }

  // Two `Local` nodes bound to one exception-handler variable entity: the second `Add` to
  // `entityMapper` throws.
  const HandlerEntity := InternalLocal(8, "e", Type("Exception", 3), Some(Declaration(ExceptionHandler)))
  const FirstNode := Local(1, HandlerEntity)
  const SecondNode := Local(2, HandlerEntity)

  /** Hoisting the two nodes moves the first to the driver and stops at the second. */
  lemma {:induction false} DuplicateHandlerStops()
    ensures HoistLocals(Initial(0), [FirstNode, SecondNode], map[]) ==
            Hoisted(KeepInDriver(Initial(0), FirstNode, map[]), Some(SecondNode))
  {
    assert HoistLocals(Initial(0), [FirstNode], map[]) == Hoisted(KeepInDriver(Initial(0), FirstNode, map[]), None) by {
      assert [FirstNode][..0] == [];
    }
    assert [FirstNode, SecondNode][..1] == [FirstNode];
  }

  /** The walk fails on the second node; the first node has already been rebound, in place,
      to a driver local made for node 1 (not for node 8, the one the shared handler entity
      was declared for), and the second still holds the handler entity. */
  method DuplicateHandlerEntity() returns (failedOn: Option<Local>, remaining: seq<Local>, driver: seq<Local>)
    ensures failedOn == Some(SecondNode)
    ensures remaining == [Local(1, DriverLocal(FirstNode, map[])), SecondNode]
    ensures driver == [Local(1, DriverLocal(FirstNode, map[]))]
    ensures remaining[0].entity == InternalLocal(1, "e", Type("Exception", 3), None) && HandlerEntity.local == 8
  {
    var t := new MethodToStateMachineTransformer(Type("Generator", 0), [FirstNode, SecondNode], [], [], 4, 0);
    assert t.replacer == map[];
    DuplicateHandlerStops();
    failedOn := t.TransformLocalsIntoFields();
    remaining, driver := t.methodLocals, t.moveNextLocals;
  }

  /** A state machine for `Box[of T].M[of U]`: each source parameter is replaced by the state
      machine's own copy of it, and no copy is a source parameter. */
  method BoxGenericParameters() returns (t: MethodToStateMachineTransformer)
    ensures t.genericParams == [Type("T", 1), Type("U", 2)] && |t.stateMachineGenericParams| == 2
    ensures Type("T", 1) in t.replacer && Type("U", 2) in t.replacer
    ensures t.replacer[Type("T", 1)] == t.stateMachineGenericParams[0] && t.stateMachineGenericParams[0] != Type("T", 1)
    ensures t.replacer[Type("U", 2)] == t.stateMachineGenericParams[1] && t.stateMachineGenericParams[1] != Type("U", 2)
  {
    t := new MethodToStateMachineTransformer(Type("Box", 0), [], [Type("T", 1)], [Type("U", 2)], 10, 0);
    assert t.genericParams == [Type("T", 1), Type("U", 2)];
  }
}
