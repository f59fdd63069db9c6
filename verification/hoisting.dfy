/** What capturing a method's variables does to the state-machine class under
    construction, as functions of the capture state: used parameters become fields
    initialised from constructor parameters, locals become fields, locals declared in an
    exception handler move to the driver method (MoveNext) instead, and each new field
    draws a fresh unique name. */
module Hoisting {
  import opened Types

  /** The part of the transformer's state that capture changes. */
  datatype Capture = Capture(
    fields: seq<Field>,                                // fields of the state-machine class
    constructorParameters: seq<ConstructorParameter>,  // parameters of its constructor
    constructorBody: seq<ConstructorStatement>,        // body of its constructor
    externalSelfField: Option<Field>,                  // the back reference `self_`, once created
    mapping: map<Entity, Field>,                       // hoisted variable -> its field
    entityMapper: map<Entity, Entity>,                 // handler local -> its driver local
    moveNextLocals: seq<Local>,                        // locals of the driver method
    nextSerial: nat)                                   // the unique-name counter

  /** Field names are unique and were drawn before `nextSerial`; every hoisted variable and
      the back reference are fields; the constructor first chains to its base and then
      assigns each of its parameters, in order, to a field. */
  predicate Valid(c: Capture) {
    && (forall i :: 0 <= i < |c.fields| ==> c.fields[i].name.serial < c.nextSerial)
    && (forall i, j :: 0 <= i < j < |c.fields| ==> c.fields[i].name != c.fields[j].name)
    && (forall e :: e in c.mapping ==> c.mapping[e] in c.fields)
    && (c.externalSelfField.Some? ==> c.externalSelfField.value in c.fields)
    && |c.constructorBody| == |c.constructorParameters| + 1
    && c.constructorBody[0] == SuperConstructorInvocation
    && (forall k :: 1 <= k < |c.constructorBody| ==>
          && c.constructorBody[k].AssignFromParameter?
          && c.constructorBody[k].parameter == c.constructorParameters[k - 1]
          && c.constructorBody[k].field in c.fields)
  }

  /** The capture state of a freshly created state-machine class: no fields, and a
      constructor that only chains to the base constructor. */
  function Initial(firstSerial: nat): (c: Capture)
    ensures Valid(c) && c.nextSerial == firstSerial
  {
    Capture([], [], [SuperConstructorInvocation], None, map[], map[], [], firstSerial)
  }

  /** The field the next unique name gives to a variable named `name` of type `typ`. */
  function NewField(c: Capture, name: string, typ: Type): Field {
    Field(GeneratedName(name, c.nextSerial), typ)
  }

  /** DeclareFieldInitializedFromConstructorParameter, once the type is mapped: a new field,
      a constructor parameter with the plain name, and `field = parameter` at the end of
      the constructor. */
  function DeclareParameterField(c: Capture, name: string, typ: Type): (r: Capture)
    ensures r.fields == c.fields + [NewField(c, name, typ)] && r.nextSerial == c.nextSerial + 1
    ensures r.constructorParameters == c.constructorParameters + [ConstructorParameter(name, typ)]
    ensures r.constructorBody == c.constructorBody + [AssignFromParameter(NewField(c, name, typ), ConstructorParameter(name, typ))]
    ensures r.mapping == c.mapping && r.entityMapper == c.entityMapper && r.moveNextLocals == c.moveNextLocals
    ensures r.externalSelfField == c.externalSelfField
  {
    var field := NewField(c, name, typ);
    var parameter := ConstructorParameter(name, typ);
    c.(fields := c.fields + [field],
       constructorParameters := c.constructorParameters + [parameter],
       constructorBody := c.constructorBody + [AssignFromParameter(field, parameter)],
       nextSerial := c.nextSerial + 1)
  }

  /** ExternalEnumeratorSelf's effect: the first time, the back reference `self_` is
      declared like a captured parameter, of the mapped declaring type; once it exists,
      nothing changes. */
  function EnsureExternalSelf(c: Capture, selfType: Type): (r: Capture)
    ensures r.externalSelfField.Some?
    ensures c.externalSelfField.Some? ==> r == c
  {
    if c.externalSelfField.Some? then c
    else DeclareParameterField(c, "self_", selfType).(externalSelfField := Some(NewField(c, "self_", selfType)))
  }

  /** `self_` is created at most once: a second request changes nothing, and the first adds
      exactly one field, one constructor parameter and one assignment. */
  lemma ExternalSelfCreatedOnce(c: Capture, selfType: Type)
    ensures var r := EnsureExternalSelf(c, selfType);
      && EnsureExternalSelf(r, selfType) == r
      && (c.externalSelfField.None? ==>
            && r.fields == c.fields + [r.externalSelfField.value]
            && r.constructorParameters == c.constructorParameters + [ConstructorParameter("self_", selfType)]
            && r.constructorBody == c.constructorBody + [AssignFromParameter(r.externalSelfField.value, ConstructorParameter("self_", selfType))]
            && r.externalSelfField.value.name == GeneratedName("self_", c.nextSerial))
  {
  }

  /** AddInternalFieldFor: a new field of the mapped type for the local, recorded in `mapping`. */
  function HoistLocal(c: Capture, entity: InternalLocal, replacer: TypeMap): (r: Capture)
    ensures |r.fields| == |c.fields| + 1 && r.fields[..|c.fields|] == c.fields && r.nextSerial == c.nextSerial + 1
    ensures r.mapping == c.mapping[LocalEntity(entity) := r.fields[|c.fields|]]
    ensures r.fields[|c.fields|].typ == MapType(replacer, entity.typ)
    ensures r.constructorParameters == c.constructorParameters && r.constructorBody == c.constructorBody
    ensures r.entityMapper == c.entityMapper && r.moveNextLocals == c.moveNextLocals && r.externalSelfField == c.externalSelfField
  {
    var field := NewField(c, entity.name, MapType(replacer, entity.typ));
    c.(fields := c.fields + [field], mapping := c.mapping[LocalEntity(entity) := field], nextSerial := c.nextSerial + 1)
  }

  /** A local is an exception-handler variable when its original declaration sits
      directly in an exception handler; a local without one is not. */
  function IsExceptionHandlerVariable(local: InternalLocal): (r: bool)
    ensures r <==> local.originalDeclaration == Some(Declaration(ExceptionHandler))
  {
    match local.originalDeclaration
    case None => false
    case Some(declaration) => declaration.parentNode == ExceptionHandler
  }

  /** The entity AddToMoveNextMethod rebinds a handler local to: a new entity for the `Local`
      node being processed, with its name, its type mapped to the state machine's generic
      parameters, and no original declaration. */
  function DriverLocal(local: Local, replacer: TypeMap): (r: InternalLocal)
    ensures r.local == local.node && r.name == local.entity.name
    ensures r.typ == MapType(replacer, local.entity.typ) && !IsExceptionHandlerVariable(r)
  {
    InternalLocal(local.node, local.entity.name, MapType(replacer, local.entity.typ), None)
  }

  /** A `Local` node of the method once AddToMoveNextMethod has run on it: a handler local
      is rebound, in place, to its driver local; any other local keeps its entity. */
  function Rebound(local: Local, replacer: TypeMap): (r: Local)
    ensures r.node == local.node
    ensures IsExceptionHandlerVariable(local.entity) <==> r.entity != local.entity
  {
    if IsExceptionHandlerVariable(local.entity) then Local(local.node, DriverLocal(local, replacer)) else local
  }

  /** AddToMoveNextMethod, when the local is not yet in `entityMapper` (otherwise adding it
      throws): the local is rebound to its driver local and joins the driver's locals. */
  function KeepInDriver(c: Capture, local: Local, replacer: TypeMap): (r: Capture)
    ensures IsExceptionHandlerVariable(local.entity) ==> r.moveNextLocals == c.moveNextLocals + [Rebound(local, replacer)]
    ensures |r.moveNextLocals| == |c.moveNextLocals| + 1 && LocalEntity(local.entity) in r.entityMapper
    ensures r.entityMapper[LocalEntity(local.entity)] == LocalEntity(r.moveNextLocals[|c.moveNextLocals|].entity)
    ensures r.fields == c.fields && r.mapping == c.mapping && r.nextSerial == c.nextSerial
    ensures r.constructorParameters == c.constructorParameters && r.constructorBody == c.constructorBody
  {
    var newLocal := DriverLocal(local, replacer);
    c.(entityMapper := c.entityMapper[LocalEntity(local.entity) := LocalEntity(newLocal)],
       moveNextLocals := c.moveNextLocals + [Local(local.node, newLocal)])
  }

  /** The parameters the body uses, in order. */
  function UsedParameters(parameters: seq<InternalParameter>): (r: seq<InternalParameter>)
    ensures forall p :: p in r <==> p in parameters && p.isUsed
  {
    if parameters == [] then []
    else
      var last := parameters[|parameters| - 1];
      UsedParameters(parameters[..|parameters| - 1]) + if last.isUsed then [last] else []
  }

  /** TransformParametersIntoFieldsInitializedByConstructor: each used parameter, in order,
      gets a field initialised from a constructor parameter, and `mapping` sends the
      parameter to it; an unused parameter is skipped. */
  function HoistParameters(c: Capture, parameters: seq<InternalParameter>, replacer: TypeMap): (r: Capture)
    ensures r.nextSerial == c.nextSerial + |UsedParameters(parameters)|
    ensures r.entityMapper == c.entityMapper && r.moveNextLocals == c.moveNextLocals
  {
    if parameters == [] then c
    else
      var d := HoistParameters(c, parameters[..|parameters| - 1], replacer);
      var p := parameters[|parameters| - 1];
      if p.isUsed then
        var typ := MapType(replacer, p.typ);
        var e := DeclareParameterField(d, p.name, typ);
        e.(mapping := e.mapping[ParameterEntity(p) := NewField(d, p.name, typ)])
      else d
  }

  /** The outcome of hoisting locals: the state reached and, when adding a handler local to
      `entityMapper` threw because its entity was already there, that local. */
  datatype Hoisted = Hoisted(state: Capture, failedOn: Option<Local>)

  /** TransformLocalsIntoFields, up to clearing the method's locals: each local in order
      either moves to the driver (an exception-handler variable) or becomes a field; the
      first handler local whose entity is already mapped stops the walk. */
  function HoistLocals(c: Capture, locals: seq<Local>, replacer: TypeMap): (r: Hoisted)
    ensures r.failedOn.Some? ==> r.failedOn.value in locals && IsExceptionHandlerVariable(r.failedOn.value.entity)
  {
    if locals == [] then Hoisted(c, None)
    else
      var h := HoistLocals(c, locals[..|locals| - 1], replacer);
      var local := locals[|locals| - 1];
      if h.failedOn.Some? then h
      else if !IsExceptionHandlerVariable(local.entity) then Hoisted(HoistLocal(h.state, local.entity, replacer), None)
      else if LocalEntity(local.entity) in h.state.entityMapper then Hoisted(h.state, Some(local))
      else Hoisted(KeepInDriver(h.state, local, replacer), None)
  }

  /** The locals that stay in the driver, in order. */
  function HandlerLocals(locals: seq<Local>): (r: seq<Local>)
    ensures forall l :: l in r <==> l in locals && IsExceptionHandlerVariable(l.entity)
  {
    if locals == [] then []
    else
      var last := locals[|locals| - 1];
      HandlerLocals(locals[..|locals| - 1]) + if IsExceptionHandlerVariable(last.entity) then [last] else []
  }

  /** The locals that become fields, in order. */
  function HoistedLocals(locals: seq<Local>): (r: seq<Local>)
    ensures forall l :: l in r <==> l in locals && !IsExceptionHandlerVariable(l.entity)
  {
    if locals == [] then []
    else
      var last := locals[|locals| - 1];
      HoistedLocals(locals[..|locals| - 1]) + if IsExceptionHandlerVariable(last.entity) then [] else [last]
  }

  /** The entities of `locals`, as keys of `mapping` or `entityMapper`. */
  function LocalKeys(locals: seq<Local>): set<Entity> {
    set l | l in locals :: LocalEntity(l.entity)
  }

  predicate EntitiesDistinct(locals: seq<Local>) {
    forall i, j :: 0 <= i < j < |locals| ==> locals[i].entity != locals[j].entity
  }

  // ------------------------------------------------------------------------ validity

  /** Declaring a field from a constructor parameter draws a name no field has, and keeps
      the capture state valid. */
  lemma DeclareParameterFieldValid(c: Capture, name: string, typ: Type)
    requires Valid(c)
    ensures forall f :: f in c.fields ==> f.name != NewField(c, name, typ).name
    ensures Valid(DeclareParameterField(c, name, typ))
  {
  }

  /** Declaring `self_` keeps the capture state valid. */
  lemma EnsureExternalSelfValid(c: Capture, selfType: Type)
    requires Valid(c)
    ensures Valid(EnsureExternalSelf(c, selfType))
  {
    DeclareParameterFieldValid(c, "self_", selfType);
  }

  /** Hoisting a local into a field keeps the capture state valid. */
  lemma HoistLocalValid(c: Capture, entity: InternalLocal, replacer: TypeMap)
    requires Valid(c)
    ensures Valid(HoistLocal(c, entity, replacer))
  {
  }

  /** Hoisting the parameters keeps the capture state valid. */
  lemma {:induction false} HoistParametersValid(c: Capture, parameters: seq<InternalParameter>, replacer: TypeMap)
    requires Valid(c)
    ensures Valid(HoistParameters(c, parameters, replacer))
  {
    if parameters != [] {
      var prefix, last := parameters[..|parameters| - 1], parameters[|parameters| - 1];
      HoistParametersValid(c, prefix, replacer);
      if last.isUsed {
        DeclareParameterFieldValid(HoistParameters(c, prefix, replacer), last.name, MapType(replacer, last.typ));
      }
    }
  }

  // ------------------------------------------------------------------------ parameters

  /** Each used parameter, and no other, adds one field, in order, named after it and of
      its mapped type; each draws one unique name. */
  lemma {:induction false} HoistParametersFields(c: Capture, parameters: seq<InternalParameter>, replacer: TypeMap)
    ensures var r, used := HoistParameters(c, parameters, replacer), UsedParameters(parameters);
      && r.nextSerial == c.nextSerial + |used|
      && |r.fields| == |c.fields| + |used| && r.fields[..|c.fields|] == c.fields
      && (forall k :: 0 <= k < |used| ==>
            r.fields[|c.fields| + k] == Field(GeneratedName(used[k].name, c.nextSerial + k), MapType(replacer, used[k].typ)))
  {
    if parameters != [] {
      var prefix := parameters[..|parameters| - 1];
      HoistParametersFields(c, prefix, replacer);
    }
  }

  /** Each used parameter, and no other, adds one constructor parameter with its own name
      and mapped type, and one assignment of it to the parameter's field; nothing else of
      the constructor changes. */
  lemma {:induction false} HoistParametersConstructor(c: Capture, parameters: seq<InternalParameter>, replacer: TypeMap)
    ensures var r, used := HoistParameters(c, parameters, replacer), UsedParameters(parameters);
      && |r.constructorParameters| == |c.constructorParameters| + |used|
      && r.constructorParameters[..|c.constructorParameters|] == c.constructorParameters
      && |r.constructorBody| == |c.constructorBody| + |used|
      && r.constructorBody[..|c.constructorBody|] == c.constructorBody
      && (forall k :: 0 <= k < |used| ==>
            && r.constructorParameters[|c.constructorParameters| + k] == ConstructorParameter(used[k].name, MapType(replacer, used[k].typ))
            && r.constructorBody[|c.constructorBody| + k] ==
                 AssignFromParameter(Field(GeneratedName(used[k].name, c.nextSerial + k), MapType(replacer, used[k].typ)),
                                     ConstructorParameter(used[k].name, MapType(replacer, used[k].typ))))
  {
    if parameters != [] {
      var prefix := parameters[..|parameters| - 1];
      HoistParametersConstructor(c, prefix, replacer);
      HoistParametersFields(c, prefix, replacer);
    }
  }

  /** The parameters, as keys of `mapping`. */
  function ParameterKeys(parameters: seq<InternalParameter>): set<Entity> {
    set p | p in parameters :: ParameterEntity(p)
  }

  /** Exactly the used parameters get a mapping; every other mapping, the back reference
      and the driver are left alone. */
  lemma {:induction false} HoistParametersMappingKeys(c: Capture, parameters: seq<InternalParameter>, replacer: TypeMap)
    ensures var r, used := HoistParameters(c, parameters, replacer), UsedParameters(parameters);
      && r.mapping.Keys == c.mapping.Keys + ParameterKeys(used)
      && (forall e :: e in c.mapping && e !in ParameterKeys(used) ==> r.mapping[e] == c.mapping[e])
      && r.externalSelfField == c.externalSelfField
      && r.entityMapper == c.entityMapper && r.moveNextLocals == c.moveNextLocals
  {
    if parameters != [] {
      var prefix, last := parameters[..|parameters| - 1], parameters[|parameters| - 1];
      HoistParametersMappingKeys(c, prefix, replacer);
      var used := UsedParameters(prefix);
      if last.isUsed {
        assert UsedParameters(parameters) == used + [last];
        assert ParameterKeys(used + [last]) == ParameterKeys(used) + {ParameterEntity(last)};
      } else {
        assert UsedParameters(parameters) == used;
      }
    }
  }

  /** When the parameters are distinct, each used one is mapped to its own field. */
  lemma {:induction false} HoistParametersMappingValues(c: Capture, parameters: seq<InternalParameter>, replacer: TypeMap)
    requires forall i, j :: 0 <= i < j < |parameters| ==> parameters[i] != parameters[j]
    ensures var r, used := HoistParameters(c, parameters, replacer), UsedParameters(parameters);
      forall k :: 0 <= k < |used| ==>
        && ParameterEntity(used[k]) in r.mapping
        && r.mapping[ParameterEntity(used[k])] == Field(GeneratedName(used[k].name, c.nextSerial + k), MapType(replacer, used[k].typ))
  {
    if parameters != [] {
      var prefix, last := parameters[..|parameters| - 1], parameters[|parameters| - 1];
      HoistParametersMappingValues(c, prefix, replacer);
      HoistParametersFields(c, prefix, replacer);
      var used := UsedParameters(prefix);
      if last.isUsed {
        assert UsedParameters(parameters) == used + [last];
        forall k | 0 <= k < |used|
          ensures ParameterEntity(used[k]) != ParameterEntity(last)
        {
          assert used[k] in prefix;
        }
      } else {
        assert UsedParameters(parameters) == used;
      }
    }
  }

  // ------------------------------------------------------------------------ locals

  /** Every local goes to exactly one destination: the driver's locals or a field. */
  lemma {:induction false} LocalsArePartitioned(locals: seq<Local>)
    ensures |HandlerLocals(locals)| + |HoistedLocals(locals)| == |locals|
  {
    if locals != [] {
      LocalsArePartitioned(locals[..|locals| - 1]);
    }
  }

  /** Hoisting locals keeps the capture state valid, whether or not it completes. */
  lemma {:induction false} HoistLocalsValid(c: Capture, locals: seq<Local>, replacer: TypeMap)
    requires Valid(c)
    ensures Valid(HoistLocals(c, locals, replacer).state)
  {
    if locals != [] {
      var prefix, last := locals[..|locals| - 1], locals[|locals| - 1];
      HoistLocalsValid(c, prefix, replacer);
      var h := HoistLocals(c, prefix, replacer);
      if h.failedOn.None? && !IsExceptionHandlerVariable(last.entity) {
        HoistLocalValid(h.state, last.entity, replacer);
      }
    }
  }

  /** Once adding a handler local has thrown, the rest of the locals are never reached. */
  lemma {:induction false} HoistLocalsStopsAt(c: Capture, locals: seq<Local>, n: nat, replacer: TypeMap)
    requires n <= |locals| && HoistLocals(c, locals[..n], replacer).failedOn.Some?
    ensures HoistLocals(c, locals, replacer) == HoistLocals(c, locals[..n], replacer)
    decreases |locals|
  {
    if n == |locals| {
      assert locals[..n] == locals;
    } else {
      var prefix := locals[..|locals| - 1];
      assert prefix[..n] == locals[..n];
      HoistLocalsStopsAt(c, prefix, n, replacer);
    }
  }

  /** When the walk reaches, without failing, a handler local whose entity is already in
      `entityMapper`, it fails there, and the state is the one reached before it. */
  lemma HoistLocalsFailsAt(c: Capture, locals: seq<Local>, i: nat, replacer: TypeMap)
    requires i < |locals| && HoistLocals(c, locals[..i], replacer).failedOn == None
    requires IsExceptionHandlerVariable(locals[i].entity)
    requires LocalEntity(locals[i].entity) in HoistLocals(c, locals[..i], replacer).state.entityMapper
    ensures HoistLocals(c, locals, replacer) == Hoisted(HoistLocals(c, locals[..i], replacer).state, Some(locals[i]))
  {
    assert locals[..i + 1][..i] == locals[..i];
    HoistLocalsStopsAt(c, locals, i + 1, replacer);
  }

  /** Hoisting completes when the locals are distinct entities and no handler local is in
      `entityMapper` already. */
  lemma {:induction false} HoistLocalsCompletes(c: Capture, locals: seq<Local>, replacer: TypeMap)
    requires EntitiesDistinct(locals)
    requires forall l :: l in locals && IsExceptionHandlerVariable(l.entity) ==> LocalEntity(l.entity) !in c.entityMapper
    ensures HoistLocals(c, locals, replacer).failedOn == None
  {
    if locals != [] {
      var prefix, last := locals[..|locals| - 1], locals[|locals| - 1];
      assert forall l :: l in prefix ==> l in locals && l.entity != last.entity;
      HoistLocalsCompletes(c, prefix, replacer);
      HoistLocalsEntityMapper(c, prefix, replacer);
      assert LocalEntity(last.entity) !in LocalKeys(HandlerLocals(prefix));
    }
  }

  /** When hoisting completes, the handler locals, in order, join the driver's locals,
      each rebound to its driver local. */
  lemma {:induction false} HoistLocalsDriverLocals(c: Capture, locals: seq<Local>, replacer: TypeMap)
    requires HoistLocals(c, locals, replacer).failedOn == None
    ensures var r, handlers := HoistLocals(c, locals, replacer).state, HandlerLocals(locals);
      && |r.moveNextLocals| == |c.moveNextLocals| + |handlers|
      && r.moveNextLocals[..|c.moveNextLocals|] == c.moveNextLocals
      && (forall k :: 0 <= k < |handlers| ==>
            r.moveNextLocals[|c.moveNextLocals| + k] == Local(handlers[k].node, DriverLocal(handlers[k], replacer)))
  {
    if locals != [] {
      var prefix, last := locals[..|locals| - 1], locals[|locals| - 1];
      var h := HoistLocals(c, prefix, replacer);
      assert h.failedOn == None;
      HoistLocalsDriverLocals(c, prefix, replacer);
      if IsExceptionHandlerVariable(last.entity) {
        assert HoistLocals(c, locals, replacer).state == KeepInDriver(h.state, last, replacer);
        assert HandlerLocals(locals) == HandlerLocals(prefix) + [last];
      } else {
        assert HoistLocals(c, locals, replacer).state == HoistLocal(h.state, last.entity, replacer);
        assert HandlerLocals(locals) == HandlerLocals(prefix);
      }
    }
  }

  /** When hoisting completes, `entityMapper` gains exactly the handler locals' entities,
      each bound to its driver local, and keeps every earlier entry. */
  lemma {:induction false} HoistLocalsEntityMapper(c: Capture, locals: seq<Local>, replacer: TypeMap)
    requires HoistLocals(c, locals, replacer).failedOn == None
    ensures var r, handlers := HoistLocals(c, locals, replacer).state, HandlerLocals(locals);
      && r.entityMapper.Keys == c.entityMapper.Keys + LocalKeys(handlers)
      && (forall e :: e in c.entityMapper ==> r.entityMapper[e] == c.entityMapper[e])
      && (forall l :: l in handlers ==> r.entityMapper[LocalEntity(l.entity)] == LocalEntity(DriverLocal(l, replacer)))
  {
    if locals != [] {
      var prefix, last := locals[..|locals| - 1], locals[|locals| - 1];
      var h := HoistLocals(c, prefix, replacer);
      assert h.failedOn == None;
      HoistLocalsEntityMapper(c, prefix, replacer);
      if IsExceptionHandlerVariable(last.entity) {
        assert HoistLocals(c, locals, replacer).state == KeepInDriver(h.state, last, replacer);
        assert HandlerLocals(locals) == HandlerLocals(prefix) + [last];
        assert LocalKeys(HandlerLocals(locals)) == LocalKeys(HandlerLocals(prefix)) + {LocalEntity(last.entity)};
      } else {
        assert HoistLocals(c, locals, replacer).state == HoistLocal(h.state, last.entity, replacer);
        assert HandlerLocals(locals) == HandlerLocals(prefix);
      }
    }
  }

  /** When hoisting completes, every other local, in order, adds one field named after it
      and of its mapped type, and each draws one unique name; the constructor is left
      alone. */
  lemma {:induction false} HoistLocalsFields(c: Capture, locals: seq<Local>, replacer: TypeMap)
    requires HoistLocals(c, locals, replacer).failedOn == None
    ensures var r, hoisted := HoistLocals(c, locals, replacer).state, HoistedLocals(locals);
      && r.nextSerial == c.nextSerial + |hoisted|
      && |r.fields| == |c.fields| + |hoisted| && r.fields[..|c.fields|] == c.fields
      && (forall k :: 0 <= k < |hoisted| ==>
            r.fields[|c.fields| + k] ==
              Field(GeneratedName(hoisted[k].entity.name, c.nextSerial + k), MapType(replacer, hoisted[k].entity.typ)))
      && r.constructorParameters == c.constructorParameters && r.constructorBody == c.constructorBody
  {
    if locals != [] {
      var prefix, last := locals[..|locals| - 1], locals[|locals| - 1];
      var h := HoistLocals(c, prefix, replacer);
      assert h.failedOn == None;
      HoistLocalsFields(c, prefix, replacer);
      if IsExceptionHandlerVariable(last.entity) {
        assert HoistLocals(c, locals, replacer).state == KeepInDriver(h.state, last, replacer);
        assert HoistedLocals(locals) == HoistedLocals(prefix);
      } else {
        assert HoistLocals(c, locals, replacer).state == HoistLocal(h.state, last.entity, replacer);
        assert HoistedLocals(locals) == HoistedLocals(prefix) + [last];
      }
    }
  }

  /** When hoisting completes, exactly the non-handler locals get a mapping, and every
      other mapping is left alone. */
  lemma {:induction false} HoistLocalsMappingKeys(c: Capture, locals: seq<Local>, replacer: TypeMap)
    requires HoistLocals(c, locals, replacer).failedOn == None
    ensures var r, hoisted := HoistLocals(c, locals, replacer).state, HoistedLocals(locals);
      && r.mapping.Keys == c.mapping.Keys + LocalKeys(hoisted)
      && (forall e :: e in c.mapping && e !in LocalKeys(hoisted) ==> r.mapping[e] == c.mapping[e])
  {
    if locals != [] {
      var prefix, last := locals[..|locals| - 1], locals[|locals| - 1];
      var h := HoistLocals(c, prefix, replacer);
      assert h.failedOn == None;
      HoistLocalsMappingKeys(c, prefix, replacer);
      if IsExceptionHandlerVariable(last.entity) {
        assert HoistLocals(c, locals, replacer).state == KeepInDriver(h.state, last, replacer);
        assert HoistedLocals(locals) == HoistedLocals(prefix);
      } else {
        assert HoistLocals(c, locals, replacer).state == HoistLocal(h.state, last.entity, replacer);
        assert HoistedLocals(locals) == HoistedLocals(prefix) + [last];
        assert LocalKeys(HoistedLocals(locals)) == LocalKeys(HoistedLocals(prefix)) + {LocalEntity(last.entity)};
      }
    }
  }

  /** When hoisting completes over distinct entities, each non-handler local is mapped to
      its own field. */
  lemma {:induction false} HoistLocalsMappingValues(c: Capture, locals: seq<Local>, replacer: TypeMap)
    requires HoistLocals(c, locals, replacer).failedOn == None
    requires EntitiesDistinct(locals)
    ensures var r, hoisted := HoistLocals(c, locals, replacer).state, HoistedLocals(locals);
      forall k :: 0 <= k < |hoisted| ==>
        && LocalEntity(hoisted[k].entity) in r.mapping
        && r.mapping[LocalEntity(hoisted[k].entity)] ==
             Field(GeneratedName(hoisted[k].entity.name, c.nextSerial + k), MapType(replacer, hoisted[k].entity.typ))
  {
    if locals != [] {
      var prefix, last := locals[..|locals| - 1], locals[|locals| - 1];
      assert EntitiesDistinct(prefix) by {
        forall i, j | 0 <= i < j < |prefix| ensures prefix[i].entity != prefix[j].entity {
          assert prefix[i] == locals[i] && prefix[j] == locals[j];
        }
      }
      var h := HoistLocals(c, prefix, replacer);
      assert h.failedOn == None;
      HoistLocalsMappingValues(c, prefix, replacer);
      HoistLocalsFields(c, prefix, replacer);
      if IsExceptionHandlerVariable(last.entity) {
        assert HoistLocals(c, locals, replacer).state == KeepInDriver(h.state, last, replacer);
        assert HoistedLocals(locals) == HoistedLocals(prefix);
      } else {
        assert HoistLocals(c, locals, replacer).state == HoistLocal(h.state, last.entity, replacer);
        assert HoistedLocals(locals) == HoistedLocals(prefix) + [last];
        forall l | l in HoistedLocals(prefix) ensures l.entity != last.entity {
          var i :| 0 <= i < |prefix| && prefix[i] == l;
          assert locals[i] == l;
        }
        HoistLocalKeepsMapping(h.state, HoistedLocals(prefix), c.nextSerial, last, replacer);
      }
    }
  }

  /** Hoisting one more local keeps the fields already recorded for earlier locals, and
      maps the new one to a field drawn with the next serial. */
  lemma HoistLocalKeepsMapping(d: Capture, hoisted: seq<Local>, firstSerial: nat, local: Local, replacer: TypeMap)
    requires d.nextSerial == firstSerial + |hoisted|
    requires forall l :: l in hoisted ==> l.entity != local.entity
    requires forall k :: 0 <= k < |hoisted| ==>
               && LocalEntity(hoisted[k].entity) in d.mapping
               && d.mapping[LocalEntity(hoisted[k].entity)] ==
                    Field(GeneratedName(hoisted[k].entity.name, firstSerial + k), MapType(replacer, hoisted[k].entity.typ))
    ensures var r, all := HoistLocal(d, local.entity, replacer), hoisted + [local];
      forall k :: 0 <= k < |all| ==>
        && LocalEntity(all[k].entity) in r.mapping
        && r.mapping[LocalEntity(all[k].entity)] ==
             Field(GeneratedName(all[k].entity.name, firstSerial + k), MapType(replacer, all[k].entity.typ))
  {
    var all := hoisted + [local];
    forall k | 0 <= k < |hoisted| ensures all[k] == hoisted[k] && hoisted[k] in hoisted {
    }
  }
}
