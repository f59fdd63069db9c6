/** Generic parameters of the state machine: cloning the source's generic parameters
    into the new class, and substituting generic arguments by name, both the
    first-match loop of MapParamType and the SingleOrDefault loop of RemapMethod. */
module Generics {
  import opened Types

  /** No two generic parameters share a name. */
  ghost predicate NamesDistinct(params: seq<Type>) {
    forall i, j :: 0 <= i < j < |params| ==> params[i].name != params[j].name
  }

  /** The first generic parameter called `name`, if any. */
  function FirstNamed(params: seq<Type>, name: string): (r: Option<Type>)
    ensures r.None? <==> forall k :: 0 <= k < |params| ==> params[k].name != name
    ensures r.Some? ==> exists k :: 0 <= k < |params| && params[k] == r.value && r.value.name == name &&
                                    forall j :: 0 <= j < k ==> params[j].name != name
  {
    if params == [] then None
    else if params[0].name == name then Some(params[0])
    else
      var r := FirstNamed(params[1..], name);
      assert r.Some? ==> exists k :: 0 <= k < |params[1..]| && params[1..][k] == r.value && r.value.name == name &&
                                     forall j :: 0 <= j < k ==> params[1..][j].name != name;
      assert forall k :: 0 <= k < |params[1..]| ==> params[1..][k] == params[k + 1];
      r
  }

  /** One generic argument after substitution by name: the first same-named parameter
      replaces it, otherwise it stays. */
  function Substitute(arg: Type, params: seq<Type>): (r: Type)
    ensures r.name == arg.name
    ensures r == arg || r in params
  {
    FirstNamed(params, arg.name).GetOr(arg)
  }

  /** The generic arguments after substitution by name against `params`. */
  function SubstituteByName(args: seq<Type>, params: seq<Type>): (r: seq<Type>)
    ensures |r| == |args|
    ensures forall i :: 0 <= i < |args| ==> r[i].name == args[i].name
    ensures forall i :: 0 <= i < |args| ==> r[i] == args[i] || r[i] in params
    ensures forall i :: 0 <= i < |args| && (exists p :: p in params && p.name == args[i].name) ==> r[i] in params
    ensures forall i :: 0 <= i < |args| && (forall p :: p in params ==> p.name != args[i].name) ==> r[i] == args[i]
  {
    seq(|args|, i requires 0 <= i < |args| => Substitute(args[i], params))
  }

  /** Substituting twice is substituting once: a replacement already carries the name of
      the parameter that replaced it. */
  lemma SubstituteByNameIdempotent(args: seq<Type>, params: seq<Type>)
    ensures SubstituteByName(SubstituteByName(args, params), params) == SubstituteByName(args, params)
  {
    var once := SubstituteByName(args, params);
    var twice := SubstituteByName(once, params);
    forall i | 0 <= i < |args|
      ensures twice[i] == once[i]
    {
      assert once[i].name == args[i].name;
      assert FirstNamed(params, once[i].name) == FirstNamed(params, args[i].name);
    }
  }

  /** A generic type reference as the lowering sees it: its argument entities and,
      when the reference is bound to a constructed type, that type's definition. */
  datatype ConstructedTypeInfo = ConstructedTypeInfo(genericDefinition: Type, genericArguments: seq<Type>)

  datatype TypeReference =
    | GenericTypeReference(genericArguments: seq<Type>, entity: Option<ConstructedTypeInfo>)
    | OtherTypeReference(typ: Type)

  datatype ParameterDeclaration = ParameterDeclaration(name: string, typ: TypeReference)

  /** MapParamType: a parameter whose type is a constructed generic type gets a clone whose
      generic arguments are substituted by name against `genericParams` (first match),
      bound to the type constructed from the same definition over the new arguments;
      any other parameter comes back as it is. */
  method MapParamType(parameter: ParameterDeclaration, genericParams: seq<Type>) returns (r: ParameterDeclaration)
    ensures !parameter.typ.GenericTypeReference? || parameter.typ.entity.None? ==> r == parameter
    ensures parameter.typ.GenericTypeReference? && parameter.typ.entity.Some? ==>
      var args := SubstituteByName(parameter.typ.genericArguments, genericParams);
      r == ParameterDeclaration(parameter.name,
             GenericTypeReference(args, Some(ConstructedTypeInfo(parameter.typ.entity.value.genericDefinition, args))))
  {
    if !parameter.typ.GenericTypeReference? || parameter.typ.entity.None? {
      return parameter;
    }
    var gen := parameter.typ;
    var trc: seq<Type> := [];
    for i := 0 to |gen.genericArguments|
      invariant |trc| == i
      invariant forall k :: 0 <= k < i ==> trc[k] == Substitute(gen.genericArguments[k], genericParams)
    {
      var genArg := gen.genericArguments[i];
      var replacement := genArg;
      for j := 0 to |genericParams|
        invariant replacement == genArg
        invariant forall k :: 0 <= k < j ==> genericParams[k].name != genArg.name
      {
        if genericParams[j].name == genArg.name {
          replacement := genericParams[j];
          FirstNamedAt(genericParams, genArg.name, j);
          break;
        }
      }
      assert replacement == Substitute(genArg, genericParams);
      trc := trc + [replacement];
    }
    assert trc == SubstituteByName(gen.genericArguments, genericParams);
    r := ParameterDeclaration(parameter.name,
           GenericTypeReference(trc, Some(ConstructedTypeInfo(gen.entity.value.genericDefinition, trc))));
  }

  /** The first parameter whose name matches is the one FirstNamed finds. */
  lemma FirstNamedAt(params: seq<Type>, name: string, j: nat)
    requires j < |params| && params[j].name == name
    requires forall k :: 0 <= k < j ==> params[k].name != name
    ensures FirstNamed(params, name) == Some(params[j])
  {
  }

  /** The generic parameters called `name`, in order. */
  function Named(params: seq<Type>, name: string): (r: seq<Type>)
    ensures forall p :: p in r <==> p in params && p.name == name
    ensures |r| <= |params|
  {
    if params == [] then []
    else (if params[0].name == name then [params[0]] else []) + Named(params[1..], name)
  }

  datatype RemapError =
    | GenericMethodNotSupported            // "Mapping generic methods in generators is not implemented yet"
    | NestedGenericTypeNotSupported        // "Mapping generic nested types in generators is not implemented yet"
    | AmbiguousGenericParameter(name: string)  // SingleOrDefault finds more than one match

  /** `SingleOrDefault` over the generic parameters called `name`: none, the only one, or
      a failure when there are several. */
  function SingleNamed(params: seq<Type>, name: string): (r: Result<Option<Type>, RemapError>)
    ensures r.Failure? <==> |Named(params, name)| > 1
    ensures r.Success? && r.value.Some? ==> r.value.value in params && r.value.value.name == name
    ensures r.Success? && r.value.None? ==> forall p :: p in params ==> p.name != name
  {
    var matches := Named(params, name);
    if |matches| == 0 then Success(None)
    else if |matches| == 1 then Success(Some(matches[0]))
    else Failure(AmbiguousGenericParameter(name))
  }

  /** One argument of RemapMethod's loop: its only same-named generic parameter, itself
      when there is none, or the failure of `SingleOrDefault` when there are several. */
  function MapArgument(params: seq<Type>, arg: Type): (r: Result<Type, RemapError>)
    ensures r.Failure? <==> |Named(params, arg.name)| > 1
    ensures r.Success? ==> r.value.name == arg.name && (r.value == arg || r.value in params)
  {
    match SingleNamed(params, arg.name)
    case Failure(e) => Failure(e)
    case Success(m) => Success(m.GetOr(arg))
  }

  /** The argument loop of RemapMethod: each argument is mapped in turn; the first
      ambiguous argument aborts the loop. */
  function RemapArguments(args: seq<Type>, params: seq<Type>): (r: Result<seq<Type>, RemapError>)
    ensures r.Success? ==> |r.value| == |args|
  {
    if args == [] then Success([])
    else
      match RemapArguments(args[..|args| - 1], params)
      case Failure(e) => Failure(e)
      case Success(mapped) =>
        match MapArgument(params, args[|args| - 1])
        case Failure(e) => Failure(e)
        case Success(m) => Success(mapped + [m])
  }

  /** A successful loop maps each argument on its own. */
  lemma {:induction false} RemapArgumentsValues(args: seq<Type>, params: seq<Type>)
    requires RemapArguments(args, params).Success?
    ensures forall i :: 0 <= i < |args| ==>
              MapArgument(params, args[i]).Success? && RemapArguments(args, params).value[i] == MapArgument(params, args[i]).value
  {
    if args != [] {
      var prefix, last := args[..|args| - 1], args[|args| - 1];
      RemapArgumentsValues(prefix, params);
      var mapped, r := RemapArguments(prefix, params).value, RemapArguments(args, params).value;
      assert r == mapped + [MapArgument(params, last).value];
      forall i | 0 <= i < |prefix|
        ensures MapArgument(params, args[i]).Success? && r[i] == MapArgument(params, args[i]).value
      {
        assert args[i] == prefix[i] && r[i] == mapped[i];
      }
    }
  }

  /** A failing loop fails with the error of its first ambiguous argument. */
  lemma {:induction false} RemapArgumentsFailure(args: seq<Type>, params: seq<Type>)
    requires RemapArguments(args, params).Failure?
    ensures exists i :: 0 <= i < |args| && MapArgument(params, args[i]) == Failure(RemapArguments(args, params).error) &&
                        forall j :: 0 <= j < i ==> MapArgument(params, args[j]).Success?
  {
    var prefix := args[..|args| - 1];
    if RemapArguments(prefix, params).Failure? {
      RemapArgumentsFailure(prefix, params);
      var i :| 0 <= i < |prefix| && MapArgument(params, prefix[i]) == Failure(RemapArguments(args, params).error) &&
               forall j :: 0 <= j < i ==> MapArgument(params, prefix[j]).Success?;
      assert forall j :: 0 <= j <= i ==> prefix[j] == args[j];
    } else {
      RemapArgumentsValues(prefix, params);
      assert forall j :: 0 <= j < |prefix| ==> prefix[j] == args[j];
    }
  }

  /** The loop succeeds exactly when no argument is ambiguous. */
  lemma RemapArgumentsSuccess(args: seq<Type>, params: seq<Type>)
    ensures RemapArguments(args, params).Success? <==>
              forall i :: 0 <= i < |args| ==> MapArgument(params, args[i]).Success?
  {
    if RemapArguments(args, params).Success? {
      RemapArgumentsValues(args, params);
    } else {
      RemapArgumentsFailure(args, params);
    }
  }

  /** A member of a source class, as RemapMethod reads it: whether the member itself has
      generic parameters, and whether its declaring type carries generic information. */
  datatype SourceMember = SourceMember(id: nat, hasGenericInfo: bool, declaringTypeHasGenericInfo: bool)

  /** A member seen through a constructed generic type: `sourceMember`'s declaring type
      constructed over `genericArguments`. */
  datatype GenericMappedMethod = GenericMappedMethod(sourceMember: SourceMember, genericArguments: seq<Type>)

  /** RemapMethod: re-derives a generic-mapped member from the declaring type constructed
      over the generic arguments substituted by name against the state machine's own
      generic parameters; fails when the member is itself generic, when its declaring
      type has no generic information, or when an argument names several parameters. */
  method RemapMethod(gmm: GenericMappedMethod, genParams: seq<Type>) returns (r: Result<GenericMappedMethod, RemapError>)
    ensures gmm.sourceMember.hasGenericInfo ==> r == Failure(GenericMethodNotSupported)
    ensures !gmm.sourceMember.hasGenericInfo && !gmm.sourceMember.declaringTypeHasGenericInfo ==>
              r == Failure(NestedGenericTypeNotSupported)
    ensures !gmm.sourceMember.hasGenericInfo && gmm.sourceMember.declaringTypeHasGenericInfo ==>
              match RemapArguments(gmm.genericArguments, genParams)
              case Success(args) => r == Success(GenericMappedMethod(gmm.sourceMember, args))
              case Failure(e) => r == Failure(e)
  {
    var sourceMethod := gmm.sourceMember;
    if sourceMethod.hasGenericInfo {
      return Failure(GenericMethodNotSupported);
    }
    if !sourceMethod.declaringTypeHasGenericInfo {
      return Failure(NestedGenericTypeNotSupported);
    }
    var genericArgs := gmm.genericArguments;
    var mapList: seq<Type> := [];
    for i := 0 to |genericArgs|
      invariant RemapArguments(genericArgs[..i], genParams) == Success(mapList)
    {
      assert genericArgs[..i + 1][..i] == genericArgs[..i];
      var mappedArg := MapArgument(genParams, genericArgs[i]);
      if mappedArg.Failure? {
        FailureIsSticky(genericArgs, genParams, i + 1);
        return Failure(mappedArg.error);
      }
      mapList := mapList + [mappedArg.value];
    }
    assert genericArgs[..|genericArgs|] == genericArgs;
    r := Success(GenericMappedMethod(sourceMethod, mapList));
  }

  /** Once a prefix of the arguments fails, the whole list fails with the same error. */
  lemma {:induction false} FailureIsSticky(args: seq<Type>, params: seq<Type>, n: nat)
    requires n <= |args| && RemapArguments(args[..n], params).Failure?
    ensures RemapArguments(args, params) == RemapArguments(args[..n], params)
    decreases |args|
  {
    if n == |args| {
      assert args[..n] == args;
    } else {
      var prefix := args[..|args| - 1];
      assert prefix[..n] == args[..n];
      FailureIsSticky(prefix, params, n);
    }
  }

  /** When the generic parameters have distinct names, RemapMethod's SingleOrDefault loop
      never fails and agrees with MapParamType's first-match substitution. */
  lemma RemapAgreesWithFirstMatch(args: seq<Type>, params: seq<Type>)
    requires NamesDistinct(params)
    ensures RemapArguments(args, params) == Success(SubstituteByName(args, params))
  {
    forall i | 0 <= i < |args|
      ensures MapArgument(params, args[i]) == Success(Substitute(args[i], params))
    {
      NamedOfDistinct(params, args[i].name);
    }
    RemapArgumentsSuccess(args, params);
    var r := RemapArguments(args, params);
    assert r.Success?;
    RemapArgumentsValues(args, params);
    assert forall i :: 0 <= i < |args| ==> r.value[i] == Substitute(args[i], params);
    assert r.value == SubstituteByName(args, params);
  }

  /** With distinct names, at most one parameter has a given name, and it is the one
      FirstNamed finds. */
  lemma {:induction false} NamedOfDistinct(params: seq<Type>, name: string)
    requires NamesDistinct(params)
    ensures |Named(params, name)| <= 1
    ensures |Named(params, name)| == 1 ==> FirstNamed(params, name) == Some(Named(params, name)[0])
    ensures |Named(params, name)| == 0 ==> FirstNamed(params, name) == None
  {
    if params != [] {
      var tail := params[1..];
      assert NamesDistinct(tail) by {
        forall i, j | 0 <= i < j < |tail| ensures tail[i].name != tail[j].name {
          assert tail[i] == params[i + 1] && tail[j] == params[j + 1];
        }
      }
      NamedOfDistinct(tail, name);
      assert Named(params, name) == (if params[0].name == name then [params[0]] else []) + Named(tail, name);
      if params[0].name == name {
        assert forall p :: p in tail ==> p.name != name by {
          forall p | p in tail ensures p.name != name {
            var k :| 0 <= k < |tail| && tail[k] == p;
            assert params[k + 1] == p;
          }
        }
        assert Named(tail, name) == [];
      }
    }
  }

  /** The replacer once the first `n` generic parameters have been cloned: each
      `Replace(source, copy)` overwrites the dictionary entry for `source`. */
  function Replacer(genericParams: seq<Type>, firstFreshId: nat, n: nat): (r: TypeMap)
    requires n <= |genericParams|
    ensures forall t :: t in r ==> r[t].name == t.name && firstFreshId <= r[t].id < firstFreshId + n
  {
    if n == 0 then map[]
    else
      var p := genericParams[n - 1];
      Replacer(genericParams, firstFreshId, n - 1)[p := Type(p.name, firstFreshId + n - 1)]
  }

  /** The last position before `n` that holds `p`, or -1 when there is none. */
  function LastIndex(genericParams: seq<Type>, p: Type, n: nat): (k: int)
    requires n <= |genericParams|
    ensures -1 <= k < n
    ensures k >= 0 ==> genericParams[k] == p
    ensures forall j :: k < j < n ==> genericParams[j] != p
  {
    if n == 0 then -1
    else if genericParams[n - 1] == p then n - 1
    else LastIndex(genericParams, p, n - 1)
  }

  /** A parameter has an entry exactly when it was cloned, and the entry is the copy
      made at its last position. */
  lemma {:induction false} ReplacerEntry(genericParams: seq<Type>, firstFreshId: nat, n: nat, p: Type)
    requires n <= |genericParams|
    ensures p in Replacer(genericParams, firstFreshId, n) <==> LastIndex(genericParams, p, n) >= 0
    ensures p in Replacer(genericParams, firstFreshId, n) ==>
              Replacer(genericParams, firstFreshId, n)[p] == Type(p.name, firstFreshId + LastIndex(genericParams, p, n))
  {
    if n > 0 {
      ReplacerEntry(genericParams, firstFreshId, n - 1, p);
    }
  }

  /** The state machine's copy of each generic parameter: same name, fresh identity. */
  function Copies(genericParams: seq<Type>, firstFreshId: nat): (r: seq<Type>)
    ensures |r| == |genericParams|
    ensures forall i :: 0 <= i < |r| ==> r[i].name == genericParams[i].name && r[i].id == firstFreshId + i
  {
    seq(|genericParams|, k requires 0 <= k < |genericParams| => Type(genericParams[k].name, firstFreshId + k))
  }

  /** The copies are pairwise distinct and distinct from every source parameter. */
  lemma CopiesAreFresh(genericParams: seq<Type>, firstFreshId: nat)
    requires forall p :: p in genericParams ==> p.id < firstFreshId
    ensures forall i, j :: 0 <= i < j < |genericParams| ==> Copies(genericParams, firstFreshId)[i] != Copies(genericParams, firstFreshId)[j]
    ensures forall c :: c in Copies(genericParams, firstFreshId) ==> c !in genericParams
  {
  }

  /** After all parameters are cloned, the replacer's keys are the source parameters, each
      mapped to a same-named copy, and to its own copy when it occurs only once. */
  lemma ReplacerMapsToCopies(genericParams: seq<Type>, firstFreshId: nat)
    ensures forall p :: p in Replacer(genericParams, firstFreshId, |genericParams|) <==> p in genericParams
    ensures forall p :: p in Replacer(genericParams, firstFreshId, |genericParams|) ==>
              Replacer(genericParams, firstFreshId, |genericParams|)[p] in Copies(genericParams, firstFreshId) &&
              Replacer(genericParams, firstFreshId, |genericParams|)[p].name == p.name
    ensures forall i :: 0 <= i < |genericParams| && (forall j :: i < j < |genericParams| ==> genericParams[j] != genericParams[i]) ==>
              Replacer(genericParams, firstFreshId, |genericParams|)[genericParams[i]] == Copies(genericParams, firstFreshId)[i]
  {
    var n := |genericParams|;
    var replacer := Replacer(genericParams, firstFreshId, n);
    var copies := Copies(genericParams, firstFreshId);
    forall p | p in replacer
      ensures p in genericParams && replacer[p] in copies && replacer[p].name == p.name
    {
      ReplacerEntry(genericParams, firstFreshId, n, p);
      assert replacer[p] == copies[LastIndex(genericParams, p, n)];
    }
    forall p | p in genericParams
      ensures p in replacer
    {
      ReplacerEntry(genericParams, firstFreshId, n, p);
    }
    forall i | 0 <= i < n && (forall j :: i < j < n ==> genericParams[j] != genericParams[i])
      ensures replacer[genericParams[i]] == copies[i]
    {
      ReplacerEntry(genericParams, firstFreshId, n, genericParams[i]);
    }
  }

  /** Mapping any type through the finished replacer never yields a source parameter: a
      parameter maps to a copy with a fresh identity, any other type to itself. */
  lemma ReplacerImageIsFresh(genericParams: seq<Type>, firstFreshId: nat)
    requires forall p :: p in genericParams ==> p.id < firstFreshId
    ensures forall t :: MapType(Replacer(genericParams, firstFreshId, |genericParams|), t) !in genericParams
  {
    var n := |genericParams|;
    forall t
      ensures MapType(Replacer(genericParams, firstFreshId, n), t) !in genericParams
    {
      ReplacerEntry(genericParams, firstFreshId, n, t);
    }
  }

  /** Run and CreateStateMachine: the source's generic parameters (the declaring type's,
      then the method's) and a same-named fresh copy of each for the state-machine class,
      with the replacer mapping every source parameter to a copy. */
  method CloneGenericParameters(typeParams: seq<Type>, methodParams: seq<Type>, firstFreshId: nat)
    returns (genericParams: seq<Type>, clones: seq<Type>, replacer: TypeMap)
    requires forall p :: p in typeParams + methodParams ==> p.id < firstFreshId
    ensures genericParams == typeParams + methodParams
    ensures |clones| == |genericParams|
    ensures forall i :: 0 <= i < |clones| ==> clones[i].name == genericParams[i].name
    ensures forall i, j :: 0 <= i < j < |clones| ==> clones[i] != clones[j]
    ensures forall c :: c in clones ==> c !in genericParams
    ensures forall p :: p in replacer <==> p in genericParams
    ensures forall p :: p in replacer ==> replacer[p] in clones && replacer[p].name == p.name
    ensures forall i :: 0 <= i < |genericParams| && (forall j :: i < j < |genericParams| ==> genericParams[j] != genericParams[i]) ==>
              replacer[genericParams[i]] == clones[i]
    ensures forall t :: MapType(replacer, t) !in genericParams
  {
    genericParams := typeParams + methodParams;
    clones := [];
    replacer := map[];
    for i := 0 to |genericParams|
      invariant clones == Copies(genericParams, firstFreshId)[..i]
      invariant replacer == Replacer(genericParams, firstFreshId, i)
    {
      var param := genericParams[i];
      var replacement := Type(param.name, firstFreshId + i);
      clones := clones + [replacement];
      replacer := replacer[param := replacement];
    }
    assert clones == Copies(genericParams, firstFreshId);
    CopiesAreFresh(genericParams, firstFreshId);
    ReplacerMapsToCopies(genericParams, firstFreshId);
    ReplacerImageIsFresh(genericParams, firstFreshId);
  }
}
