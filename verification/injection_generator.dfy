/**
 * The ahead-of-time parameter-injection synthesis. An operation's implementation may declare
 * parameters the contract does not have; for each such operation the generator emits a
 * wrapper with the contract's signature, except that an `in` modifier is dropped, that
 * resolves the extra parameters (from the HTTP context, the incoming message properties or
 * the service container) and calls the implementation. The emitted text is modelled by a
 * `WrapperPlan`; the generator's validation, dependency list, per-dependency resolution and
 * argument interleaving follow the emitter's loops.
 */
module InjectionGenerator {
  import opened Wrappers
  import opened Symbols

  /** A type symbol; symbols are compared by their full name. */
  type TypeId = string

  const HttpContextType: TypeId := "Microsoft.AspNetCore.Http.HttpContext"
  const HttpRequestType: TypeId := "Microsoft.AspNetCore.Http.HttpRequest"
  const HttpResponseType: TypeId := "Microsoft.AspNetCore.Http.HttpResponse"

  /** An attribute argument value: `null` or a constant, written as text. */
  datatype TypedConstant = NullConstant | Constant(text: string)

  datatype NamedArgument = NamedArgument(key: string, value: TypedConstant)

  /** The attributes the generator recognises on an implementation parameter. */
  datatype AttributeData =
    | Injected(namedArguments: seq<NamedArgument>)   // CoreWCF's [Injected(PropertyName = ..., ServiceKey = ...)]
    | FromKeyedServices(key: TypedConstant)          // [FromKeyedServices(key)]: its first constructor argument
    | FromServices                                   // ASP.NET Core MVC's [FromServices]
    | OtherAttribute

  datatype Parameter = Parameter(name: string, parameterType: TypeId, refKind: RefKind, attributes: seq<AttributeData>)

  datatype MethodSymbol = MethodSymbol(name: string, parameters: seq<Parameter>, returnType: TypeSymbol)

  datatype Accessibility = NotApplicable | Private | ProtectedAndInternal | Protected | Internal | ProtectedOrInternal | Public

  /** A type that contains the implementation (or is it). */
  datatype TypeDeclaration = TypeDeclaration(name: string, accessibility: Accessibility)

  /**
   * One operation to wrap. `isMatching(p, x)` is `IsMatchingParameter` of contract parameter
   * `p` and implementation parameter `x`; `enclosingTypes` starts with the implementation
   * class and continues with each type containing the previous one.
   */
  datatype OperationContractSpec = OperationContractSpec(
    contract: MethodSymbol,
    implementation: MethodSymbol,
    isMatching: (Parameter, Parameter) -> bool,
    containingNamespace: Option<string>,
    enclosingTypes: seq<TypeDeclaration>)

  /** Generation-time diagnostics, each located at an implementation parameter. */
  datatype Diagnostic =
    | EitherPropertyNameOrServiceKeyShouldBeSpecified(parameterIndex: nat)
    | PropertyNameCannotBeNullOrEmpty(parameterIndex: nat)

  /** Exceptions the emitter itself raises, which abort the whole generator run. */
  datatype Fault =
    | MissingDependencyName(parameterType: TypeId)     // dependencyNames[parameter.Type] on an absent key
    | ContractParameterOutOfRange(index: nat)          // MissingOperationContract.Parameters[j] past the end

  /** An implementation parameter that has a counterpart among the contract's parameters. */
  predicate Matched(spec: OperationContractSpec, x: Parameter)
  {
    exists p :: p in spec.contract.parameters && spec.isMatching(p, x)
  }

  // ---------------------------------------------------------------------------------------
  // Validation: the attribute scan over the implementation's unmatched parameters.

  datatype MessageProperty = MessageProperty(propertyName: string, propertyType: TypeId)

  /**
   * What the scan collects: the property name bound to each parameter (by index), the service
   * key bound to each parameter, and the message properties to read, in scan order.
   */
  datatype Annotations = Annotations(
    messagePropertyNames: map<nat, string>,
    keyedServices: map<nat, TypedConstant>,
    messageProperties: seq<MessageProperty>)

  const NoAnnotations := Annotations(map[], map[], [])

  /** A `PropertyName` argument that is null or empty. */
  predicate BadPropertyName(arg: NamedArgument)
  {
    arg.key == "PropertyName" && (arg.value.NullConstant? || arg.value.text == "")
  }

  /** An attribute the scan rejects. */
  predicate InvalidAttribute(a: AttributeData)
  {
    a.Injected? && (|a.namedArguments| > 1 || exists q :: 0 <= q < |a.namedArguments| && BadPropertyName(a.namedArguments[q]))
  }

  /** The named arguments of one `[Injected]` attribute, scanned from `st`. */
  function ScanArguments(st: Annotations, i: nat, p: Parameter, args: seq<NamedArgument>): Result<Annotations, Diagnostic>
    decreases |args|
  {
    if args == [] then Success(st)
    else
      var arg := args[0];
      if arg.key == "PropertyName" then
        if arg.value.NullConstant? || arg.value.text == "" then Failure(PropertyNameCannotBeNullOrEmpty(i))
        else
          var propertyName := arg.value.text;
          ScanArguments(st.(messagePropertyNames := st.messagePropertyNames[i := propertyName],
                            messageProperties := st.messageProperties + [MessageProperty(propertyName, p.parameterType)]),
                        i, p, args[1..])
      else if arg.key == "ServiceKey" then
        ScanArguments(st.(keyedServices := st.keyedServices[i := arg.value]), i, p, args[1..])
      else ScanArguments(st, i, p, args[1..])
  }

  /** The attributes of parameter `i`, scanned from `st`. */
  function ScanAttributes(st: Annotations, i: nat, p: Parameter, attrs: seq<AttributeData>): Result<Annotations, Diagnostic>
    decreases |attrs|, 1
  {
    if attrs == [] then Success(st)
    else
      match attrs[0]
      case Injected(named) =>
        if |named| > 1 then Failure(EitherPropertyNameOrServiceKeyShouldBeSpecified(i))
        else ThenAttributes(ScanArguments(st, i, p, named), i, p, attrs[1..])
      case FromKeyedServices(key) =>
        ScanAttributes(st.(keyedServices := st.keyedServices[i := key]), i, p, attrs[1..])
      case _ => ScanAttributes(st, i, p, attrs[1..])
  }

  function ThenAttributes(r: Result<Annotations, Diagnostic>, i: nat, p: Parameter, rest: seq<AttributeData>): Result<Annotations, Diagnostic>
    decreases |rest|, 2
  {
    match r
    case Failure(d) => Failure(d)
    case Success(st) => ScanAttributes(st, i, p, rest)
  }

  /** The implementation parameters from index `i` on, scanned from `st`. */
  function ScanParameters(spec: OperationContractSpec, st: Annotations, i: nat): Result<Annotations, Diagnostic>
    decreases |spec.implementation.parameters| - i
  {
    var ps := spec.implementation.parameters;
    if i >= |ps| then Success(st)
    else if Matched(spec, ps[i]) then ScanParameters(spec, st, i + 1)
    else ThenParameters(spec, ScanAttributes(st, i, ps[i], ps[i].attributes), i)
  }

  function ThenParameters(spec: OperationContractSpec, r: Result<Annotations, Diagnostic>, i: nat): Result<Annotations, Diagnostic>
    decreases |spec.implementation.parameters| - i, 0
  {
    match r
    case Failure(d) => Failure(d)
    case Success(st) => if i < |spec.implementation.parameters| then ScanParameters(spec, st, i + 1) else Success(st)
  }

  /** The whole scan of one operation. */
  function Scan(spec: OperationContractSpec): Result<Annotations, Diagnostic>
  {
    ScanParameters(spec, NoAnnotations, 0)
  }

  /**
   * The scan of `EmitOperationContract`: skips parameters that match a contract parameter,
   * stops at the first `[Injected]` with more than one named argument or with a null or
   * empty `PropertyName`, and otherwise records property names and service keys.
   */
  method ScanParameterAttributes(spec: OperationContractSpec) returns (r: Result<Annotations, Diagnostic>)
    ensures r == Scan(spec)
  {
    var ps := spec.implementation.parameters;
    var st := NoAnnotations;
    var i := 0;
    while i < |ps|
      invariant 0 <= i <= |ps|
      invariant Scan(spec) == ScanParameters(spec, st, i)
    {
      if !Matched(spec, ps[i]) {
        var attrs := ps[i].attributes;
        var a := 0;
        while a < |attrs|
          invariant 0 <= a <= |attrs|
          invariant Scan(spec) == ThenParameters(spec, ScanAttributes(st, i, ps[i], attrs[a..]), i)
        {
          assert attrs[a..][0] == attrs[a] && attrs[a..][1..] == attrs[a + 1..];
          match attrs[a] {
            case Injected(named) =>
              if |named| > 1 {
                r := Failure(EitherPropertyNameOrServiceKeyShouldBeSpecified(i));
                return;
              }
              var q := 0;
              while q < |named|
                invariant 0 <= q <= |named|
                invariant Scan(spec) == ThenParameters(spec, ThenAttributes(ScanArguments(st, i, ps[i], named[q..]), i, ps[i], attrs[a + 1..]), i)
              {
                assert named[q..][0] == named[q] && named[q..][1..] == named[q + 1..];
                var arg := named[q];
                if arg.key == "PropertyName" {
                  if arg.value.NullConstant? {
                    r := Failure(PropertyNameCannotBeNullOrEmpty(i));
                    return;
                  }
                  var propertyName := arg.value.text;
                  if propertyName == "" {
                    r := Failure(PropertyNameCannotBeNullOrEmpty(i));
                    return;
                  }
                  st := st.(messagePropertyNames := st.messagePropertyNames[i := propertyName],
                            messageProperties := st.messageProperties + [MessageProperty(propertyName, ps[i].parameterType)]);
                } else if arg.key == "ServiceKey" {
                  st := st.(keyedServices := st.keyedServices[i := arg.value]);
                }
                q := q + 1;
              }
              assert named[q..] == [];
            case FromKeyedServices(key) =>
              st := st.(keyedServices := st.keyedServices[i := key]);
            case FromServices =>
            case OtherAttribute =>
          }
          a := a + 1;
        }
        assert attrs[a..] == [];
      }
      i := i + 1;
    }
    r := Success(st);
  }

  // Failure of the scan does not depend on what was collected before it.

  lemma {:induction false} ScanArgumentsFailure(st: Annotations, i: nat, p: Parameter, args: seq<NamedArgument>)
    ensures ScanArguments(st, i, p, args).Failure? <==> exists q :: 0 <= q < |args| && BadPropertyName(args[q])
    ensures ScanArguments(st, i, p, args).Failure? ==> ScanArguments(st, i, p, args).error == PropertyNameCannotBeNullOrEmpty(i)
    ensures ScanArguments(st, i, p, args).Success? ==>
      ScanArguments(st, i, p, args).value.messagePropertyNames.Keys <= st.messagePropertyNames.Keys + {i}
      && ScanArguments(st, i, p, args).value.keyedServices.Keys <= st.keyedServices.Keys + {i}
    decreases |args|
  {
    if args != [] && !BadPropertyName(args[0]) {
      var arg := args[0];
      var next :=
        if arg.key == "PropertyName" then
          st.(messagePropertyNames := st.messagePropertyNames[i := arg.value.text],
              messageProperties := st.messageProperties + [MessageProperty(arg.value.text, p.parameterType)])
        else if arg.key == "ServiceKey" then st.(keyedServices := st.keyedServices[i := arg.value])
        else st;
      ScanArgumentsFailure(next, i, p, args[1..]);
      assert forall q :: 1 <= q < |args| ==> args[q] == args[1..][q - 1];
    }
  }

  lemma {:induction false} ScanAttributesFailure(st: Annotations, i: nat, p: Parameter, attrs: seq<AttributeData>)
    ensures ScanAttributes(st, i, p, attrs).Failure? <==> exists a :: 0 <= a < |attrs| && InvalidAttribute(attrs[a])
    ensures ScanAttributes(st, i, p, attrs).Failure? ==> ScanAttributes(st, i, p, attrs).error.parameterIndex == i
    ensures ScanAttributes(st, i, p, attrs).Success? ==>
      ScanAttributes(st, i, p, attrs).value.messagePropertyNames.Keys <= st.messagePropertyNames.Keys + {i}
      && ScanAttributes(st, i, p, attrs).value.keyedServices.Keys <= st.keyedServices.Keys + {i}
    decreases |attrs|
  {
    if attrs != [] {
      assert forall a :: 1 <= a < |attrs| ==> attrs[a] == attrs[1..][a - 1];
      match attrs[0]
      case Injected(named) =>
        if |named| <= 1 {
          ScanArgumentsFailure(st, i, p, named);
          var r := ScanArguments(st, i, p, named);
          if r.Success? {
            ScanAttributesFailure(r.value, i, p, attrs[1..]);
          }
        }
      case FromKeyedServices(key) =>
        ScanAttributesFailure(st.(keyedServices := st.keyedServices[i := key]), i, p, attrs[1..]);
      case FromServices =>
        ScanAttributesFailure(st, i, p, attrs[1..]);
      case OtherAttribute =>
        ScanAttributesFailure(st, i, p, attrs[1..]);
    }
  }

  /** The implementation parameter at `i` carries an attribute the scan rejects, and is not matched. */
  predicate RejectedParameter(spec: OperationContractSpec, i: nat)
  {
    var ps := spec.implementation.parameters;
    i < |ps| && !Matched(spec, ps[i]) && exists a :: 0 <= a < |ps[i].attributes| && InvalidAttribute(ps[i].attributes[a])
  }

  /** Every key collected so far names an unmatched parameter before `i`. */
  predicate KeysOfUnmatched(spec: OperationContractSpec, st: Annotations, i: nat)
  {
    var ps := spec.implementation.parameters;
    (forall k :: k in st.messagePropertyNames ==> k < i && k < |ps| && !Matched(spec, ps[k]))
    && (forall k :: k in st.keyedServices ==> k < i && k < |ps| && !Matched(spec, ps[k]))
  }

  lemma {:induction false} ScanParametersFailure(spec: OperationContractSpec, st: Annotations, i: nat)
    requires KeysOfUnmatched(spec, st, i)
    ensures ScanParameters(spec, st, i).Failure? <==> exists j :: i <= j && RejectedParameter(spec, j)
    ensures ScanParameters(spec, st, i).Failure? ==> RejectedParameter(spec, ScanParameters(spec, st, i).error.parameterIndex)
    ensures ScanParameters(spec, st, i).Success? ==> KeysOfUnmatched(spec, ScanParameters(spec, st, i).value, |spec.implementation.parameters|)
    decreases |spec.implementation.parameters| - i
  {
    var ps := spec.implementation.parameters;
    if i < |ps| {
      if Matched(spec, ps[i]) {
        ScanParametersFailure(spec, st, i + 1);
        assert !RejectedParameter(spec, i);
      } else {
        ScanAttributesFailure(st, i, ps[i], ps[i].attributes);
        var r := ScanAttributes(st, i, ps[i], ps[i].attributes);
        if r.Success? {
          ScanParametersFailure(spec, r.value, i + 1);
          assert !RejectedParameter(spec, i);
        } else {
          assert RejectedParameter(spec, i);
        }
      }
    } else {
      assert forall j :: i <= j ==> !RejectedParameter(spec, j);
    }
  }

  /**
   * Validation: the operation is rejected exactly when some implementation parameter without a
   * contract counterpart carries an `[Injected]` attribute with more than one named argument
   * or with a null or empty `PropertyName`; the one diagnostic names such a parameter. When it
   * is accepted, property names and service keys are recorded only for unmatched parameters.
   */
  lemma ScanOutcome(spec: OperationContractSpec)
    ensures Scan(spec).Failure? <==> exists j :: RejectedParameter(spec, j)
    ensures Scan(spec).Failure? ==> RejectedParameter(spec, Scan(spec).error.parameterIndex)
    ensures Scan(spec).Success? ==> KeysOfUnmatched(spec, Scan(spec).value, |spec.implementation.parameters|)
  {
    ScanParametersFailure(spec, NoAnnotations, 0);
  }

  // What an accepted scan records, stated attribute by attribute.

  /** The property name one attribute binds: `[Injected(PropertyName = n)]`. */
  function AttributePropertyName(a: AttributeData): Option<string>
  {
    if a.Injected? && |a.namedArguments| == 1 && a.namedArguments[0].key == "PropertyName"
       && a.namedArguments[0].value.Constant?
    then Some(a.namedArguments[0].value.text)
    else Option.None
  }

  /** The service key one attribute binds: `[Injected(ServiceKey = k)]` or `[FromKeyedServices(k)]`. */
  function AttributeServiceKey(a: AttributeData): Option<TypedConstant>
  {
    match a
    case Injected(named) => if |named| == 1 && named[0].key == "ServiceKey" then Some(named[0].value) else Option.None
    case FromKeyedServices(key) => Some(key)
    case _ => Option.None
  }

  /** The property name bound by the last attribute that binds one, if any does. */
  function LastPropertyName(attrs: seq<AttributeData>): Option<string>
  {
    if attrs == [] then Option.None
    else
      var later := LastPropertyName(attrs[1..]);
      if later.Some? then later else AttributePropertyName(attrs[0])
  }

  /** The service key bound by the last attribute that binds one, if any does. */
  function LastServiceKey(attrs: seq<AttributeData>): Option<TypedConstant>
  {
    if attrs == [] then Option.None
    else
      var later := LastServiceKey(attrs[1..]);
      if later.Some? then later else AttributeServiceKey(attrs[0])
  }

  /** One message property per attribute that binds a property name, in attribute order. */
  function BoundProperties(attrs: seq<AttributeData>, t: TypeId): seq<MessageProperty>
  {
    if attrs == [] then []
    else
      (match AttributePropertyName(attrs[0]) case Some(n) => [MessageProperty(n, t)] case _ => [])
      + BoundProperties(attrs[1..], t)
  }

  /** The message properties bound by the unmatched parameters from `i` on, in parameter order. */
  function UnmatchedProperties(spec: OperationContractSpec, i: nat): seq<MessageProperty>
    decreases |spec.implementation.parameters| - i
  {
    var ps := spec.implementation.parameters;
    if i >= |ps| then []
    else
      var here := if Matched(spec, ps[i]) then [] else BoundProperties(ps[i].attributes, ps[i].parameterType);
      here + UnmatchedProperties(spec, i + 1)
  }

  /** `m` binds `key` to `value` when there is one, and leaves it unbound otherwise. */
  predicate BindsTo<V(==)>(m: map<nat, V>, key: nat, value: Option<V>)
  {
    (key in m <==> value.Some?) && (key in m ==> m[key] == value.value)
  }

  /** `a` and `b` agree on `key`. */
  predicate SameAt<V(==)>(a: map<nat, V>, b: map<nat, V>, key: nat)
  {
    (key in a <==> key in b) && (key in a ==> a[key] == b[key])
  }

  /** The update one attribute makes, when it is accepted. */
  function WithAttribute(st: Annotations, i: nat, p: Parameter, a: AttributeData): Annotations
  {
    var names := match AttributePropertyName(a) case Some(n) => st.messagePropertyNames[i := n] case _ => st.messagePropertyNames;
    var keys := match AttributeServiceKey(a) case Some(k) => st.keyedServices[i := k] case _ => st.keyedServices;
    var props := match AttributePropertyName(a) case Some(n) => [MessageProperty(n, p.parameterType)] case _ => [];
    Annotations(names, keys, st.messageProperties + props)
  }

  /** An accepted `[Injected]` has at most one named argument, and records what it binds. */
  lemma InjectedRecords(st: Annotations, i: nat, p: Parameter, named: seq<NamedArgument>)
    requires |named| <= 1 && ScanArguments(st, i, p, named).Success?
    ensures ScanArguments(st, i, p, named).value == WithAttribute(st, i, p, Injected(named))
  {
    if named != [] {
      assert named[1..] == [];
    } else {
      assert st.messageProperties + [] == st.messageProperties;
    }
  }

  /** An accepted scan of attributes applies the first attribute's update, then scans the rest. */
  lemma ScanAttributesStep(st: Annotations, i: nat, p: Parameter, attrs: seq<AttributeData>)
    requires attrs != [] && ScanAttributes(st, i, p, attrs).Success?
    ensures ScanAttributes(st, i, p, attrs) == ScanAttributes(WithAttribute(st, i, p, attrs[0]), i, p, attrs[1..])
  {
    match attrs[0] {
      case Injected(named) =>
        InjectedRecords(st, i, p, named);
      case _ =>
        assert st.messageProperties + [] == st.messageProperties;
    }
  }

  /**
   * The attributes of one accepted parameter bind its property name to the one the last
   * attribute binding a property name gives, and leave the map as it was when none does.
   */
  lemma {:induction false} ScanAttributesNames(st: Annotations, i: nat, p: Parameter, attrs: seq<AttributeData>)
    requires ScanAttributes(st, i, p, attrs).Success?
    ensures ScanAttributes(st, i, p, attrs).value.messagePropertyNames ==
      match LastPropertyName(attrs) case Some(n) => st.messagePropertyNames[i := n] case _ => st.messagePropertyNames
    decreases |attrs|
  {
    if attrs != [] {
      var next := WithAttribute(st, i, p, attrs[0]);
      ScanAttributesStep(st, i, p, attrs);
      ScanAttributesNames(next, i, p, attrs[1..]);
      match LastPropertyName(attrs[1..]) {
        case Some(n) =>
          assert next.messagePropertyNames[i := n] == st.messagePropertyNames[i := n];
        case _ =>
      }
    }
  }

  /**
   * The attributes of one accepted parameter bind its service key to the one the last
   * attribute binding a key gives, and leave the map as it was when none does.
   */
  lemma {:induction false} ScanAttributesKeys(st: Annotations, i: nat, p: Parameter, attrs: seq<AttributeData>)
    requires ScanAttributes(st, i, p, attrs).Success?
    ensures ScanAttributes(st, i, p, attrs).value.keyedServices ==
      match LastServiceKey(attrs) case Some(k) => st.keyedServices[i := k] case _ => st.keyedServices
    decreases |attrs|
  {
    if attrs != [] {
      var next := WithAttribute(st, i, p, attrs[0]);
      ScanAttributesStep(st, i, p, attrs);
      ScanAttributesKeys(next, i, p, attrs[1..]);
      match LastServiceKey(attrs[1..]) {
        case Some(k) =>
          assert next.keyedServices[i := k] == st.keyedServices[i := k];
        case _ =>
      }
    }
  }

  /** The attributes of one accepted parameter add one message property per property name, in order. */
  lemma {:induction false} ScanAttributesProperties(st: Annotations, i: nat, p: Parameter, attrs: seq<AttributeData>)
    requires ScanAttributes(st, i, p, attrs).Success?
    ensures ScanAttributes(st, i, p, attrs).value.messageProperties == st.messageProperties + BoundProperties(attrs, p.parameterType)
    decreases |attrs|
  {
    if attrs != [] {
      var next := WithAttribute(st, i, p, attrs[0]);
      ScanAttributesStep(st, i, p, attrs);
      ScanAttributesProperties(next, i, p, attrs[1..]);
      assert next.messageProperties + BoundProperties(attrs[1..], p.parameterType)
        == st.messageProperties + BoundProperties(attrs, p.parameterType);
    } else {
      assert st.messageProperties + [] == st.messageProperties;
    }
  }

  /** An accepted scan of parameter `i` leaves the other parameters' entries as they were. */
  lemma ScanAttributesElsewhere(st: Annotations, i: nat, p: Parameter, attrs: seq<AttributeData>, j: nat)
    requires ScanAttributes(st, i, p, attrs).Success? && j != i
    ensures SameAt(ScanAttributes(st, i, p, attrs).value.messagePropertyNames, st.messagePropertyNames, j)
    ensures SameAt(ScanAttributes(st, i, p, attrs).value.keyedServices, st.keyedServices, j)
  {
    ScanAttributesNames(st, i, p, attrs);
    ScanAttributesKeys(st, i, p, attrs);
  }

  /** An accepted scan of parameter `i` binds its entries as `LastPropertyName` and `LastServiceKey` say. */
  lemma ScanAttributesHere(st: Annotations, i: nat, p: Parameter, attrs: seq<AttributeData>)
    requires ScanAttributes(st, i, p, attrs).Success? && i !in st.messagePropertyNames && i !in st.keyedServices
    ensures BindsTo(ScanAttributes(st, i, p, attrs).value.messagePropertyNames, i, LastPropertyName(attrs))
    ensures BindsTo(ScanAttributes(st, i, p, attrs).value.keyedServices, i, LastServiceKey(attrs))
    ensures forall j :: j in ScanAttributes(st, i, p, attrs).value.messagePropertyNames ==> j in st.messagePropertyNames || j == i
    ensures forall j :: j in ScanAttributes(st, i, p, attrs).value.keyedServices ==> j in st.keyedServices || j == i
  {
    ScanAttributesNames(st, i, p, attrs);
    ScanAttributesKeys(st, i, p, attrs);
  }

  /** From parameter `i` on, an accepted scan appends the bound message properties in parameter order. */
  lemma {:induction false} ScanParametersProperties(spec: OperationContractSpec, st: Annotations, i: nat)
    requires ScanParameters(spec, st, i).Success?
    ensures ScanParameters(spec, st, i).value.messageProperties == st.messageProperties + UnmatchedProperties(spec, i)
    decreases |spec.implementation.parameters| - i
  {
    var ps := spec.implementation.parameters;
    if i >= |ps| {
      assert st.messageProperties + [] == st.messageProperties;
    } else if Matched(spec, ps[i]) {
      ScanParametersProperties(spec, st, i + 1);
    } else {
      var next := ScanAttributes(st, i, ps[i], ps[i].attributes).value;
      ScanAttributesProperties(st, i, ps[i], ps[i].attributes);
      ScanParametersProperties(spec, next, i + 1);
      assert st.messageProperties + UnmatchedProperties(spec, i)
        == next.messageProperties + UnmatchedProperties(spec, i + 1);
    }
  }

  /** From parameter `i` on, an accepted scan keeps the entries of an earlier parameter `j`. */
  lemma {:induction false} ScanParametersKeep(spec: OperationContractSpec, st: Annotations, i: nat, j: nat)
    requires ScanParameters(spec, st, i).Success? && j < i
    ensures SameAt(ScanParameters(spec, st, i).value.messagePropertyNames, st.messagePropertyNames, j)
    ensures SameAt(ScanParameters(spec, st, i).value.keyedServices, st.keyedServices, j)
    decreases |spec.implementation.parameters| - i
  {
    var ps := spec.implementation.parameters;
    if i < |ps| {
      if Matched(spec, ps[i]) {
        ScanParametersKeep(spec, st, i + 1, j);
      } else {
        var next := ScanAttributes(st, i, ps[i], ps[i].attributes).value;
        ScanAttributesElsewhere(st, i, ps[i], ps[i].attributes, j);
        ScanParametersKeep(spec, next, i + 1, j);
      }
    }
  }

  /**
   * From parameter `i` on, an accepted scan binds the entries of every later unmatched
   * parameter `j` as its attributes say, when nothing was recorded from `i` on before.
   */
  lemma {:induction false} ScanParametersBinds(spec: OperationContractSpec, st: Annotations, i: nat, j: nat)
    requires ScanParameters(spec, st, i).Success?
    requires forall k :: k in st.messagePropertyNames ==> k < i
    requires forall k :: k in st.keyedServices ==> k < i
    requires i <= j < |spec.implementation.parameters| && !Matched(spec, spec.implementation.parameters[j])
    ensures BindsTo(ScanParameters(spec, st, i).value.messagePropertyNames, j, LastPropertyName(spec.implementation.parameters[j].attributes))
    ensures BindsTo(ScanParameters(spec, st, i).value.keyedServices, j, LastServiceKey(spec.implementation.parameters[j].attributes))
    decreases |spec.implementation.parameters| - i
  {
    var ps := spec.implementation.parameters;
    if Matched(spec, ps[i]) {
      ScanParametersBinds(spec, st, i + 1, j);
    } else {
      var next := ScanAttributes(st, i, ps[i], ps[i].attributes).value;
      ScanAttributesHere(st, i, ps[i], ps[i].attributes);
      if j == i {
        ScanParametersKeep(spec, next, i + 1, i);
      } else {
        ScanParametersBinds(spec, next, i + 1, j);
      }
    }
  }

  /**
   * What an accepted scan records. Each unmatched parameter's property name is the one its last
   * `[Injected(PropertyName = n)]` gives, and its service key the one its last
   * `[Injected(ServiceKey = k)]` or `[FromKeyedServices(k)]` gives; a parameter with neither has
   * no entry. The message properties to read are the bound names with their parameters' types,
   * in parameter and attribute order.
   */
  lemma ScanRecords(spec: OperationContractSpec)
    requires Scan(spec).Success?
    ensures Scan(spec).value.messageProperties == UnmatchedProperties(spec, 0)
    ensures var r, ps := Scan(spec).value, spec.implementation.parameters;
      forall j :: 0 <= j < |ps| && !Matched(spec, ps[j]) ==>
        BindsTo(r.messagePropertyNames, j, LastPropertyName(ps[j].attributes))
        && BindsTo(r.keyedServices, j, LastServiceKey(ps[j].attributes))
  {
    ScanParametersProperties(spec, NoAnnotations, 0);
    var ps := spec.implementation.parameters;
    forall j | 0 <= j < |ps| && !Matched(spec, ps[j])
      ensures BindsTo(Scan(spec).value.messagePropertyNames, j, LastPropertyName(ps[j].attributes))
      ensures BindsTo(Scan(spec).value.keyedServices, j, LastServiceKey(ps[j].attributes))
    {
      ScanParametersBinds(spec, NoAnnotations, 0, j);
    }
  }

  // ---------------------------------------------------------------------------------------
  // Dependencies: the implementation parameters without a contract counterpart.

  function DependenciesFrom(spec: OperationContractSpec, i: nat): (deps: seq<nat>)
    ensures forall k :: 0 <= k < |deps| ==> i <= deps[k] < |spec.implementation.parameters|
    decreases |spec.implementation.parameters| - i
  {
    var ps := spec.implementation.parameters;
    if i >= |ps| then []
    else (if Matched(spec, ps[i]) then [] else [i]) + DependenciesFrom(spec, i + 1)
  }

  /** `dependencies`: indices of the implementation parameters that match no contract parameter. */
  function Dependencies(spec: OperationContractSpec): (deps: seq<nat>)
    ensures forall k :: 0 <= k < |deps| ==> deps[k] < |spec.implementation.parameters|
  {
    DependenciesFrom(spec, 0)
  }

  lemma {:induction false} DependenciesFromExact(spec: OperationContractSpec, i: nat)
    ensures forall j :: j in DependenciesFrom(spec, i) <==> i <= j < |spec.implementation.parameters| && !Matched(spec, spec.implementation.parameters[j])
    ensures forall k, l :: 0 <= k < l < |DependenciesFrom(spec, i)| ==> DependenciesFrom(spec, i)[k] < DependenciesFrom(spec, i)[l]
    decreases |spec.implementation.parameters| - i
  {
    if i < |spec.implementation.parameters| {
      DependenciesFromExact(spec, i + 1);
    }
  }

  /** The dependencies are exactly the unmatched implementation parameters, in declaration order. */
  lemma DependenciesExact(spec: OperationContractSpec)
    ensures forall j :: j in Dependencies(spec) <==> 0 <= j < |spec.implementation.parameters| && !Matched(spec, spec.implementation.parameters[j])
    ensures forall k, l :: 0 <= k < l < |Dependencies(spec)| ==> Dependencies(spec)[k] < Dependencies(spec)[l]
  {
    DependenciesFromExact(spec, 0);
  }

  predicate IsHttpType(t: TypeId)
  {
    t == HttpContextType || t == HttpRequestType || t == HttpResponseType
  }

  /** Whether the wrapper extracts the HTTP context: some dependency is the context, its request or its response. */
  predicate ReadsHttpContext(spec: OperationContractSpec, deps: seq<nat>)
    requires forall k :: 0 <= k < |deps| ==> deps[k] < |spec.implementation.parameters|
  {
    exists k :: 0 <= k < |deps| && IsHttpType(spec.implementation.parameters[deps[k]].parameterType)
  }

  // ---------------------------------------------------------------------------------------
  // Resolution of each dependency.

  /** Where container lookups go: the fresh scope's provider, or the instance's ambient provider. */
  datatype ServiceProvider = ScopeServiceProvider | AmbientServiceProvider

  datatype ResolutionRule =
    | FromHttpContext
    | FromHttpRequest
    | FromHttpResponse
    | FromMessageProperty(propertyName: string)
    | KeyedService(provider: ServiceProvider, serviceType: TypeId, key: TypedConstant)
    | DefaultService(provider: ServiceProvider, serviceType: TypeId)

  /** A local of the emitted wrapper: `d0`, `d1`, ... in the singleton branch, `e0`, ... otherwise. */
  datatype DependencyVariable = DependencyVariable(prefix: char, index: nat)

  datatype Resolution = Resolution(variable: DependencyVariable, rule: ResolutionRule)

  /**
   * The rule for the dependency at implementation index `d`, in the fixed order: HTTP context,
   * request, response, message property, keyed service, default service.
   */
  function RuleFor(ann: Annotations, p: Parameter, d: nat, provider: ServiceProvider): (rule: ResolutionRule)
    ensures rule.FromMessageProperty? <==> !IsHttpType(p.parameterType) && d in ann.messagePropertyNames
    ensures rule.KeyedService? <==> !IsHttpType(p.parameterType) && d !in ann.messagePropertyNames && d in ann.keyedServices
    ensures rule.DefaultService? <==> !IsHttpType(p.parameterType) && d !in ann.messagePropertyNames && d !in ann.keyedServices
    ensures (rule.KeyedService? || rule.DefaultService?) ==> rule.provider == provider && rule.serviceType == p.parameterType
    ensures rule.FromMessageProperty? ==> rule == FromMessageProperty(ann.messagePropertyNames[d])
    ensures rule.KeyedService? ==> rule.key == ann.keyedServices[d]
    ensures p.parameterType == HttpContextType ==> rule == FromHttpContext
    ensures p.parameterType == HttpRequestType ==> rule == FromHttpRequest
    ensures p.parameterType == HttpResponseType ==> rule == FromHttpResponse
  {
    if p.parameterType == HttpContextType then FromHttpContext
    else if p.parameterType == HttpRequestType then FromHttpRequest
    else if p.parameterType == HttpResponseType then FromHttpResponse
    else if d in ann.messagePropertyNames then FromMessageProperty(ann.messagePropertyNames[d])
    else if d in ann.keyedServices then KeyedService(provider, p.parameterType, ann.keyedServices[d])
    else DefaultService(provider, p.parameterType)
  }

  /**
   * From attribute to resolution: an accepted operation's unmatched parameter that is not an
   * HTTP type and whose last property-name binding is `[Injected(PropertyName = n)]` is read
   * from message property `n`; one with a service key and no property name is the keyed
   * service; one with neither is the default service.
   */
  lemma AttributesDecideRule(spec: OperationContractSpec, j: nat, provider: ServiceProvider)
    requires Scan(spec).Success?
    requires j < |spec.implementation.parameters| && !Matched(spec, spec.implementation.parameters[j])
    requires !IsHttpType(spec.implementation.parameters[j].parameterType)
    ensures var p := spec.implementation.parameters[j];
      var rule := RuleFor(Scan(spec).value, p, j, provider);
      match LastPropertyName(p.attributes)
      case Some(n) => rule == FromMessageProperty(n)
      case _ =>
        match LastServiceKey(p.attributes)
        case Some(k) => rule == KeyedService(provider, p.parameterType, k)
        case _ => rule == DefaultService(provider, p.parameterType)
  {
    ScanRecords(spec);
  }

  function Resolutions(spec: OperationContractSpec, ann: Annotations, deps: seq<nat>, prefix: char, provider: ServiceProvider): seq<Resolution>
    requires forall k :: 0 <= k < |deps| ==> deps[k] < |spec.implementation.parameters|
  {
    seq(|deps|, k requires 0 <= k < |deps| =>
      Resolution(DependencyVariable(prefix, k), RuleFor(ann, spec.implementation.parameters[deps[k]], deps[k], provider)))
  }

  /** `dependencyNames` after naming the first `n` dependencies: keyed by parameter TYPE. */
  function DependencyNames(spec: OperationContractSpec, deps: seq<nat>, prefix: char, names: map<TypeId, DependencyVariable>, n: nat): map<TypeId, DependencyVariable>
    requires n <= |deps|
    requires forall k :: 0 <= k < |deps| ==> deps[k] < |spec.implementation.parameters|
  {
    if n == 0 then names
    else DependencyNames(spec, deps, prefix, names, n - 1)[spec.implementation.parameters[deps[n - 1]].parameterType := DependencyVariable(prefix, n - 1)]
  }

  /**
   * `AppendResolveDependencies`: one local per dependency, resolved by its rule from the given
   * provider, and `dependencyNames[type]` set to that local.
   */
  method AppendResolveDependencies(spec: OperationContractSpec, ann: Annotations, deps: seq<nat>, prefix: char,
                                   provider: ServiceProvider, names: map<TypeId, DependencyVariable>)
    returns (resolutions: seq<Resolution>, names': map<TypeId, DependencyVariable>)
    requires forall k :: 0 <= k < |deps| ==> deps[k] < |spec.implementation.parameters|
    ensures resolutions == Resolutions(spec, ann, deps, prefix, provider)
    ensures names' == DependencyNames(spec, deps, prefix, names, |deps|)
  {
    var ps := spec.implementation.parameters;
    resolutions := [];
    names' := names;
    for i := 0 to |deps|
      invariant resolutions == Resolutions(spec, ann, deps, prefix, provider)[..i]
      invariant names' == DependencyNames(spec, deps, prefix, names, i)
    {
      var variable := DependencyVariable(prefix, i);
      names' := names'[ps[deps[i]].parameterType := variable];
      resolutions := resolutions + [Resolution(variable, RuleFor(ann, ps[deps[i]], deps[i], provider))];
    }
  }

  /** The dependency named last among those of its type. */
  lemma {:induction false} DependencyNameIsLastOfType(spec: OperationContractSpec, deps: seq<nat>, prefix: char,
                                                      names: map<TypeId, DependencyVariable>, n: nat, k: nat)
    requires n <= |deps| && k < n
    requires forall q :: 0 <= q < |deps| ==> deps[q] < |spec.implementation.parameters|
    requires forall q :: k < q < n ==> spec.implementation.parameters[deps[q]].parameterType != spec.implementation.parameters[deps[k]].parameterType
    ensures var t := spec.implementation.parameters[deps[k]].parameterType;
      t in DependencyNames(spec, deps, prefix, names, n) && DependencyNames(spec, deps, prefix, names, n)[t] == DependencyVariable(prefix, k)
    decreases n
  {
    if k < n - 1 {
      DependencyNameIsLastOfType(spec, deps, prefix, names, n - 1, k);
    }
  }

  /**
   * Because `dependencyNames` is keyed by type, when two dependencies share a type the earlier
   * one's local is never the name looked up: both are passed the later one's value.
   */
  lemma SameTypeDependenciesShareName(spec: OperationContractSpec, deps: seq<nat>, prefix: char,
                                      names: map<TypeId, DependencyVariable>, k: nat, l: nat)
    requires k < l < |deps|
    requires forall q :: 0 <= q < |deps| ==> deps[q] < |spec.implementation.parameters|
    requires spec.implementation.parameters[deps[k]].parameterType == spec.implementation.parameters[deps[l]].parameterType
    requires forall q :: l < q < |deps| ==> spec.implementation.parameters[deps[q]].parameterType != spec.implementation.parameters[deps[l]].parameterType
    ensures var t := spec.implementation.parameters[deps[k]].parameterType;
      t in DependencyNames(spec, deps, prefix, names, |deps|)
      && DependencyNames(spec, deps, prefix, names, |deps|)[t] == DependencyVariable(prefix, l)
      && DependencyNames(spec, deps, prefix, names, |deps|)[t] != DependencyVariable(prefix, k)
  {
    DependencyNameIsLastOfType(spec, deps, prefix, names, |deps|, l);
  }

  /** Naming the dependencies defines exactly the keys of their types, on top of the given ones. */
  lemma {:induction false} DependencyNamesKeys(spec: OperationContractSpec, deps: seq<nat>, prefix: char, names: map<TypeId, DependencyVariable>, n: nat)
    requires n <= |deps|
    requires forall q :: 0 <= q < |deps| ==> deps[q] < |spec.implementation.parameters|
    ensures DependencyNames(spec, deps, prefix, names, n).Keys ==
      names.Keys + set q | 0 <= q < n :: spec.implementation.parameters[deps[q]].parameterType
    decreases n
  {
    if n > 0 {
      DependencyNamesKeys(spec, deps, prefix, names, n - 1);
    }
  }

  // ---------------------------------------------------------------------------------------
  // The call to the implementation.

  /** A parameter the call fills with an injected value: it carries one of the three injection attributes. */
  predicate HasInjectionAttribute(p: Parameter)
  {
    exists a :: a in p.attributes && !a.OtherAttribute?
  }

  /** How a contract parameter is forwarded: `ref`, `out`, or plainly (an `in` parameter included). */
  datatype PassingMode = ByValue | ByReference | ByOutput

  function PassingModeOf(k: RefKind): PassingMode
  {
    match k
    case Ref => ByReference
    case Out => ByOutput
    case _ => ByValue
  }

  datatype Argument = InjectedValue(variable: DependencyVariable) | ContractValue(mode: PassingMode, name: string)

  /** The arguments for implementation parameters from `i` on, when `j` contract parameters are used up. */
  function InvocationFrom(spec: OperationContractSpec, names: map<TypeId, DependencyVariable>, i: nat, j: nat): Result<seq<Argument>, Fault>
    decreases |spec.implementation.parameters| - i
  {
    var ps := spec.implementation.parameters;
    var cs := spec.contract.parameters;
    if i >= |ps| then Success([])
    else if HasInjectionAttribute(ps[i]) then
      if ps[i].parameterType !in names then Failure(MissingDependencyName(ps[i].parameterType))
      else Prepend([InjectedValue(names[ps[i].parameterType])], InvocationFrom(spec, names, i + 1, j))
    else if j >= |cs| then Failure(ContractParameterOutOfRange(j))
    else Prepend([ContractValue(PassingModeOf(cs[j].refKind), cs[j].name)], InvocationFrom(spec, names, i + 1, j + 1))
  }

  function Prepend(args: seq<Argument>, r: Result<seq<Argument>, Fault>): Result<seq<Argument>, Fault>
  {
    match r
    case Failure(f) => Failure(f)
    case Success(rest) => Success(args + rest)
  }

  lemma PrependNothing(r: Result<seq<Argument>, Fault>)
    ensures Prepend([], r) == r
  {
    if r.Success? {
      assert [] + r.value == r.value;
    }
  }

  lemma PrependTwice(a: seq<Argument>, b: seq<Argument>, r: Result<seq<Argument>, Fault>)
    ensures Prepend(a, Prepend(b, r)) == Prepend(a + b, r)
  {
    if r.Success? {
      assert a + (b + r.value) == (a + b) + r.value;
    }
  }

  function Invocation(spec: OperationContractSpec, names: map<TypeId, DependencyVariable>): Result<seq<Argument>, Fault>
  {
    InvocationFrom(spec, names, 0, 0)
  }

  /**
   * `AppendInvokeUserProvidedImplementation`: one argument per implementation parameter; an
   * injection-attributed one gets `dependencyNames[its type]`, any other the next contract
   * parameter (counter `j`) with that parameter's `ref`/`out`.
   */
  method AppendInvokeUserProvidedImplementation(spec: OperationContractSpec, names: map<TypeId, DependencyVariable>)
    returns (r: Result<seq<Argument>, Fault>)
    ensures r == Invocation(spec, names)
  {
    var ps := spec.implementation.parameters;
    var cs := spec.contract.parameters;
    var args: seq<Argument> := [];
    var i, j := 0, 0;
    PrependNothing(Invocation(spec, names));
    while i < |ps|
      invariant 0 <= i <= |ps|
      invariant Invocation(spec, names) == Prepend(args, InvocationFrom(spec, names, i, j))
    {
      var parameter := ps[i];
      if HasInjectionAttribute(parameter) {
        if parameter.parameterType !in names {
          r := Failure(MissingDependencyName(parameter.parameterType));
          return;
        }
        PrependTwice(args, [InjectedValue(names[parameter.parameterType])], InvocationFrom(spec, names, i + 1, j));
        args := args + [InjectedValue(names[parameter.parameterType])];
      } else {
        if j >= |cs| {
          r := Failure(ContractParameterOutOfRange(j));
          return;
        }
        var original := cs[j];
        PrependTwice(args, [ContractValue(PassingModeOf(original.refKind), original.name)], InvocationFrom(spec, names, i + 1, j + 1));
        args := args + [ContractValue(PassingModeOf(original.refKind), original.name)];
        j := j + 1;
      }
      i := i + 1;
    }
    assert args + [] == args;
    r := Success(args);
  }

  /** How many of the parameters are not injected, i.e. consume a contract parameter. */
  function NonInjectedCount(ps: seq<Parameter>): nat
  {
    if ps == [] then 0
    else NonInjectedCount(ps[..|ps| - 1]) + (if HasInjectionAttribute(ps[|ps| - 1]) then 0 else 1)
  }

  lemma NonInjectedCountStep(ps: seq<Parameter>, i: nat)
    requires i < |ps|
    ensures NonInjectedCount(ps[..i + 1]) == NonInjectedCount(ps[..i]) + (if HasInjectionAttribute(ps[i]) then 0 else 1)
  {
    assert ps[..i + 1][..i] == ps[..i];
  }

  /** The argument the call passes for implementation parameter `i`. */
  predicate ArgumentFits(spec: OperationContractSpec, names: map<TypeId, DependencyVariable>, i: nat, arg: Argument)
    requires i < |spec.implementation.parameters|
  {
    var ps := spec.implementation.parameters;
    var cs := spec.contract.parameters;
    var c := NonInjectedCount(ps[..i]);
    if HasInjectionAttribute(ps[i]) then ps[i].parameterType in names && arg == InjectedValue(names[ps[i].parameterType])
    else c < |cs| && arg == ContractValue(PassingModeOf(cs[c].refKind), cs[c].name)
  }

  /** The conditions under which emitting the call does not throw. */
  predicate InvocationWellDefined(spec: OperationContractSpec, names: map<TypeId, DependencyVariable>)
  {
    var ps := spec.implementation.parameters;
    (forall i :: 0 <= i < |ps| && HasInjectionAttribute(ps[i]) ==> ps[i].parameterType in names)
    && NonInjectedCount(ps) <= |spec.contract.parameters|
  }

  lemma {:induction false} NonInjectedCountMonotone(ps: seq<Parameter>, i: nat, n: nat)
    requires i <= n <= |ps|
    ensures NonInjectedCount(ps[..i]) <= NonInjectedCount(ps[..n])
    ensures i < n && !HasInjectionAttribute(ps[i]) ==> NonInjectedCount(ps[..i]) < NonInjectedCount(ps[..n])
    decreases n - i
  {
    if i < n {
      NonInjectedCountStep(ps, i);
      NonInjectedCountMonotone(ps, i + 1, n);
    }
  }

  /** The unattributed parameters from `i` on can all be given a contract parameter. */
  predicate ContractSuffices(spec: OperationContractSpec, i: nat)
    requires i <= |spec.implementation.parameters|
  {
    var ps := spec.implementation.parameters;
    NonInjectedCount(ps) <= |spec.contract.parameters| || NonInjectedCount(ps) == NonInjectedCount(ps[..i])
  }

  /** Every attributed parameter from `i` on has a name for its type. */
  predicate NamesSuffice(spec: OperationContractSpec, names: map<TypeId, DependencyVariable>, i: nat)
  {
    var ps := spec.implementation.parameters;
    forall q :: i <= q < |ps| && HasInjectionAttribute(ps[q]) ==> ps[q].parameterType in names
  }

  lemma {:induction false} InvocationFromSucceeds(spec: OperationContractSpec, names: map<TypeId, DependencyVariable>, i: nat)
    requires i <= |spec.implementation.parameters|
    ensures InvocationFrom(spec, names, i, NonInjectedCount(spec.implementation.parameters[..i])).Success?
      <==> NamesSuffice(spec, names, i) && ContractSuffices(spec, i)
    decreases |spec.implementation.parameters| - i
  {
    var ps := spec.implementation.parameters;
    if i < |ps| {
      var c := NonInjectedCount(ps[..i]);
      var n := NonInjectedCount(ps);
      assert ps[..|ps|] == ps;
      NonInjectedCountStep(ps, i);
      NonInjectedCountMonotone(ps, i, |ps|);
      InvocationFromSucceeds(spec, names, i + 1);
      var r := InvocationFrom(spec, names, i, c);
      if HasInjectionAttribute(ps[i]) {
        assert NonInjectedCount(ps[..i + 1]) == c;
        assert ContractSuffices(spec, i) == ContractSuffices(spec, i + 1);
        assert NamesSuffice(spec, names, i) == (ps[i].parameterType in names && NamesSuffice(spec, names, i + 1));
      } else {
        assert NonInjectedCount(ps[..i + 1]) == c + 1 <= n;
        assert NamesSuffice(spec, names, i) == NamesSuffice(spec, names, i + 1);
        if c >= |spec.contract.parameters| {
          assert r.Failure?;
          assert !ContractSuffices(spec, i);
        } else {
          assert ContractSuffices(spec, i) == ContractSuffices(spec, i + 1);
        }
      }
    } else {
      assert ps[..i] == ps;
    }
  }

  lemma {:induction false} InvocationFromArguments(spec: OperationContractSpec, names: map<TypeId, DependencyVariable>, i: nat)
    requires i <= |spec.implementation.parameters|
    ensures var r := InvocationFrom(spec, names, i, NonInjectedCount(spec.implementation.parameters[..i]));
      r.Success? ==>
        (|r.value| == |spec.implementation.parameters| - i
         && forall q :: 0 <= q < |r.value| ==> ArgumentFits(spec, names, i + q, r.value[q]))
    decreases |spec.implementation.parameters| - i
  {
    var ps := spec.implementation.parameters;
    if i < |ps| {
      NonInjectedCountStep(ps, i);
      InvocationFromArguments(spec, names, i + 1);
      var r := InvocationFrom(spec, names, i, NonInjectedCount(ps[..i]));
      var rest := InvocationFrom(spec, names, i + 1, NonInjectedCount(ps[..i + 1]));
      if r.Success? {
        var head: Argument;
        if HasInjectionAttribute(ps[i]) {
          head := InjectedValue(names[ps[i].parameterType]);
        } else {
          var cs := spec.contract.parameters;
          var c := NonInjectedCount(ps[..i]);
          head := ContractValue(PassingModeOf(cs[c].refKind), cs[c].name);
        }
        assert rest.Success? && r.value == [head] + rest.value;
        assert ArgumentFits(spec, names, i, head);
        forall q | 0 <= q < |r.value|
          ensures ArgumentFits(spec, names, i + q, r.value[q])
        {
          if q > 0 {
            assert r.value[q] == rest.value[q - 1];
          }
        }
      }
    }
  }

  /**
   * Argument interleaving: the emitted call passes exactly one argument per implementation
   * parameter; an injection-attributed parameter receives `dependencyNames[its type]`, and the
   * others consume the contract parameters in order, each keeping its `ref`/`out`. It is
   * emitted without a fault exactly when every attributed type has a name and the
   * unattributed parameters do not outnumber the contract's.
   */
  lemma InvocationShape(spec: OperationContractSpec, names: map<TypeId, DependencyVariable>)
    ensures Invocation(spec, names).Success? <==> InvocationWellDefined(spec, names)
    ensures Invocation(spec, names).Success? ==>
      |Invocation(spec, names).value| == |spec.implementation.parameters|
      && forall i :: 0 <= i < |spec.implementation.parameters| ==> ArgumentFits(spec, names, i, Invocation(spec, names).value[i])
  {
    var ps := spec.implementation.parameters;
    assert ps[..0] == [];
    InvocationFromSucceeds(spec, names, 0);
    InvocationFromArguments(spec, names, 0);
  }

  // ---------------------------------------------------------------------------------------
  // The emitted wrapper.

  /** `GetAccessibilityModifier`. */
  function GetAccessibilityModifier(a: Accessibility): string
  {
    match a
    case Private => "private "
    case Protected => "protected "
    case Public => "public "
    case _ => "internal "
  }

  datatype ClassDeclaration = ClassDeclaration(modifier: string, name: string)

  function ClassDeclarationOf(t: TypeDeclaration): ClassDeclaration
  {
    ClassDeclaration(GetAccessibilityModifier(t.accessibility), t.name)
  }

  /** The partial class declarations, outermost container first and the implementation class last. */
  function NestedClasses(enclosing: seq<TypeDeclaration>): seq<ClassDeclaration>
  {
    if enclosing == [] then [] else NestedClasses(enclosing[1..]) + [ClassDeclarationOf(enclosing[0])]
  }

  /**
   * The k-th declaration opened is that of the k-th type counted from the outermost: the
   * outermost container comes first and the implementation class (`enclosing[0]`) last.
   */
  lemma {:induction false} NestedClassesOrder(enclosing: seq<TypeDeclaration>, k: nat)
    requires k < |enclosing|
    ensures |NestedClasses(enclosing)| == |enclosing|
    ensures NestedClasses(enclosing)[k] == ClassDeclarationOf(enclosing[|enclosing| - 1 - k])
    decreases |enclosing|
  {
    NestedClassesLength(enclosing[1..]);
    if k < |enclosing| - 1 {
      NestedClassesOrder(enclosing[1..], k);
    }
  }

  lemma {:induction false} NestedClassesLength(enclosing: seq<TypeDeclaration>)
    ensures |NestedClasses(enclosing)| == |enclosing|
    decreases |enclosing|
  {
    if enclosing != [] {
      NestedClassesLength(enclosing[1..]);
    }
  }

  /** The class-opening loop: push each containing type, innermost first, then pop them all. */
  method OpenClasses(enclosing: seq<TypeDeclaration>) returns (classes: seq<ClassDeclaration>)
    ensures classes == NestedClasses(enclosing)
  {
    var stack: seq<TypeDeclaration> := [];
    var i := 0;
    while i < |enclosing|
      invariant 0 <= i <= |enclosing| && stack == enclosing[..i]
    {
      stack := stack + [enclosing[i]];
      i := i + 1;
    }
    classes := [];
    while |stack| > 0
      invariant stack == enclosing[..|stack|]
      invariant classes == NestedClasses(enclosing[|stack|..])
    {
      var n := |stack| - 1;
      var top := stack[n];
      assert enclosing[n..][1..] == enclosing[n + 1..];
      stack := stack[..n];
      classes := classes + [ClassDeclarationOf(top)];
    }
    assert enclosing[0..] == enclosing;
  }

  /** A message-property read of the wrapper, with its temporary's index (`o{k}`/`p{k}`). */
  datatype PropertyRead = PropertyRead(propertyName: string, propertyType: TypeId, temporary: nat)

  function PropertyReadsFrom(props: seq<MessageProperty>, next: nat): seq<PropertyRead>
  {
    if props == [] then []
    else [PropertyRead(props[0].propertyName, props[0].propertyType, next)] + PropertyReadsFrom(props[1..], next + 1)
  }

  /** The reads of the message properties; temporary 0 is the HTTP context's when it is read. */
  function PropertyReads(props: seq<MessageProperty>, readsHttpContext: bool): seq<PropertyRead>
  {
    PropertyReadsFrom(props, if readsHttpContext then 1 else 0)
  }

  lemma {:induction false} PropertyReadsFromShape(props: seq<MessageProperty>, next: nat)
    ensures |PropertyReadsFrom(props, next)| == |props|
    ensures forall k :: 0 <= k < |props| ==>
      PropertyReadsFrom(props, next)[k] == PropertyRead(props[k].propertyName, props[k].propertyType, next + k)
    decreases |props|
  {
    if props != [] {
      PropertyReadsFromShape(props[1..], next + 1);
    }
  }

  /**
   * Each property read uses its own temporaries, distinct from the other reads' and from the
   * HTTP context's, in the order the properties were collected.
   */
  lemma TemporariesDistinct(props: seq<MessageProperty>, readsHttpContext: bool)
    ensures var propertyReads := PropertyReads(props, readsHttpContext);
      |propertyReads| == |props|
      && (forall k, l :: 0 <= k < l < |propertyReads| ==> propertyReads[k].temporary < propertyReads[l].temporary)
      && (readsHttpContext ==> forall k :: 0 <= k < |propertyReads| ==> propertyReads[k].temporary != 0)
      && (forall k :: 0 <= k < |propertyReads| ==> propertyReads[k].propertyName == props[k].propertyName)
  {
    PropertyReadsFromShape(props, if readsHttpContext then 1 else 0);
  }

  /** The message-property loop with its counter `objectIndex`. */
  method PlanPropertyReads(props: seq<MessageProperty>, readsHttpContext: bool) returns (propertyReads: seq<PropertyRead>)
    ensures propertyReads == PropertyReads(props, readsHttpContext)
  {
    var objectIndex := if readsHttpContext then 1 else 0;
    PropertyReadsFromShape(props, objectIndex);
    propertyReads := [];
    for k := 0 to |props|
      invariant objectIndex == k + (if readsHttpContext then 1 else 0)
      invariant propertyReads == PropertyReads(props, readsHttpContext)[..k]
    {
      propertyReads := propertyReads + [PropertyRead(props[k].propertyName, props[k].propertyType, objectIndex)];
      objectIndex := objectIndex + 1;
    }
  }

  /** A parameter of the wrapper's own declaration. */
  datatype DeclaredParameter = DeclaredParameter(mode: PassingMode, parameterType: TypeId, name: string)

  datatype WrapperDeclaration = WrapperDeclaration(isAsync: bool, returnType: TypeSymbol, name: string, parameters: seq<DeclaredParameter>)

  /**
   * The wrapper is declared with the contract's name, return type and parameters, each with
   * its type and name. `ref` and `out` are written again; an `in` parameter loses its modifier
   * and is declared as a plain one. The wrapper is `async` exactly when the contract returns a
   * `Task` or a `Task<T>`.
   */
  function DeclarationOf(contract: MethodSymbol): (d: WrapperDeclaration)
    ensures d.name == contract.name && d.returnType == contract.returnType
    ensures d.isAsync <==> IsAsync(ReturnShapeOf(contract.returnType))
    ensures |d.parameters| == |contract.parameters|
    ensures forall k :: 0 <= k < |d.parameters| ==>
      d.parameters[k].parameterType == contract.parameters[k].parameterType
      && d.parameters[k].name == contract.parameters[k].name
    ensures forall k :: 0 <= k < |d.parameters| ==>
      (d.parameters[k].mode == ByReference <==> contract.parameters[k].refKind == Ref)
      && (d.parameters[k].mode == ByOutput <==> contract.parameters[k].refKind == Out)
      && (d.parameters[k].mode == ByValue <==> (contract.parameters[k].refKind == RefKind.None || contract.parameters[k].refKind == In))
  {
    WrapperDeclaration(
      IsAsync(ReturnShapeOf(contract.returnType)),
      contract.returnType,
      contract.name,
      seq(|contract.parameters|, k requires 0 <= k < |contract.parameters| =>
        DeclaredParameter(PassingModeOf(contract.parameters[k].refKind), contract.parameters[k].parameterType, contract.parameters[k].name)))
  }

  /** Whether the call is written as `return ...`: not for `void` nor for a plain `Task`. */
  predicate EmitsReturn(shape: ReturnShape)
  {
    !(shape == Void || shape == Task)
  }

  /** One of the two branches: resolve every dependency, then call the implementation. */
  datatype Branch = Branch(resolutions: seq<Resolution>, arguments: seq<Argument>, explicitReturn: bool)

  /** Everything the emitted wrapper of one operation does. */
  datatype WrapperPlan = WrapperPlan(
    containingNamespace: Option<string>,
    classes: seq<ClassDeclaration>,
    declaration: WrapperDeclaration,
    awaitsCall: bool,
    emitsReturn: bool,
    readsHttpContext: bool,
    propertyReads: seq<PropertyRead>,
    singleton: Branch,
    ambient: Branch)

  datatype OperationOutcome = Generated(plan: WrapperPlan) | Reported(diagnostic: Diagnostic) | Crashed(fault: Fault)

  /** What emitting one operation produces. */
  function OutcomeOf(spec: OperationContractSpec): OperationOutcome
  {
    match Scan(spec)
    case Failure(d) => Reported(d)
    case Success(ann) =>
      var deps := Dependencies(spec);
      var shape := ReturnShapeOf(spec.contract.returnType);
      var readsHttp := ReadsHttpContext(spec, deps);
      var singletonNames := DependencyNames(spec, deps, 'd', map[], |deps|);
      var ambientNames := DependencyNames(spec, deps, 'e', singletonNames, |deps|);
      match Invocation(spec, singletonNames)
      case Failure(f) => Crashed(f)
      case Success(singletonArgs) =>
        match Invocation(spec, ambientNames)
        case Failure(f) => Crashed(f)
        case Success(ambientArgs) =>
          Generated(WrapperPlan(
            spec.containingNamespace,
            NestedClasses(spec.enclosingTypes),
            DeclarationOf(spec.contract),
            IsAsync(shape),
            EmitsReturn(shape),
            readsHttp,
            PropertyReads(ann.messageProperties, readsHttp),
            Branch(Resolutions(spec, ann, deps, 'd', ScopeServiceProvider), singletonArgs, !EmitsReturn(shape)),
            Branch(Resolutions(spec, ann, deps, 'e', AmbientServiceProvider), ambientArgs, false)))
  }

  /**
   * `EmitOperationContract`: validate (reporting one diagnostic and emitting nothing on
   * failure), then the namespace and classes, the declaration, the HTTP-context and
   * message-property reads, and the two branches that each resolve every dependency and call.
   */
  method EmitOperationContract(spec: OperationContractSpec) returns (outcome: OperationOutcome)
    ensures outcome == OutcomeOf(spec)
  {
    var scanned := ScanParameterAttributes(spec);
    if scanned.Failure? {
      return Reported(scanned.error);
    }
    var ann := scanned.value;
    var deps := Dependencies(spec);
    var shape := ReturnShapeOf(spec.contract.returnType);
    var classes := OpenClasses(spec.enclosingTypes);
    var readsHttp := ReadsHttpContext(spec, deps);
    var propertyReads := PlanPropertyReads(ann.messageProperties, readsHttp);

    var singletonResolutions, singletonNames := AppendResolveDependencies(spec, ann, deps, 'd', ScopeServiceProvider, map[]);
    var singletonArgs := AppendInvokeUserProvidedImplementation(spec, singletonNames);
    if singletonArgs.Failure? {
      return Crashed(singletonArgs.error);
    }
    var ambientResolutions, ambientNames := AppendResolveDependencies(spec, ann, deps, 'e', AmbientServiceProvider, singletonNames);
    var ambientArgs := AppendInvokeUserProvidedImplementation(spec, ambientNames);
    if ambientArgs.Failure? {
      return Crashed(ambientArgs.error);
    }
    outcome := Generated(WrapperPlan(
      spec.containingNamespace, classes, DeclarationOf(spec.contract),
      IsAsync(shape), EmitsReturn(shape), readsHttp, propertyReads,
      Branch(singletonResolutions, singletonArgs.value, !EmitsReturn(shape)),
      Branch(ambientResolutions, ambientArgs.value, false)));
  }

  // ---------------------------------------------------------------------------------------
  // What one operation's emission guarantees.

  /** An operation is reported exactly when validation rejects one of its unmatched parameters. */
  lemma OutcomeReported(spec: OperationContractSpec)
    ensures OutcomeOf(spec).Reported? <==> exists j :: RejectedParameter(spec, j)
    ensures OutcomeOf(spec).Reported? ==> RejectedParameter(spec, OutcomeOf(spec).diagnostic.parameterIndex)
  {
    ScanOutcome(spec);
  }

  /** The types of the first `n` dependencies. */
  function DependencyTypes(spec: OperationContractSpec, deps: seq<nat>, n: nat): set<TypeId>
    requires n <= |deps|
    requires forall q :: 0 <= q < |deps| ==> deps[q] < |spec.implementation.parameters|
  {
    set q | 0 <= q < n :: spec.implementation.parameters[deps[q]].parameterType
  }

  lemma {:induction false} DependencyNamesValues(spec: OperationContractSpec, deps: seq<nat>, prefix: char, names: map<TypeId, DependencyVariable>, n: nat)
    requires n <= |deps|
    requires forall q :: 0 <= q < |deps| ==> deps[q] < |spec.implementation.parameters|
    ensures forall t :: t in DependencyNames(spec, deps, prefix, names, n) ==>
      if t in DependencyTypes(spec, deps, n)
      then DependencyNames(spec, deps, prefix, names, n)[t].prefix == prefix && DependencyNames(spec, deps, prefix, names, n)[t].index < n
      else t in names && DependencyNames(spec, deps, prefix, names, n)[t] == names[t]
    decreases n
  {
    if n > 0 {
      DependencyNamesValues(spec, deps, prefix, names, n - 1);
      assert DependencyTypes(spec, deps, n) == DependencyTypes(spec, deps, n - 1) + {spec.implementation.parameters[deps[n - 1]].parameterType};
    }
  }

  /** Every implementation parameter carrying an injection attribute has the type of some dependency. */
  predicate InjectedTypesAreDependencyTypes(spec: OperationContractSpec)
  {
    var ps := spec.implementation.parameters;
    var deps := Dependencies(spec);
    forall i :: 0 <= i < |ps| && HasInjectionAttribute(ps[i]) ==> ps[i].parameterType in DependencyTypes(spec, deps, |deps|)
  }

  /**
   * The emitter throws, aborting the whole run, exactly when validation passes but either an
   * injection-attributed parameter's type is the type of no dependency (it has a contract
   * counterpart, so it was never named), or the unattributed parameters outnumber the
   * contract's.
   */
  lemma OutcomeCrashed(spec: OperationContractSpec)
    ensures OutcomeOf(spec).Crashed? <==>
      Scan(spec).Success?
      && !(InjectedTypesAreDependencyTypes(spec) && NonInjectedCount(spec.implementation.parameters) <= |spec.contract.parameters|)
  {
    var deps := Dependencies(spec);
    var singletonNames := DependencyNames(spec, deps, 'd', map[], |deps|);
    var ambientNames := DependencyNames(spec, deps, 'e', singletonNames, |deps|);
    DependencyNamesKeys(spec, deps, 'd', map[], |deps|);
    DependencyNamesKeys(spec, deps, 'e', singletonNames, |deps|);
    assert singletonNames.Keys == DependencyTypes(spec, deps, |deps|);
    assert ambientNames.Keys == DependencyTypes(spec, deps, |deps|);
    InvocationShape(spec, singletonNames);
    InvocationShape(spec, ambientNames);
  }

  /**
   * A generated wrapper's two branches agree: both resolve every dependency by the same rule,
   * the singleton branch from the fresh scope and the other from the ambient provider; both
   * pass the same contract arguments, and each passes to injected parameters only locals it
   * declared itself (`d{k}`, resp. `e{k}`, with `k` below the number of dependencies).
   */
  lemma GeneratedBranches(spec: OperationContractSpec)
    requires OutcomeOf(spec).Generated?
    ensures var plan := OutcomeOf(spec).plan;
      var deps := Dependencies(spec);
      var ps := spec.implementation.parameters;
      |plan.singleton.resolutions| == |deps| == |plan.ambient.resolutions|
      && (forall k :: 0 <= k < |deps| ==> SameRule(plan.singleton.resolutions[k].rule, plan.ambient.resolutions[k].rule))
      && (forall k :: 0 <= k < |deps| ==> UsesProvider(plan.singleton.resolutions[k].rule, ScopeServiceProvider))
      && (forall k :: 0 <= k < |deps| ==> UsesProvider(plan.ambient.resolutions[k].rule, AmbientServiceProvider))
      && |plan.singleton.arguments| == |ps| == |plan.ambient.arguments|
      && (forall i :: 0 <= i < |ps| && !HasInjectionAttribute(ps[i]) ==> plan.singleton.arguments[i] == plan.ambient.arguments[i])
      && (forall i :: 0 <= i < |ps| && HasInjectionAttribute(ps[i]) ==>
            DeclaredLocal(plan.singleton.arguments[i], 'd', |deps|) && DeclaredLocal(plan.ambient.arguments[i], 'e', |deps|))
  {
    var deps := Dependencies(spec);
    var ps := spec.implementation.parameters;
    var singletonNames := DependencyNames(spec, deps, 'd', map[], |deps|);
    var ambientNames := DependencyNames(spec, deps, 'e', singletonNames, |deps|);
    DependencyNamesKeys(spec, deps, 'd', map[], |deps|);
    DependencyNamesValues(spec, deps, 'd', map[], |deps|);
    DependencyNamesKeys(spec, deps, 'e', singletonNames, |deps|);
    DependencyNamesValues(spec, deps, 'e', singletonNames, |deps|);
    InvocationShape(spec, singletonNames);
    InvocationShape(spec, ambientNames);
  }

  /** Two rules that differ at most in the provider they look services up in. */
  predicate SameRule(a: ResolutionRule, b: ResolutionRule)
  {
    match a
    case KeyedService(_, t, key) => b.KeyedService? && b.serviceType == t && b.key == key
    case DefaultService(_, t) => b.DefaultService? && b.serviceType == t
    case _ => a == b
  }

  predicate UsesProvider(rule: ResolutionRule, provider: ServiceProvider)
  {
    (rule.KeyedService? || rule.DefaultService?) ==> rule.provider == provider
  }

  predicate DeclaredLocal(arg: Argument, prefix: char, count: nat)
  {
    arg.InjectedValue? && arg.variable.prefix == prefix && arg.variable.index < count
  }

  // ---------------------------------------------------------------------------------------
  // The whole run.

  /** What `Emit` leaves behind: the wrappers in order, the diagnostics reported, and whether a source file is added. */
  datatype Emitted = Emitted(wrappers: seq<WrapperPlan>, diagnostics: seq<Diagnostic>, addsSource: bool)

  function Outcomes(specs: seq<OperationContractSpec>): seq<OperationOutcome>
  {
    seq(|specs|, k requires 0 <= k < |specs| => OutcomeOf(specs[k]))
  }

  function GeneratedPlans(os: seq<OperationOutcome>): seq<WrapperPlan>
  {
    if os == [] then []
    else GeneratedPlans(os[..|os| - 1]) + (if os[|os| - 1].Generated? then [os[|os| - 1].plan] else [])
  }

  function Diagnostics(os: seq<OperationOutcome>): seq<Diagnostic>
  {
    if os == [] then []
    else Diagnostics(os[..|os| - 1]) + (if os[|os| - 1].Reported? then [os[|os| - 1].diagnostic] else [])
  }

  /**
   * `Emit`: every operation in order; a reported operation contributes its one diagnostic and
   * no wrapper, the others are unaffected; a fault aborts the run; the file is added exactly
   * when there is at least one operation.
   */
  method Emit(specs: seq<OperationContractSpec>) returns (r: Result<Emitted, Fault>)
    ensures r.Failure? <==> FirstFault(Outcomes(specs)).Some?
    ensures r.Failure? ==> FirstFault(Outcomes(specs)) == Some(r.error)
    ensures r.Success? ==> r.value == Emitted(GeneratedPlans(Outcomes(specs)), Diagnostics(Outcomes(specs)), |specs| > 0)
  {
    ghost var os := Outcomes(specs);
    var wrappers: seq<WrapperPlan> := [];
    var diagnostics: seq<Diagnostic> := [];
    for k := 0 to |specs|
      invariant FirstFault(os[..k]) == Option.None
      invariant wrappers == GeneratedPlans(os[..k])
      invariant diagnostics == Diagnostics(os[..k])
    {
      var outcome := EmitOperationContract(specs[k]);
      assert outcome == os[k];
      CollectStep(os, k);
      if outcome.Crashed? {
        FirstFaultExtends(os, k + 1);
        return Failure(outcome.fault);
      } else if outcome.Reported? {
        diagnostics := diagnostics + [outcome.diagnostic];
      } else {
        wrappers := wrappers + [outcome.plan];
      }
    }
    assert os[..|specs|] == os;
    r := Success(Emitted(wrappers, diagnostics, |specs| > 0));
  }

  /** The fault of the first operation whose emission throws, if any. */
  function FirstFault(os: seq<OperationOutcome>): Option<Fault>
  {
    if os == [] then Option.None
    else
      var before := FirstFault(os[..|os| - 1]);
      if before.Some? then before
      else if os[|os| - 1].Crashed? then Some(os[|os| - 1].fault)
      else Option.None
  }

  lemma CollectStep(os: seq<OperationOutcome>, k: nat)
    requires k < |os|
    ensures FirstFault(os[..k + 1]) == (if FirstFault(os[..k]).Some? then FirstFault(os[..k]) else if os[k].Crashed? then Some(os[k].fault) else Option.None)
    ensures GeneratedPlans(os[..k + 1]) == GeneratedPlans(os[..k]) + (if os[k].Generated? then [os[k].plan] else [])
    ensures Diagnostics(os[..k + 1]) == Diagnostics(os[..k]) + (if os[k].Reported? then [os[k].diagnostic] else [])
  {
    assert os[..k + 1][..k] == os[..k];
  }

  /** Once a fault has occurred, later operations do not change which one is reported. */
  lemma {:induction false} FirstFaultExtends(os: seq<OperationOutcome>, n: nat)
    requires n <= |os| && FirstFault(os[..n]).Some?
    ensures FirstFault(os) == FirstFault(os[..n])
    decreases |os| - n
  {
    if n < |os| {
      CollectStep(os, n);
      FirstFaultExtends(os, n + 1);
    } else {
      assert os[..n] == os;
    }
  }

  /**
   * The run is aborted exactly when some operation's emission throws, and then with the fault
   * of the first such operation.
   */
  lemma {:induction false} FirstFaultExact(os: seq<OperationOutcome>)
    ensures FirstFault(os).None? <==> forall k :: 0 <= k < |os| ==> !os[k].Crashed?
    ensures FirstFault(os).Some? ==>
      exists k :: 0 <= k < |os| && os[k] == Crashed(FirstFault(os).value) && forall q :: 0 <= q < k ==> !os[q].Crashed?
  {
    if os != [] {
      var n := |os| - 1;
      FirstFaultExact(os[..n]);
      assert forall q :: 0 <= q < n ==> os[..n][q] == os[q];
      if FirstFault(os[..n]).None? && os[n].Crashed? {
        assert os[n] == Crashed(FirstFault(os).value);
      }
    }
  }

  /** Without a fault, every operation yields exactly one of a wrapper or a diagnostic. */
  lemma {:induction false} OneResultPerOperation(os: seq<OperationOutcome>)
    requires forall k :: 0 <= k < |os| ==> !os[k].Crashed?
    ensures |GeneratedPlans(os)| + |Diagnostics(os)| == |os|
  {
    if os != [] {
      OneResultPerOperation(os[..|os| - 1]);
    }
  }

  // ---------------------------------------------------------------------------------------
  // What a generated wrapper does when called, up to the call into the container.

  /** The ambient operation context of one call. */
  datatype CallContext = CallContext(
    hasServiceProvider: bool,                // the instance context's extensions hold an IServiceProvider
    isSingleton: bool,                       // InstanceContext.IsSingleton
    requestProperties: map<string, Object>,  // the request message's properties
    incomingProperties: map<string, Object>) // the incoming message properties

  datatype CallError = MissingServiceProvider | MissingHttpContext

  const HttpContextPropertyName := "Microsoft.AspNetCore.Http.HttpContext"

  /** `TryGetValue(name, out var o) && o is T p ? p : null`; a type test is exact-name equality here. */
  function ReadProperty(props: map<string, Object>, name: string, t: TypeId): (o: Object)
    ensures o != Null <==> name in props && props[name].Instance? && props[name].typeName == t
    ensures o != Null ==> o == props[name]
  {
    if name in props && props[name].Instance? && props[name].typeName == t then props[name] else Null
  }

  /** The values read before either branch runs, and the branch that runs. */
  datatype Prologue = Prologue(httpContext: Object, propertyValues: seq<Object>, branch: Branch)

  function RunPrologue(plan: WrapperPlan, ctx: CallContext): Result<Prologue, CallError>
  {
    if !ctx.hasServiceProvider then Failure(MissingServiceProvider)
    else
      var http := if plan.readsHttpContext then ReadProperty(ctx.requestProperties, HttpContextPropertyName, HttpContextType) else Null;
      if plan.readsHttpContext && http == Null then Failure(MissingHttpContext)
      else Success(Prologue(
        http,
        seq(|plan.propertyReads|, k requires 0 <= k < |plan.propertyReads| =>
          ReadProperty(ctx.incomingProperties, plan.propertyReads[k].propertyName, plan.propertyReads[k].propertyType)),
        if ctx.isSingleton then plan.singleton else plan.ambient))
  }

  /**
   * A call to a generated wrapper fails before reaching the implementation only for a missing
   * service provider, or for a missing HTTP context when some dependency needs it; when it
   * proceeds, any dependency resolved from the HTTP context finds one, and every service is
   * looked up in the fresh scope exactly when the instance is a singleton.
   */
  lemma PrologueOutcome(spec: OperationContractSpec, ctx: CallContext)
    requires OutcomeOf(spec).Generated?
    ensures var plan := OutcomeOf(spec).plan;
      var r := RunPrologue(plan, ctx);
      (r.Failure? <==>
        (!ctx.hasServiceProvider
         || (ReadsHttpContext(spec, Dependencies(spec)) && ReadProperty(ctx.requestProperties, HttpContextPropertyName, HttpContextType) == Null)))
      && (r.Success? ==>
        (forall k :: 0 <= k < |r.value.branch.resolutions| ==>
           UsesProvider(r.value.branch.resolutions[k].rule, if ctx.isSingleton then ScopeServiceProvider else AmbientServiceProvider))
        && (forall k :: 0 <= k < |r.value.branch.resolutions| && r.value.branch.resolutions[k].rule in {FromHttpContext, FromHttpRequest, FromHttpResponse} ==>
           r.value.httpContext != Null))
  {
    GeneratedBranches(spec);
    var plan := OutcomeOf(spec).plan;
    var deps := Dependencies(spec);
    var r := RunPrologue(plan, ctx);
    if r.Success? {
      forall k | 0 <= k < |r.value.branch.resolutions| && r.value.branch.resolutions[k].rule in {FromHttpContext, FromHttpRequest, FromHttpResponse}
        ensures r.value.httpContext != Null
      {
        assert IsHttpType(spec.implementation.parameters[deps[k]].parameterType);
      }
    }
  }
}
