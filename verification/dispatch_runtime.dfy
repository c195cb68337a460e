/**
 * The run-time side of ahead-of-time dispatch: the canonical string key of an operation
 * method, computed from its reflection description, and the process-wide table from keys
 * to the generated invokers.
 */
module DispatchRuntime {
  import opened Wrappers
  import Strings
  import InvokerGenerator

  /**
   * A reflected parameter type. `fullName` is the reflection full name; for a constructed
   * generic type it carries the arity marker (for example ``System.Collections.Generic.List`1[...]``).
   * A by-reference type is the type of a `ref` or `out` parameter.
   */
  datatype ClrType =
    | Simple(fullName: string)
    | Generic(fullName: string, arguments: seq<ClrType>)
    | ByRef(element: ClrType)

  /** What reflected types from C# compilers look like: names are non-empty, a generic type's
      name has an arity marker, and references are never nested or used as generic arguments. */
  predicate WellFormed(t: ClrType)
  {
    match t
    case Simple(n) => |n| > 0
    case Generic(n, args) => '`' in n && forall a :: a in args ==> !a.ByRef? && WellFormed(a)
    case ByRef(e) => !e.ByRef? && WellFormed(e)
  }

  /** `Type.FullName`: a by-reference type's name is its element's name followed by `&`. */
  function FullName(t: ClrType): (name: string)
    requires WellFormed(t)
    ensures |name| > 0
  {
    match t
    case Simple(n) => n
    case Generic(n, _) => n
    case ByRef(e) => FullName(e) + "&"
  }

  /**
   * `GetParameterFullName`: a generic type is written as its definition's name up to the
   * arity marker, then its arguments written the same way, joined by ", " inside `<` `>`;
   * every other type by its full name.
   */
  function ParameterFullName(t: ClrType): (name: string)
    requires WellFormed(t)
    ensures |name| > 0
  {
    match t
    case Generic(n, args) =>
      n[..Strings.IndexOf(n, '`')] + "<" + Strings.Join(", ", ArgumentNames(args)) + ">"
    case _ => FullName(t)
  }

  function ArgumentNames(args: seq<ClrType>): (names: seq<string>)
    requires forall a :: a in args ==> WellFormed(a)
    ensures |names| == |args|
  {
    if args == [] then [] else [ParameterFullName(args[0])] + ArgumentNames(args[1..])
  }

  /** Generic arguments are written in order, each by the same rule. */
  lemma {:induction false} ArgumentNamesAt(args: seq<ClrType>, k: nat)
    requires forall a :: a in args ==> WellFormed(a)
    requires k < |args|
    ensures ArgumentNames(args)[k] == ParameterFullName(args[k])
    decreases k
  {
    if k > 0 {
      ArgumentNamesAt(args[1..], k - 1);
    }
  }

  /** No by-reference type and no arity marker in any simple type it is built from. */
  predicate PlainlyNamed(t: ClrType)
  {
    match t
    case Simple(n) => '`' !in n
    case Generic(_, args) => forall a :: a in args ==> PlainlyNamed(a)
    case ByRef(_) => false
  }

  /** The arity marker of a generic type never survives into the written name. */
  lemma {:induction false} NoArityMarkerInName(t: ClrType)
    requires WellFormed(t) && PlainlyNamed(t)
    ensures '`' !in ParameterFullName(t)
  {
    match t
    case Simple(_) =>
    case Generic(n, args) =>
      var names := ArgumentNames(args);
      forall k | 0 <= k < |names|
        ensures '`' !in names[k]
      {
        ArgumentNamesAt(args, k);
        NoArityMarkerInName(args[k]);
      }
      Strings.JoinKeepsCharAbsent(", ", names, '`');
      var i := Strings.IndexOf(n, '`');
      assert '`' !in n[..i];
  }

  /** A reflected parameter: its type, whether it is `out`, whether it is a `params` array. */
  datatype ParameterInfo = ParameterInfo(parameterType: ClrType, isOut: bool, isParamArray: bool)

  /** A reflected operation method: declaring type's full name, name and parameters. */
  datatype MethodInfo = MethodInfo(declaringTypeFullName: string, name: string, parameters: seq<ParameterInfo>)

  predicate MethodWellFormed(m: MethodInfo)
  {
    forall p :: p in m.parameters ==> WellFormed(p.parameterType)
  }

  /**
   * `GetParameterString`: the direction (`out ` when the parameter is out, else `ref ` when
   * its type is by-reference), then `params ` for a parameter array, then the type's name,
   * which loses its last character when a direction was written.
   */
  function ParameterString(p: ParameterInfo): string
    requires WellFormed(p.parameterType)
  {
    var direction := if p.isOut then "out " else if p.parameterType.ByRef? then "ref " else "";
    var paramsPrefix := if p.isParamArray then "params " else "";
    var name := ParameterFullName(p.parameterType);
    direction + paramsPrefix + (if direction != "" then name[..|name| - 1] else name)
  }

  /**
   * A by-reference parameter is written with exactly one direction keyword (`out ` when it is
   * out, `ref ` otherwise), then `params ` if it is an array of parameters, then the element
   * type's full name: the trailing `&` is what is dropped.
   */
  lemma ByRefParameterString(p: ParameterInfo)
    requires WellFormed(p.parameterType) && p.parameterType.ByRef?
    ensures ParameterString(p) ==
      (if p.isOut then "out " else "ref ") + (if p.isParamArray then "params " else "") + FullName(p.parameterType.element)
  {
    var name := FullName(p.parameterType);
    assert name[..|name| - 1] == FullName(p.parameterType.element);
  }

  /**
   * A by-reference generic parameter is not recognised as generic: it is written with its
   * element's reflection full name, so the arity marker (and the bracketed argument list that
   * follows it) survives into the parameter string.
   */
  lemma ByRefGenericKeepsArityMarker(p: ParameterInfo)
    requires WellFormed(p.parameterType) && p.parameterType.ByRef? && p.parameterType.element.Generic?
    ensures '`' in ParameterString(p)
  {
    ByRefParameterString(p);
    var prefix := (if p.isOut then "out " else "ref ") + (if p.isParamArray then "params " else "");
    var n := p.parameterType.element.fullName;
    var i := Strings.IndexOf(n, '`');
    assert ParameterString(p)[|prefix| + i] == n[i];
  }

  /** A parameter that is neither out nor by-reference is written without any keyword but `params `. */
  lemma ByValueParameterString(p: ParameterInfo)
    requires WellFormed(p.parameterType) && !p.isOut && !p.parameterType.ByRef?
    ensures ParameterString(p) == (if p.isParamArray then "params " else "") + ParameterFullName(p.parameterType)
  {
  }

  function ParameterStrings(ps: seq<ParameterInfo>): (strs: seq<string>)
    requires forall p :: p in ps ==> WellFormed(p.parameterType)
    ensures |strs| == |ps|
  {
    if ps == [] then [] else [ParameterString(ps[0])] + ParameterStrings(ps[1..])
  }

  /** There is one parameter string per parameter, in declaration order. */
  lemma {:induction false} ParameterStringsAt(ps: seq<ParameterInfo>, k: nat)
    requires forall p :: p in ps ==> WellFormed(p.parameterType)
    requires k < |ps|
    ensures ParameterStrings(ps)[k] == ParameterString(ps[k])
    decreases k
  {
    if k > 0 {
      ParameterStringsAt(ps[1..], k - 1);
    }
  }

  /** The key before any alias or separator rewriting: `Type.Name(` and the parameter strings. */
  function RawKey(m: MethodInfo): string
    requires MethodWellFormed(m)
  {
    KeyHead(m) + Strings.Join(", ", ParameterStrings(m.parameters))
  }

  /** `Type.Name(`: the text the key's builder starts with. */
  function KeyHead(m: MethodInfo): string
  {
    m.declaringTypeFullName + "." + m.name + "("
  }

  /** `s_IntegratedTypesMap`, in its declaration order (the order it is enumerated in). */
  const IntegratedTypes: seq<(string, string)> := [
    ("System.Boolean", "bool"),
    ("System.Byte", "byte"),
    ("System.SByte", "sbyte"),
    ("System.Char", "char"),
    ("System.Decimal", "decimal"),
    ("System.Double", "double"),
    ("System.Single", "single"),
    ("System.Int32", "int"),
    ("System.UInt32", "uint"),
    ("System.IntPtr", "nint"),
    ("System.UIntPtr", "nuint"),
    ("System.Int64", "long"),
    ("System.UInt64", "ulong"),
    ("System.Int16", "short"),
    ("System.UInt16", "ushort"),
    ("System.Object", "object"),
    ("System.String", "string")
  ]

  /** Replaces, one table entry after the other, every occurrence of a full name by its alias. */
  function ApplyAliases(s: string, table: seq<(string, string)>): string
    requires forall k :: 0 <= k < |table| ==> |table[k].0| > 0
  {
    if table == [] then s
    else
      var n := |table| - 1;
      Strings.Replace(ApplyAliases(s, table[..n]), table[n].0, table[n].1)
  }

  /** The canonical key of a method, as `GetKey` computes it. */
  function CanonicalKey(m: MethodInfo): string
    requires MethodWellFormed(m)
  {
    Strings.Replace(ApplyAliases(RawKey(m), IntegratedTypes), "+", ".") + ")"
  }

  /**
   * `GetKey`: writes the raw key, rewrites the 17 primitive full names to their aliases over
   * the whole text (declaring type included), turns nested-type `+` into `.`, and closes with `)`.
   */
  method GetKey(m: MethodInfo) returns (key: string)
    requires MethodWellFormed(m)
    ensures key == CanonicalKey(m)
    ensures |key| > 0 && key[|key| - 1] == ')'
    ensures '+' !in key
  {
    var sb := m.declaringTypeFullName + "." + m.name + "(";
    sb := sb + Strings.Join(", ", ParameterStrings(m.parameters));
    ghost var raw := RawKey(m);
    IntegratedTypesNamed();
    var i := 0;
    while i < |IntegratedTypes|
      invariant 0 <= i <= |IntegratedTypes|
      invariant sb == ApplyAliases(raw, IntegratedTypes[..i])
    {
      ApplyAliasesStep(raw, IntegratedTypes, i);
      sb := Strings.Replace(sb, IntegratedTypes[i].0, IntegratedTypes[i].1);
      i := i + 1;
    }
    assert IntegratedTypes[..i] == IntegratedTypes;
    sb := Strings.Replace(sb, "+", ".");
    Strings.ReplaceRemovesChar(ApplyAliases(raw, IntegratedTypes), '+', ".");
    sb := sb + ")";
    key := sb;
  }

  /** Every full name in the alias table is non-empty. */
  lemma IntegratedTypesNamed()
    ensures forall k :: 0 <= k < |IntegratedTypes| ==> |IntegratedTypes[k].0| > 0
  {
  }

  /** Applying one more table entry replaces that entry's full name in what the earlier ones left. */
  lemma ApplyAliasesStep(s: string, table: seq<(string, string)>, i: nat)
    requires forall k :: 0 <= k < |table| ==> |table[k].0| > 0
    requires i < |table|
    ensures ApplyAliases(s, table[..i + 1]) == Strings.Replace(ApplyAliases(s, table[..i]), table[i].0, table[i].1)
  {
    assert table[..i + 1][..i] == table[..i];
  }

  /** Whether any of the table's full names occurs in `s`. */
  predicate MentionsIntegratedType(s: string)
  {
    exists k :: 0 <= k < |IntegratedTypes| && Strings.Occurs(IntegratedTypes[k].0, s)
  }

  lemma {:induction false} AliasesLeaveUnmentioned(s: string, table: seq<(string, string)>)
    requires forall k :: 0 <= k < |table| ==> |table[k].0| > 0 && !Strings.Occurs(table[k].0, s)
    ensures ApplyAliases(s, table) == s
    decreases |table|
  {
    if table != [] {
      var n := |table| - 1;
      AliasesLeaveUnmentioned(s, table[..n]);
      Strings.ReplaceWithoutOccurrence(s, table[n].0, table[n].1);
    }
  }

  /**
   * When neither a primitive full name nor a `+` occurs in the raw key, the canonical key is
   * the raw key closed by `)`; in particular a method without parameters yields `Type.Name()`.
   */
  lemma KeyOfPlainMethod(m: MethodInfo)
    requires MethodWellFormed(m)
    requires !MentionsIntegratedType(RawKey(m)) && '+' !in RawKey(m)
    ensures CanonicalKey(m) == RawKey(m) + ")"
    ensures m.parameters == [] ==> CanonicalKey(m) == m.declaringTypeFullName + "." + m.name + "()"
  {
    AliasesLeaveUnmentioned(RawKey(m), IntegratedTypes);
    NoCharNoOccurrence(RawKey(m), '+');
    Strings.ReplaceWithoutOccurrence(RawKey(m), "+", ".");
  }

  lemma {:induction false} NoCharNoOccurrence(s: string, c: char)
    requires c !in s
    ensures !Strings.Occurs([c], s)
    decreases |s|
  {
    if |s| >= 1 {
      assert s[..1] == [s[0]];
      NoCharNoOccurrence(s[1..], c);
    }
  }

  /**
   * In the raw key the parameter strings follow the opening parenthesis in declaration order,
   * each but the last followed by exactly ", ".
   */
  lemma RawKeyParameterLayout(m: MethodInfo, k: nat)
    requires MethodWellFormed(m) && k < |m.parameters|
    ensures Strings.WrittenAt(RawKey(m), ParameterStart(m, k), ParameterStrings(m.parameters)[k])
    ensures k + 1 < |m.parameters| ==>
      Strings.WrittenAt(RawKey(m), ParameterStart(m, k) + |ParameterStrings(m.parameters)[k]|, ", ")
  {
    RawKeyPlacement(KeyHead(m), ParameterStrings(m.parameters), RawKey(m), k);
  }

  /** Where the k-th parameter string starts in the raw key. */
  function ParameterStart(m: MethodInfo, k: nat): nat
    requires MethodWellFormed(m) && k < |m.parameters|
  {
    |KeyHead(m)| + Strings.JoinOffset(", ", ParameterStrings(m.parameters), k)
  }

  /** The placement of one element of a ", "-join written after a head, stated for the raw key's parts. */
  lemma RawKeyPlacement(head: string, strs: seq<string>, raw: string, k: nat)
    requires raw == head + Strings.Join(", ", strs) && k < |strs|
    ensures Strings.WrittenAt(raw, |head| + Strings.JoinOffset(", ", strs, k), strs[k])
    ensures k + 1 < |strs| ==> Strings.WrittenAt(raw, |head| + Strings.JoinOffset(", ", strs, k) + |strs[k]|, ", ")
  {
    Strings.PrefixedJoinPlacement(head, ", ", strs, k);
  }

  /**
   * `DispatchOperationRuntimeHelpers.OperationInvokers`: the process-wide table from canonical
   * keys to generated invokers, filled by the generated registration hooks.
   */
  class InvokerRegistry {
    var operationInvokers: map<string, InvokerGenerator.OperationInvoker>

    constructor ()
      ensures operationInvokers == map[]
    {
      operationInvokers := map[];
    }

    /** `RegisterOperationInvoker`: a dictionary store, so a second registration of a key replaces the first. */
    method RegisterOperationInvoker(key: string, invoker: InvokerGenerator.OperationInvoker)
      modifies this
      ensures operationInvokers == old(operationInvokers)[key := invoker]
      ensures key in operationInvokers && operationInvokers[key] == invoker
      ensures forall k :: k != key ==> (k in operationInvokers <==> k in old(operationInvokers))
      ensures forall k :: k != key && k in operationInvokers ==> operationInvokers[k] == old(operationInvokers)[k]
    {
      operationInvokers := operationInvokers[key := invoker];
    }

    /** The registration hooks of several generated invokers, run one after the other. */
    method RegisterEach(registrations: seq<(string, InvokerGenerator.OperationInvoker)>)
      modifies this
      ensures operationInvokers == RegisterAll(old(operationInvokers), registrations)
    {
      for k := 0 to |registrations|
        invariant operationInvokers == RegisterAll(old(operationInvokers), registrations[..k])
      {
        assert registrations[..k + 1][..k] == registrations[..k];
        RegisterOperationInvoker(registrations[k].0, registrations[k].1);
      }
      assert registrations[..|registrations|] == registrations;
    }

    /** The dispatcher's lookup: the registered invoker, or nothing when the key was never registered. */
    method TryGetInvoker(key: string) returns (r: Option<InvokerGenerator.OperationInvoker>)
      ensures r.Some? <==> key in operationInvokers
      ensures r.Some? ==> r.value == operationInvokers[key]
    {
      if key in operationInvokers {
        r := Some(operationInvokers[key]);
      } else {
        r := None;
      }
    }
  }

  /** The table after a series of registrations, applied in order to `table`. */
  function RegisterAll<V>(table: map<string, V>, registrations: seq<(string, V)>): map<string, V>
  {
    if registrations == [] then table
    else
      var n := |registrations| - 1;
      RegisterAll(table, registrations[..n])[registrations[n].0 := registrations[n].1]
  }

  /**
   * After any series of registrations, a key maps to the invoker of its LAST registration
   * (earlier ones are silently overwritten), and keys never registered keep their entries.
   */
  lemma {:induction false} LastRegistrationWins<V>(table: map<string, V>, registrations: seq<(string, V)>, k: nat)
    requires k < |registrations|
    requires forall q :: k < q < |registrations| ==> registrations[q].0 != registrations[k].0
    ensures var key := registrations[k].0;
      key in RegisterAll(table, registrations) && RegisterAll(table, registrations)[key] == registrations[k].1
    decreases |registrations|
  {
    var n := |registrations| - 1;
    if k < n {
      LastRegistrationWins(table, registrations[..n], k);
    }
  }

  lemma {:induction false} UnregisteredKeysUnchanged<V>(table: map<string, V>, registrations: seq<(string, V)>, key: string)
    requires forall q :: 0 <= q < |registrations| ==> registrations[q].0 != key
    ensures (key in RegisterAll(table, registrations)) == (key in table)
    ensures key in table ==> RegisterAll(table, registrations)[key] == table[key]
    decreases |registrations|
  {
    if registrations != [] {
      UnregisteredKeysUnchanged(table, registrations[..|registrations| - 1], key);
    }
  }
}
