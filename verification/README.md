# CoreWCF ahead-of-time dispatch, in Dafny

CoreWCF can dispatch service operations without reflection-based invocation. Three parts of it are modelled here:

- **The operation invoker generator.** At build time it emits one `OperationInvoker` class per operation contract method. Each class allocates the input and output arrays and calls the method with the right `ref`/`out` plumbing.
- **The dispatch runtime helpers.** Each generated class registers itself under a canonical string key. At run time the dispatcher computes a key from the reflected method, meant to match the one the invoker was registered under, and looks the invoker up.
- **The parameter-injection generator.** A service implementation may declare parameters the contract does not have, such as services from the container, message properties or the HTTP context. For each such operation the generator emits a wrapper with the contract's signature, except that an `in` modifier is dropped. The wrapper resolves the extra parameters and calls the implementation.

The Kafka transport's per-message context is modelled as well. It is a property dictionary with a partition-key accessor.

Modules:

- `Wrappers`: `Option` and `Result`.
- `Strings`: `StringBuilder.Replace` as left-to-right, non-overlapping ordinal replacement, and `string.Join`, with their lemmas.
- `Symbols`: parameter directions, return types and their calling convention, and run-time objects.
- `InvokerGenerator`: the per-operation invoker plan. It includes the `OperationInvoker` class, which runs that plan over arrays.
- `DispatchRuntime`: canonical keys, and the registry class.
- `InjectionGenerator`: validation, dependencies, resolution rules, argument interleaving, the wrapper plan, the generator run, and the wrapper's prologue at call time.
- `KafkaContext`: the message context class over a shared dictionary.

Generated C# text is represented by the decisions it hard-codes (plans), not by characters. File names and keys are the exception; they are strings and are modelled as such.

## Model

| member | source | states |
|---|---|---|
| Symbols.ReturnShapeOf | src/CoreWCF.BuildTools/src/OperationInvokerGenerator.Emitter.cs:58-63 | A return type is the plain-`Task` convention iff it displays as `System.Threading.Tasks.Task`. It is `Task<T>` iff it is constructed from `Task<>`. It is void iff it is `void`. Everything else returns a value. |
| InvokerGenerator.EveryParameterFlows | src/CoreWCF.BuildTools/src/OperationInvokerGenerator.Emitter.cs:202-210 | Every direction flows in or out, and only `ref` flows both ways. |
| InvokerGenerator.PassedByReferenceIffFlowsOut | src/CoreWCF.BuildTools/src/OperationInvokerGenerator.Emitter.cs:212-220 | The call writes a `ref`/`out` modifier exactly for the parameters whose value is copied back. An `in` parameter gets no modifier. |
| InvokerGenerator.OutputParams | src/CoreWCF.BuildTools/src/OperationInvokerGenerator.Emitter.cs:73-90 | Output pair k has output index k and names a parameter that flows out. There are `outputParameterCount` of them. |
| InvokerGenerator.InputSlotsExact | src/CoreWCF.BuildTools/src/OperationInvokerGenerator.Emitter.cs:79-83 | The input slot read by each flowing-in parameter is below `inputParameterCount`. Slots strictly increase with the parameter's position, so no two parameters read the same slot. |
| InvokerGenerator.EverySlotIsRead | src/CoreWCF.BuildTools/src/OperationInvokerGenerator.Emitter.cs:79-83 | Every input slot below `inputParameterCount` is read by some parameter. |
| InvokerGenerator.OutputParamsIncreasing | src/CoreWCF.BuildTools/src/OperationInvokerGenerator.Emitter.cs:85-90 | The output pairs name the flowing-out parameters in strictly increasing declaration order. |
| InvokerGenerator.OutputParamsComplete | src/CoreWCF.BuildTools/src/OperationInvokerGenerator.Emitter.cs:85-90 | Every flowing-out parameter is named by some output pair. |
| InvokerGenerator.ArityExample | src/CoreWCF.BuildTools/src/OperationInvokerGenerator.Emitter.cs:70-94 | Directions (none, out, ref, in) give 3 inputs, 2 outputs and the output pairs (0,1) and (1,2). |
| InvokerGenerator.OutputParamsAppend | src/CoreWCF.BuildTools/src/OperationInvokerGenerator.Emitter.cs:85-90 | One more parameter adds one output pair, numbered by the outputs before it, exactly when it flows out. |
| InvokerGenerator.PlanStep | src/CoreWCF.BuildTools/src/OperationInvokerGenerator.Emitter.cs:76-93 | One round of the loop over the parameters: a flowing-in parameter reads the next input slot, a flowing-out one adds the next output pair, and every parameter adds its modifier. |
| InvokerGenerator.ArgumentsAt | src/CoreWCF.BuildTools/src/OperationInvokerGenerator.Emitter.cs:78-83 | The slot the emitter assigns to parameter i is the input that parameter consumes when inputs are consumed left to right. A parameter that does not flow in is left unassigned. |
| InvokerGenerator.OutValuesAt | src/CoreWCF.BuildTools/src/OperationInvokerGenerator.Emitter.cs:119-124 | Output slot k receives the post-call value of the parameter the k-th output pair names. |
| InvokerGenerator.OperationInvoker.AllocateInputs | src/CoreWCF.BuildTools/src/OperationInvokerGenerator.Emitter.cs:152-160 | The array has one slot per flowing-in parameter. When there are none it is the shared empty array; otherwise it is a fresh array. |
| InvokerGenerator.OperationInvoker.AllocateOutputs | src/CoreWCF.BuildTools/src/OperationInvokerGenerator.Emitter.cs:162-170 | The array has one slot per flowing-out parameter, with the shared empty array when there are none. |
| InvokerGenerator.OperationInvoker.InvokeAsync | src/CoreWCF.BuildTools/src/OperationInvokerGenerator.Emitter.cs:66-147 | The method is called with the inputs consumed left to right. The outputs hold the post-call values of the `ref`/`out` parameters in declaration order. The return value is the call's result for value-returning and `Task<T>` methods, and null for `void` and `Task`. Every array access is in bounds. |
| InvokerGenerator.FileNameShape | src/CoreWCF.BuildTools/src/OperationInvokerGenerator.Emitter.cs:187-199 | A generated file name ends in `_OperationInvoker.g.cs`. The part taken from the method contains none of `. < > ( ) [ ]` or space. |
| InvokerGenerator.EmitOperationContract | src/CoreWCF.BuildTools/src/OperationInvokerGenerator.Emitter.cs:58-185 | The single pass over the parameters computes exactly the reference plan: the counts, the slots, the output pairs, the modifiers and the calling convention. It also computes the file name. |
| InvokerGenerator.Emit | src/CoreWCF.BuildTools/src/OperationInvokerGenerator.Emitter.cs:58-185 | There is one generated invoker per operation contract, in order, each as specified above. |
| DispatchRuntime.FullName | src/CoreWCF.Primitives/src/CoreWCF/Dispatcher/DispatchOperationRuntimeHelpers.cs:66-80 | A type's full name is non-empty. A by-reference type's name is its element's name with `&` appended. |
| DispatchRuntime.NoArityMarkerInName | src/CoreWCF.Primitives/src/CoreWCF/Dispatcher/DispatchOperationRuntimeHelpers.cs:66-80 | For a type built only from generic types and simple names without an arity marker (no by-reference part, no array of a generic type), the arity marker never survives into the written type name. |
| DispatchRuntime.ArgumentNamesAt | src/CoreWCF.Primitives/src/CoreWCF/Dispatcher/DispatchOperationRuntimeHelpers.cs:74 | Generic arguments are written in order, each by the same rule. |
| DispatchRuntime.ByRefParameterString | src/CoreWCF.Primitives/src/CoreWCF/Dispatcher/DispatchOperationRuntimeHelpers.cs:34-64 | A by-reference parameter is written as `out ` if it is out and `ref ` otherwise, then `params ` if it is a parameter array, then the element type's full name. The trailing `&` is the dropped character. |
| DispatchRuntime.ByRefGenericKeepsArityMarker | src/CoreWCF.Primitives/src/CoreWCF/Dispatcher/DispatchOperationRuntimeHelpers.cs:34-80 | A by-reference generic parameter is not treated as generic: it is written from its element's reflection full name, so the arity marker stays in the parameter string. |
| DispatchRuntime.ByValueParameterString | src/CoreWCF.Primitives/src/CoreWCF/Dispatcher/DispatchOperationRuntimeHelpers.cs:34-64 | A parameter that is neither out nor by-reference gets no direction keyword. |
| DispatchRuntime.ParameterStringsAt | src/CoreWCF.Primitives/src/CoreWCF/Dispatcher/DispatchOperationRuntimeHelpers.cs:24 | There is one parameter string per parameter, in declaration order. |
| DispatchRuntime.RawKeyParameterLayout | src/CoreWCF.Primitives/src/CoreWCF/Dispatcher/DispatchOperationRuntimeHelpers.cs:23-24 | After `Type.Name(` the parameter strings follow in order, each but the last followed by exactly `", "`. |
| DispatchRuntime.GetKey | src/CoreWCF.Primitives/src/CoreWCF/Dispatcher/DispatchOperationRuntimeHelpers.cs:21-32 | The key is the raw key with the 17 aliases applied in table order over the whole text, declaring type and generic arguments included, then `+` turned into `.`, then `)` appended. A full name that is only a prefix of a longer one is rewritten too, and `System.Single` becomes `single`. The key ends with `)` and contains no `+`. |
| DispatchRuntime.AliasesLeaveUnmentioned | src/CoreWCF.Primitives/src/CoreWCF/Dispatcher/DispatchOperationRuntimeHelpers.cs:25-28 | Alias substitution leaves a text that mentions none of the table's names unchanged. |
| DispatchRuntime.KeyOfPlainMethod | src/CoreWCF.Primitives/src/CoreWCF/Dispatcher/DispatchOperationRuntimeHelpers.cs:21-32 | Without primitive names or `+`, the key is the raw key closed by `)`. A method without parameters has key `Type.Name()`. |
| DispatchRuntime.InvokerRegistry.RegisterOperationInvoker | src/CoreWCF.Primitives/src/CoreWCF/Dispatcher/DispatchOperationRuntimeHelpers.cs:16-19 | The key maps to the new invoker, and every other key keeps its entry. A second registration of a key silently replaces the first. |
| DispatchRuntime.InvokerRegistry.RegisterEach | src/CoreWCF.Primitives/src/CoreWCF/Dispatcher/DispatchOperationRuntimeHelpers.cs:16-19 | Registrations run one after the other and give the table `RegisterAll` describes. |
| DispatchRuntime.InvokerRegistry.TryGetInvoker | src/CoreWCF.Primitives/src/CoreWCF/Dispatcher/DispatchOperationRuntimeHelpers.cs:14 | The lookup finds an invoker iff the key was registered, and returns that invoker. |
| DispatchRuntime.LastRegistrationWins | src/CoreWCF.Primitives/src/CoreWCF/Dispatcher/DispatchOperationRuntimeHelpers.cs:16-19 | A second registration under a key silently replaces the first: after a series of registrations, a key maps to the invoker of its last registration. |
| DispatchRuntime.UnregisteredKeysUnchanged | src/CoreWCF.Primitives/src/CoreWCF/Dispatcher/DispatchOperationRuntimeHelpers.cs:16-19 | Keys not registered keep their entries. |
| Strings.ReplaceRemovesChar | src/CoreWCF.Primitives/src/CoreWCF/Dispatcher/DispatchOperationRuntimeHelpers.cs:29 | Replacing every occurrence of a character with a text that lacks it leaves none behind. |
| InjectionGenerator.ScanParameterAttributes | src/CoreWCF.BuildTools/src/OperationParameterInjectionGenerator.Emitter.cs:62-116 | The attribute scan follows the code. It skips parameters that match a contract parameter. It stops at the first `[Injected]` with more than one named argument, or with a null or empty `PropertyName`. Otherwise it records property names and service keys, including `[FromKeyedServices]`. |
| InjectionGenerator.ScanOutcome | src/CoreWCF.BuildTools/src/OperationParameterInjectionGenerator.Emitter.cs:62-116 | An operation is rejected iff some unmatched parameter has an invalid `[Injected]` attribute. The one diagnostic names such a parameter. Property names and service keys are recorded only for unmatched parameters. |
| InjectionGenerator.ScanRecords | src/CoreWCF.BuildTools/src/OperationParameterInjectionGenerator.Emitter.cs:62-116 | In an accepted scan, each unmatched parameter's property name is the one its last `[Injected(PropertyName = n)]` gives. Its service key is the one its last `[Injected(ServiceKey = k)]` or `[FromKeyedServices(k)]` gives. A parameter with neither has no entry. The message properties are the bound names with their parameters' types, in parameter and attribute order. |
| InjectionGenerator.AttributesDecideRule | src/CoreWCF.BuildTools/src/OperationParameterInjectionGenerator.Emitter.cs:62-116 | For an unmatched non-HTTP parameter of an accepted operation, `[Injected(PropertyName = n)]` makes the dependency a read of message property `n`. Otherwise a service key makes it the keyed service, and with neither it is the default service. |
| InjectionGenerator.DependenciesExact | src/CoreWCF.BuildTools/src/OperationParameterInjectionGenerator.Emitter.cs:119-120 | The dependencies are exactly the implementation parameters that match no contract parameter, in declaration order. |
| InjectionGenerator.RuleFor | src/CoreWCF.BuildTools/src/OperationParameterInjectionGenerator.Emitter.cs:261-291 | A dependency resolves from the HTTP context, request or response when it has one of those types. Otherwise it comes from its message property if it has one. Otherwise it uses its service key if it has one. Otherwise it is the default service. Container lookups use the branch's provider. |
| InjectionGenerator.AppendResolveDependencies | src/CoreWCF.BuildTools/src/OperationParameterInjectionGenerator.Emitter.cs:261-291 | Dependency k becomes local `{prefix}{k}`, resolved by its rule. `dependencyNames` is updated per dependency, keyed by type. |
| InjectionGenerator.DependencyNameIsLastOfType | src/CoreWCF.BuildTools/src/OperationParameterInjectionGenerator.Emitter.cs:265 | A type's name is the local of the last dependency of that type. |
| InjectionGenerator.SameTypeDependenciesShareName | src/CoreWCF.BuildTools/src/OperationParameterInjectionGenerator.Emitter.cs:265 | When two dependencies share a type, the earlier one's local is never used: both parameters receive the later one's value. |
| InjectionGenerator.DependencyNamesKeys | src/CoreWCF.BuildTools/src/OperationParameterInjectionGenerator.Emitter.cs:265 | Naming defines exactly the dependency types as keys, on top of those already present. |
| InjectionGenerator.AppendInvokeUserProvidedImplementation | src/CoreWCF.BuildTools/src/OperationParameterInjectionGenerator.Emitter.cs:293-323 | The loop with counters `i` and `j` computes the reference argument list, or the same fault. |
| InjectionGenerator.InvocationFromSucceeds | src/CoreWCF.BuildTools/src/OperationParameterInjectionGenerator.Emitter.cs:295-321 | From any parameter on, the remaining arguments are emitted without a fault iff every remaining attributed type is named and the contract has enough parameters left. |
| InjectionGenerator.InvocationFromArguments | src/CoreWCF.BuildTools/src/OperationParameterInjectionGenerator.Emitter.cs:295-321 | From any parameter on, a fault-free emission gives one argument per remaining parameter, each the one that parameter receives. |
| InjectionGenerator.InvocationShape | src/CoreWCF.BuildTools/src/OperationParameterInjectionGenerator.Emitter.cs:293-323 | There is one argument per implementation parameter. An injection-attributed parameter gets `dependencyNames[its type]`. The others consume the contract parameters in order and keep their `ref`/`out`. The call is emitted without a fault iff every attributed type is named and the contract has enough parameters. |
| InjectionGenerator.DeclarationOf | src/CoreWCF.BuildTools/src/OperationParameterInjectionGenerator.Emitter.cs:122-159 | The wrapper has the contract's name and return type, and each parameter keeps its type and name. `ref` and `out` are written again. An `in` parameter is declared without its modifier, like a plain one. The wrapper is `async` exactly when the contract returns `Task` or `Task<T>`. |
| InjectionGenerator.NestedClassesOrder | src/CoreWCF.BuildTools/src/OperationParameterInjectionGenerator.Emitter.cs:170-184 | One class is opened per containing type. The k-th one opened is the k-th type counted from the outermost, so the implementation class comes last. |
| InjectionGenerator.OpenClasses | src/CoreWCF.BuildTools/src/OperationParameterInjectionGenerator.Emitter.cs:170-184 | The push/pop loop declares the containing types outermost first, ending with the implementation class. Each type gets its accessibility modifier. |
| InjectionGenerator.TemporariesDistinct | src/CoreWCF.BuildTools/src/OperationParameterInjectionGenerator.Emitter.cs:200-224 | Each message-property read has its own temporary, in collection order. None is the HTTP context's temporary. |
| InjectionGenerator.PlanPropertyReads | src/CoreWCF.BuildTools/src/OperationParameterInjectionGenerator.Emitter.cs:215-224 | The loop and its `objectIndex` counter produce exactly those reads. |
| InjectionGenerator.EmitOperationContract | src/CoreWCF.BuildTools/src/OperationParameterInjectionGenerator.Emitter.cs:56-326 | One operation gives a diagnostic and no text when validation fails, a fault when the emitter would throw, and otherwise the wrapper plan. |
| InjectionGenerator.OutcomeReported | src/CoreWCF.BuildTools/src/OperationParameterInjectionGenerator.Emitter.cs:73-99 | An operation is reported iff validation rejects one of its unmatched parameters. |
| InjectionGenerator.OutcomeCrashed | src/CoreWCF.BuildTools/src/OperationParameterInjectionGenerator.Emitter.cs:293-323 | The emitter throws, aborting the run, iff validation passes and either an injection-attributed parameter's type is no dependency's type, or the unattributed parameters outnumber the contract's. |
| InjectionGenerator.GeneratedBranches | src/CoreWCF.BuildTools/src/OperationParameterInjectionGenerator.Emitter.cs:226-253 | Both branches resolve every dependency by the same rule. The singleton branch uses the fresh scope's provider and the other branch the ambient provider. Both pass the same contract arguments. Each passes to injected parameters only locals it declared itself (`d{k}` or `e{k}`). |
| InjectionGenerator.Emit | src/CoreWCF.BuildTools/src/OperationParameterInjectionGenerator.Emitter.cs:34-54 | Operations are processed in order. A reported operation adds its diagnostic and no wrapper, and the others are unaffected. The run aborts iff some operation faults, and then with the first fault. Otherwise the source file is added iff there is at least one operation. |
| InjectionGenerator.FirstFaultExact | src/CoreWCF.BuildTools/src/OperationParameterInjectionGenerator.Emitter.cs:44-47 | The first fault is that of the earliest faulting operation, and there is none iff no operation faults. |
| InjectionGenerator.OneResultPerOperation | src/CoreWCF.BuildTools/src/OperationParameterInjectionGenerator.Emitter.cs:44-47 | Without a fault, each operation yields exactly one wrapper or one diagnostic. |
| InjectionGenerator.ReadProperty | src/CoreWCF.BuildTools/src/OperationParameterInjectionGenerator.Emitter.cs:205-208 | A property read yields the stored object when present and of the declared type, and null otherwise. |
| InjectionGenerator.PrologueOutcome | src/CoreWCF.BuildTools/src/OperationParameterInjectionGenerator.Emitter.cs:197-224 | A wrapper call fails before the implementation only for a missing service provider, or for a missing HTTP context when a dependency needs it. When it proceeds, an HTTP-derived dependency finds a context, and services come from the fresh scope exactly for singleton instances. |
| KafkaContext.PropertyDictionary.TryGetValue | src/CoreWCF.Kafka/src/CoreWCF/Channels/KafkaQueueMessageContext.cs:22 | The lookup finds a value iff the key is present, and returns the stored value. |
| KafkaContext.PartitionKeyOf | src/CoreWCF.Kafka/src/CoreWCF/Channels/KafkaQueueMessageContext.cs:20-28 | The getter returns null when the entry is absent, and the stored bytes when it holds a byte array. It raises an invalid cast exactly when the entry holds something else. |
| KafkaContext.KafkaQueueMessageContext.constructor | src/CoreWCF.Kafka/src/CoreWCF/Channels/KafkaQueueMessageContext.cs:11-16 | A new context owns a fresh, empty dictionary, and `Properties` is that same dictionary. |
| KafkaContext.KafkaQueueMessageContext.GetPartitionKey | src/CoreWCF.Kafka/src/CoreWCF/Channels/KafkaQueueMessageContext.cs:18-28 | The getter reads the shared dictionary as `PartitionKeyOf` says. |
| KafkaContext.KafkaQueueMessageContext.SetPartitionKey | src/CoreWCF.Kafka/src/CoreWCF/Channels/KafkaQueueMessageContext.cs:29-32 | The setter writes the `KafkaPartitionKey` entry, null included, and nothing else. |
| KafkaContext.PartitionKeyRoundTrip | src/CoreWCF.Kafka/src/CoreWCF/Channels/KafkaQueueMessageContext.cs:18-32 | What the setter stores, the getter returns. |
| KafkaContext.OtherPropertiesKeepPartitionKey | src/CoreWCF.Kafka/src/CoreWCF/Channels/KafkaQueueMessageContext.cs:22-31 | Writing any other property leaves the partition key unchanged. |
| KafkaContext.NewContextRoundTrip | src/CoreWCF.Kafka/src/CoreWCF/Channels/KafkaQueueMessageContext.cs:11-35 | A new context has no partition key. After setting one, the getter returns it and `Properties` shows it. |
| KafkaContext.SetThroughProperties | src/CoreWCF.Kafka/src/CoreWCF/Channels/KafkaQueueMessageContext.cs:15-35 | A value stored under `KafkaPartitionKey` through `Properties` is what the getter reads, because the two share one dictionary. |

## Left out

- Emitted C# text. Indentation, braces, using-directives and the exact characters of generated code are not modelled; plans record what the text hard-codes.
- Build-time and run-time key agreement. The generator registers each invoker under `ToDisplayString()` of the method symbol (src/CoreWCF.BuildTools/src/OperationInvokerGenerator.Emitter.cs:175). That Roslyn display format is not part of this model, so no equality with `GetKey` is stated. The two keys may differ: for instance Roslyn writes `System.Single` as `float`, while the alias table writes `single`.
- `IsMatchingParameter` and `ToMessagePropertyVariableName` are not part of this model. Matching is a relation supplied with each operation. The plan stores the property name where the code stores a variable name derived from it.
- Copied attributes. The wrapper re-emits the implementation method's own attributes, and their rendering (including the `Union` of argument texts) is not modelled.
- Roslyn symbol equality is modelled as equality of full type names. Reflection type tests (`o is T`) are modelled as exact type-name equality, so subtyping is not captured.
- Exceptions thrown by the user's method, or by awaiting its task, are not modelled in `InvokeAsync`: the call target is a total function from arguments to an outcome.
- The returned `ValueTask`, `await` and thread-safety of the static registry dictionary are not modelled; calls are sequential.
- Container behaviour (`GetService`, `GetKeyedService`, `CreateScope`) is not modelled beyond which provider each lookup uses.
- The invalid casts the emitted invoker performs on the inputs (`(T)inputs[k]`) are not modelled: inputs are untyped objects.
- Arrays of generic types are not told apart from simple types. Reflection does not report an array type as generic, so such a parameter is written from its reflection full name, arity marker and bracketed arguments included. The model covers this by treating the array as a `Simple` type whose name carries the marker, and `NoArityMarkerInName` excludes it.
- `RefKind.RefReadOnlyParameter` is not modelled; the four directions `None`, `Ref`, `Out` and `In` are.
- Byte arrays are modelled by their contents, so aliasing of the partition key's array is not captured.
- `InternalBufferManager`, `ConfigureKestrelOptions` and the test sources are context only and are not modelled.
