/**
 * The ahead-of-time invoker synthesis: for every operation contract method the generator
 * emits one `OperationInvoker` class implementing the dispatcher's fixed two-operation
 * contract (allocate the inputs, invoke and collect the outputs). The emitted C# text is
 * modelled by the decisions it encodes (an `InvokerPlan`), and the class it defines by
 * `OperationInvoker`, which follows the plan over arrays exactly as the emitted body does.
 */
module InvokerGenerator {
  import opened Symbols
  import Strings

  /** A parameter whose value comes from the dispatcher's input array. */
  predicate FlowsIn(k: RefKind)
  {
    k == In || k == Ref || k == None
  }

  /** A parameter whose value after the call goes to the dispatcher's output array. */
  predicate FlowOut(k: RefKind)
  {
    k == Out || k == Ref
  }

  /** The modifier the emitted call passes an argument with. */
  function GetRefKind(k: RefKind): string
  {
    match k
    case Ref => "ref "
    case Out => "out "
    case _ => ""
  }

  /** Every parameter flows at least one way, and only `ref` flows both ways. */
  lemma EveryParameterFlows(k: RefKind)
    ensures FlowsIn(k) || FlowOut(k)
    ensures FlowsIn(k) && FlowOut(k) <==> k == Ref
  {
  }

  /** An argument is passed by reference exactly when its value is reported back. */
  lemma PassedByReferenceIffFlowsOut(k: RefKind)
    ensures GetRefKind(k) != "" <==> FlowOut(k)
    ensures GetRefKind(In) == ""
  {
  }

  /** The number of parameters that read an input slot (`inputParameterCount`). */
  function InCount(ks: seq<RefKind>): (n: nat)
    ensures n <= |ks|
  {
    if ks == [] then 0
    else InCount(ks[..|ks| - 1]) + (if FlowsIn(ks[|ks| - 1]) then 1 else 0)
  }

  /** The number of parameters that fill an output slot (`outputParameterCount`). */
  function OutCount(ks: seq<RefKind>): (n: nat)
    ensures n <= |ks|
  {
    if ks == [] then 0
    else OutCount(ks[..|ks| - 1]) + (if FlowOut(ks[|ks| - 1]) then 1 else 0)
  }

  /**
   * The `(outputIndex, parameterIndex)` pairs the emitter collects: output slots are numbered
   * 0, 1, 2, ... and each names a parameter that flows out.
   */
  function OutputParams(ks: seq<RefKind>): (op: seq<(nat, nat)>)
    ensures |op| == OutCount(ks)
    ensures forall k :: 0 <= k < |op| ==> op[k].0 == k && op[k].1 < |ks| && FlowOut(ks[op[k].1])
  {
    if ks == [] then []
    else
      var init := ks[..|ks| - 1];
      assert forall k :: 0 <= k < |init| ==> init[k] == ks[k];
      OutputParams(init) + (if FlowOut(ks[|ks| - 1]) then [(OutCount(init), |ks| - 1)] else [])
  }

  /** How the emitted body initialises the local for one parameter. */
  datatype ArgumentSource = ReadsInput(slot: nat) | Unassigned

  /** The input slot the i-th parameter reads when it flows in: how many flowed in before it. */
  function Slot(ks: seq<RefKind>, i: nat): nat
    requires i <= |ks|
  {
    InCount(ks[..i])
  }

  function InputSource(ks: seq<RefKind>, i: nat): ArgumentSource
    requires i < |ks|
  {
    if FlowsIn(ks[i]) then ReadsInput(Slot(ks, i)) else Unassigned
  }

  /**
   * What the emitted invoker for one operation does: the two array sizes, how each local
   * `p{i}` is initialised, which local each output slot is copied from, the modifier of each
   * argument of the call, and the calling convention.
   */
  datatype InvokerPlan = InvokerPlan(
    inputParameterCount: nat,
    outputParameterCount: nat,
    sources: seq<ArgumentSource>,
    outputParams: seq<(nat, nat)>,
    invocationModifiers: seq<string>,
    shape: ReturnShape)

  /** The plan the emitter computes for a parameter list and a calling convention. */
  function PlanOf(ks: seq<RefKind>, shape: ReturnShape): InvokerPlan
  {
    InvokerPlan(
      InCount(ks),
      OutCount(ks),
      seq(|ks|, i requires 0 <= i < |ks| => InputSource(ks, i)),
      OutputParams(ks),
      seq(|ks|, i requires 0 <= i < |ks| => GetRefKind(ks[i])),
      shape)
  }

  lemma InCountStep(ks: seq<RefKind>, i: nat)
    requires i < |ks|
    ensures InCount(ks[..i + 1]) == InCount(ks[..i]) + (if FlowsIn(ks[i]) then 1 else 0)
  {
    assert ks[..i + 1][..i] == ks[..i];
  }

  lemma OutCountStep(ks: seq<RefKind>, i: nat)
    requires i < |ks|
    ensures OutCount(ks[..i + 1]) == OutCount(ks[..i]) + (if FlowOut(ks[i]) then 1 else 0)
    ensures OutputParams(ks[..i + 1]) == OutputParams(ks[..i]) + (if FlowOut(ks[i]) then [(OutCount(ks[..i]), i)] else [])
  {
    assert ks[..i + 1][..i] == ks[..i];
  }

  /** Slots never decrease along the parameter list, and a flowing-in parameter moves them on. */
  lemma {:induction false} SlotMonotone(ks: seq<RefKind>, i: nat, j: nat)
    requires i <= j <= |ks|
    ensures Slot(ks, i) <= Slot(ks, j)
    ensures i < j && FlowsIn(ks[i]) ==> Slot(ks, i) < Slot(ks, j)
    decreases j - i
  {
    if i < j {
      InCountStep(ks, i);
      SlotMonotone(ks, i + 1, j);
    }
  }

  /**
   * The input slots are exact: every slot a parameter reads is below `inputParameterCount`,
   * and slots rise strictly in declaration order, so no two parameters read the same slot.
   */
  lemma InputSlotsExact(ks: seq<RefKind>)
    ensures forall i :: 0 <= i < |ks| && FlowsIn(ks[i]) ==> Slot(ks, i) < InCount(ks)
    ensures forall i, j {:trigger Slot(ks, i), Slot(ks, j)} :: 0 <= i < j <= |ks| && FlowsIn(ks[i]) ==> Slot(ks, i) < Slot(ks, j)
  {
    assert ks[..|ks|] == ks;
    assert Slot(ks, |ks|) == InCount(ks);
    forall i, j | 0 <= i < j <= |ks| && FlowsIn(ks[i])
      ensures Slot(ks, i) < Slot(ks, j)
    {
      SlotMonotone(ks, i, j);
    }
  }

  /** Every input slot below `inputParameterCount` is read by some flowing-in parameter. */
  lemma {:induction false} EverySlotIsRead(ks: seq<RefKind>, s: nat)
    requires s < InCount(ks)
    ensures exists i :: 0 <= i < |ks| && FlowsIn(ks[i]) && Slot(ks, i) == s
    decreases |ks|
  {
    var n := |ks| - 1;
    var init := ks[..n];
    InCountStep(ks, n);
    assert ks[..n + 1] == ks;
    if s < InCount(init) {
      EverySlotIsRead(init, s);
      var i :| 0 <= i < |init| && FlowsIn(init[i]) && Slot(init, i) == s;
      assert init[..i] == ks[..i];
      assert FlowsIn(ks[i]) && Slot(ks, i) == s;
    } else {
      assert FlowsIn(ks[n]) && Slot(ks, n) == s;
    }
  }

  /** The output pairs name the flowing-out parameters in strictly increasing declaration order. */
  lemma {:induction false} OutputParamsIncreasing(ks: seq<RefKind>)
    ensures forall k, l :: 0 <= k < l < |OutputParams(ks)| ==> OutputParams(ks)[k].1 < OutputParams(ks)[l].1
    decreases |ks|
  {
    if ks != [] {
      var n := |ks| - 1;
      var init := ks[..n];
      OutputParamsIncreasing(init);
      var op := OutputParams(ks);
      var op' := OutputParams(init);
      assert op == op' + (if FlowOut(ks[n]) then [(OutCount(init), n)] else []);
      assert op[..|op'|] == op';
      forall k, l | 0 <= k < l < |op|
        ensures op[k].1 < op[l].1
      {
        assert op[k] == op'[k];
        if l < |op'| {
          assert op[l] == op'[l];
        } else {
          assert op[l].1 == n;
        }
      }
    }
  }

  /** Every flowing-out parameter is named by an output pair. */
  lemma {:induction false} OutputParamsComplete(ks: seq<RefKind>)
    ensures forall i :: 0 <= i < |ks| && FlowOut(ks[i]) ==> exists k :: 0 <= k < |OutputParams(ks)| && OutputParams(ks)[k].1 == i
    decreases |ks|
  {
    if ks != [] {
      var n := |ks| - 1;
      var init := ks[..n];
      OutputParamsComplete(init);
      OutCountStep(ks, n);
      assert ks[..n + 1] == ks;
      var op := OutputParams(ks);
      assert op[..|OutputParams(init)|] == OutputParams(init);
      forall i | 0 <= i < |ks| && FlowOut(ks[i])
        ensures exists k :: 0 <= k < |op| && op[k].1 == i
      {
        if i < n {
          assert init[i] == ks[i];
          var k :| 0 <= k < |OutputParams(init)| && OutputParams(init)[k].1 == i;
          assert op[k] == OutputParams(init)[k];
        } else {
          assert op[|op| - 1].1 == n;
        }
      }
    }
  }

  /** The arity example: directions (none, out, ref, in) need three inputs and two outputs. */
  lemma ArityExample(shape: ReturnShape)
    ensures PlanOf([None, Out, Ref, In], shape).inputParameterCount == 3
    ensures PlanOf([None, Out, Ref, In], shape).outputParameterCount == 2
    ensures PlanOf([None, Out, Ref, In], shape).outputParams == [(0, 1), (1, 2)]
  {
    ExampleInputs();
    ExampleOutputs();
  }

  lemma ExampleInputs()
    ensures InCount([None, Out, Ref, In]) == 3
  {
    var ks := [None, Out, Ref, In];
    assert ks[..0] == [] && ks[..4] == ks;
    InCountStep(ks, 0);
    InCountStep(ks, 1);
    InCountStep(ks, 2);
    InCountStep(ks, 3);
  }

  lemma ExampleOutputs()
    ensures OutCount([None, Out, Ref, In]) == 2
    ensures OutputParams([None, Out, Ref, In]) == [(0, 1), (1, 2)]
  {
    var a: seq<RefKind> := [];
    var b := a + [None];
    var c := b + [Out];
    var d := c + [Ref];
    var e := d + [In];
    OutputParamsAppend(a, None);
    OutputParamsAppend(b, Out);
    OutputParamsAppend(c, Ref);
    OutputParamsAppend(d, In);
    assert e == [None, Out, Ref, In];
  }

  /** Appending one parameter appends at most one output pair. */
  lemma OutputParamsAppend(ks: seq<RefKind>, k: RefKind)
    ensures OutCount(ks + [k]) == OutCount(ks) + (if FlowOut(k) then 1 else 0)
    ensures OutputParams(ks + [k]) == OutputParams(ks) + (if FlowOut(k) then [(OutCount(ks), |ks|)] else [])
  {
    assert (ks + [k])[..|ks|] == ks;
  }

  // ---------------------------------------------------------------------------------------
  // What the emitted invoker means: independent reference definitions.

  /**
   * The arguments of the call when parameters consume the inputs from left to right:
   * a parameter that flows in takes the next input, any other gets a placeholder.
   */
  function Arguments(ks: seq<RefKind>, inputs: seq<Object>): (args: seq<Object>)
    requires InCount(ks) <= |inputs|
    ensures |args| == |ks|
    decreases |ks|
  {
    if ks == [] then []
    else
      InCountCons(ks);
      if FlowsIn(ks[0]) then [inputs[0]] + Arguments(ks[1..], inputs[1..])
      else [Null] + Arguments(ks[1..], inputs)
  }

  /** The values reported back: those of the flowing-out parameters, in declaration order. */
  function OutValues(ks: seq<RefKind>, after: seq<Object>): (outs: seq<Object>)
    requires |after| == |ks|
    ensures |outs| == OutCount(ks)
  {
    if ks == [] then []
    else
      var n := |ks| - 1;
      OutValues(ks[..n], after[..n]) + (if FlowOut(ks[n]) then [after[n]] else [])
  }

  lemma {:induction false} InCountCons(ks: seq<RefKind>)
    requires ks != []
    ensures InCount(ks) == (if FlowsIn(ks[0]) then 1 else 0) + InCount(ks[1..])
    decreases |ks|
  {
    if |ks| > 1 {
      var n := |ks| - 1;
      InCountCons(ks[..n]);
      assert ks[..n][1..] == ks[1..][..n - 1];
    } else {
      assert ks[1..] == [];
    }
  }

  /** The slot the emitter assigns to parameter i is the input that parameter consumes. */
  lemma {:induction false} ArgumentsAt(ks: seq<RefKind>, inputs: seq<Object>, i: nat)
    requires InCount(ks) <= |inputs| && i < |ks|
    ensures FlowsIn(ks[i]) ==> Slot(ks, i) < |inputs| && Arguments(ks, inputs)[i] == inputs[Slot(ks, i)]
    ensures !FlowsIn(ks[i]) ==> Arguments(ks, inputs)[i] == Null
    decreases i
  {
    InCountCons(ks);
    if i > 0 {
      var rest := if FlowsIn(ks[0]) then inputs[1..] else inputs;
      ArgumentsAt(ks[1..], rest, i - 1);
      assert ks[..i] == [ks[0]] + ks[1..][..i - 1];
      InCountCons(ks[..i]);
      assert ks[..i][1..] == ks[1..][..i - 1];
    } else {
      assert ks[..0] == [];
    }
  }

  /** Output slot k receives the post-call value of the parameter the k-th output pair names. */
  lemma {:induction false} OutValuesAt(ks: seq<RefKind>, after: seq<Object>, k: nat)
    requires |after| == |ks| && k < OutCount(ks)
    ensures OutValues(ks, after)[k] == after[OutputParams(ks)[k].1]
    decreases |ks|
  {
    var n := |ks| - 1;
    var init := ks[..n];
    OutCountStep(ks, n);
    assert ks[..n + 1] == ks;
    if k < OutCount(init) {
      OutValuesAt(init, after[..n], k);
    }
  }

  /** A user method call: its return value and the values of its parameters after it returns. */
  datatype CallOutcome = CallOutcome(returned: Object, arguments: seq<Object>)

  /**
   * The class the generator emits for one operation. `plan` holds what the emitted text
   * hard-codes; `parameters` are the directions of the contract method it was emitted for.
   */
  class OperationInvoker {
    ghost const parameters: seq<RefKind>
    const plan: InvokerPlan
    /** The shared `Array.Empty<object>()` instance. */
    const emptyArray: array<Object>

    ghost predicate Valid()
    {
      plan == PlanOf(parameters, plan.shape) && emptyArray.Length == 0
    }

    constructor (plan: InvokerPlan, ghost parameters: seq<RefKind>, emptyArray: array<Object>)
      requires plan == PlanOf(parameters, plan.shape) && emptyArray.Length == 0
      ensures Valid() && this.plan == plan && this.parameters == parameters && this.emptyArray == emptyArray
    {
      this.plan := plan;
      this.parameters := parameters;
      this.emptyArray := emptyArray;
    }

    /** `AllocateInputs`: one slot per flowing-in parameter; the shared empty array for none. */
    method AllocateInputs() returns (inputs: array<Object>)
      requires Valid()
      ensures inputs.Length == InCount(parameters)
      ensures InCount(parameters) == 0 ==> inputs == emptyArray
      ensures InCount(parameters) > 0 ==> fresh(inputs)
    {
      if plan.inputParameterCount == 0 {
        inputs := emptyArray;
      } else {
        inputs := new Object[plan.inputParameterCount](_ => Null);
      }
    }

    /** `AllocateOutputs`: one slot per flowing-out parameter; the shared empty array for none. */
    method AllocateOutputs() returns (outputs: array<Object>)
      requires Valid()
      ensures outputs.Length == OutCount(parameters)
      ensures OutCount(parameters) == 0 ==> outputs == emptyArray
      ensures OutCount(parameters) > 0 ==> fresh(outputs)
    {
      if plan.outputParameterCount == 0 {
        outputs := emptyArray;
      } else {
        outputs := new Object[plan.outputParameterCount](_ => Null);
      }
    }

    /**
     * `InvokeAsync`: reads each flowing-in parameter from its input slot, calls the target
     * with those arguments, copies the post-call value of every flowing-out parameter into
     * its output slot, and returns the call's value unless the method is void or returns
     * a plain `Task`. Every array index it uses is in bounds.
     */
    method InvokeAsync(target: seq<Object> -> CallOutcome, inputs: array<Object>)
      returns (returnValue: Object, outputs: array<Object>)
      requires Valid()
      requires InCount(parameters) <= inputs.Length
      requires forall args :: |target(args).arguments| == |args|
      ensures var outcome := target(Arguments(parameters, inputs[..]));
        outputs[..] == OutValues(parameters, outcome.arguments)
        && returnValue == (if ReturnsResult(plan.shape) then outcome.returned else Null)
    {
      ghost var expected := Arguments(parameters, inputs[..]);
      var args: seq<Object> := [];
      var i := 0;
      while i < |plan.sources|
        invariant 0 <= i <= |parameters| == |plan.sources|
        invariant args == expected[..i]
      {
        ArgumentsAt(parameters, inputs[..], i);
        var source := plan.sources[i];
        if source.ReadsInput? {
          args := args + [inputs[source.slot]];
        } else {
          args := args + [Null];
        }
        i := i + 1;
      }
      assert args == expected;

      var outcome := target(args);
      outputs := AllocateOutputs();
      if plan.outputParameterCount > 0 {
        var k := 0;
        while k < |plan.outputParams|
          invariant 0 <= k <= |plan.outputParams| == outputs.Length
          invariant forall q :: 0 <= q < k ==> outputs[q] == OutValues(parameters, outcome.arguments)[q]
        {
          OutValuesAt(parameters, outcome.arguments, k);
          var (outputIndex, parameterIndex) := plan.outputParams[k];
          outputs[outputIndex] := outcome.arguments[parameterIndex];
          k := k + 1;
        }
      }

      match plan.shape
      case Void => returnValue := Null;
      case Value => returnValue := outcome.returned;
      case Task => returnValue := Null;
      case TaskOf => returnValue := outcome.returned;
    }
  }

  // ---------------------------------------------------------------------------------------
  // The emitter.

  /** The contract method an invoker is emitted for. */
  datatype MethodSymbol = MethodSymbol(display: string, parameters: seq<RefKind>, returnType: TypeSymbol)

  /** One generated source file: its name, and the invoker its text defines. */
  datatype GeneratedInvoker = GeneratedInvoker(fileName: string, plan: InvokerPlan)

  /** `GetFileName` without its fixed suffix: the method's display string made file-name safe. */
  function FileNameStem(display: string): string
  {
    var s1 := Strings.Replace(display, ".", "_");
    var s2 := Strings.Replace(s1, "<", "-");
    var s3 := Strings.Replace(s2, ">", "-");
    var s4 := Strings.Replace(s3, "(", "_");
    var s5 := Strings.Replace(s4, ")", "_");
    var s6 := Strings.Replace(s5, "[", "_");
    var s7 := Strings.Replace(s6, "]", "_");
    var s8 := Strings.Replace(s7, ", ", "_");
    Strings.Replace(s8, " ", "_")
  }

  const InvokerFileSuffix := "_OperationInvoker.g.cs"

  function GetFileName(display: string): string
  {
    FileNameStem(display) + InvokerFileSuffix
  }

  /** The characters `GetFileName` rewrites. */
  const FileNameUnsafe: set<char> := {'.', '<', '>', '(', ')', '[', ']', ' '}

  /**
   * A generated file name ends with `_OperationInvoker.g.cs`, and the part taken from the
   * method contains none of `. < > ( ) [ ]` or space.
   */
  lemma FileNameShape(display: string)
    ensures var name := GetFileName(display);
      |name| >= |InvokerFileSuffix| && name[|name| - |InvokerFileSuffix|..] == InvokerFileSuffix
    ensures forall c :: c in FileNameUnsafe ==> c !in FileNameStem(display)
  {
    var s1 := Strings.Replace(display, ".", "_");
    var s2 := Strings.Replace(s1, "<", "-");
    var s3 := Strings.Replace(s2, ">", "-");
    var s4 := Strings.Replace(s3, "(", "_");
    var s5 := Strings.Replace(s4, ")", "_");
    var s6 := Strings.Replace(s5, "[", "_");
    var s7 := Strings.Replace(s6, "]", "_");
    var s8 := Strings.Replace(s7, ", ", "_");
    var s9 := Strings.Replace(s8, " ", "_");
    Strings.ReplaceRemovesChar(display, '.', "_");
    Strings.ReplaceRemovesChar(s1, '<', "-");
    Strings.ReplaceRemovesChar(s2, '>', "-");
    Strings.ReplaceRemovesChar(s3, '(', "_");
    Strings.ReplaceRemovesChar(s4, ')', "_");
    Strings.ReplaceRemovesChar(s5, '[', "_");
    Strings.ReplaceRemovesChar(s6, ']', "_");
    Strings.ReplaceRemovesChar(s8, ' ', "_");
    forall c | c in FileNameUnsafe
      ensures c !in s9
    {
      if c == '.' {
        Strings.ReplaceKeepsCharAbsent(s1, "<", "-", c);
      }
      if c == '.' || c == '<' {
        Strings.ReplaceKeepsCharAbsent(s2, ">", "-", c);
      }
      if c == '.' || c == '<' || c == '>' {
        Strings.ReplaceKeepsCharAbsent(s3, "(", "_", c);
      }
      if c == '.' || c == '<' || c == '>' || c == '(' {
        Strings.ReplaceKeepsCharAbsent(s4, ")", "_", c);
      }
      if c == '.' || c == '<' || c == '>' || c == '(' || c == ')' {
        Strings.ReplaceKeepsCharAbsent(s5, "[", "_", c);
      }
      if c != ']' && c != ' ' {
        Strings.ReplaceKeepsCharAbsent(s6, "]", "_", c);
      }
      if c != ' ' {
        Strings.ReplaceKeepsCharAbsent(s7, ", ", "_", c);
        Strings.ReplaceKeepsCharAbsent(s8, " ", "_", c);
      }
    }
  }

  /**
   * `EmitOperationContract`: walks the parameters once with the counters
   * `inputParameterCount`, `outputParameterCount` and `i`, collecting the output pairs and
   * the call's argument modifiers, and classifies the return type.
   */
  method EmitOperationContract(m: MethodSymbol) returns (generated: GeneratedInvoker)
    ensures generated.plan == PlanOf(m.parameters, ReturnShapeOf(m.returnType))
    ensures generated.fileName == GetFileName(m.display)
  {
    var ks := m.parameters;
    var shape := ReturnShapeOf(m.returnType);
    var inputParameterCount := 0;
    var outputParameterCount := 0;
    var outputParams: seq<(nat, nat)> := [];
    var sources: seq<ArgumentSource> := [];
    var invocationParams: seq<string> := [];
    assert ks[..0] == [];
    for i := 0 to |ks|
      invariant InvokerPlan(inputParameterCount, outputParameterCount, sources, outputParams, invocationParams, shape)
        == PlanOf(ks[..i], shape)
    {
      PlanStep(ks, i, shape);
      var source := Unassigned;
      if FlowsIn(ks[i]) {
        source := ReadsInput(inputParameterCount);
        inputParameterCount := inputParameterCount + 1;
      }
      if FlowOut(ks[i]) {
        outputParams := outputParams + [(outputParameterCount, i)];
        outputParameterCount := outputParameterCount + 1;
      }
      sources := sources + [source];
      invocationParams := invocationParams + [GetRefKind(ks[i])];
    }
    assert ks[..|ks|] == ks;
    generated := GeneratedInvoker(GetFileName(m.display),
      InvokerPlan(inputParameterCount, outputParameterCount, sources, outputParams, invocationParams, shape));
  }

  /** The plan of one more parameter: what one round of the emitter's loop adds. */
  lemma PlanStep(ks: seq<RefKind>, i: nat, shape: ReturnShape)
    requires i < |ks|
    ensures var p := PlanOf(ks[..i], shape);
      PlanOf(ks[..i + 1], shape) == InvokerPlan(
        p.inputParameterCount + (if FlowsIn(ks[i]) then 1 else 0),
        p.outputParameterCount + (if FlowOut(ks[i]) then 1 else 0),
        p.sources + [if FlowsIn(ks[i]) then ReadsInput(p.inputParameterCount) else Unassigned],
        p.outputParams + (if FlowOut(ks[i]) then [(p.outputParameterCount, i)] else []),
        p.invocationModifiers + [GetRefKind(ks[i])],
        shape)
  {
    var longer := ks[..i + 1];
    var shorter := ks[..i];
    assert longer[..i] == shorter;
    InCountStep(ks, i);
    OutCountStep(ks, i);
    var p := PlanOf(shorter, shape);
    var q := PlanOf(longer, shape);
    assert q.sources == p.sources + [if FlowsIn(ks[i]) then ReadsInput(p.inputParameterCount) else Unassigned] by {
      forall j | 0 <= j < i
        ensures q.sources[j] == p.sources[j]
      {
        assert longer[..j] == shorter[..j];
      }
    }
    assert q.invocationModifiers == p.invocationModifiers + [GetRefKind(ks[i])];
  }

  /** `Emit`: one generated file per operation contract, in order. */
  method Emit(methods: seq<MethodSymbol>) returns (files: seq<GeneratedInvoker>)
    ensures |files| == |methods|
    ensures forall k :: 0 <= k < |methods| ==>
      files[k] == GeneratedInvoker(GetFileName(methods[k].display), PlanOf(methods[k].parameters, ReturnShapeOf(methods[k].returnType)))
  {
    files := [];
    for k := 0 to |methods|
      invariant |files| == k
      invariant forall q :: 0 <= q < k ==>
        files[q] == GeneratedInvoker(GetFileName(methods[q].display), PlanOf(methods[q].parameters, ReturnShapeOf(methods[q].returnType)))
    {
      var generated := EmitOperationContract(methods[k]);
      files := files + [generated];
    }
  }
}
