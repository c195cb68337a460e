/**
 * What the two source generators and the dispatcher know about declared methods:
 * parameter directions, return types and the run-time objects that flow through calls.
 */
module Symbols {

  /** A parameter's direction, as the compiler reports it (C# `ref`, `out`, `in`, or none). */
  datatype RefKind = None | Ref | Out | In

  /** A return type: `void`, a named type, or a constructed generic type with its unbound form. */
  datatype TypeSymbol =
    | VoidType
    | NamedType(display: string)
    | ConstructedType(display: string, unboundDisplay: string)

  const TaskDisplay := "System.Threading.Tasks.Task"
  const GenericTaskUnboundDisplay := "System.Threading.Tasks.Task<>"

  /** How a type symbol is displayed in generated C#. */
  function Display(t: TypeSymbol): string
  {
    match t
    case VoidType => "void"
    case NamedType(d) => d
    case ConstructedType(d, _) => d
  }

  /** The four calling conventions a contract method can have. */
  datatype ReturnShape = Void | Value | Task | TaskOf

  /**
   * Classifies a return type: `Task` and `Task<T>` are asynchronous; among the others `void`
   * returns nothing and everything else (including `ValueTask`) returns a value.
   */
  function ReturnShapeOf(t: TypeSymbol): (shape: ReturnShape)
    ensures shape == Task <==> Display(t) == TaskDisplay
    ensures shape == Void <==> t == VoidType
    ensures shape == TaskOf <==> t.ConstructedType? && t.unboundDisplay == GenericTaskUnboundDisplay && Display(t) != TaskDisplay
  {
    var isGenericTask := t.ConstructedType? && t.unboundDisplay == GenericTaskUnboundDisplay;
    var isTask := Display(t) == TaskDisplay;
    if isGenericTask || isTask then
      (if isTask then Task else TaskOf)
    else if t.VoidType? then Void
    else Value
  }

  /** Whether generated code awaits the call. */
  predicate IsAsync(shape: ReturnShape)
  {
    shape == Task || shape == TaskOf
  }

  /** Whether the call produces a value that is handed back to the caller. */
  predicate ReturnsResult(shape: ReturnShape)
  {
    shape == Value || shape == TaskOf
  }

  /** A run-time object reference: `null`, or an instance of a named type. */
  datatype Object = Null | Instance(typeName: string, id: nat)
}
