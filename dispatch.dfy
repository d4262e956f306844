/** `execute_algorithm_steps`: look the name up in the algorithm table and run
    its generator on the input, or fail with `ValueError` for an unknown name. */
module Dispatch {
  import opened Wrappers
  import opened StepModel
  import E = AlgorithmEngine
  import Bubble = BubbleSort
  import BubbleTrace
  import Selection = SelectionSort

  /** The message of the `ValueError` raised for a name the table lacks. */
  function NotImplemented(name: string): string {
    "Algorithm '" + name + "' not implemented"
  }

  method ExecuteAlgorithmSteps(name: string, data: seq<int>) returns (r: Result<seq<Step>, string>)
    ensures E.Lookup(name).None? <==> r == Err(NotImplemented(name))
    ensures E.Lookup(name) == Some(E.BubbleSort) ==>
      r == Ok(Bubble.BubbleSortTrace(data)) && BubbleTrace.IsBubbleTrace(data, r.value)
    ensures E.Lookup(name) == Some(E.SelectionSort) ==>
      r == Ok(Selection.SelectionSortTrace(data)) && Selection.IsSelectionTrace(data, r.value)
    ensures E.Lookup(name).Some? && !E.Implemented(E.Lookup(name).value) ==>
      r == Ok(E.PlaceholderSteps(E.Lookup(name).value))
  {
    var found := E.Lookup(name);
    if found.None? {
      return Err(NotImplemented(name));
    }
    var steps;
    match found.value {
      case BubbleSort =>
        steps := Bubble.BubbleSortSteps(data);
      case SelectionSort =>
        steps := Selection.SelectionSortSteps(data);
      case _ =>
        steps := E.PlaceholderSteps(found.value);
    }
    return Ok(steps);
  }
}
