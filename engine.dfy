/** The backend's step generator: the algorithm table, the two implemented
    sorting traces and the one-step placeholders. */
module AlgorithmEngine {
  import opened Wrappers
  import opened StepModel
  import opened Text

  datatype Algorithm =
    | BubbleSort | SelectionSort | InsertionSort | MergeSort | QuickSort
    | LinearSearch | BinarySearch | BstInsertion | BstTraversal
    | BreadthFirstSearch | DepthFirstSearch | Dijkstra

  /** The key under which each algorithm is registered in the dispatch table. */
  function Name(a: Algorithm): string {
    match a
    case BubbleSort => "Bubble Sort"
    case SelectionSort => "Selection Sort"
    case InsertionSort => "Insertion Sort"
    case MergeSort => "Merge Sort"
    case QuickSort => "Quick Sort"
    case LinearSearch => "Linear Search"
    case BinarySearch => "Binary Search"
    case BstInsertion => "BST Insertion"
    case BstTraversal => "BST Traversal"
    case BreadthFirstSearch => "Breadth-First Search"
    case DepthFirstSearch => "Depth-First Search"
    case Dijkstra => "Dijkstra's Algorithm"
  }

  /** The dispatch dictionary `algorithm_functions`: `get(name)`, keys compared as strings. */
  function Lookup(name: string): Option<Algorithm> {
    if name == Name(BubbleSort) then Some(BubbleSort)
    else if name == Name(SelectionSort) then Some(SelectionSort)
    else if name == Name(InsertionSort) then Some(InsertionSort)
    else if name == Name(MergeSort) then Some(MergeSort)
    else if name == Name(QuickSort) then Some(QuickSort)
    else if name == Name(LinearSearch) then Some(LinearSearch)
    else if name == Name(BinarySearch) then Some(BinarySearch)
    else if name == Name(BstInsertion) then Some(BstInsertion)
    else if name == Name(BstTraversal) then Some(BstTraversal)
    else if name == Name(BreadthFirstSearch) then Some(BreadthFirstSearch)
    else if name == Name(DepthFirstSearch) then Some(DepthFirstSearch)
    else if name == Name(Dijkstra) then Some(Dijkstra)
    else None
  }

  /** Every algorithm is found under its own name. */
  lemma LookupName(a: Algorithm)
    ensures Lookup(Name(a)) == Some(a)
  {
  }

  /** A name the table knows is the name of the algorithm it maps to. */
  lemma LookupFound(name: string)
    ensures Lookup(name).Some? ==> Name(Lookup(name).value) == name
  {
  }

  lemma LookupKnown(name: string)
    ensures Lookup(name).Some? <==> name in {
      "Bubble Sort", "Selection Sort", "Insertion Sort", "Merge Sort", "Quick Sort",
      "Linear Search", "Binary Search", "BST Insertion", "BST Traversal",
      "Breadth-First Search", "Depth-First Search", "Dijkstra's Algorithm"}
  {
  }

  /** The algorithms whose generator is a real trace; the rest return a placeholder. */
  predicate Implemented(a: Algorithm) {
    a == BubbleSort || a == SelectionSort
  }

  /** What each placeholder generator names itself in its one record; the graph
      algorithms use short names that differ from their table keys. */
  function PlaceholderSubject(a: Algorithm): string
    requires !Implemented(a)
  {
    match a
    case BreadthFirstSearch => "BFS"
    case DepthFirstSearch => "DFS"
    case Dijkstra => "Dijkstra Algorithm"
    case _ => Name(a)
  }

  /** The generator of an algorithm that is not implemented: one `placeholder`
      record without a state, whatever the input. */
  function PlaceholderSteps(a: Algorithm): (r: seq<Step>)
    requires !Implemented(a)
    ensures |r| == 1 && r[0].kind == Placeholder && r[0].state.None?
    ensures r[0].description == PlaceholderSubject(a) + " steps would go here"
  {
    [Blank(Placeholder, PlaceholderSubject(a) + " steps would go here")]
  }

  /** Distinct placeholder generators describe themselves differently. */
  lemma PlaceholdersDistinct(a: Algorithm, b: Algorithm)
    requires !Implemented(a) && !Implemented(b) && a != b
    ensures PlaceholderSteps(a) != PlaceholderSteps(b)
  {
    var sa, sb, suffix := PlaceholderSubject(a), PlaceholderSubject(b), " steps would go here";
    assert sa == (sa + suffix)[..|sa|] && sb == (sb + suffix)[..|sb|];
  }
}
