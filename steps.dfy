/** The step record shared by every trace producer and consumer.

    A step is a JSON-like record whose fields may be absent; each optional
    field is an `Option`. `kind` is the record's `type` tag. */
module StepModel {
  import opened Wrappers

  /** The record's `type` tag, one constructor per tag any producer emits or
      any view tests for. */
  datatype Kind =
    | Initial | Comparison | Swap | Sorted | Final
    | MinSelected | NewMin | BeforeSwap | AfterSwap | Placeholder | Pivot | Partition

  /** The tag as it appears in the JSON record. */
  function Tag(k: Kind): string {
    match k
    case Initial => "initial"
    case Comparison => "comparison"
    case Swap => "swap"
    case Sorted => "sorted"
    case Final => "final"
    case MinSelected => "min_selected"
    case NewMin => "new_min"
    case BeforeSwap => "before_swap"
    case AfterSwap => "after_swap"
    case Placeholder => "placeholder"
    case Pivot => "pivot"
    case Partition => "partition"
  }

  datatype Step = Step(
    kind: Kind,
    state: Option<seq<int>>,
    description: string,
    comparing: Option<seq<int>>,
    swapped: Option<seq<int>>,
    swapping: Option<seq<int>>,
    sortedIndices: Option<seq<int>>,
    selected: Option<seq<int>>,
    highlighted: Option<seq<int>>,
    currentFocus: Option<seq<int>>,
    minIdx: Option<int>,
    pivotIndex: Option<int>,
    checkingIndex: Option<int>,
    educationalNote: Option<string>)

  /** A record carrying only `type` and `description`; producers add fields with `.(f := …)`. */
  function Blank(kind: Kind, description: string): (s: Step)
    ensures s.kind == kind && s.description == description
    ensures s.state.None? && s.comparing.None? && s.swapped.None? && s.sortedIndices.None?
  {
    Step(kind, None, description, None, None, None, None, None, None, None, None, None, None, None)
  }

  /** `step.f && step.f.includes(i)`: an absent list contains nothing. */
  predicate Has(f: Option<seq<int>>, i: int) {
    f.Some? && i in f.value
  }

  /** A single-index field names `i`; an absent field names no index. */
  predicate Is(f: Option<int>, i: int) {
    f == Some(i)
  }

  /** The integers `lo, lo + 1, …, hi - 1`, as Python's `range` and the front end's index arrays build them. */
  function Range(lo: int, hi: int): (r: seq<int>)
    ensures |r| == if lo <= hi then hi - lo else 0
    ensures forall k :: 0 <= k < |r| ==> r[k] == lo + k
  {
    if hi <= lo then [] else seq(hi - lo, k requires 0 <= k < hi - lo => lo + k)
  }

  lemma RangeMembership(lo: int, hi: int, x: int)
    ensures x in Range(lo, hi) <==> lo <= x < hi
  {
    if lo <= x < hi {
      assert Range(lo, hi)[x - lo] == x;
    }
  }

  predicate Ascending(s: seq<int>) {
    forall i, j :: 0 <= i < j < |s| ==> s[i] <= s[j]
  }

  predicate AllBelow(xs: seq<int>, n: int) {
    forall k :: 0 <= k < |xs| ==> 0 <= xs[k] < n
  }

  predicate OptBelow(f: Option<seq<int>>, n: int) {
    f.Some? ==> AllBelow(f.value, n)
  }

  predicate OptIndexBelow(f: Option<int>, n: int) {
    f.Some? ==> 0 <= f.value < n
  }

  /** Every index any role field names lies in `[0, n)`. */
  predicate RolesBelow(s: Step, n: int) {
    OptBelow(s.comparing, n) && OptBelow(s.swapped, n) && OptBelow(s.swapping, n) &&
    OptBelow(s.sortedIndices, n) && OptBelow(s.selected, n) && OptBelow(s.highlighted, n) &&
    OptBelow(s.currentFocus, n) && OptIndexBelow(s.minIdx, n) &&
    OptIndexBelow(s.pivotIndex, n) && OptIndexBelow(s.checkingIndex, n)
  }

  /** A step with a snapshot whose role indices all address that snapshot. */
  predicate WellIndexed(s: Step) {
    s.state.Some? && RolesBelow(s, |s.state.value|)
  }

  /** Every snapshot of the trace is a rearrangement of `data` and every
      recorded index is in range of it. */
  predicate SnapshotsOf(data: seq<int>, steps: seq<Step>) {
    forall k :: 0 <= k < |steps| ==> SnapshotOf(data, steps[k])
  }

  /** A snapshot of `data` whose recorded indices address it. */
  predicate SnapshotOf(data: seq<int>, x: Step) {
    WellIndexed(x) && |x.state.value| == |data| && multiset(x.state.value) == multiset(data)
  }

  /** The last record is the `final` one, ascending, marking every index. */
  predicate EndsSorted(steps: seq<Step>, n: int) {
    |steps| > 0 && Last(steps).kind == Final && Last(steps).state.Some? &&
    Ascending(Last(steps).state.value) && Last(steps).sortedIndices == Some(Range(0, n))
  }

  /** Exchange of positions `i` and `j`. */
  function Exchanged(s: seq<int>, i: int, j: int): (r: seq<int>)
    requires 0 <= i < |s| && 0 <= j < |s|
    ensures |r| == |s|
  {
    s[i := s[j]][j := s[i]]
  }

  /** An exchange moves `s[i]` and `s[j]`, leaves every other position alone,
      and so rearranges `s`. */
  lemma ExchangedFacts(s: seq<int>, i: int, j: int)
    requires 0 <= i < |s| && 0 <= j < |s|
    ensures Exchanged(s, i, j)[i] == s[j] && Exchanged(s, i, j)[j] == s[i]
    ensures forall k :: 0 <= k < |s| && k != i && k != j ==> Exchanged(s, i, j)[k] == s[k]
    ensures multiset(Exchanged(s, i, j)) == multiset(s)
  {
  }

  /** The destructuring swap `[a[i], a[j]] = [a[j], a[i]]` on an array. */
  method Exchange(arr: array<int>, i: int, j: int)
    requires 0 <= i < arr.Length && 0 <= j < arr.Length
    modifies arr
    ensures arr[..] == Exchanged(old(arr[..]), i, j)
  {
    arr[i], arr[j] := arr[j], arr[i];
  }

  function Last(steps: seq<Step>): Step
    requires |steps| > 0
  {
    steps[|steps| - 1]
  }

  /** The record every sorting trace opens with. */
  function InitialStep(data: seq<int>): Step {
    Blank(Initial, "Initial array").(state := Some(data))
  }

  /** The record every sorting trace closes with: the array, every index sorted. */
  function FinalStep(s: seq<int>): Step {
    Blank(Final, "Array is sorted").(state := Some(s), sortedIndices := Some(Range(0, |s|)))
  }

  // ---------------------------------------------------------------------------
  // Views of a trace: the comparisons it logs and the `sorted` marks it makes

  /** The `comparing` pairs of the `comparison` records, in order. */
  function ComparedPairs(steps: seq<Step>): seq<seq<int>> {
    if steps == [] then []
    else
      (if steps[0].kind == Comparison && steps[0].comparing.Some? then [steps[0].comparing.value] else [])
      + ComparedPairs(steps[1..])
  }

  /** The `sortedIndices` of the `sorted` records, in order. */
  function SortedMarks(steps: seq<Step>): seq<seq<int>> {
    if steps == [] then []
    else
      (if steps[0].kind == Sorted && steps[0].sortedIndices.Some? then [steps[0].sortedIndices.value] else [])
      + SortedMarks(steps[1..])
  }

  /** Regrouping a concatenation of logs. */
  lemma Regroup(a: seq<Step>, b: seq<Step>, c: seq<Step>, d: seq<Step>)
    ensures a + (b + c + d) == a + b + c + d
  {
  }

  /** Appending one record, then the rest, or both at once. */
  lemma AppendOne(a: seq<Step>, x: Step, rest: seq<Step>)
    ensures a + [x] + rest == a + ([x] + rest)
  {
  }

  /** Appending two records, then the rest, or all at once. */
  lemma AppendTwo(a: seq<Step>, x: Step, y: Step, rest: seq<Step>)
    ensures a + [x] + [y] + rest == a + ([x, y] + rest)
  {
  }

  /** Appending three records at once or one at a time. */
  lemma AppendThree(a: seq<Step>, x: Step, y: Step, z: Step)
    ensures a + [x, y, z] == a + [x] + [y] + [z]
  {
  }

  /** The comparisons of a concatenation are those of its parts. */
  lemma {:induction false} ComparedAppend(a: seq<Step>, b: seq<Step>)
    ensures ComparedPairs(a + b) == ComparedPairs(a) + ComparedPairs(b)
  {
    if a == [] {
      assert a + b == b;
    } else {
      assert (a + b)[1..] == a[1..] + b;
      ComparedAppend(a[1..], b);
    }
  }

  /** The `sorted` marks of a concatenation are those of its parts. */
  lemma {:induction false} MarksAppend(a: seq<Step>, b: seq<Step>)
    ensures SortedMarks(a + b) == SortedMarks(a) + SortedMarks(b)
  {
    if a == [] {
      assert a + b == b;
    } else {
      assert (a + b)[1..] == a[1..] + b;
      MarksAppend(a[1..], b);
    }
  }

  lemma ComparedOfThree(a: seq<Step>, b: seq<Step>, c: seq<Step>)
    ensures ComparedPairs(a + b + c) == ComparedPairs(a) + ComparedPairs(b) + ComparedPairs(c)
  {
    ComparedAppend(a, b);
    ComparedAppend(a + b, c);
  }

  lemma MarksOfThree(a: seq<Step>, b: seq<Step>, c: seq<Step>)
    ensures SortedMarks(a + b + c) == SortedMarks(a) + SortedMarks(b) + SortedMarks(c)
  {
    MarksAppend(a, b);
    MarksAppend(a + b, c);
  }

  /** Three records of which only the last is a `sorted` mark. */
  lemma MarksOfLast(x: Step, y: Step, z: Step)
    requires x.kind != Sorted && y.kind != Sorted && z.kind == Sorted && z.sortedIndices.Some?
    ensures SortedMarks([x, y, z]) == [z.sortedIndices.value]
  {
    assert [z][1..] == [];
    assert SortedMarks([z]) == [z.sortedIndices.value];
    assert [y, z][1..] == [z];
    assert SortedMarks([y, z]) == [z.sortedIndices.value];
    assert [x, y, z][1..] == [y, z];
  }

  /** A record that is neither a comparison nor a `sorted` mark adds to neither view. */
  lemma PlainHead(x: Step, rest: seq<Step>)
    requires x.kind != Comparison && x.kind != Sorted
    ensures ComparedPairs([x] + rest) == ComparedPairs(rest)
    ensures SortedMarks([x] + rest) == SortedMarks(rest)
  {
    assert ([x] + rest)[1..] == rest;
  }
}
