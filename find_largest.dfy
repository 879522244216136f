/**
 * AAIP_ASSIGNMENTS/Assignment-1/Task5.py: `find_largest`, a single pass over
 * a list that keeps the largest value seen so far and answers None for an
 * empty list.
 */
module Largest {
  import opened Wrappers

  /**
   * `find_largest`: None exactly for the empty list; otherwise the maximum.
   * The ghost `at` is the index the returned value was taken from: because
   * only a strictly larger value replaces the current one, it is the first
   * position holding the maximum.
   */
  method FindLargest(numbers: seq<int>) returns (r: Option<int>, ghost at: nat)
    ensures r.None? <==> numbers == []
    ensures r.Some? ==> r.value in numbers
    ensures r.Some? ==> forall j :: 0 <= j < |numbers| ==> numbers[j] <= r.value
    ensures r.Some? ==> at < |numbers| && numbers[at] == r.value
    ensures r.Some? ==> forall j :: 0 <= j < at ==> numbers[j] < r.value
  {
    at := 0;
    if numbers == [] {
      return None, at;
    }
    var largest := numbers[0];
    for i := 1 to |numbers|
      invariant at < i && numbers[at] == largest
      invariant forall j :: 0 <= j < i ==> numbers[j] <= largest
      invariant forall j :: 0 <= j < at ==> numbers[j] < largest
    {
      if numbers[i] > largest {
        largest := numbers[i];
        at := i;
      }
    }
    return Some(largest), at;
  }
}
