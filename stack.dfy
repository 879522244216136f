/**
 * AAIP_ASSIGNMENTS/Lab_Test_1/Test1.1.py: a list-backed LIFO stack with an
 * optional maximum size. The list `items` runs from base to top (the top is
 * its last element); `maxSize` is set once, at construction. Python's
 * exceptions become error values: ValueError for a negative maximum size,
 * OverflowError for an overfull stack, IndexError for an empty pop or peek.
 */
module BoundedStack {
  import opened Wrappers
  import opened Sequences

  datatype StackError = ValueError | OverflowError | IndexError

  /** How construction turns out for an initial sequence of the given length. */
  function ConstructionError(initialLength: nat, maxSize: Option<int>): (e: Option<StackError>)
    ensures e == Some(ValueError) <==> maxSize.Some? && maxSize.value < 0
    ensures e == Some(OverflowError) <==> maxSize.Some? && 0 <= maxSize.value < initialLength
    ensures e.None? <==> maxSize.None? || initialLength <= maxSize.value
  {
    if maxSize.Some? && maxSize.value < 0 then Some(ValueError)
    else if maxSize.Some? && initialLength > maxSize.value then Some(OverflowError)
    else None
  }

  class Stack<T> {
    var items: seq<T>
    const maxSize: Option<nat>

    /** The bound holds whenever there is one. */
    ghost predicate Valid()
      reads this
    {
      maxSize.Some? ==> |items| <= maxSize.value
    }

    ghost predicate IsFull()
      reads this
    {
      maxSize.Some? && |items| >= maxSize.value
    }

    /** `__init__` once the arguments are known to be acceptable; `NewStack` checks them. */
    constructor (initial: seq<T>, maxSize: Option<nat>)
      requires maxSize.Some? ==> |initial| <= maxSize.value
      ensures Valid()
      ensures items == initial && this.maxSize == maxSize
    {
      items := initial;
      this.maxSize := maxSize;
    }

    /** `push`: OverflowError and no change on a full stack, otherwise `item` becomes the new top. */
    method Push(item: T) returns (outcome: Outcome<StackError>)
      requires Valid()
      modifies this
      ensures Valid()
      ensures outcome.Fail? <==> old(IsFull())
      ensures outcome.Fail? ==> outcome.error == OverflowError && items == old(items)
      ensures outcome.Pass? ==> items == old(items) + [item]
    {
      if maxSize.Some? && |items| >= maxSize.value {
        return Fail(OverflowError);
      }
      items := items + [item];
      return Pass;
    }

    /** `pop`: IndexError and no change on an empty stack, otherwise removes and returns the top. */
    method Pop() returns (r: Result<T, StackError>)
      requires Valid()
      modifies this
      ensures Valid()
      ensures r.Failure? <==> old(items) == []
      ensures r.Failure? ==> r.error == IndexError && items == old(items)
      ensures r.Success? ==> r.value == old(items)[|old(items)| - 1]
      ensures r.Success? ==> items == old(items)[..|old(items)| - 1]
    {
      if items == [] {
        return Failure(IndexError);
      }
      var top := items[|items| - 1];
      items := items[..|items| - 1];
      return Success(top);
    }

    /** `peek`: IndexError on an empty stack, otherwise the top; never changes the stack. */
    method Peek() returns (r: Result<T, StackError>)
      requires Valid()
      ensures r.Failure? <==> items == []
      ensures r.Failure? ==> r.error == IndexError
      ensures r.Success? ==> r.value == items[|items| - 1]
    {
      if items == [] {
        return Failure(IndexError);
      }
      return Success(items[|items| - 1]);
    }

    /** `is_empty`. */
    method IsEmpty() returns (b: bool)
      ensures b <==> |items| == 0
    {
      return items == [];
    }

    /** `__len__`. */
    method Length() returns (n: nat)
      ensures n == |items|
    {
      return |items|;
    }

    /** `clear`: empties the stack; the maximum size stays as it was. */
    method Clear()
      requires Valid()
      modifies this
      ensures Valid()
      ensures items == []
    {
      items := [];
    }
  }

  /**
   * `Stack(iterable, max_size)`: ValueError for a negative maximum size,
   * OverflowError when the initial items do not fit, otherwise a fresh stack
   * holding the initial items in order, the last one on top.
   */
  method NewStack<T>(initial: seq<T>, maxSize: Option<int>) returns (r: Result<Stack<T>, StackError>)
    ensures r.Failure? <==> ConstructionError(|initial|, maxSize).Some?
    ensures r.Failure? ==> r.error == ConstructionError(|initial|, maxSize).value
    ensures r.Success? ==> fresh(r.value) && r.value.Valid() && r.value.items == initial
    ensures r.Success? ==> r.value.maxSize == (if maxSize.Some? then Some(maxSize.value as nat) else None)
  {
    if maxSize.Some? && maxSize.value < 0 {
      return Failure(ValueError);
    }
    var bound: Option<nat> := if maxSize.Some? then Some(maxSize.value as nat) else None;
    if bound.Some? && |initial| > bound.value {
      return Failure(OverflowError);
    }
    var s := new Stack(initial, bound);
    return Success(s);
  }

  /** Push followed by pop returns the pushed item and restores the contents (below capacity). */
  method PushPopRoundTrip<T>(s: Stack<T>, item: T) returns (popped: T)
    requires s.Valid() && !s.IsFull()
    modifies s
    ensures s.Valid() && s.items == old(s.items) && popped == item
  {
    var o := s.Push(item);
    var r := s.Pop();
    popped := r.value;
  }

  /** Pushing p1..pk and then popping k times yields pk..p1 and leaves the stack as it was. */
  method PushAllPopAll<T>(s: Stack<T>, pushes: seq<T>) returns (popped: seq<T>)
    requires s.Valid()
    requires s.maxSize.Some? ==> |s.items| + |pushes| <= s.maxSize.value
    modifies s
    ensures s.Valid() && s.items == old(s.items)
    ensures popped == Reversed(pushes)
  {
    for i := 0 to |pushes|
      invariant s.Valid() && s.items == old(s.items) + pushes[..i]
    {
      var o := s.Push(pushes[i]);
      assert pushes[..i + 1] == pushes[..i] + [pushes[i]];
    }
    popped := [];
    for i := 0 to |pushes|
      invariant s.Valid() && s.items == old(s.items) + pushes[..|pushes| - i]
      invariant popped == Reversed(pushes[|pushes| - i..])
    {
      var r := s.Pop();
      var k := |pushes| - i - 1;
      assert pushes[..k + 1] == pushes[..k] + [pushes[k]];
      assert pushes[k..][1..] == pushes[k + 1..];
      popped := popped + [r.value];
    }
    assert pushes[0..] == pushes;
  }

  /** test_push_pop_peek: push 1, 2, 3; length 3, peek 3, pops 3, 2, 1, then empty. */
  method TestPushPopPeek() returns (length: nat, top: Result<int, StackError>, pops: seq<Result<int, StackError>>, empty: bool)
    ensures length == 3 && top == Success(3)
    ensures pops == [Success(3), Success(2), Success(1)]
    ensures empty
  {
    var s := new Stack<int>([], None);
    var o := s.Push(1);
    o := s.Push(2);
    o := s.Push(3);
    length := s.Length();
    top := s.Peek();
    var r1 := s.Pop();
    var r2 := s.Pop();
    var r3 := s.Pop();
    pops := [r1, r2, r3];
    empty := s.IsEmpty();
  }

  /** test_pop_empty_raises, test_peek_empty_raises: both fail with IndexError on a new stack. */
  method TestEmptyRaises() returns (popped: Result<int, StackError>, peeked: Result<int, StackError>)
    ensures popped == Failure(IndexError) && peeked == Failure(IndexError)
  {
    var s := new Stack<int>([], None);
    popped := s.Pop();
    peeked := s.Peek();
  }

  /** test_max_size_overflow: the third push onto a stack of size two fails and keeps the first two. */
  method TestMaxSizeOverflow() returns (outcomes: seq<Outcome<StackError>>, left: seq<string>)
    ensures outcomes == [Pass, Pass, Fail(OverflowError)]
    ensures left == ["a", "b"]
  {
    var s := new Stack<string>([], Some(2));
    var o1 := s.Push("a");
    var o2 := s.Push("b");
    var o3 := s.Push("c");
    outcomes := [o1, o2, o3];
    left := s.items;
  }

  /**
   * test_init_from_iterable_and_order, test_init_exceeds_max_size,
   * test_negative_max_size_raises, test_clear_and_repr (without the repr).
   */
  method TestConstruction() returns (length: nat, top: Result<int, StackError>, tooMany: Result<Stack<int>, StackError>,
                                     negative: Result<Stack<int>, StackError>, clearedEmpty: bool)
    ensures length == 3 && top == Success(3)
    ensures tooMany == Failure(OverflowError)
    ensures negative == Failure(ValueError)
    ensures clearedEmpty
  {
    var r := NewStack([1, 2, 3], None);
    var s := r.value;
    length := s.Length();
    top := s.Pop();
    tooMany := NewStack([1, 2, 3], Some(2));
    negative := NewStack<int>([], Some(-1));
    r := NewStack([1, 2], None);
    s := r.value;
    s.Clear();
    clearedEmpty := s.IsEmpty();
  }
}
