/**
 * ADSA/Assignment-3/Task3.py: an undo/redo history kept in two stacks
 * (lists whose last element is the top). A new action invalidates the redo
 * history; undo and redo move one action between the stacks. Where the
 * Python prints "Nothing to undo." or "Nothing to redo.", the model returns
 * None; where it prints the action moved, the model returns that action.
 *
 * The two stacks together are one timeline: the undo stack from base to top
 * followed by the redo stack from top to base. Undo and redo keep the
 * timeline and move the cursor (the length of the undo stack) by one.
 */
module UndoRedo {
  import opened Wrappers
  import opened Sequences

  class UndoRedoSystem<Action> {
    var undoStack: seq<Action>
    var redoStack: seq<Action>

    /** Both stacks start empty. */
    constructor ()
      ensures undoStack == [] && redoStack == []
    {
      undoStack := [];
      redoStack := [];
    }

    /** `push_action`: the action becomes the top of the undo stack and the redo history is discarded. */
    method PushAction(action: Action)
      modifies this
      ensures undoStack == old(undoStack) + [action]
      ensures redoStack == []
    {
      undoStack := undoStack + [action];
      redoStack := [];
    }

    /** `undo`: with nothing to undo nothing changes; otherwise the undo top moves onto the redo stack. */
    method Undo() returns (moved: Option<Action>)
      modifies this
      ensures moved.None? <==> old(undoStack) == []
      ensures moved.None? ==> undoStack == old(undoStack) && redoStack == old(redoStack)
      ensures moved.Some? ==> moved.value == old(undoStack)[|old(undoStack)| - 1]
      ensures moved.Some? ==> undoStack == old(undoStack)[..|old(undoStack)| - 1]
      ensures moved.Some? ==> redoStack == old(redoStack) + [moved.value]
    {
      if undoStack == [] {
        return None;
      }
      var action := undoStack[|undoStack| - 1];
      undoStack := undoStack[..|undoStack| - 1];
      redoStack := redoStack + [action];
      return Some(action);
    }

    /** `redo`: with nothing to redo nothing changes; otherwise the redo top moves back onto the undo stack. */
    method Redo() returns (moved: Option<Action>)
      modifies this
      ensures moved.None? <==> old(redoStack) == []
      ensures moved.None? ==> undoStack == old(undoStack) && redoStack == old(redoStack)
      ensures moved.Some? ==> moved.value == old(redoStack)[|old(redoStack)| - 1]
      ensures moved.Some? ==> redoStack == old(redoStack)[..|old(redoStack)| - 1]
      ensures moved.Some? ==> undoStack == old(undoStack) + [moved.value]
    {
      if redoStack == [] {
        return None;
      }
      var action := redoStack[|redoStack| - 1];
      redoStack := redoStack[..|redoStack| - 1];
      undoStack := undoStack + [action];
      return Some(action);
    }

    /** `display`, without the printing: both stacks, base to top; nothing changes. */
    method Snapshot() returns (undo: seq<Action>, redo: seq<Action>)
      ensures undo == undoStack && redo == redoStack
    {
      return undoStack, redoStack;
    }
  }

  /**
   * Every action held, oldest first: the done actions, then the undone ones
   * in the order they were done.
   */
  function Timeline<Action>(undo: seq<Action>, redo: seq<Action>): seq<Action>
  {
    undo + Reversed(redo)
  }

  /** The stacks `undo` leaves behind, when there is something to undo, hold the same timeline. */
  lemma UndoKeepsTimeline<Action>(undo: seq<Action>, redo: seq<Action>)
    requires undo != []
    ensures Timeline(undo[..|undo| - 1], redo + [undo[|undo| - 1]]) == Timeline(undo, redo)
  {
    var action := undo[|undo| - 1];
    assert undo == undo[..|undo| - 1] + [action];
    ReversedSnoc(redo, action);
  }

  /** The stacks `redo` leaves behind, when there is something to redo, hold the same timeline. */
  lemma RedoKeepsTimeline<Action>(undo: seq<Action>, redo: seq<Action>)
    requires redo != []
    ensures Timeline(undo + [redo[|redo| - 1]], redo[..|redo| - 1]) == Timeline(undo, redo)
  {
    var action := redo[|redo| - 1];
    var rest := redo[..|redo| - 1];
    assert redo == rest + [action];
    ReversedSnoc(rest, action);
  }

  /** The timeline holds exactly the actions on the two stacks, as a multiset. */
  lemma TimelineHoldsBothStacks<Action>(undo: seq<Action>, redo: seq<Action>)
    ensures multiset(Timeline(undo, redo)) == multiset(undo) + multiset(redo)
  {
    ReversedMultiset(redo);
  }

  /** A successful undo keeps the actions held on the two stacks and their number. */
  lemma UndoConserves<Action>(undo: seq<Action>, redo: seq<Action>)
    requires undo != []
    ensures multiset(undo[..|undo| - 1]) + multiset(redo + [undo[|undo| - 1]]) == multiset(undo) + multiset(redo)
    ensures |undo[..|undo| - 1]| + |redo + [undo[|undo| - 1]]| == |undo| + |redo|
  {
    UndoKeepsTimeline(undo, redo);
    TimelineHoldsBothStacks(undo, redo);
    TimelineHoldsBothStacks(undo[..|undo| - 1], redo + [undo[|undo| - 1]]);
  }

  /** A successful redo keeps the actions held on the two stacks and their number. */
  lemma RedoConserves<Action>(undo: seq<Action>, redo: seq<Action>)
    requires redo != []
    ensures multiset(undo + [redo[|redo| - 1]]) + multiset(redo[..|redo| - 1]) == multiset(undo) + multiset(redo)
    ensures |undo + [redo[|redo| - 1]]| + |redo[..|redo| - 1]| == |undo| + |redo|
  {
    RedoKeepsTimeline(undo, redo);
    TimelineHoldsBothStacks(undo, redo);
    TimelineHoldsBothStacks(undo + [redo[|redo| - 1]], redo[..|redo| - 1]);
  }

  /** A successful undo followed by redo restores both stacks exactly. */
  method UndoThenRedo<Action>(h: UndoRedoSystem<Action>) returns (undone: Option<Action>, redone: Option<Action>)
    requires h.undoStack != []
    modifies h
    ensures undone.Some? && redone == undone
    ensures h.undoStack == old(h.undoStack) && h.redoStack == old(h.redoStack)
  {
    undone := h.Undo();
    redone := h.Redo();
  }

  /** A redo followed by undo restores both stacks exactly, when there is something to redo. */
  method RedoThenUndo<Action>(h: UndoRedoSystem<Action>) returns (redone: Option<Action>, undone: Option<Action>)
    requires h.redoStack != []
    modifies h
    ensures redone.Some? && undone == redone
    ensures h.undoStack == old(h.undoStack) && h.redoStack == old(h.redoStack)
  {
    redone := h.Redo();
    undone := h.Undo();
  }

  /**
   * The script's example: push A, B, C; undo twice; redo once, with the
   * three displays and the three actions moved.
   */
  method ExampleUsage() returns (shown: seq<(seq<string>, seq<string>)>, moved: seq<Option<string>>)
    ensures shown == [(["Type A", "Type B", "Type C"], []), (["Type A"], ["Type C", "Type B"]), (["Type A", "Type B"], ["Type C"])]
    ensures moved == [Some("Type C"), Some("Type B"), Some("Type B")]
  {
    var a, b, c := "Type A", "Type B", "Type C";
    var system := new UndoRedoSystem<string>();
    system.PushAction(a);
    system.PushAction(b);
    system.PushAction(c);
    var u1, r1 := system.Snapshot();
    assert u1 == [a, b, c] && r1 == [];
    var m1 := system.Undo();
    assert [a, b, c][..2] == [a, b];
    assert system.undoStack == [a, b] && system.redoStack == [c];
    var m2 := system.Undo();
    var u2, r2 := system.Snapshot();
    assert u2 == [a] && r2 == [c, b];
    var m3 := system.Redo();
    var u3, r3 := system.Snapshot();
    assert u3 == [a, b] && r3 == [c];
    shown := [(u1, r1), (u2, r2), (u3, r3)];
    moved := [m1, m2, m3];
  }
}
