# Teaching scripts: stack, undo/redo, patient list, Towers of Hanoi, factorial, maximum

This project models six small Python teaching programs as Dafny and proves what each one does:

- `module BoundedStack` (`stack.dfy`): a LIFO stack backed by a list. It has an optional `max_size` and can be built from initial items. A negative size gives `ValueError`, too many items or a push onto a full stack gives `OverflowError`, and popping or peeking an empty stack gives `IndexError`. The class `Stack<T>` holds the items as a `seq` field and a constant bound. `Valid()` is the invariant `|items| <= max_size`; construction, push, pop and clear all keep it. Each unit test becomes a method that returns what the test observes, with postconditions stating the values the test expects.
- `module UndoRedo` (`undo_redo.dfy`): the undo/redo history. It is a class with two `seq` stacks, and undo and redo return the moved action as an `Option`. The two stacks together are one timeline: the undo stack, then the redo stack reversed. A successful undo or redo keeps that timeline, and each operation can be undone by the other.
- `module PatientList` (`patient_list.dfy`): the round-robin patient list. `Patient` objects are joined by `next` pointers into a circle. A ghost sequence `nodes` fixes the traversal order, and `Valid()` says that each node's `next` is the following node and the last node's `next` is the head. Insertion walks to the tail as the source does. Deletion follows the source's three cases (only node, head node, later node) and reports which case happened as a `DeleteOutcome`, where the source prints a message.
- `module Hanoi` (`hanoi.dfy`): Towers of Hanoi.
  - `RecursiveHanoi` returns the list of moves that `recursive_hanoi` prints.
  - `Apply` and `Replay` play moves on three pegs and refuse any move that puts a larger disk on a smaller one.
  - `MoveDisk`, `LegalMove` and `IterativeHanoi` model the in-place version with three `Rod` objects.
  - Result: the iterative loop plays exactly the recursive solution from A to `Dest(n)`, using `Aux(n)` as the spare peg. `Dest(n)` is C when n is odd and B when n is even, because the fixed pairing (A,C), (A,B), (B,C) is never swapped.
- `module Factorial` (`factorial.dfy`): the recursive factorial, and the loop proved equal to it.
- `module Largest` (`find_largest.dfy`): the single-pass maximum, returning `None` on an empty list.
- `Wrappers` and `Sequences` hold the shared `Option`/`Result`/`Outcome` types and sequence reversal.

The Python prints a message where the model returns a value: the outcome enum, the moved action, the move performed or the list of records. The source's own example scripts become `ExampleUsage` methods, which call the model and return what the script displays; their postconditions state those values:
- `UndoRedo.ExampleUsage`: undo `[A, B]` and redo `[C]` at the end.
- `PatientList.ExampleUsage`: Ravi and Kiran remain after deleting 102.

The history class `UndoRedoSystem` keeps two plain lists; it does not reuse the bounded stack. The model follows the code in this.

## Model

| member | source | states |
|---|---|---|
| BoundedStack.ConstructionError | AAIP_ASSIGNMENTS/Lab_Test_1/Test1.1.py:12-18 | a negative bound is ValueError, more initial items than the bound is OverflowError, and construction succeeds exactly when there is no bound or the items fit |
| BoundedStack.NewStack | AAIP_ASSIGNMENTS/Lab_Test_1/Test1.1.py:12-18 | fails exactly when ConstructionError reports an error, with that error; otherwise the fresh stack satisfies the bound invariant and holds the initial items in order, last on top |
| BoundedStack.Stack.Push | AAIP_ASSIGNMENTS/Lab_Test_1/Test1.1.py:20-24 | fails with OverflowError exactly when the stack is full, leaving the items unchanged; otherwise appends exactly the item as the new top; keeps `len <= max_size` |
| BoundedStack.Stack.Pop | AAIP_ASSIGNMENTS/Lab_Test_1/Test1.1.py:26-30 | fails with IndexError exactly when empty and then changes nothing; otherwise returns the last item and removes only it; keeps the invariant |
| BoundedStack.Stack.Peek | AAIP_ASSIGNMENTS/Lab_Test_1/Test1.1.py:32-36 | fails with IndexError exactly when empty; otherwise returns the top item; the stack is not changed |
| BoundedStack.Stack.IsEmpty | AAIP_ASSIGNMENTS/Lab_Test_1/Test1.1.py:38-39 | true exactly when the stack holds no items |
| BoundedStack.Stack.Length | AAIP_ASSIGNMENTS/Lab_Test_1/Test1.1.py:44-45 | the number of items held |
| BoundedStack.Stack.Clear | AAIP_ASSIGNMENTS/Lab_Test_1/Test1.1.py:41-42 | the stack becomes empty, the bound is unchanged, and the invariant holds |
| BoundedStack.PushPopRoundTrip | AAIP_ASSIGNMENTS/Lab_Test_1/Test1.1.py:20-30 | on a stack that is not full, pushing an item and then popping returns that item and restores the contents |
| BoundedStack.PushAllPopAll | AAIP_ASSIGNMENTS/Lab_Test_1/Test1.1.py:51-61 | pushing a sequence and popping as many times returns it reversed (last in, first out) and restores the contents |
| BoundedStack.Stack.constructor | AAIP_ASSIGNMENTS/Lab_Test_1/Test1.1.py:12-18 | the success path of `__init__`: given initial items that fit the bound, the stack holds them in order and the bound invariant holds |
| BoundedStack.TestPushPopPeek | AAIP_ASSIGNMENTS/Lab_Test_1/Test1.1.py:51-61 | after pushing 1, 2, 3 the length is 3 and peek gives 3; the pops give 3, 2, 1; the stack is then empty |
| BoundedStack.TestEmptyRaises | AAIP_ASSIGNMENTS/Lab_Test_1/Test1.1.py:63-70 | pop and peek on a new stack both fail with IndexError |
| BoundedStack.TestMaxSizeOverflow | AAIP_ASSIGNMENTS/Lab_Test_1/Test1.1.py:71-76 | with max size 2, two pushes pass, the third fails with OverflowError, and the stack keeps "a", "b" |
| BoundedStack.TestConstruction | AAIP_ASSIGNMENTS/Lab_Test_1/Test1.1.py:77-91 | a stack built from 1, 2, 3 has length 3 and pops 3; three items with max size 2 is OverflowError; max size -1 is ValueError; a cleared stack is empty |
| UndoRedo.UndoRedoSystem.constructor | ADSA/Assignment-3/Task3.py:2-4 | both stacks start empty |
| UndoRedo.UndoRedoSystem.PushAction | ADSA/Assignment-3/Task3.py:7-10 | the undo stack becomes the old one plus the action, and the redo stack is emptied |
| UndoRedo.UndoRedoSystem.Undo | ADSA/Assignment-3/Task3.py:13-20 | nothing is moved exactly when the undo stack is empty, and then both stacks are unchanged; otherwise the undo top is removed, returned, and pushed onto the redo stack |
| UndoRedo.UndoRedoSystem.Redo | ADSA/Assignment-3/Task3.py:23-30 | nothing is moved exactly when the redo stack is empty, and then both stacks are unchanged; otherwise the redo top is removed, returned, and pushed onto the undo stack |
| UndoRedo.UndoRedoSystem.Snapshot | ADSA/Assignment-3/Task3.py:33-37 | returns both stacks, base to top, without changing them |
| UndoRedo.UndoKeepsTimeline | ADSA/Assignment-3/Task3.py:18-19 | the stacks a successful undo leaves hold the same timeline (done actions, then undone ones in the order they were done) |
| UndoRedo.RedoKeepsTimeline | ADSA/Assignment-3/Task3.py:28-29 | the stacks a successful redo leaves hold the same timeline |
| UndoRedo.TimelineHoldsBothStacks | ADSA/Assignment-3/Task3.py:13-30 | the timeline is the multiset union of the two stacks |
| UndoRedo.UndoConserves | ADSA/Assignment-3/Task3.py:18-19 | a successful undo keeps the multiset of actions on the two stacks and their total count |
| UndoRedo.RedoConserves | ADSA/Assignment-3/Task3.py:28-29 | a successful redo keeps the multiset of actions on the two stacks and their total count |
| UndoRedo.UndoThenRedo | ADSA/Assignment-3/Task3.py:13-30 | a successful undo followed by redo redoes the same action and restores both stacks exactly |
| UndoRedo.RedoThenUndo | ADSA/Assignment-3/Task3.py:13-30 | a successful redo followed by undo undoes the same action and restores both stacks exactly |
| UndoRedo.ExampleUsage | ADSA/Assignment-3/Task3.py:43-58 | pushing A, B, C shows undo [A, B, C] and redo []; two undos move C then B and show [A] and [C, B]; the redo moves B and shows [A, B] and [C] |
| PatientList.Patient.constructor | ADSA/Assignment-2/Task2.py:2-6 | a new patient holds the given name, age and id and links to no node |
| PatientList.CircularPatientList.constructor | ADSA/Assignment-2/Task2.py:10-11 | a new list has no head and no nodes, and the cycle invariant holds |
| PatientList.FirstWithId | ADSA/Assignment-2/Task2.py:57-65 | the index of the first record with the id, or None exactly when no record has it |
| PatientList.CircularPatientList.InsertPatient | ADSA/Assignment-2/Task2.py:14-27 | the new patient is appended as the last node in traversal order; the other nodes keep their order; an empty list becomes a one-node cycle whose `next` is itself; otherwise the head is kept; the cycle invariant holds |
| PatientList.CircularPatientList.DeletePatient | ADSA/Assignment-2/Task2.py:30-65 | reports empty list, only patient, head, later patient or not found, each exactly in its case; removes the first record with the id, keeping the rest in order; with no match the list is unchanged; after a head deletion the old second node is the head; the cycle invariant holds |
| PatientList.CircularPatientList.UnlinkHead | ADSA/Assignment-2/Task2.py:45-54 | with several nodes, the last node is re-linked to the old second node, which becomes the head; the traversal order drops only the old head |
| PatientList.CircularPatientList.UnlinkAfterHead | ADSA/Assignment-2/Task2.py:56-65 | when the head does not match, the first later node with the id is unlinked and PatientDeleted is reported; if none matches, NotFound is reported and nothing changes |
| PatientList.CircularPatientList.UnlinkNext | ADSA/Assignment-2/Task2.py:61 | `prev.next = temp.next` removes exactly `temp` from the traversal order and keeps the cycle |
| PatientList.CircularPatientList.Display | ADSA/Assignment-2/Task2.py:68-79 | the walk from head yields every record in traversal order (empty for an empty list) |
| PatientList.CircularPatientList.CircularTraversal | ADSA/Assignment-2/Task2.py:74-79 | following `next` from head visits every node once, in order, without returning to head early, and is back at head after `len` steps |
| PatientList.RecordsRemoveAt | ADSA/Assignment-2/Task2.py:51-61 | unlinking a node removes exactly its record from the contents |
| PatientList.ExampleUsage | ADSA/Assignment-2/Task2.py:85-95 | inserting Ravi, Sita and Kiran displays them in that order; deleting 102 reports a later patient deleted, and the display then shows Ravi and Kiran |
| Hanoi.RecursiveHanoi | ADSA/Assignment-4/Task4.py:4-11 | for n >= 1 the solution has exactly 2^n - 1 moves |
| Hanoi.RecursiveHanoiBase | ADSA/Assignment-4/Task4.py:5-7 | with one disk the solution is the single move of disk 1 from source to destination |
| Hanoi.RecursiveHanoiDisks | ADSA/Assignment-4/Task4.py:4-11 | every move moves one of the disks 1..n |
| Hanoi.RecursiveHanoiSolves | ADSA/Assignment-4/Task4.py:9-11 | from any position with disks n..1 on top of the source and only larger disks elsewhere, the moves replay legally (never a larger disk on a smaller one) and end with the n disks on top of the destination, the other pegs unchanged |
| Hanoi.RecursiveHanoiFromStart | ADSA/Assignment-4/Task4.py:4-11 | from A = [n..1], B, C empty, the replay of `recursive_hanoi(n, A, B, C)` is legal and ends with all disks on C |
| Hanoi.RecursiveHanoiCycles | ADSA/Assignment-4/Task4.py:9-11 | the k-th recursive move is between the pair of pegs a repeating cycle of three pairs gives for k mod 3, in an order set by the parity of n |
| Hanoi.ReplayAppend | ADSA/Assignment-4/Task4.py:9-11 | replaying two move lists one after the other is replaying their concatenation |
| Hanoi.ApplyKeepsDisks | ADSA/Assignment-4/Task4.py:17-19 | a legal move keeps the multiset of disks on the three pegs |
| Hanoi.ApplyKeepsOrder | ADSA/Assignment-4/Task4.py:17-19 | a legal move keeps every peg strictly decreasing from base to top |
| Hanoi.MoveKeepsDisks | ADSA/Assignment-4/Task4.py:18-19 | moving the top disk from one rod to another keeps the combined multiset of the two rods |
| Hanoi.Rod.constructor | ADSA/Assignment-4/Task4.py:36-38 | a rod holds exactly the given disks, base first, as the lists A, B and C do |
| Hanoi.MoveDisk | ADSA/Assignment-4/Task4.py:17-20 | the top of the from-rod is removed and appended to the to-rod, and the move is reported |
| Hanoi.LegalMove | ADSA/Assignment-4/Task4.py:23-31 | when a rod is empty the disk moves onto it from the other; otherwise the smaller top disk moves onto the other rod; the rods must not both be empty |
| Hanoi.LegalMoveIsLegal | ADSA/Assignment-4/Task4.py:23-31 | when the two rods are not both empty and their tops differ, the move legal_move chooses is legal: it never puts a larger disk on a smaller one |
| Hanoi.LegalMoveAgrees | ADSA/Assignment-4/Task4.py:23-31 | any legal move between the two pegs is the move legal_move chooses, so the legal move is unique |
| Hanoi.TowerElements | ADSA/Assignment-4/Task4.py:36 | the start rod is [n, n-1, ..., 1] |
| Hanoi.TowerDecreasing | ADSA/Assignment-4/Task4.py:36 | the start rod is strictly decreasing from base to top |
| Hanoi.IterativePairsFollowRecursion | ADSA/Assignment-4/Task4.py:50-56 | the k-th move of the recursive solution, with destination Dest(n), is between the pair the loop picks by k % 3 |
| Hanoi.IterativeStep | ADSA/Assignment-4/Task4.py:51-56 | one loop iteration performs exactly the next move of the recursive solution and keeps the rods ordered with disks 1..n between them |
| Hanoi.IterativeLoop | ADSA/Assignment-4/Task4.py:50-56 | the 2^n - 1 iterations perform exactly the recursive solution and leave all disks on the destination |
| Hanoi.IterativeHanoi | ADSA/Assignment-4/Task4.py:34-56 | performs exactly 2^n - 1 moves; for n >= 1 they are the moves of `recursive_hanoi(n, A, Aux(n), Dest(n))`; all disks end on C for odd n and on B for even n, and A and the spare rod end empty |
| Hanoi.PlanOnTrack | ADSA/Assignment-4/Task4.py:36-40 | the start position has disks 1..n, ordered, and replaying the plan reaches the goal |
| Factorial.FactorialRecursive | AAIP_ASSIGNMENTS/Assignment-1/Task4.py:2-7 | the factorial is at least 1 and at least n |
| Factorial.FactorialEquations | AAIP_ASSIGNMENTS/Assignment-1/Task4.py:4-7 | 0! = 1! = 1 and n! = n * (n-1)! for n >= 2 |
| Factorial.FactorialHasFactor | AAIP_ASSIGNMENTS/Assignment-1/Task4.py:2-7 | every k with 1 <= k <= n divides n! |
| Factorial.FactorialIterative | AAIP_ASSIGNMENTS/Assignment-1/Task4.py:10-15 | the loop computes the recursive factorial for every n >= 0 |
| Largest.FindLargest | AAIP_ASSIGNMENTS/Assignment-1/Task5.py:1-9 | None exactly for an empty list; otherwise an element of the list and at least every element; the ghost index it was taken from is the first position of the maximum, since (strict `>`) only smaller elements come before it |

## Left out

- Printed messages and representations become return values (outcome enums, moved actions, moves, record lists). The text of `print`, `__repr__` (Test1.1.py lines 47-48) and the display banners is not modelled.
- Console input and its parsing (`input()`, `int()`, `float()` and their `ValueError` handling) and the `__main__` blocks are left out; the unittest cases of Test1.1.py become verified test methods.
- AAIP_ASSIGNMENTS/Lab_Test_1/Test1.2.py is not part of this model: it is floating-point statistics and a keyword heuristic.
- Largest.FindLargest: works over `int`; the script's input is parsed as floats, and floating point is not modelled.
- Factorial.FactorialRecursive: n is a `nat`. For negative n the Python recursion never reaches its base case and raises RecursionError; that path is left out because the script rejects negative input (Task4.py line 20) before calling.
- Factorial.FactorialIterative: n is a `nat`. For negative n the Python loop range is empty and the function returns 1; that path is left out because line 20 never passes a negative n.
- Hanoi.RecursiveHanoi: requires n >= 1; for n < 1 the Python recursion never reaches its base case and raises RecursionError.
- Hanoi.MoveDisk: requires a non-empty from-rod and two distinct rods. The Python raises IndexError on an empty pop; `legal_move` reaches that only when both of its rods are empty.
- Hanoi.LegalMove: requires two distinct rods that are not both empty. The model does not consider aliasing one list as both rods, nor the IndexError that two empty rods raise; `iterative_hanoi` never calls it on two empty rods, which LegalMoveEffect and IterativeStep prove for every one of its calls.
- Hanoi.IterativeHanoi: `aux_name` and `dest_name` are computed in the source but never used, so they are not modelled. The model's Aux(n) and Dest(n) only name where the disks end up. n is a `nat`: for negative n the Python raises TypeError (`2 ** n` is a float, which `range` rejects), a path the model leaves out because the script calls `recursive_hanoi` first, which never returns for n < 1, so `iterative_hanoi` is never reached with such an n.
- The public mutability of `max_size` after construction is not modelled: the bound is a constant of the stack.
- Python's runtime generics and duck typing become a Dafny type parameter; stack and history items are any type.
- The patient list's `Patient.next` pointers are real references, but the traversal order is a ghost sequence. Deletion's case 3 is split into helper methods (`UnlinkAfterHead`, `UnlinkNext`) with the same behaviour.
