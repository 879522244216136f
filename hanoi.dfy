/**
 * ADSA/Assignment-4/Task4.py: Towers of Hanoi, solved recursively and
 * iteratively. Rods are lists of disk sizes from base to top; disks are
 * numbered 1 (smallest) to n. Where the Python prints a move, the model
 * returns it.
 */
module Hanoi {
  import opened Wrappers

  /** The three rods' names, as the script passes them. */
  datatype Peg = A | B | C

  /** One printed move: "Move disk `disk` from `from` → `to`". */
  datatype Move = Move(disk: int, from: Peg, to: Peg)

  function Pow2(n: nat): (r: nat)
    ensures r >= 1
  {
    if n == 0 then 1 else 2 * Pow2(n - 1)
  }

  /** The rods [n, n-1, ..., 1], largest at the base: `list(range(n, 0, -1))`. */
  function Tower(n: nat): (t: seq<int>)
    ensures |t| == n
  {
    if n == 0 then [] else [n] + Tower(n - 1)
  }

  /** Position i of the starting rod holds disk n - i. */
  lemma {:induction false} TowerElements(n: nat)
    ensures forall i :: 0 <= i < n ==> Tower(n)[i] == n - i
  {
    if n > 0 {
      TowerElements(n - 1);
    }
  }

  // ---------------------------------------------------------------------
  // The rules of the puzzle, as an independent reference for both solvers.
  // ---------------------------------------------------------------------

  function Top(s: seq<int>): int
    requires s != []
  {
    s[|s| - 1]
  }

  function Pop(s: seq<int>): seq<int>
    requires s != []
  {
    s[..|s| - 1]
  }

  /** A disk may go onto an empty rod or onto a larger disk. */
  predicate CanPlace(disk: int, s: seq<int>)
  {
    s == [] || disk < Top(s)
  }

  /** Strictly decreasing from base to top: no disk rests on a smaller one. */
  predicate Decreasing(s: seq<int>)
  {
    forall i, j :: 0 <= i < j < |s| ==> s[i] > s[j]
  }

  datatype Towers = Towers(a: seq<int>, b: seq<int>, c: seq<int>) {
    function Get(p: Peg): seq<int>
    {
      match p
      case A => a
      case B => b
      case C => c
    }

    function Set(p: Peg, s: seq<int>): (t: Towers)
      ensures t.Get(p) == s
      ensures forall q :: q != p ==> t.Get(q) == Get(q)
    {
      match p
      case A => this.(a := s)
      case B => this.(b := s)
      case C => this.(c := s)
    }

    /** Every disk on any rod, with multiplicity. */
    function Disks(): multiset<int>
    {
      multiset(a) + multiset(b) + multiset(c)
    }

    predicate Ordered()
    {
      Decreasing(a) && Decreasing(b) && Decreasing(c)
    }
  }

  lemma TowersEqual(t: Towers, u: Towers)
    requires forall p :: t.Get(p) == u.Get(p)
    ensures t == u
  {
    assert t.Get(A) == u.Get(A) && t.Get(B) == u.Get(B) && t.Get(C) == u.Get(C);
  }

  /** Towers that agree on three distinct pegs are equal. */
  lemma TowersEqualOn(t: Towers, u: Towers, p: Peg, q: Peg, r: Peg)
    requires p != q && p != r && q != r
    requires t.Get(p) == u.Get(p) && t.Get(q) == u.Get(q) && t.Get(r) == u.Get(r)
    ensures t == u
  {
    TowersEqual(t, u);
  }

  /** A move is legal when it takes the top disk of one rod and places it on a different rod it may rest on. */
  function Apply(t: Towers, m: Move): (r: Option<Towers>)
  {
    var src := t.Get(m.from);
    var dst := t.Get(m.to);
    if m.from == m.to || src == [] || Top(src) != m.disk || !CanPlace(m.disk, dst) then None
    else Some(t.Set(m.from, Pop(src)).Set(m.to, dst + [m.disk]))
  }

  /** Plays the moves in order; None as soon as one is illegal. */
  function Replay(t: Towers, moves: seq<Move>): Option<Towers>
    decreases |moves|
  {
    if moves == [] then Some(t)
    else match Apply(t, moves[0])
      case None => None
      case Some(t1) => Replay(t1, moves[1..])
  }

  /** The moves, played from t, are all legal and end in u. */
  ghost predicate Transfers(t: Towers, moves: seq<Move>, u: Towers)
  {
    Replay(t, moves) == Some(u)
  }

  lemma {:induction false} ReplayAppend(t: Towers, m1: seq<Move>, m2: seq<Move>)
    ensures Replay(t, m1 + m2) == match Replay(t, m1) case None => None case Some(t1) => Replay(t1, m2)
    decreases |m1|
  {
    if m1 == [] {
      assert m1 + m2 == m2;
    } else {
      assert (m1 + m2)[1..] == m1[1..] + m2;
      match Apply(t, m1[0])
      case None =>
      case Some(t1) => ReplayAppend(t1, m1[1..], m2);
    }
  }

  /** Moving the top of `src` onto `dst` keeps the disks of the two rods. */
  lemma MoveKeepsDisks(src: seq<int>, dst: seq<int>)
    requires src != []
    ensures multiset(Pop(src)) + multiset(dst + [Top(src)]) == multiset(src) + multiset(dst)
  {
    assert src == Pop(src) + [Top(src)];
  }

  /** Moving the top of `src` onto `dst`, where it may rest, keeps both rods decreasing. */
  lemma MoveKeepsOrder(src: seq<int>, dst: seq<int>)
    requires src != [] && CanPlace(Top(src), dst)
    requires Decreasing(src) && Decreasing(dst)
    ensures Decreasing(Pop(src)) && Decreasing(dst + [Top(src)])
  {
  }

  /** A legal move keeps every disk. */
  lemma ApplyKeepsDisks(t: Towers, m: Move)
    requires Apply(t, m).Some?
    ensures Apply(t, m).value.Disks() == t.Disks()
  {
    var u := Apply(t, m).value;
    var other := Third(m.from, m.to);
    MoveKeepsDisks(t.Get(m.from), t.Get(m.to));
    DisksByPegs(t, m.from, m.to);
    DisksByPegs(u, m.from, m.to);
    assert u.Get(other) == t.Get(other);
  }

  /** The peg that is neither p nor q. */
  function Third(p: Peg, q: Peg): (r: Peg)
    requires p != q
    ensures r != p && r != q
  {
    if p != A && q != A then A else if p != B && q != B then B else C
  }

  /** The disks of the towers, counted from any two pegs and the third. */
  lemma DisksByPegs(t: Towers, p: Peg, q: Peg)
    requires p != q
    ensures t.Disks() == multiset(t.Get(p)) + multiset(t.Get(q)) + multiset(t.Get(Third(p, q)))
  {
    var x, y, z := multiset(t.a), multiset(t.b), multiset(t.c);
    match (p, q)
    case (A, B) =>
    case (A, C) => assert x + y + z == x + z + y;
    case (B, A) => assert x + y + z == y + x + z;
    case (B, C) => assert x + y + z == y + z + x;
    case (C, A) => assert x + y + z == z + x + y;
    case (C, B) => assert x + y + z == z + y + x;
  }

  /** A legal move keeps every rod decreasing: never a larger disk on a smaller one. */
  lemma ApplyKeepsOrder(t: Towers, m: Move)
    requires Apply(t, m).Some? && t.Ordered()
    ensures Apply(t, m).value.Ordered()
  {
    MoveKeepsOrder(t.Get(m.from), t.Get(m.to));
    match m.from
    case A =>
    case B =>
    case C =>
  }

  // ---------------------------------------------------------------------
  // recursive_hanoi
  // ---------------------------------------------------------------------

  /**
   * `recursive_hanoi(n, source, auxiliary, destination)` as the list of the
   * moves it prints. Its base case is n == 1; for n == 0 the Python recursion
   * never reaches it, so n >= 1 is required.
   */
  function RecursiveHanoi(n: nat, source: Peg, auxiliary: Peg, destination: Peg): (moves: seq<Move>)
    requires n >= 1
    ensures |moves| == Pow2(n) - 1
  {
    if n == 1 then [Move(1, source, destination)]
    else
      RecursiveHanoi(n - 1, source, destination, auxiliary)
      + [Move(n, source, destination)]
      + RecursiveHanoi(n - 1, auxiliary, source, destination)
  }

  /** Every move of the solution for n disks moves one of the disks 1..n. */
  lemma {:induction false} RecursiveHanoiDisks(n: nat, source: Peg, auxiliary: Peg, destination: Peg)
    requires n >= 1
    ensures forall i :: 0 <= i < |RecursiveHanoi(n, source, auxiliary, destination)| ==>
              1 <= RecursiveHanoi(n, source, auxiliary, destination)[i].disk <= n
  {
    if n > 1 {
      RecursiveHanoiDisks(n - 1, source, destination, auxiliary);
      RecursiveHanoiDisks(n - 1, auxiliary, source, destination);
    }
  }

  /** The base case prints one move, of disk 1, straight to the destination. */
  lemma RecursiveHanoiBase(source: Peg, auxiliary: Peg, destination: Peg)
    ensures RecursiveHanoi(1, source, auxiliary, destination) == [Move(1, source, destination)]
  {
  }

  /**
   * Playing recursive_hanoi's moves transfers the top n disks of `source`
   * onto `destination`, every move legal (never a larger disk on a smaller
   * one), provided no disk of size n or smaller lies below them or on the
   * other two rods' tops.
   */
  lemma {:induction false} RecursiveHanoiSolves(n: nat, source: Peg, auxiliary: Peg, destination: Peg,
                                                t: Towers, base: seq<int>)
    requires n >= 1
    requires source != auxiliary && source != destination && auxiliary != destination
    requires t.Get(source) == base + Tower(n)
    requires CanPlace(n, base) && CanPlace(n, t.Get(auxiliary)) && CanPlace(n, t.Get(destination))
    ensures Transfers(t, RecursiveHanoi(n, source, auxiliary, destination),
                      t.Set(source, base).Set(destination, t.Get(destination) + Tower(n)))
    decreases n, 2
  {
    if n == 1 {
      OneDiskSolves(source, auxiliary, destination, t, base);
    } else {
      RecursiveHanoiSolvesStep(n, source, auxiliary, destination, t, base);
    }
  }

  /** With one disk, the single move takes it from the source to the destination. */
  lemma OneDiskSolves(source: Peg, auxiliary: Peg, destination: Peg, t: Towers, base: seq<int>)
    requires source != auxiliary && source != destination && auxiliary != destination
    requires t.Get(source) == base + [1]
    requires CanPlace(1, t.Get(destination))
    ensures Transfers(t, RecursiveHanoi(1, source, auxiliary, destination),
                      t.Set(source, base).Set(destination, t.Get(destination) + [1]))
  {
    var final := t.Set(source, base).Set(destination, t.Get(destination) + [1]);
    assert Pop(base + [1]) == base;
    assert Apply(t, Move(1, source, destination)) == Some(final);
    assert Replay(final, []) == Some(final);
  }

  /** The inductive step: the n - 1 disks to the auxiliary rod, disk n across, the n - 1 disks back on top. */
  lemma {:induction false} RecursiveHanoiSolvesStep(n: nat, source: Peg, auxiliary: Peg, destination: Peg,
                                                    t: Towers, base: seq<int>)
    requires n >= 2
    requires source != auxiliary && source != destination && auxiliary != destination
    requires t.Get(source) == base + Tower(n)
    requires CanPlace(n, base) && CanPlace(n, t.Get(auxiliary)) && CanPlace(n, t.Get(destination))
    ensures Transfers(t, RecursiveHanoi(n, source, auxiliary, destination),
                      t.Set(source, base).Set(destination, t.Get(destination) + Tower(n)))
    decreases n, 1
  {
    var first := RecursiveHanoi(n - 1, source, destination, auxiliary);
    var middle := Move(n, source, destination);
    var last := RecursiveHanoi(n - 1, auxiliary, source, destination);
    assert RecursiveHanoi(n, source, auxiliary, destination) == (first + [middle]) + last;
    // Move n - 1 disks out of the way, onto the auxiliary rod, then disk n to the destination.
    var t1 := FirstHalfSolves(n, source, auxiliary, destination, t, base);
    var t2 := MiddleMove(n, source, auxiliary, destination, t, t1, base);
    ReplayThen(t, first, [middle], t1, t2);
    // Move the n - 1 disks from the auxiliary rod onto disk n.
    var t3 := SecondHalfSolves(n, source, auxiliary, destination, t, t2, base);
    ReplayThen(t, first + [middle], last, t2, t3);
    TowersEqualOn(t3, t.Set(source, base).Set(destination, t.Get(destination) + Tower(n)),
                  source, auxiliary, destination);
  }

  /** The first recursive call moves the n - 1 disks above disk n onto the auxiliary rod. */
  lemma {:induction false} FirstHalfSolves(n: nat, source: Peg, auxiliary: Peg, destination: Peg,
                                           t: Towers, base: seq<int>) returns (t1: Towers)
    requires n >= 2
    requires source != auxiliary && source != destination && auxiliary != destination
    requires t.Get(source) == base + Tower(n)
    requires CanPlace(n, base) && CanPlace(n, t.Get(auxiliary)) && CanPlace(n, t.Get(destination))
    ensures t1 == t.Set(source, base + [n]).Set(auxiliary, t.Get(auxiliary) + Tower(n - 1))
    ensures Transfers(t, RecursiveHanoi(n - 1, source, destination, auxiliary), t1)
    decreases n, 0
  {
    FirstHalfReady(n, source, auxiliary, destination, t, base);
    RecursiveHanoiSolves(n - 1, source, destination, auxiliary, t, base + [n]);
    t1 := t.Set(source, base + [n]).Set(auxiliary, t.Get(auxiliary) + Tower(n - 1));
  }

  /** Disk n is the one left on the source below the n - 1 disks the first recursive call moves. */
  lemma FirstHalfReady(n: nat, source: Peg, auxiliary: Peg, destination: Peg, t: Towers, base: seq<int>)
    requires n >= 2
    requires t.Get(source) == base + Tower(n)
    requires CanPlace(n, t.Get(auxiliary)) && CanPlace(n, t.Get(destination))
    ensures t.Get(source) == (base + [n]) + Tower(n - 1)
    ensures CanPlace(n - 1, base + [n]) && CanPlace(n - 1, t.Get(auxiliary)) && CanPlace(n - 1, t.Get(destination))
  {
    TowerSplit(n, base);
    assert Top(base + [n]) == n;
  }

  /** The second recursive call moves the n - 1 disks from the auxiliary rod onto disk n. */
  lemma {:induction false} SecondHalfSolves(n: nat, source: Peg, auxiliary: Peg, destination: Peg,
                                            t: Towers, t2: Towers, base: seq<int>) returns (t3: Towers)
    requires n >= 2
    requires source != auxiliary && source != destination && auxiliary != destination
    requires CanPlace(n, base) && CanPlace(n, t.Get(auxiliary)) && CanPlace(n, t.Get(destination))
    requires t2.Get(source) == base && t2.Get(auxiliary) == t.Get(auxiliary) + Tower(n - 1)
    requires t2.Get(destination) == t.Get(destination) + [n]
    ensures t3.Get(source) == base && t3.Get(auxiliary) == t.Get(auxiliary)
    ensures t3.Get(destination) == t.Get(destination) + Tower(n)
    ensures Transfers(t2, RecursiveHanoi(n - 1, auxiliary, source, destination), t3)
    decreases n, 0
  {
    TowerSplit(n, t.Get(destination));
    RecursiveHanoiSolves(n - 1, auxiliary, source, destination, t2, t.Get(auxiliary));
    t3 := t2.Set(auxiliary, t.Get(auxiliary)).Set(destination, t2.Get(destination) + Tower(n - 1));
  }

  /** Two runs of legal moves, one after the other, are one run. */
  lemma ReplayThen(t: Towers, m1: seq<Move>, m2: seq<Move>, t1: Towers, t2: Towers)
    requires Transfers(t, m1, t1) && Transfers(t1, m2, t2)
    ensures Transfers(t, m1 + m2, t2)
  {
    ReplayAppend(t, m1, m2);
  }

  lemma TowerSplit(n: nat, s: seq<int>)
    requires n >= 1
    ensures (s + [n]) + Tower(n - 1) == s + Tower(n)
  {
    assert Tower(n) == [n] + Tower(n - 1);
  }

  /** The middle step of the recursion: disk n goes from the source straight to the destination. */
  lemma MiddleMove(n: nat, source: Peg, auxiliary: Peg, destination: Peg, t: Towers, t1: Towers, base: seq<int>)
    returns (t2: Towers)
    requires n >= 1
    requires source != auxiliary && source != destination && auxiliary != destination
    requires CanPlace(n, t.Get(destination))
    requires t1 == t.Set(source, base + [n]).Set(auxiliary, t.Get(auxiliary) + Tower(n - 1))
    ensures t2 == t1.Set(source, base).Set(destination, t.Get(destination) + [n])
    ensures Transfers(t1, [Move(n, source, destination)], t2)
  {
    t2 := t1.Set(source, base).Set(destination, t.Get(destination) + [n]);
    assert Pop(base + [n]) == base;
    assert t1.Get(destination) == t.Get(destination);
    assert Apply(t1, Move(n, source, destination)) == Some(t2);
    assert Replay(t2, []) == Some(t2);
  }

  /** From the script's start, the recursive solution moves all n disks from A to C. */
  lemma RecursiveHanoiFromStart(n: nat)
    requires n >= 1
    ensures Replay(Towers(Tower(n), [], []), RecursiveHanoi(n, A, B, C)) == Some(Towers([], [], Tower(n)))
  {
    var t := Towers(Tower(n), [], []);
    assert [] + Tower(n) == Tower(n);
    RecursiveHanoiSolves(n, A, B, C, t, []);
    TowersEqual(t.Set(A, []).Set(C, [] + Tower(n)), Towers([], [], Tower(n)));
  }

  // ---------------------------------------------------------------------
  // Which rods the recursive solution's k-th move connects
  // ---------------------------------------------------------------------

  /** The move goes between rods p and q, in one direction or the other. */
  predicate Between(m: Move, p: Peg, q: Peg)
  {
    (m.from == p && m.to == q) || (m.from == q && m.to == p)
  }

  /**
   * The rods the k-th move (counting from 1) of the recursive solution for n
   * disks connects: a cycle of three pairs, repeating every three moves.
   */
  function CycleEnds(n: nat, k: nat, source: Peg, auxiliary: Peg, destination: Peg): (Peg, Peg)
  {
    if k % 3 == 0 then (auxiliary, destination)
    else if (k % 3 == 1) == (n % 2 == 1) then (source, destination)
    else (source, auxiliary)
  }

  lemma {:induction false} Pow2Mod3(m: nat)
    ensures Pow2(m) % 3 == if m % 2 == 0 then 1 else 2
  {
    if m > 0 {
      Pow2Mod3(m - 1);
      var p := Pow2(m - 1);
      assert Pow2(m) == p + p;
      ModSum3(p, p);
    }
  }

  /** The same two rods, in either order. */
  predicate SamePair(x: (Peg, Peg), y: (Peg, Peg))
  {
    x == y || (x.0 == y.1 && x.1 == y.0)
  }

  lemma BetweenSamePair(m: Move, x: (Peg, Peg), y: (Peg, Peg))
    requires Between(m, x.0, x.1) && SamePair(x, y)
    ensures Between(m, y.0, y.1)
  {
  }

  /** In the first half, the cycle of n - 1 disks moved onto the auxiliary rod is the cycle of n disks. */
  lemma CycleFirstHalf(n: nat, k: nat, source: Peg, auxiliary: Peg, destination: Peg)
    requires n >= 2
    ensures SamePair(CycleEnds(n - 1, k, source, destination, auxiliary), CycleEnds(n, k, source, auxiliary, destination))
  {
  }

  /** The middle move, number 2^(n-1), falls on the pair (source, destination). */
  lemma CycleMiddle(n: nat, source: Peg, auxiliary: Peg, destination: Peg)
    requires n >= 2
    ensures CycleEnds(n, Pow2(n - 1), source, auxiliary, destination) == (source, destination)
  {
    Pow2Mod3(n - 1);
    if n % 2 == 1 {
      assert Pow2(n - 1) % 3 == 1;
    } else {
      assert Pow2(n - 1) % 3 == 2;
    }
  }

  /** Move 2^(n-1) of the recursive solution for n disks takes disk n from the source to the destination. */
  lemma MiddleMoveIndex(n: nat, source: Peg, auxiliary: Peg, destination: Peg)
    requires n >= 2
    ensures RecursiveHanoi(n, source, auxiliary, destination)[Pow2(n - 1) - 1] == Move(n, source, destination)
  {
  }

  /** In the second half, move j of the n - 1 disks coming off the auxiliary rod is move 2^(n-1) + j of the cycle of n. */
  lemma CycleSecondHalf(n: nat, j: nat, source: Peg, auxiliary: Peg, destination: Peg)
    requires n >= 2
    ensures SamePair(CycleEnds(n - 1, j, auxiliary, source, destination),
                     CycleEnds(n, Pow2(n - 1) + j, source, auxiliary, destination))
  {
    var h := Pow2(n - 1);
    Pow2Mod3(n - 1);
    ModSum3(h, j);
    assert h % 3 == (if n % 2 == 1 then 1 else 2);
    if j % 3 == 0 {
      assert (h + j) % 3 == h % 3;
    } else if j % 3 == 1 {
      assert (h + j) % 3 == (h % 3 + 1) % 3;
    } else {
      assert (h + j) % 3 == (h % 3 + 2) % 3;
    }
  }

  /** Remainders modulo 3 add up. */
  lemma ModSum3(a: nat, b: nat)
    ensures (a + b) % 3 == (a % 3 + b % 3) % 3
  {
    var qa, qb := a / 3, b / 3;
    var ra, rb := a % 3, b % 3;
    assert a == 3 * qa + ra && b == 3 * qb + rb;
    if ra + rb < 3 {
      assert a + b == 3 * (qa + qb) + (ra + rb);
    } else {
      assert a + b == 3 * (qa + qb + 1) + (ra + rb - 3);
    }
  }

  /** The k-th recursive move connects the k-th pair of the cycle. */
  lemma {:induction false} RecursiveHanoiCycles(n: nat, source: Peg, auxiliary: Peg, destination: Peg, k: nat)
    requires n >= 1 && 1 <= k <= Pow2(n) - 1
    ensures Between(RecursiveHanoi(n, source, auxiliary, destination)[k - 1],
                    CycleEnds(n, k, source, auxiliary, destination).0,
                    CycleEnds(n, k, source, auxiliary, destination).1)
    decreases n, 1
  {
    if n > 1 {
      var half := Pow2(n - 1);
      if k < half {
        CyclesInFirstHalf(n, source, auxiliary, destination, k);
      } else if k == half {
        CycleMiddle(n, source, auxiliary, destination);
        MiddleMoveIndex(n, source, auxiliary, destination);
      } else {
        CyclesInSecondHalf(n, source, auxiliary, destination, k);
      }
    }
  }

  lemma {:induction false} CyclesInFirstHalf(n: nat, source: Peg, auxiliary: Peg, destination: Peg, k: nat)
    requires n >= 2 && 1 <= k < Pow2(n - 1)
    ensures Between(RecursiveHanoi(n, source, auxiliary, destination)[k - 1],
                    CycleEnds(n, k, source, auxiliary, destination).0,
                    CycleEnds(n, k, source, auxiliary, destination).1)
    decreases n, 0
  {
    var first := RecursiveHanoi(n - 1, source, destination, auxiliary);
    assert RecursiveHanoi(n, source, auxiliary, destination)[k - 1] == first[k - 1];
    RecursiveHanoiCycles(n - 1, source, destination, auxiliary, k);
    CycleFirstHalf(n, k, source, auxiliary, destination);
    BetweenSamePair(first[k - 1], CycleEnds(n - 1, k, source, destination, auxiliary),
                    CycleEnds(n, k, source, auxiliary, destination));
  }

  /** Move 2^(n-1) + j of the recursive solution for n disks is move j of its second recursive call. */
  lemma SecondHalfMove(n: nat, source: Peg, auxiliary: Peg, destination: Peg, j: nat)
    requires n >= 2 && 1 <= j <= Pow2(n - 1) - 1
    ensures RecursiveHanoi(n, source, auxiliary, destination)[Pow2(n - 1) + j - 1]
            == RecursiveHanoi(n - 1, auxiliary, source, destination)[j - 1]
  {
    var front := RecursiveHanoi(n - 1, source, destination, auxiliary) + [Move(n, source, destination)];
    var last := RecursiveHanoi(n - 1, auxiliary, source, destination);
    assert |front| == Pow2(n - 1);
    assert (front + last)[|front| + j - 1] == last[j - 1];
  }

  lemma {:induction false} CyclesInSecondHalf(n: nat, source: Peg, auxiliary: Peg, destination: Peg, k: nat)
    requires n >= 2 && Pow2(n - 1) < k <= Pow2(n) - 1
    ensures Between(RecursiveHanoi(n, source, auxiliary, destination)[k - 1],
                    CycleEnds(n, k, source, auxiliary, destination).0,
                    CycleEnds(n, k, source, auxiliary, destination).1)
    decreases n, 0
  {
    var j := k - Pow2(n - 1);
    assert Pow2(n) == 2 * Pow2(n - 1);
    SecondHalfMove(n, source, auxiliary, destination, j);
    RecursiveHanoiCycles(n - 1, auxiliary, source, destination, j);
    CycleSecondHalf(n, j, source, auxiliary, destination);
    BetweenSamePair(RecursiveHanoi(n - 1, auxiliary, source, destination)[j - 1],
                    CycleEnds(n - 1, j, auxiliary, source, destination),
                    CycleEnds(n, k, source, auxiliary, destination));
  }

  // ---------------------------------------------------------------------
  // The iterative solver: move_disk, legal_move, iterative_hanoi
  // ---------------------------------------------------------------------

  /** A rod: a Python list of disks that the iterative solver changes in place. */
  class Rod {
    var disks: seq<int>

    constructor (disks: seq<int>)
      ensures this.disks == disks
    {
      this.disks := disks;
    }
  }

  /** `move_disk`: pops the top of `fromRod` and appends it to `toRod`. */
  method MoveDisk(fromRod: Rod, toRod: Rod, fromName: Peg, toName: Peg) returns (m: Move)
    requires fromRod != toRod && fromRod.disks != []
    modifies fromRod, toRod
    ensures m == Move(Top(old(fromRod.disks)), fromName, toName)
    ensures fromRod.disks == Pop(old(fromRod.disks))
    ensures toRod.disks == old(toRod.disks) + [m.disk]
  {
    var disk := fromRod.disks[|fromRod.disks| - 1];
    fromRod.disks := fromRod.disks[..|fromRod.disks| - 1];
    toRod.disks := toRod.disks + [disk];
    m := Move(disk, fromName, toName);
  }

  /** Whether `legal_move` moves from its first rod to its second. */
  predicate Forward(rod1: seq<int>, rod2: seq<int>)
  {
    rod1 != [] && (rod2 == [] || Top(rod1) < Top(rod2))
  }

  /** The move `legal_move` makes between two rods that are not both empty. */
  function LegalMoveOf(rod1: seq<int>, rod2: seq<int>, name1: Peg, name2: Peg): Move
    requires rod1 != [] || rod2 != []
  {
    if Forward(rod1, rod2) then Move(Top(rod1), name1, name2) else Move(Top(rod2), name2, name1)
  }

  /**
   * `legal_move`: from the non-empty rod onto an empty one, otherwise the
   * smaller top disk onto the other rod.
   */
  method LegalMove(rod1: Rod, rod2: Rod, name1: Peg, name2: Peg) returns (m: Move)
    requires rod1 != rod2 && (rod1.disks != [] || rod2.disks != [])
    modifies rod1, rod2
    ensures m == LegalMoveOf(old(rod1.disks), old(rod2.disks), name1, name2)
    ensures Forward(old(rod1.disks), old(rod2.disks)) ==>
              rod1.disks == Pop(old(rod1.disks)) && rod2.disks == old(rod2.disks) + [m.disk]
    ensures !Forward(old(rod1.disks), old(rod2.disks)) ==>
              rod2.disks == Pop(old(rod2.disks)) && rod1.disks == old(rod1.disks) + [m.disk]
  {
    if rod1.disks == [] {
      m := MoveDisk(rod2, rod1, name2, name1);
    } else if rod2.disks == [] {
      m := MoveDisk(rod1, rod2, name1, name2);
    } else if Top(rod1.disks) < Top(rod2.disks) {
      m := MoveDisk(rod1, rod2, name1, name2);
    } else {
      m := MoveDisk(rod2, rod1, name2, name1);
    }
  }

  /** Between two rods whose tops differ, `legal_move` makes a legal move. */
  lemma LegalMoveIsLegal(t: Towers, p: Peg, q: Peg)
    requires p != q && (t.Get(p) != [] || t.Get(q) != [])
    requires t.Get(p) != [] && t.Get(q) != [] ==> Top(t.Get(p)) != Top(t.Get(q))
    ensures Apply(t, LegalMoveOf(t.Get(p), t.Get(q), p, q)).Some?
  {
  }

  /** If some legal move connects rods p and q, it is the one `legal_move` makes. */
  lemma LegalMoveAgrees(t: Towers, m: Move, p: Peg, q: Peg)
    requires p != q && Between(m, p, q) && Apply(t, m).Some?
    ensures t.Get(p) != [] || t.Get(q) != []
    ensures LegalMoveOf(t.Get(p), t.Get(q), p, q) == m
  {
  }

  /** The rod the iterative solver leaves empty, other than A: B for odd n, C for even n. */
  function Aux(n: nat): Peg
  {
    if n % 2 == 1 then B else C
  }

  /** The rod the iterative solver gathers the disks on: C for odd n, B for even n. */
  function Dest(n: nat): Peg
  {
    if n % 2 == 1 then C else B
  }

  /** The pair of rods `iterative_hanoi` passes to `legal_move` at move number k. */
  function IterativePair(k: nat): (Peg, Peg)
  {
    if k % 3 == 1 then (A, C) else if k % 3 == 2 then (A, B) else (B, C)
  }

  /** The fixed pairing of `iterative_hanoi` is the cycle of the recursive solution from A to Dest(n). */
  lemma IterativePairsFollowRecursion(n: nat, k: nat)
    requires 1 <= k <= |Plan(n)|
    ensures Between(Plan(n)[k - 1], IterativePair(k).0, IterativePair(k).1)
  {
    RecursiveHanoiCycles(n, A, Aux(n), Dest(n), k);
  }

  /**
   * `iterative_hanoi(n)`: starting from A = [n, ..., 1] with B and C empty,
   * makes 2^n - 1 calls to `legal_move`, on (A, C), (A, B), (B, C) by move
   * number mod 3. The moves it prints are exactly those of
   * `recursive_hanoi(n, A, Aux(n), Dest(n))`, so it ends with every disk on
   * C when n is odd and on B when n is even. Throughout, the rods hold the
   * disks 1..n between them, each rod decreasing from base to top.
   */
  method IterativeHanoi(n: nat) returns (moves: seq<Move>, final: Towers)
    ensures |moves| == Pow2(n) - 1
    ensures n >= 1 ==> moves == RecursiveHanoi(n, A, Aux(n), Dest(n))
    ensures final.Get(A) == [] && final.Get(Aux(n)) == [] && final.Get(Dest(n)) == Tower(n)
  {
    var rodA := new Rod(Tower(n));
    var rodB := new Rod([]);
    var rodC := new Rod([]);
    PlanOnTrack(n);
    moves := IterativeLoop(rodA, rodB, rodC, n, Goal(n));
    final := Towers(rodA.disks, rodB.disks, rodC.disks);
  }

  /**
   * The loop of `iterative_hanoi`: moves 1 to 2^n - 1, each made by
   * `IterativeStep`, play the whole plan and leave the rods at the goal.
   */
  method IterativeLoop(rodA: Rod, rodB: Rod, rodC: Rod, n: nat, ghost goal: Towers) returns (moves: seq<Move>)
    requires rodA != rodB && rodA != rodC && rodB != rodC
    requires |Plan(n)| == Pow2(n) - 1
    requires OnTrack(Towers(rodA.disks, rodB.disks, rodC.disks), Plan(n), goal, n)
    modifies rodA, rodB, rodC
    ensures moves == Plan(n)
    ensures Towers(rodA.disks, rodB.disks, rodC.disks) == goal
  {
    var totalMoves := Pow2(n) - 1;
    ghost var plan := Plan(n);
    assert plan[0..] == plan;
    moves := [];
    for move := 1 to totalMoves + 1
      invariant moves == plan[..move - 1]
      invariant OnTrack(Towers(rodA.disks, rodB.disks, rodC.disks), plan[move - 1..], goal, n)
    {
      var m := IterativeStep(rodA, rodB, rodC, n, move, goal);
      PrefixSnoc(plan, move - 1);
      moves := moves + [m];
    }
    OnTrackDone(Towers(rodA.disks, rodB.disks, rodC.disks), plan, goal, n);
  }

  /** The moves the iterative solver is shown to make: the recursive solution from A to Dest(n). */
  ghost function Plan(n: nat): seq<Move>
  {
    if n >= 1 then RecursiveHanoi(n, A, Aux(n), Dest(n)) else []
  }

  /** Where the iterative solver leaves the tower: every disk on Dest(n). */
  ghost function Goal(n: nat): Towers
  {
    if n % 2 == 1 then Towers([], [], Tower(n)) else Towers([], Tower(n), [])
  }

  /** Replaying `rest` from `t` reaches `goal`, and `t` holds the n disks, each rod in order. */
  ghost predicate OnTrack(t: Towers, rest: seq<Move>, goal: Towers, n: nat)
  {
    Replay(t, rest) == Some(goal) && t.Disks() == multiset(Tower(n)) && t.Ordered()
  }

  lemma PlanOnTrack(n: nat)
    ensures |Plan(n)| == Pow2(n) - 1
    ensures OnTrack(Towers(Tower(n), [], []), Plan(n), Goal(n), n)
    ensures Goal(n).Get(A) == [] && Goal(n).Get(Aux(n)) == [] && Goal(n).Get(Dest(n)) == Tower(n)
  {
    PlanReachesGoal(n);
    TowerDecreasing(n);
    assert Towers(Tower(n), [], []).Disks() == multiset(Tower(n));
  }

  lemma PlanReachesGoal(n: nat)
    ensures Replay(Towers(Tower(n), [], []), Plan(n)) == Some(Goal(n))
  {
    var start := Towers(Tower(n), [], []);
    if n >= 1 {
      assert [] + Tower(n) == Tower(n);
      RecursiveHanoiSolves(n, A, Aux(n), Dest(n), start, []);
      TowersEqual(start.Set(A, []).Set(Dest(n), [] + Tower(n)), Goal(n));
    }
  }

  /** Making the next planned move keeps the towers on track for the rest of the plan. */
  lemma OnTrackStep(t: Towers, plan: seq<Move>, i: nat, goal: Towers, n: nat)
    requires i < |plan| && OnTrack(t, plan[i..], goal, n)
    ensures Apply(t, plan[i]).Some?
    ensures OnTrack(Apply(t, plan[i]).value, plan[i + 1..], goal, n)
  {
    assert plan[i..][0] == plan[i] && plan[i..][1..] == plan[i + 1..];
    ApplyKeepsDisks(t, plan[i]);
    ApplyKeepsOrder(t, plan[i]);
  }

  /** With the whole plan made, the towers are the goal. */
  lemma OnTrackDone(t: Towers, plan: seq<Move>, goal: Towers, n: nat)
    requires OnTrack(t, plan[|plan|..], goal, n)
    ensures t == goal
  {
    assert plan[|plan|..] == [];
  }

  lemma PrefixSnoc<T>(s: seq<T>, k: nat)
    requires k < |s|
    ensures s[..k + 1] == s[..k] + [s[k]]
  {
  }

  /**
   * One pass of `iterative_hanoi`'s loop body: the `legal_move` call chosen
   * by move number mod 3 makes the next move of the plan.
   */
  method IterativeStep(rodA: Rod, rodB: Rod, rodC: Rod, n: nat, move: nat, ghost goal: Towers)
    returns (m: Move)
    requires rodA != rodB && rodA != rodC && rodB != rodC
    requires 1 <= move <= |Plan(n)|
    requires OnTrack(Towers(rodA.disks, rodB.disks, rodC.disks), Plan(n)[move - 1..], goal, n)
    modifies rodA, rodB, rodC
    ensures m == Plan(n)[move - 1]
    ensures OnTrack(Towers(rodA.disks, rodB.disks, rodC.disks), Plan(n)[move..], goal, n)
  {
    ghost var t := Towers(rodA.disks, rodB.disks, rodC.disks);
    ghost var next := Plan(n)[move - 1];
    OnTrackStep(t, Plan(n), move - 1, goal, n);
    IterativePairsFollowRecursion(n, move);
    if move % 3 == 1 {
      LegalMoveEffect(t, next, A, C);
      m := LegalMove(rodA, rodC, A, C);
    } else if move % 3 == 2 {
      LegalMoveEffect(t, next, A, B);
      m := LegalMove(rodA, rodB, A, B);
    } else {
      LegalMoveEffect(t, next, B, C);
      m := LegalMove(rodB, rodC, B, C);
    }
    assert Towers(rodA.disks, rodB.disks, rodC.disks) == Apply(t, next).value;
  }

  /** What the legal move between rods p and q does to the towers, by direction. */
  lemma LegalMoveEffect(t: Towers, m: Move, p: Peg, q: Peg)
    requires p != q && Between(m, p, q) && Apply(t, m).Some?
    ensures t.Get(p) != [] || t.Get(q) != []
    ensures LegalMoveOf(t.Get(p), t.Get(q), p, q) == m
    ensures Forward(t.Get(p), t.Get(q)) ==>
              Apply(t, m).value == t.Set(p, Pop(t.Get(p))).Set(q, t.Get(q) + [m.disk])
    ensures !Forward(t.Get(p), t.Get(q)) ==>
              Apply(t, m).value == t.Set(q, Pop(t.Get(q))).Set(p, t.Get(p) + [m.disk])
  {
    LegalMoveAgrees(t, m, p, q);
  }

  lemma {:induction false} TowerDecreasing(n: nat)
    ensures Decreasing(Tower(n))
  {
    TowerElements(n);
  }
}
