/** The genetic operators of ga.py: `GridCrossover.crossover` and
    `GridMutator.mutate`. Their random draws are arguments; an operation the
    source would abort with an exception returns a `Failure`. */
module Operators {
  import opened Wrappers
  import opened Grids

  /** The exceptions the operators can raise. */
  datatype OpError =
    | SampleLargerThanPopulation  // `random.sample(range(k), 2)` with `k < 2`
    | EmptySequence               // `random.choice` on a grid with no keys

  /** The two crossover points `random.sample(range(count), k=2)` draws,
      decoded from two arbitrary naturals: two distinct positions below
      `count`, in no particular order. */
  function PickPoints(count: nat, a: nat, b: nat): (r: (nat, nat))
    requires count >= 2
    ensures r.0 < count && r.1 < count && r.0 != r.1
  {
    var p0 := a % count;
    (p0, (p0 + 1 + b % (count - 1)) % count)
  }

  /** The decoding misses nothing: every ordered pair of distinct positions
      is drawn by some pair of naturals. */
  lemma PickPointsCoversAllPairs(count: nat, p: nat, q: nat)
    requires count >= 2
    requires p < count && q < count && p != q
    ensures exists a: nat, b: nat :: PickPoints(count, a, b) == (p, q)
  {
    var b: nat := if q > p then q - p - 1 else q + count - p - 1;
    assert b < count - 1;
    ModBelow(p, count);
    ModBelow(b, count - 1);
    if q > p {
      ModBelow(q, count);
    } else {
      ModShift(q, count);
    }
    assert PickPoints(count, p, b) == (p, q);
  }

  lemma ModBelow(x: nat, m: nat)
    requires x < m
    ensures x % m == x
  {
  }

  lemma ModShift(x: nat, m: nat)
    requires x < m
    ensures (x + m) % m == x
  {
  }

  /** Whether the key at position `i` of a parent goes to the child: from the
      first parent when `i` is outside `[p0, p1]`, from the second when inside.
      With `p0 > p1` nothing is inside and everything is outside. */
  predicate Picked(i: int, p0: int, p1: int, inside: bool) {
    if inside then p0 <= i <= p1 else i < p0 || i > p1
  }

  /** One of the two `enumerate` loops of `crossover`: the keys of `ks` from
      position `from` on that `Picked` selects are set alive in `acc`. */
  function CopyFrom(acc: Grid, n: int, ks: seq<Coord>, from: nat, p0: int, p1: int, inside: bool): Grid
    decreases |ks| - from
  {
    if from >= |ks| then acc
    else
      var acc' := if Picked(from, p0, p1, inside) then SetCell(acc, n, ks[from], true) else acc;
      CopyFrom(acc', n, ks, from + 1, p0, p1, inside)
  }

  /** A key of `ks`, at or after `from`, that `Picked` selects. */
  predicate ChosenAt(ks: seq<Coord>, from: nat, p0: int, p1: int, inside: bool, c: Coord) {
    exists i :: from <= i < |ks| && ks[i] == c && Picked(i, p0, p1, inside)
  }

  lemma {:induction false} CopyFromCells(acc: Grid, n: int, ks: seq<Coord>, from: nat, p0: int, p1: int, inside: bool)
    requires from <= |ks|
    ensures var r := CopyFrom(acc, n, ks, from, p0, p1, inside);
      && (Valid(n, acc) ==> Valid(n, r))
      && (AllTrue(acc) ==> AllTrue(r))
      && Len(r) <= Len(acc) + (|ks| - from)
      && (forall c :: c in r.cells <==>
            c in acc.cells || (InBounds(n, c) && ChosenAt(ks, from, p0, p1, inside, c)))
    decreases |ks| - from
  {
    if from < |ks| {
      var acc' := if Picked(from, p0, p1, inside) then SetCell(acc, n, ks[from], true) else acc;
      CopyFromCells(acc', n, ks, from + 1, p0, p1, inside);
      assert Len(acc') <= Len(acc) + 1;
      var r := CopyFrom(acc, n, ks, from, p0, p1, inside);
      forall c ensures c in r.cells <==>
        c in acc.cells || (InBounds(n, c) && ChosenAt(ks, from, p0, p1, inside, c))
      {
        if ChosenAt(ks, from, p0, p1, inside, c) && !ChosenAt(ks, from + 1, p0, p1, inside, c) {
          var i :| from <= i < |ks| && ks[i] == c && Picked(i, p0, p1, inside);
          assert i == from;
        }
        if ChosenAt(ks, from + 1, p0, p1, inside, c) {
          var i :| from + 1 <= i < |ks| && ks[i] == c && Picked(i, p0, p1, inside);
          assert ChosenAt(ks, from, p0, p1, inside, c);
        }
      }
    }
  }

  /** When every position is selected, the keys are in bounds, distinct and
      new to `acc`, they are appended to the order one by one. */
  lemma {:induction false} CopyFromAppends(acc: Grid, n: int, ks: seq<Coord>, from: nat, p0: int, p1: int, inside: bool)
    requires from <= |ks|
    requires forall i :: from <= i < |ks| ==> Picked(i, p0, p1, inside)
    requires forall i :: from <= i < |ks| ==> InBounds(n, ks[i]) && ks[i] !in acc.cells
    requires forall i, j :: from <= i < j < |ks| ==> ks[i] != ks[j]
    ensures CopyFrom(acc, n, ks, from, p0, p1, inside).order == acc.order + ks[from..]
    decreases |ks| - from
  {
    if from < |ks| {
      var acc' := SetCell(acc, n, ks[from], true);
      assert acc'.order == acc.order + [ks[from]];
      CopyFromAppends(acc', n, ks, from + 1, p0, p1, inside);
      assert ks[from..] == [ks[from]] + ks[from + 1..];
    }
  }

  /** When no position is selected the loop changes nothing. */
  lemma {:induction false} CopyFromSkips(acc: Grid, n: int, ks: seq<Coord>, from: nat, p0: int, p1: int, inside: bool)
    requires forall i :: from <= i < |ks| ==> !Picked(i, p0, p1, inside)
    ensures CopyFrom(acc, n, ks, from, p0, p1, inside) == acc
    decreases |ks| - from
  {
    if from < |ks| {
      CopyFromSkips(acc, n, ks, from + 1, p0, p1, inside);
    }
  }

  /** `GridCrossover.crossover` with its two points given: the keys of the
      first parent at positions outside `[p0, p1]`, then those of the second
      parent at positions inside it, all set alive in a fresh grid. */
  function Crossover(g1: Grid, g2: Grid, n: int, p0: nat, p1: nat): Grid {
    var half := CopyFrom(Empty, n, g1.order, 0, p0, p1, false);
    CopyFrom(half, n, g2.order, 0, p0, p1, true)
  }

  /** The child is a valid all-`True` grid, no longer than its parents
      together, whose keys are exactly the first parent's keys at positions
      outside `[p0, p1]` and the second parent's at positions inside it. */
  lemma CrossoverCells(g1: Grid, g2: Grid, n: int, p0: nat, p1: nat)
    requires Valid(n, g1) && Valid(n, g2)
    ensures var r := Crossover(g1, g2, n, p0, p1);
      && Valid(n, r)
      && AllTrue(r)
      && Len(r) <= Len(g1) + Len(g2)
      && (forall c :: c in r.cells <==>
            ChosenAt(g1.order, 0, p0, p1, false, c) || ChosenAt(g2.order, 0, p0, p1, true, c))
  {
    var half := CopyFrom(Empty, n, g1.order, 0, p0, p1, false);
    CopyFromCells(Empty, n, g1.order, 0, p0, p1, false);
    CopyFromCells(half, n, g2.order, 0, p0, p1, true);
    var r := Crossover(g1, g2, n, p0, p1);
    forall c ensures c in r.cells <==>
      ChosenAt(g1.order, 0, p0, p1, false, c) || ChosenAt(g2.order, 0, p0, p1, true, c)
    {
      if ChosenAt(g1.order, 0, p0, p1, false, c) {
        var i :| 0 <= i < |g1.order| && g1.order[i] == c && Picked(i, p0, p1, false);
        assert c in g1.cells;
      }
      if ChosenAt(g2.order, 0, p0, p1, true, c) {
        var i :| 0 <= i < |g2.order| && g2.order[i] == c && Picked(i, p0, p1, true);
        assert c in g2.cells;
      }
    }
  }

  /** The child's keys are keys of the parents. */
  lemma CrossoverKeysFromParents(g1: Grid, g2: Grid, n: int, p0: nat, p1: nat)
    requires Valid(n, g1) && Valid(n, g2)
    ensures Crossover(g1, g2, n, p0, p1).cells.Keys <= g1.cells.Keys + g2.cells.Keys
  {
    CrossoverCells(g1, g2, n, p0, p1);
    var r := Crossover(g1, g2, n, p0, p1);
    forall c | c in r.cells ensures c in g1.cells || c in g2.cells {
      if ChosenAt(g1.order, 0, p0, p1, false, c) {
        var i :| 0 <= i < |g1.order| && g1.order[i] == c && Picked(i, p0, p1, false);
      } else {
        var i :| 0 <= i < |g2.order| && g2.order[i] == c && Picked(i, p0, p1, true);
      }
    }
  }

  /** The points are not sorted: when `p0 > p1` no position lies in
      `[p0, p1]`, so the child is the first parent, in its order, with every
      value set to `True`. */
  lemma CrossoverReversedPoints(g1: Grid, g2: Grid, n: int, p0: nat, p1: nat)
    requires Valid(n, g1) && Valid(n, g2)
    requires p0 > p1
    ensures var r := Crossover(g1, g2, n, p0, p1);
      && r.order == g1.order
      && r.cells.Keys == g1.cells.Keys
      && AllTrue(r)
  {
    var half := CopyFrom(Empty, n, g1.order, 0, p0, p1, false);
    assert forall i :: 0 <= i < |g2.order| ==> !Picked(i, p0, p1, true);
    CopyFromSkips(half, n, g2.order, 0, p0, p1, true);
    CopyAllOfValid(g1, n, p0, p1);
  }

  /** Copying every key of a valid grid rebuilds its order and key set, with
      every value `True`. */
  lemma CopyAllOfValid(g: Grid, n: int, p0: int, p1: int)
    requires Valid(n, g)
    requires p0 > p1
    ensures var r := CopyFrom(Empty, n, g.order, 0, p0, p1, false);
      && r.order == g.order
      && r.cells.Keys == g.cells.Keys
      && AllTrue(r)
  {
    CopyAllOrder(g, n, p0, p1);
    CopyAllKeys(g, n, p0, p1);
  }

  lemma CopyAllOrder(g: Grid, n: int, p0: int, p1: int)
    requires Valid(n, g)
    requires p0 > p1
    ensures CopyFrom(Empty, n, g.order, 0, p0, p1, false).order == g.order
  {
    forall i | 0 <= i < |g.order| ensures InBounds(n, g.order[i]) {
      assert g.order[i] in g.cells;
    }
    CopyFromAppends(Empty, n, g.order, 0, p0, p1, false);
    assert g.order[0..] == g.order;
  }

  lemma CopyAllKeys(g: Grid, n: int, p0: int, p1: int)
    requires Valid(n, g)
    requires p0 > p1
    ensures var r := CopyFrom(Empty, n, g.order, 0, p0, p1, false);
      r.cells.Keys == g.cells.Keys && AllTrue(r)
  {
    var r := CopyFrom(Empty, n, g.order, 0, p0, p1, false);
    CopyFromCells(Empty, n, g.order, 0, p0, p1, false);
    forall c | c in g.cells ensures c in r.cells {
      var i :| 0 <= i < |g.order| && g.order[i] == c;
      assert Picked(i, p0, p1, false);
      assert ChosenAt(g.order, 0, p0, p1, false, c);
    }
    forall c | c in r.cells ensures c in g.cells {
      assert ChosenAt(g.order, 0, p0, p1, false, c);
      var i :| 0 <= i < |g.order| && g.order[i] == c && Picked(i, p0, p1, false);
    }
  }

  /** `max(len(grid1), len(grid2))`, the range the points are drawn from. */
  function MaxLen(g1: Grid, g2: Grid): nat {
    if Len(g1) >= Len(g2) then Len(g1) else Len(g2)
  }

  /** `crossover` with its `random.sample` draw: fails when the longer parent
      has fewer than two keys, otherwise crosses over at the decoded points. */
  function CrossoverDrawn(g1: Grid, g2: Grid, n: int, a: nat, b: nat): (r: Result<Grid, OpError>)
    ensures r.Failure? <==> Len(g1) < 2 && Len(g2) < 2
    ensures r.Failure? ==> r.error == SampleLargerThanPopulation
    ensures r.Success? ==> exists p0: nat, p1: nat ::
      p0 != p1 && p0 < MaxLen(g1, g2) && p1 < MaxLen(g1, g2) && r.value == Crossover(g1, g2, n, p0, p1)
  {
    var count := MaxLen(g1, g2);
    if count < 2 then Failure(SampleLargerThanPopulation)
    else
      var pts := PickPoints(count, a, b);
      Success(Crossover(g1, g2, n, pts.0, pts.1))
  }

  /** The coordinate a mutation writes: a neighbour of the picked key in the
      add branch (`roll < 0.5`), the picked key itself in the remove branch. */
  function MutationTarget(g: Grid, roll: real, pick: nat, dir: nat): Coord
    requires Len(g) > 0
  {
    var c := g.order[pick % Len(g)];
    if roll < 0.5 then Add(c, Dirs[dir % |Dirs|]) else c
  }

  /** `GridMutator.mutate`: with `roll < 0.5` one random neighbour of a random
      key is set alive, otherwise a random key is set to `False` (kept as a
      key, not deleted). `pick` selects the key in enumeration order and `dir`
      the direction; `random.choice` on a grid with no keys fails. */
  function Mutate(g: Grid, n: int, roll: real, pick: nat, dir: nat): (r: Result<Grid, OpError>)
    ensures r.Failure? <==> Len(g) == 0
    ensures r.Failure? ==> r.error == EmptySequence
    ensures r.Success? ==> var t := MutationTarget(g, roll, pick, dir);
      && (forall d :: d != t ==> GetCell(r.value, n, d) == GetCell(g, n, d))
      && g.cells.Keys <= r.value.cells.Keys
      && Len(g) <= Len(r.value) <= Len(g) + 1
      && (Valid(n, g) ==> Valid(n, r.value))
      && (roll < 0.5 ==> (IsAlive(r.value, n, t) <==> InBounds(n, t)))
      && (roll >= 0.5 && Valid(n, g) ==> GetCell(r.value, n, t) == Some(false) && Len(r.value) == Len(g))
  {
    if Len(g) == 0 then Failure(EmptySequence)
    else
      var t := MutationTarget(g, roll, pick, dir);
      var r := SetCell(g, n, t, roll < 0.5);
      assert roll >= 0.5 && Valid(n, g) ==> t in g.cells && InBounds(n, t) by {
        if roll >= 0.5 && Valid(n, g) {
          assert t == g.order[pick % Len(g)];
        }
      }
      Success(r)
  }

  /** A mutation moves the live count by at most one: the add branch raises
      it exactly when the target is an in-bounds dead cell, the remove branch
      lowers it exactly when the picked key was alive. */
  lemma MutateLiveCount(g: Grid, n: int, roll: real, pick: nat, dir: nat)
    requires Valid(n, g) && Len(g) > 0
    ensures var r := Mutate(g, n, roll, pick, dir).value;
      var t := MutationTarget(g, roll, pick, dir);
      && (roll < 0.5 ==> LiveCount(r) == LiveCount(g) + (if InBounds(n, t) && !IsAlive(g, n, t) then 1 else 0))
      && (roll >= 0.5 ==> LiveCount(r) == LiveCount(g) - (if IsAlive(g, n, t) then 1 else 0))
  {
    var t := MutationTarget(g, roll, pick, dir);
    SetCellLiveCount(g, n, t, roll < 0.5);
    if roll >= 0.5 {
      assert t == g.order[pick % Len(g)];
      assert InBounds(n, t);
    }
  }
}
