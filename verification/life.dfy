/** One generation of the sparse Game of Life step, `GameOfLife.run` of
    game_of_life.py. The step visits the stored keys in enumeration order; a
    key survives when it has two or three live neighbours (its own value is
    never consulted, only its presence), and each of its eight neighbours is
    born when it is not alive and has exactly three live neighbours. */
module Life {
  import opened Grids

  /** The survival test of the step, applied to stored keys. */
  predicate Survival(g: Grid, n: int, c: Coord) {
    var k := CountNeighbors(g, n, c);
    k == 2 || k == 3
  }

  /** The birth test of the step, applied to neighbours of stored keys. */
  predicate BirthCondition(g: Grid, n: int, c: Coord) {
    !IsAlive(g, n, c) && CountNeighbors(g, n, c) == 3
  }

  /** `c` lies next to one of the keys in `ks`. */
  predicate NearAny(ks: seq<Coord>, c: Coord) {
    exists k :: k in ks && Adjacent(k, c)
  }

  /** The inner loop over `ALLOWED_DIRS` around key `k`: each neighbour that
      passes the birth test is set alive. */
  function BirthsAround(g: Grid, n: int, k: Coord, ds: seq<Coord>, acc: Grid): Grid
    decreases |ds|
  {
    if ds == [] then acc
    else
      var t := Add(k, ds[0]);
      var acc' := if BirthCondition(g, n, t) then SetCell(acc, n, t, true) else acc;
      BirthsAround(g, n, k, ds[1..], acc')
  }

  /** One pass of the outer loop: the survival test on key `k`, then the
      births around it. */
  function VisitKey(g: Grid, n: int, k: Coord, acc: Grid): Grid {
    var acc' := if Survival(g, n, k) then SetCell(acc, n, k, true) else acc;
    BirthsAround(g, n, k, Dirs, acc')
  }

  /** The outer loop over the keys `ks`, accumulating into `acc`. */
  function StepFrom(g: Grid, n: int, ks: seq<Coord>, acc: Grid): Grid
    decreases |ks|
  {
    if ks == [] then acc
    else StepFrom(g, n, ks[1..], VisitKey(g, n, ks[0], acc))
  }

  /** `GameOfLife.run`: the loop over the stored keys, into a fresh grid. */
  function Step(g: Grid, n: int): Grid {
    StepFrom(g, n, g.order, Empty)
  }

  lemma {:induction false} BirthsAroundCells(g: Grid, n: int, k: Coord, ds: seq<Coord>, acc: Grid)
    ensures var r := BirthsAround(g, n, k, ds, acc);
      && (Valid(n, acc) ==> Valid(n, r))
      && (AllTrue(acc) ==> AllTrue(r))
      && (forall c :: c in r.cells <==>
            c in acc.cells || (InBounds(n, c) && Offset(k, c) in ds && BirthCondition(g, n, c)))
    decreases |ds|
  {
    if ds != [] {
      var t := Add(k, ds[0]);
      var acc' := if BirthCondition(g, n, t) then SetCell(acc, n, t, true) else acc;
      BirthsAroundCells(g, n, k, ds[1..], acc');
      var r := BirthsAround(g, n, k, ds, acc);
      assert r == BirthsAround(g, n, k, ds[1..], acc');
      forall c ensures c in r.cells <==>
        c in acc.cells || (InBounds(n, c) && Offset(k, c) in ds && BirthCondition(g, n, c))
      {
        assert Offset(k, c) in ds <==> Offset(k, c) == ds[0] || Offset(k, c) in ds[1..];
        assert Offset(k, c) == ds[0] <==> c == t;
      }
    }
  }

  lemma VisitKeyCells(g: Grid, n: int, k: Coord, acc: Grid)
    ensures var r := VisitKey(g, n, k, acc);
      && (Valid(n, acc) ==> Valid(n, r))
      && (AllTrue(acc) ==> AllTrue(r))
      && (forall c :: c in r.cells <==>
            c in acc.cells ||
            (InBounds(n, c) && ((c == k && Survival(g, n, c)) || (Adjacent(k, c) && BirthCondition(g, n, c)))))
  {
    var acc' := if Survival(g, n, k) then SetCell(acc, n, k, true) else acc;
    BirthsAroundCells(g, n, k, Dirs, acc');
  }

  lemma {:induction false} StepFromCells(g: Grid, n: int, ks: seq<Coord>, acc: Grid)
    ensures var r := StepFrom(g, n, ks, acc);
      && (Valid(n, acc) ==> Valid(n, r))
      && (AllTrue(acc) ==> AllTrue(r))
      && (forall c :: c in r.cells <==>
            c in acc.cells ||
            (InBounds(n, c) && ((c in ks && Survival(g, n, c)) || (NearAny(ks, c) && BirthCondition(g, n, c)))))
    decreases |ks|
  {
    if ks != [] {
      var acc' := VisitKey(g, n, ks[0], acc);
      VisitKeyCells(g, n, ks[0], acc);
      StepFromCells(g, n, ks[1..], acc');
      assert forall c :: c in ks <==> c == ks[0] || c in ks[1..];
      assert forall c :: NearAny(ks, c) <==> Adjacent(ks[0], c) || NearAny(ks[1..], c);
    }
  }

  /** `GameOfLife.run` builds a valid grid whose keys are exactly the in-bounds
      cells that pass the survival test as stored keys or the birth test as
      neighbours of stored keys, every one stored as `True`. */
  lemma StepCells(g: Grid, n: int)
    ensures Valid(n, Step(g, n))
    ensures AllTrue(Step(g, n))
    ensures forall c :: c in Step(g, n).cells <==>
      InBounds(n, c) && ((c in g.order && Survival(g, n, c)) || (NearAny(g.order, c) && BirthCondition(g, n, c)))
  {
    StepFromCells(g, n, g.order, Empty);
  }

  /** The sparse scan loses nothing: a cell with three live neighbours always
      lies next to a stored key, so the neighbour condition of the birth rule
      is implied by the count. */
  lemma BirthNeedsNoScan(n: int, g: Grid, c: Coord)
    requires Valid(n, g)
    requires CountNeighbors(g, n, c) == 3
    ensures NearAny(g.order, c)
  {
    CountIsLiveOffsets(g, n, c);
    var d :| d in LiveOffsets(g, n, c);
    var k := Add(c, d);
    assert k in g.order;
    DirsAreTheUnitOffsets();
    assert IsUnitOffset(Offset(k, c));
    assert Adjacent(k, c);
  }

  /** The quirk of the step: survival tests key presence, so a key stored as
      `False` with two or three live neighbours is alive afterwards. */
  lemma StoredDeadKeySurvives(n: int, g: Grid, c: Coord)
    requires Valid(n, g)
    requires c in g.cells && !g.cells[c]
    requires Survival(g, n, c)
    ensures !IsAlive(g, n, c) && IsAlive(Step(g, n), n, c)
  {
    StepCells(g, n);
  }

  /** On a grid holding only `True` values, the step is the B3/S23 rule
      restricted to the square: a live cell survives with two or three live
      neighbours, a dead cell is born with exactly three. */
  lemma StepIsB3S23(n: int, g: Grid)
    requires Valid(n, g) && AllTrue(g)
    ensures forall c :: IsAlive(Step(g, n), n, c) <==>
      InBounds(n, c) &&
      (if IsAlive(g, n, c) then Survival(g, n, c) else CountNeighbors(g, n, c) == 3)
  {
    var r := Step(g, n);
    StepCells(g, n);
    forall c | InBounds(n, c)
      ensures IsAlive(r, n, c) <==>
        (if IsAlive(g, n, c) then Survival(g, n, c) else CountNeighbors(g, n, c) == 3)
    {
      if !IsAlive(g, n, c) && CountNeighbors(g, n, c) == 3 {
        BirthNeedsNoScan(n, g, c);
      }
    }
  }

  /** Death by isolation: the empty grid and a grid with one live cell both
      step to the empty grid. */
  lemma LoneCellDies(n: int, c: Coord)
    ensures Step(Empty, n) == Empty
    ensures Step(SetCell(Empty, n, c, true), n).cells == map[]
  {
    var g := SetCell(Empty, n, c, true);
    assert LiveSet(g) <= {c} by {
      forall e | e in LiveSet(g) ensures e == c {
        assert e in g.cells;
      }
    }
    var r := Step(g, n);
    StepCells(g, n);
    forall e ensures e !in r.cells {
      CountWithOneLiveCell(g, n, c, e);
      assert !Survival(g, n, e) && !BirthCondition(g, n, e);
    }
    assert r.cells == map[];
  }

  /** The step only reads the cells, so equal grids step to equal grids. */
  lemma StepRespectsEqual(n: int, a: Grid, b: Grid)
    requires Valid(n, a) && Valid(n, b)
    requires Equal(a, b)
    ensures Equal(Step(a, n), Step(b, n))
  {
    var ra, rb := Step(a, n), Step(b, n);
    StepCells(a, n);
    StepCells(b, n);
    forall c ensures c in ra.cells <==> c in rb.cells {
      SameCellsSameFate(n, a, b, c);
    }
    SameKeysAllTrue(ra, rb);
  }

  lemma SameCellsSameFate(n: int, a: Grid, b: Grid, c: Coord)
    requires Valid(n, a) && Valid(n, b)
    requires Equal(a, b)
    ensures c in Step(a, n).cells <==> c in Step(b, n).cells
  {
    StepCells(a, n);
    StepCells(b, n);
    CountDependsOnCells(a, b, n, c);
    assert Survival(a, n, c) == Survival(b, n, c);
    assert BirthCondition(a, n, c) == BirthCondition(b, n, c);
    assert c in a.order <==> c in b.order;
    if BirthCondition(a, n, c) {
      BirthNeedsNoScan(n, a, c);
      BirthNeedsNoScan(n, b, c);
    }
  }
}
