/** The sparse grid of grid.py. A Python dict from `(x, y)` to a liveness
    flag is modelled as its key enumeration order plus its key -> value map:
    `d[k] = v` on a new key appends `k` to the order, on an existing key keeps
    its position. The grid bound `Config.MAX_GRID_SIZE` is the parameter `n`. */
module Grids {
  import opened Wrappers

  datatype Coord = Coord(x: int, y: int)

  /** `order` is the dict's enumeration order, `cells` its contents. */
  datatype Grid = Grid(order: seq<Coord>, cells: map<Coord, bool>)

  const Empty: Grid := Grid([], map[])

  /** `Grid.ALLOWED_DIRS`, in the source's order. */
  const Dirs: seq<Coord> :=
    [Coord(0, 1), Coord(1, 0), Coord(0, -1), Coord(-1, 0),
     Coord(1, 1), Coord(1, -1), Coord(-1, 1), Coord(-1, -1)]

  function Add(c: Coord, d: Coord): Coord {
    Coord(c.x + d.x, c.y + d.y)
  }

  /** The offset that leads from `a` to `b`. */
  function Offset(a: Coord, b: Coord): Coord {
    Coord(b.x - a.x, b.y - a.y)
  }

  /** The eight king moves. */
  predicate IsUnitOffset(d: Coord) {
    -1 <= d.x <= 1 && -1 <= d.y <= 1 && d != Coord(0, 0)
  }

  /** `b` is one of the neighbours `count_neighbors` inspects around `a`. */
  predicate Adjacent(a: Coord, b: Coord) {
    Offset(a, b) in Dirs
  }

  predicate Distinct(s: seq<Coord>) {
    forall i, j :: 0 <= i < j < |s| ==> s[i] != s[j]
  }

  /** `_is_in_bounds`. */
  predicate InBounds(n: int, c: Coord) {
    0 <= c.x < n && 0 <= c.y < n
  }

  /** What every grid of the program satisfies: the order lists each stored
      key once, and only in-bounds keys are stored (only `set_cell` adds keys). */
  ghost predicate Valid(n: int, g: Grid) {
    && Distinct(g.order)
    && (forall c :: c in g.cells <==> c in g.order)
    && (forall c :: c in g.cells ==> InBounds(n, c))
  }

  predicate AllTrue(g: Grid) {
    forall c :: c in g.cells ==> g.cells[c]
  }

  /** `__len__` and `count_set`: the number of stored keys, dead or alive. */
  function Len(g: Grid): nat {
    |g.order|
  }

  /** The keys stored as `True`. */
  function LiveSet(g: Grid): set<Coord> {
    set c | c in g.cells && g.cells[c]
  }

  function LiveCount(g: Grid): nat {
    |LiveSet(g)|
  }

  /** `get_cell`: `None` out of bounds or for an absent key. */
  function GetCell(g: Grid, n: int, c: Coord): (r: Option<bool>)
    ensures r.None? <==> !InBounds(n, c) || c !in g.cells
    ensures r.Some? ==> r.value == g.cells[c]
  {
    if !InBounds(n, c) then None
    else if c in g.cells then Some(g.cells[c])
    else None
  }

  /** `is_alive`. */
  function IsAlive(g: Grid, n: int, c: Coord): (r: bool)
    ensures r <==> GetCell(g, n, c) == Some(true)
    ensures r ==> c in LiveSet(g)
  {
    if !InBounds(n, c) then false
    else if c in g.cells then g.cells[c]
    else false
  }

  /** `set_cell`: an out-of-bounds write is dropped; otherwise the stored value
      at `c` becomes `v`, no other coordinate changes, and an existing key keeps
      its enumeration position. */
  function SetCell(g: Grid, n: int, c: Coord, v: bool): (r: Grid)
    ensures !InBounds(n, c) ==> r == g
    ensures InBounds(n, c) ==> GetCell(r, n, c) == Some(v)
    ensures forall d :: d != c ==> GetCell(r, n, d) == GetCell(g, n, d)
    ensures forall d :: d != c ==> (d in r.cells <==> d in g.cells)
    ensures forall d :: d != c && d in g.cells ==> r.cells[d] == g.cells[d]
    ensures g.cells.Keys <= r.cells.Keys
    ensures |g.order| <= |r.order| <= |g.order| + 1
    ensures r.order[..|g.order|] == g.order
    ensures c in g.cells ==> r.order == g.order
    ensures Valid(n, g) ==> Valid(n, r)
    ensures AllTrue(g) && v ==> AllTrue(r)
  {
    if !InBounds(n, c) then g
    else if c in g.cells then Grid(g.order, g.cells[c := v])
    else
      var r := Grid(g.order + [c], g.cells[c := v]);
      assert Valid(n, g) ==> Distinct(r.order) by {
        if Valid(n, g) {
          forall i, j | 0 <= i < j < |r.order| ensures r.order[i] != r.order[j] {
            if j == |g.order| {
              assert r.order[i] == g.order[i];
              assert g.order[i] in g.cells;
            }
          }
        }
      }
      r
  }

  /** Writing `True` where a live cell already is changes nothing. */
  lemma SetLiveCellIsNoOp(g: Grid, n: int, c: Coord)
    requires IsAlive(g, n, c)
    ensures SetCell(g, n, c, true) == g
  {
    assert g.cells[c := true] == g.cells;
  }

  /** How a write moves the live set: `True` adds the coordinate, `False`
      takes it out, and an out-of-bounds write does nothing. */
  lemma SetCellLiveSet(g: Grid, n: int, c: Coord, v: bool)
    ensures LiveSet(SetCell(g, n, c, v)) ==
      if !InBounds(n, c) then LiveSet(g) else if v then LiveSet(g) + {c} else LiveSet(g) - {c}
  {
  }

  /** Hence a write changes the live count by at most one, in the direction
      of the value written. */
  lemma SetCellLiveCount(g: Grid, n: int, c: Coord, v: bool)
    ensures var k := LiveCount(SetCell(g, n, c, v));
      && (!InBounds(n, c) || IsAlive(g, n, c) == v ==> k == LiveCount(g))
      && (InBounds(n, c) && v && !IsAlive(g, n, c) ==> k == LiveCount(g) + 1)
      && (InBounds(n, c) && !v && IsAlive(g, n, c) ==> k == LiveCount(g) - 1)
  {
    SetCellLiveSet(g, n, c, v);
    if InBounds(n, c) {
      if v && !IsAlive(g, n, c) {
        assert c !in LiveSet(g);
      } else if !v && IsAlive(g, n, c) {
        assert c in LiveSet(g);
      } else if v {
        assert LiveSet(g) + {c} == LiveSet(g);
      } else {
        assert LiveSet(g) - {c} == LiveSet(g);
      }
    }
  }

  /** The offsets in `ds` that lead from `c` to a live cell. */
  function LiveAmong(g: Grid, n: int, c: Coord, ds: seq<Coord>): set<Coord> {
    set d | d in ds && IsAlive(g, n, Add(c, d))
  }

  /** The summation of `count_neighbors`, over a suffix of the directions. */
  function CountAlong(g: Grid, n: int, c: Coord, ds: seq<Coord>): (r: nat)
    ensures r <= |ds|
    decreases |ds|
  {
    if ds == [] then 0
    else (if GetCell(g, n, Add(c, ds[0])) == Some(true) then 1 else 0) + CountAlong(g, n, c, ds[1..])
  }

  /** Over distinct directions the sum counts the live offsets. */
  lemma {:induction false} CountAlongIsCard(g: Grid, n: int, c: Coord, ds: seq<Coord>)
    requires Distinct(ds)
    ensures CountAlong(g, n, c, ds) == |LiveAmong(g, n, c, ds)|
    decreases |ds|
  {
    if ds != [] {
      assert Distinct(ds[1..]);
      CountAlongIsCard(g, n, c, ds[1..]);
      assert ds[0] !in ds[1..] by {
        forall k | 0 <= k < |ds[1..]| ensures ds[1..][k] != ds[0] {
          assert ds[1..][k] == ds[k + 1];
        }
      }
      var tail := LiveAmong(g, n, c, ds[1..]);
      var head: set<Coord> := if IsAlive(g, n, Add(c, ds[0])) then {ds[0]} else {};
      assert LiveAmong(g, n, c, ds) == head + tail;
      assert head !! tail;
    }
  }

  /** The eight directions are exactly the unit offsets, each listed once. */
  lemma DirsAreTheUnitOffsets()
    ensures |Dirs| == 8
    ensures Distinct(Dirs)
    ensures forall d :: d in Dirs <==> IsUnitOffset(d)
  {
    forall d | IsUnitOffset(d) ensures d in Dirs {
      if d.x == 0 {
        assert d == Dirs[0] || d == Dirs[2];
      } else if d.x == 1 {
        assert d == Dirs[1] || d == Dirs[4] || d == Dirs[5];
      } else {
        assert d == Dirs[3] || d == Dirs[6] || d == Dirs[7];
      }
    }
  }

  /** Adjacency is symmetric: `b` is a neighbour of `a` iff `a` is one of `b`. */
  lemma AdjacentSymmetric(a: Coord, b: Coord)
    ensures Adjacent(a, b) <==> Adjacent(b, a)
  {
    DirsAreTheUnitOffsets();
    assert IsUnitOffset(Offset(a, b)) <==> IsUnitOffset(Offset(b, a));
  }

  /** The offsets around `c` that lead to a live cell. */
  function LiveOffsets(g: Grid, n: int, c: Coord): set<Coord> {
    LiveAmong(g, n, c, Dirs)
  }

  /** `count_neighbors`. */
  function CountNeighbors(g: Grid, n: int, c: Coord): (r: nat)
    ensures r <= 8
  {
    CountAlong(g, n, c, Dirs)
  }

  /** `count_neighbors` counts the directions whose cell is stored as `True`;
      `c` itself is never among them. */
  lemma CountIsLiveOffsets(g: Grid, n: int, c: Coord)
    ensures CountNeighbors(g, n, c) == |LiveOffsets(g, n, c)|
    ensures Coord(0, 0) !in LiveOffsets(g, n, c)
  {
    DirsAreTheUnitOffsets();
    CountAlongIsCard(g, n, c, Dirs);
  }

  /** A cell's own value never enters its neighbour count. */
  lemma CountIgnoresOwnCell(g: Grid, n: int, c: Coord, v: bool)
    ensures CountNeighbors(SetCell(g, n, c, v), n, c) == CountNeighbors(g, n, c)
  {
    var g' := SetCell(g, n, c, v);
    DirsAreTheUnitOffsets();
    forall d | d in Dirs ensures IsAlive(g', n, Add(c, d)) == IsAlive(g, n, Add(c, d)) {
      assert Add(c, d) != c;
    }
    assert LiveOffsets(g', n, c) == LiveOffsets(g, n, c);
    CountIsLiveOffsets(g, n, c);
    CountIsLiveOffsets(g', n, c);
  }

  /** Neighbour counts depend only on the cells, not on their order. */
  lemma CountDependsOnCells(a: Grid, b: Grid, n: int, c: Coord)
    requires a.cells == b.cells
    ensures CountNeighbors(a, n, c) == CountNeighbors(b, n, c)
  {
    assert LiveOffsets(a, n, c) == LiveOffsets(b, n, c);
    CountIsLiveOffsets(a, n, c);
    CountIsLiveOffsets(b, n, c);
  }

  /** A grid whose only live cell is `k` gives every cell at most one live
      neighbour. */
  lemma CountWithOneLiveCell(g: Grid, n: int, k: Coord, c: Coord)
    requires LiveSet(g) <= {k}
    ensures CountNeighbors(g, n, c) <= 1
  {
    var s := LiveOffsets(g, n, c);
    forall d | d in s ensures d == Offset(c, k) {
      assert Add(c, d) in LiveSet(g);
    }
    SubsetCard(s, {Offset(c, k)});
    CountIsLiveOffsets(g, n, c);
  }

  /** In a valid grid the stored keys are as many as the order lists. */
  lemma ValidCard(n: int, g: Grid)
    requires Valid(n, g)
    ensures |g.cells.Keys| == Len(g)
  {
    DistinctCard(g.order);
    assert g.cells.Keys == set c | c in g.order;
  }

  lemma {:induction false} DistinctCard(s: seq<Coord>)
    requires Distinct(s)
    ensures |set c | c in s| == |s|
    decreases |s|
  {
    if s != [] {
      var t := s[..|s| - 1];
      assert Distinct(t);
      DistinctCard(t);
      assert s == t + [s[|s| - 1]];
      assert s[|s| - 1] !in t;
      assert (set c | c in s) == (set c | c in t) + {s[|s| - 1]};
    }
  }

  /** `len` counts every stored key, `False` ones too, so it bounds the
      number of live cells. */
  lemma LenAtLeastLiveCount(n: int, g: Grid)
    requires Valid(n, g)
    ensures LiveCount(g) <= Len(g)
  {
    ValidCard(n, g);
    SubsetCard(LiveSet(g), g.cells.Keys);
  }

  lemma {:induction false} SubsetCard<T>(a: set<T>, b: set<T>)
    requires a <= b
    ensures |a| <= |b|
    decreases |a|
  {
    if a != {} {
      var x :| x in a;
      SubsetCard(a - {x}, b - {x});
    }
  }

  /** The keys of `ks` stored as `True`, in order. */
  function KeepLive(ks: seq<Coord>, cells: map<Coord, bool>): (r: seq<Coord>)
    ensures forall c :: c in r <==> c in ks && c in cells && cells[c]
    ensures |r| <= |ks|
    ensures Distinct(ks) ==> Distinct(r)
    decreases |ks|
  {
    if ks == [] then []
    else
      var rest := KeepLive(ks[1..], cells);
      assert forall c :: c in ks <==> c == ks[0] || c in ks[1..];
      if ks[0] in cells && cells[ks[0]] then
        assert Distinct(ks) ==> ks[0] !in ks[1..] by {
          if Distinct(ks) {
            forall k | 0 <= k < |ks[1..]| ensures ks[1..][k] != ks[0] {
              assert ks[1..][k] == ks[k + 1];
            }
          }
        }
        assert Distinct(ks) ==> Distinct(ks[1..]);
        [ks[0]] + rest
      else
        rest
  }

  /** `remove_dead`: keep exactly the entries stored as `True`, in their order. */
  function RemoveDead(n: int, g: Grid): (r: Grid)
    requires Valid(n, g)
    ensures Valid(n, r)
    ensures AllTrue(r)
    ensures forall c :: IsAlive(r, n, c) == IsAlive(g, n, c)
    ensures r.cells.Keys == LiveSet(g)
    ensures Len(r) == LiveCount(g)
  {
    var r := Grid(KeepLive(g.order, g.cells), map c | c in g.cells && g.cells[c] :: true);
    ValidCard(n, r);
    assert r.cells.Keys == LiveSet(g);
    r
  }

  /** `__eq__`: whole-map equality, blind to enumeration order. */
  predicate Equal(a: Grid, b: Grid) {
    a.cells == b.cells
  }

  /** Two all-`True` grids with the same keys are equal. */
  lemma SameKeysAllTrue(a: Grid, b: Grid)
    requires AllTrue(a) && AllTrue(b)
    requires forall c :: c in a.cells <==> c in b.cells
    ensures Equal(a, b)
  {
    assert forall c :: c in a.cells ==> a.cells[c] == b.cells[c];
  }

  /** Two valid grids are equal exactly when `get_cell` cannot tell them apart. */
  lemma EqualIffSameReadings(n: int, a: Grid, b: Grid)
    requires Valid(n, a) && Valid(n, b)
    ensures Equal(a, b) <==> forall c :: GetCell(a, n, c) == GetCell(b, n, c)
  {
    if forall c :: GetCell(a, n, c) == GetCell(b, n, c) {
      forall c ensures c in a.cells <==> c in b.cells {
        assert GetCell(a, n, c) == GetCell(b, n, c);
      }
      forall c | c in a.cells ensures a.cells[c] == b.cells[c] {
        assert GetCell(a, n, c) == GetCell(b, n, c);
      }
    }
  }

  /** Writes to different coordinates commute up to equality, although the
      two grids enumerate their keys in different orders. */
  lemma SetCellsCommute(n: int, g: Grid, c: Coord, v: bool, d: Coord, w: bool)
    requires c != d
    ensures Equal(SetCell(SetCell(g, n, c, v), n, d, w), SetCell(SetCell(g, n, d, w), n, c, v))
  {
  }
}
