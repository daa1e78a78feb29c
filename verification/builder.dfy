/** `GridBuilder.build` of grid_builder.py: keep setting random cells of the
    11 x 11 box around the centre alive until the grid holds `num_cells` keys.
    The `randint` draws are a finite sequence of pairs of naturals, each
    decoded into the box; running out of draws is reported as a `Failure`,
    where the source would keep drawing for ever. */
module Builder {
  import opened Wrappers
  import opened Grids

  datatype BuildError = SamplesExhausted

  /** `radius` of `build`. */
  const Radius: int := 5

  /** The lower corner of the box: `MAX_GRID_SIZE // 2 - radius` on both axes
      (the divisor is positive, so Dafny's `/` is Python's `//`). */
  function BoxLow(n: int): int {
    n / 2 - Radius
  }

  /** Within `[n // 2 - 5, n // 2 + 5]` on both axes. */
  predicate InBox(n: int, c: Coord) {
    BoxLow(n) <= c.x <= n / 2 + Radius && BoxLow(n) <= c.y <= n / 2 + Radius
  }

  /** The cell of one pair of `randint` draws: each draw picks one of the
      `2 * radius + 1` values of the inclusive range. */
  function SampleCell(n: int, s: (nat, nat)): (c: Coord)
    ensures InBox(n, c)
  {
    Coord(BoxLow(n) + s.0 % (2 * Radius + 1), BoxLow(n) + s.1 % (2 * Radius + 1))
  }

  /** The in-bounds cells among the first `k` draws. */
  function SeenUpTo(n: int, samples: seq<(nat, nat)>, k: nat): set<Coord>
    requires k <= |samples|
  {
    set j | 0 <= j < k && InBounds(n, SampleCell(n, samples[j])) :: SampleCell(n, samples[j])
  }

  /** `GridBuilder.build`. It succeeds exactly when the draws reach at least
      `num_cells` distinct in-bounds cells; the grid then holds exactly
      `max(0, num_cells)` keys, all `True`, all in the box and in bounds, all
      drawn. Running out of draws means fewer distinct cells were reachable. */
  method Build(n: int, numCells: int, samples: seq<(nat, nat)>) returns (r: Result<Grid, BuildError>)
    ensures r.Success? <==> numCells <= |SeenUpTo(n, samples, |samples|)|
    ensures r.Success? ==>
      && Valid(n, r.value)
      && AllTrue(r.value)
      && Len(r.value) == (if numCells > 0 then numCells else 0)
      && (forall c :: c in r.value.cells ==> InBox(n, c) && InBounds(n, c))
      && r.value.cells.Keys <= SeenUpTo(n, samples, |samples|)
  {
    var g := Empty;
    var i := 0;
    while Len(g) < numCells
      invariant 0 <= i <= |samples|
      invariant Valid(n, g) && AllTrue(g)
      invariant g.cells.Keys == SeenUpTo(n, samples, i)
      invariant Len(g) == 0 || Len(g) <= numCells
      decreases |samples| - i
    {
      if i == |samples| {
        ValidCard(n, g);
        return Failure(SamplesExhausted);
      }
      DrawStep(n, samples, i, g);
      g := SetCell(g, n, SampleCell(n, samples[i]), true);
      i := i + 1;
    }
    ValidCard(n, g);
    SeenGrows(n, samples, i);
    SubsetCard(g.cells.Keys, SeenUpTo(n, samples, |samples|));
    return Success(g);
  }

  /** One pass of the loop: setting the next drawn cell alive keeps the grid
      valid and all `True`, adds at most one key, and extends the keys to the
      cells seen so far. */
  lemma DrawStep(n: int, samples: seq<(nat, nat)>, i: nat, g: Grid)
    requires i < |samples|
    requires Valid(n, g) && AllTrue(g)
    requires g.cells.Keys == SeenUpTo(n, samples, i)
    ensures var g' := SetCell(g, n, SampleCell(n, samples[i]), true);
      && Valid(n, g') && AllTrue(g')
      && g'.cells.Keys == SeenUpTo(n, samples, i + 1)
      && Len(g') <= Len(g) + 1
  {
    var c := SampleCell(n, samples[i]);
    assert SeenUpTo(n, samples, i + 1) ==
      SeenUpTo(n, samples, i) + (if InBounds(n, c) then {c} else {});
  }

  lemma SeenGrows(n: int, samples: seq<(nat, nat)>, k: nat)
    requires k <= |samples|
    ensures SeenUpTo(n, samples, k) <= SeenUpTo(n, samples, |samples|)
  {
  }
}
