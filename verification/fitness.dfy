/** `GridFitnessCalculator` of ga.py: cycle detection, the memoised fitness
    evaluation and its cache. The configuration constants are parameters; the
    class-level cache and the statistics are explicit values. */
module Fitness {
  import opened Grids
  import opened Life
  import opened Statistics

  /** `Config.MAX_GRID_SIZE` and `Config.MAX_ITERATIONS`. */
  datatype Config = Config(maxGridSize: int, maxIterations: nat)

  /** A cache entry: the furthest grid simulated, the fitness, the generation
      count, the largest size seen, and whether a repetition was found. */
  datatype Entry = Entry(grid: Grid, fitness: real, gen: nat, maxSize: nat, settled: bool)

  /** The cache is keyed by the grid value, order included: the source keys it
      by `hash(str(grid))`, and the dict's string form depends on both the
      enumeration order and the values. */
  type Cache = map<Grid, Entry>

  /** What every entry the evaluator stores satisfies. */
  predicate EntryValid(cfg: Config, e: Entry) {
    && e.fitness >= 1.0
    && e.gen <= cfg.maxIterations
    && (e.settled ==> e.gen >= 2)
    && (!e.settled ==> e.gen == cfg.maxIterations)
  }

  predicate CacheValid(cfg: Config, cache: Cache) {
    forall k :: k in cache ==> EntryValid(cfg, cache[k])
  }

  /** `is_stable_or_oscillating`: more than two grids recorded and the current
      one equal to one of them. */
  predicate IsStableOrOscillating(g: Grid, history: seq<Grid>) {
    |history| > 2 && exists i :: 0 <= i < |history| && Equal(history[i], g)
  }

  /** The step the program passes to the evaluator: `GameOfLife(grid).run()`
      on the configured square. The evaluator and the loop take the step as a
      parameter, so what is proved about them holds for this step in
      particular and never depends on how it computes. */
  function LifeStep(cfg: Config): Grid -> Grid {
    (g: Grid) => Step(g, cfg.maxGridSize)
  }

  /** `k` applications of `step`. */
  function Iterate(step: Grid -> Grid, g: Grid, k: nat): Grid
    decreases k
  {
    if k == 0 then g else Iterate(step, step(g), k - 1)
  }

  /** The local variables of the evaluation loop. */
  datatype Sim = Sim(cur: Grid, history: seq<Grid>, gen: nat, maxSize: nat, settled: bool, stats: Stats)

  /** The `while gen < MAX_ITERATIONS` loop of `calculate`: it stops at the
      budget or at the first repetition; before each step it raises `max_size`
      to the current length, records the grid and advances one generation. */
  function Simulate(cfg: Config, step: Grid -> Grid, s: Sim): (r: Sim)
    ensures r.gen >= s.gen
    ensures s.gen <= cfg.maxIterations ==> r.gen <= cfg.maxIterations
    ensures r.gen < cfg.maxIterations ==> r.settled
    ensures |r.history| == |s.history| + (r.gen - s.gen)
    decreases cfg.maxIterations - s.gen
  {
    if s.gen >= cfg.maxIterations then s
    else if IsStableOrOscillating(s.cur, s.history) then s.(settled := true)
    else Simulate(cfg, step, Advance(step, s))
  }

  /** The loop settles only on a repetition, keeps the history it was given
      as a prefix, never lowers `max_size`, and touches no statistic but
      `max_size`, which it raises at least to the loop's own `max_size`. */
  lemma {:induction false} SimulateKeeps(cfg: Config, step: Grid -> Grid, s: Sim)
    ensures var r := Simulate(cfg, step, s);
      && (r.settled ==> s.settled || IsStableOrOscillating(r.cur, r.history))
      && (forall i :: 0 <= i < |s.history| ==> r.history[i] == s.history[i])
      && r.maxSize >= s.maxSize
      && (forall k :: k != MaxSize ==> Get(r.stats, k) == Get(s.stats, k))
      && (forall k :: Samples(r.stats, k) == Samples(s.stats, k))
      && (Numeric(s.stats) ==> Numeric(r.stats) && r.stats.maxSize.num >= s.stats.maxSize.num)
      && (Numeric(s.stats) && s.stats.maxSize.num >= s.maxSize as real ==>
            r.stats.maxSize.num >= r.maxSize as real)
    decreases cfg.maxIterations - s.gen
  {
    if s.gen < cfg.maxIterations && !IsStableOrOscillating(s.cur, s.history) {
      SimulateKeeps(cfg, step, Advance(step, s));
    }
  }

  /** One pass of the loop body. */
  function Advance(step: Grid -> Grid, s: Sim): Sim {
    var size := Len(s.cur);
    var ms := if size > s.maxSize then size else s.maxSize;
    var st := if size > s.maxSize then SetStat(s.stats, MaxSize, Apply(MaxWith(size as real))) else s.stats;
    Sim(step(s.cur), s.history + [s.cur], s.gen + 1, ms, s.settled, st)
  }

  /** Among the first `k` entries of `h` there are more than two, and one of
      them equals `g`: the repetition test applied to a prefix of `h`. */
  predicate SeenIn(g: Grid, h: seq<Grid>, k: nat) {
    k > 2 && exists j :: 0 <= j < k && j < |h| && Equal(h[j], g)
  }

  lemma SeenInPrefix(g: Grid, h: seq<Grid>, h': seq<Grid>)
    requires |h| <= |h'|
    requires forall i :: 0 <= i < |h| ==> h'[i] == h[i]
    ensures IsStableOrOscillating(g, h) <==> SeenIn(g, h', |h|)
  {
    if SeenIn(g, h', |h|) {
      var j :| 0 <= j < |h| && j < |h'| && Equal(h'[j], g);
      assert Equal(h[j], g);
    }
  }

  /** The grids the loop visits: the `i`-th grid recorded after the starting
      history is the start stepped `i` times, the final grid is stepped once
      per generation, and none of the recorded grids repeats what came before
      it. */
  lemma {:induction false} SimulateTrace(cfg: Config, step: Grid -> Grid, s: Sim)
    ensures var r := Simulate(cfg, step, s);
      && r.cur == Iterate(step, s.cur, r.gen - s.gen)
      && (forall i :: 0 <= i < r.gen - s.gen ==> r.history[|s.history| + i] == Iterate(step, s.cur, i))
      && (forall i :: 0 <= i < r.gen - s.gen ==> !SeenIn(Iterate(step, s.cur, i), r.history, |s.history| + i))
    decreases cfg.maxIterations - s.gen
  {
    if s.gen < cfg.maxIterations && !IsStableOrOscillating(s.cur, s.history) {
      var s' := Advance(step, s);
      SimulateTrace(cfg, step, s');
      SimulateKeeps(cfg, step, s');
      var r := Simulate(cfg, step, s');
      assert r == Simulate(cfg, step, s);
      var h0 := |s.history|;
      assert r.history[h0] == s.cur by {
        assert s'.history[h0] == s.cur;
      }
      SeenInPrefix(s.cur, s.history, r.history);
      forall i | 0 <= i < r.gen - s.gen
        ensures r.history[h0 + i] == Iterate(step, s.cur, i)
        ensures !SeenIn(Iterate(step, s.cur, i), r.history, h0 + i)
      {
        if i > 0 {
          assert Iterate(step, s.cur, i) == Iterate(step, s'.cur, i - 1);
          assert h0 + i == |s'.history| + (i - 1);
        }
      }
    }
  }

  /** The `max_size` the loop ends with is at least where it started, bounds
      the length of every grid it stepped, and is either the starting value or
      the length of one of them. */
  lemma {:induction false} SimulateMaxSize(cfg: Config, step: Grid -> Grid, s: Sim)
    ensures var r := Simulate(cfg, step, s);
      && (forall i :: 0 <= i < r.gen - s.gen ==> Len(Iterate(step, s.cur, i)) <= r.maxSize)
      && (r.maxSize == s.maxSize || exists i :: 0 <= i < r.gen - s.gen && Len(Iterate(step, s.cur, i)) == r.maxSize)
    decreases cfg.maxIterations - s.gen
  {
    if s.gen < cfg.maxIterations && !IsStableOrOscillating(s.cur, s.history) {
      var s' := Advance(step, s);
      SimulateMaxSize(cfg, step, s');
      SimulateKeeps(cfg, step, s');
      var r := Simulate(cfg, step, s');
      assert r == Simulate(cfg, step, s);
      forall i | 0 < i < r.gen - s.gen ensures Len(Iterate(step, s.cur, i)) <= r.maxSize {
        assert Iterate(step, s.cur, i) == Iterate(step, s'.cur, i - 1);
      }
      if r.maxSize != s.maxSize {
        if r.maxSize == s'.maxSize {
          assert s'.maxSize == Len(s.cur) && r.gen - s.gen > 0;
          assert Iterate(step, s.cur, 0) == s.cur;
          assert Len(Iterate(step, s.cur, 0)) == r.maxSize;
          assert exists i :: 0 <= i < r.gen - s.gen && Len(Iterate(step, s.cur, i)) == r.maxSize;
        } else {
          var i :| 0 <= i < r.gen - s'.gen && Len(Iterate(step, s'.cur, i)) == r.maxSize;
          assert Iterate(step, s.cur, i + 1) == Iterate(step, s'.cur, i);
          assert 0 <= i + 1 < r.gen - s.gen;
          assert exists i :: 0 <= i < r.gen - s.gen && Len(Iterate(step, s.cur, i)) == r.maxSize;
        }
      }
    }
  }

  /** The result of one `calculate` call, with the updated cache and statistics. */
  datatype Evaluation = Evaluation(fitness: real, cache: Cache, stats: Stats)

  /** Where the evaluation starts: the cached entry, or a copy of the input at
      generation 0 with `max_size` 0 and fitness 1. */
  function Start(g: Grid, cache: Cache): Entry {
    if g in cache then cache[g] else Entry(g, 1.0, 0, 0, false)
  }

  /** `GridFitnessCalculator.calculate`. A settled cache hit returns the stored
      fitness and touches nothing; otherwise the loop runs from the starting
      point, the fitness gains `0.8 * gen + 0.2 * max_size`, the `max_fitness`
      and `max_gen` aggregates are raised, and the entry is overwritten. */
  function Evaluate(cfg: Config, step: Grid -> Grid, g: Grid, cache: Cache, stats: Stats): (r: Evaluation)
    ensures r.cache.Keys == cache.Keys + {g}
  {
    if g in cache && cache[g].settled then Evaluation(cache[g].fitness, cache, stats)
    else
      var e0 := Start(g, cache);
      var sim := Simulate(cfg, step, Sim(e0.grid, [e0.grid], e0.gen, e0.maxSize, e0.settled, stats));
      var fitness := e0.fitness + (sim.gen as real * 0.8 + sim.maxSize as real * 0.2);
      var st := SetStat(SetStat(sim.stats, MaxFitness, Apply(MaxWith(fitness))), MaxGen, Apply(MaxWith(sim.gen as real)));
      Evaluation(fitness, cache[g := Entry(sim.cur, fitness, sim.gen, sim.maxSize, sim.settled)], st)
  }

  /** A settled hit returns the stored fitness and touches nothing. Otherwise
      only the entry for `g` changes; it holds the returned fitness, which is
      at least the starting one, and a valid cache stays valid with every
      fitness at least 1. */
  lemma EvaluateKeeps(cfg: Config, step: Grid -> Grid, g: Grid, cache: Cache, stats: Stats)
    ensures var r := Evaluate(cfg, step, g, cache, stats);
      && (g in cache && cache[g].settled ==> r == Evaluation(cache[g].fitness, cache, stats))
      && (forall k :: k in cache && k != g ==> r.cache[k] == cache[k])
      && r.cache[g].fitness == r.fitness
      && r.fitness >= Start(g, cache).fitness
      && (CacheValid(cfg, cache) ==> CacheValid(cfg, r.cache) && r.fitness >= 1.0)
  {
    if !(g in cache && cache[g].settled) && CacheValid(cfg, cache) {
      var e0 := Start(g, cache);
      assert g in cache ==> EntryValid(cfg, cache[g]);
      assert e0.fitness >= 1.0 && e0.gen <= cfg.maxIterations && !e0.settled;
      SimulateKeeps(cfg, step, Sim(e0.grid, [e0.grid], e0.gen, e0.maxSize, e0.settled, stats));
    }
  }

  /** The statistics side of `calculate`: no aggregate is lowered,
      `max_fitness` and `max_gen` cover the new entry, and the best candidate
      and the series stay. */
  lemma EvaluateStats(cfg: Config, step: Grid -> Grid, g: Grid, cache: Cache, stats: Stats)
    ensures var r := Evaluate(cfg, step, g, cache, stats);
      && (Numeric(stats) ==> Numeric(r.stats) && NoLower(stats, r.stats))
      && (Numeric(stats) && !(g in cache && cache[g].settled) ==>
            r.stats.maxFitness.num >= r.fitness && r.stats.maxGen.num >= r.cache[g].gen as real)
      && r.stats.bestCandidate == stats.bestCandidate
      && (forall k :: Samples(r.stats, k) == Samples(stats, k))
  {
    if !(g in cache && cache[g].settled) {
      var e0 := Start(g, cache);
      var s0 := Sim(e0.grid, [e0.grid], e0.gen, e0.maxSize, e0.settled, stats);
      SimulateKeeps(cfg, step, s0);
      var sim := Simulate(cfg, step, s0);
      assert Get(sim.stats, BestCandidate) == Get(stats, BestCandidate);
    }
  }

  /** The loop run from a fresh start on `g`: the grid it ends with is `g`
      stepped `gen` times; it settles exactly when, within the budget, a grid
      from generation 2 on repeats an earlier one, `gen` being the first such
      generation; and `max_size` is the largest length among the grids
      stepped (0 when none was). */
  lemma FromScratch(cfg: Config, step: Grid -> Grid, g: Grid, stats: Stats)
    ensures var sim := Simulate(cfg, step, Sim(g, [g], 0, 0, false, stats));
      && sim.gen <= cfg.maxIterations
      && sim.cur == Iterate(step, g, sim.gen)
      && (sim.settled ==> sim.gen >= 2 && exists j :: 0 <= j < sim.gen && Equal(Iterate(step, g, j), sim.cur))
      && (!sim.settled ==> sim.gen == cfg.maxIterations)
      && (forall m, j :: 2 <= m < sim.gen && 0 <= j < m ==> !Equal(Iterate(step, g, j), Iterate(step, g, m)))
      && (forall j :: 0 <= j < sim.gen ==> Len(Iterate(step, g, j)) <= sim.maxSize)
      && (sim.gen == 0 ==> sim.maxSize == 0)
      && (sim.gen > 0 ==> exists j :: 0 <= j < sim.gen && Len(Iterate(step, g, j)) == sim.maxSize)
  {
    var s0 := Sim(g, [g], 0, 0, false, stats);
    var sim := Simulate(cfg, step, s0);
    SimulateKeeps(cfg, step, s0);
    SimulateTrace(cfg, step, s0);
    SimulateMaxSize(cfg, step, s0);
    var h := sim.history;
    assert h[0] == g;
    if sim.settled {
      var i :| 0 <= i < |h| && Equal(h[i], sim.cur);
      if i == 0 {
        assert h[0] == Iterate(step, g, 0);
      } else {
        assert h[i] == Iterate(step, g, i - 1);
      }
    }
    forall m, j | 2 <= m < sim.gen && 0 <= j < m ensures !Equal(Iterate(step, g, j), Iterate(step, g, m)) {
      assert !SeenIn(Iterate(step, g, m), h, 1 + m);
      assert h[1 + j] == Iterate(step, g, j);
    }
    if sim.gen > 0 && sim.maxSize == 0 {
      assert Len(Iterate(step, g, 0)) <= 0;
    }
  }

  /** `calculate` on a grid not yet cached: the entry it stores is the loop's
      fresh-start result (see `FromScratch`), with fitness
      `1 + 0.8 * gen + 0.2 * max_size`, and the `max_size` aggregate covers it. */
  lemma EvaluateMiss(cfg: Config, step: Grid -> Grid, g: Grid, cache: Cache, stats: Stats)
    requires g !in cache
    ensures var r := Evaluate(cfg, step, g, cache, stats);
      var sim := Simulate(cfg, step, Sim(g, [g], 0, 0, false, stats));
      && r.cache[g] == Entry(sim.cur, r.fitness, sim.gen, sim.maxSize, sim.settled)
      && r.fitness == 1.0 + 0.8 * (sim.gen as real) + 0.2 * (sim.maxSize as real)
      && (Numeric(stats) ==> r.stats.maxSize.Num? && r.stats.maxSize.num >= sim.maxSize as real)
  {
    SimulateKeeps(cfg, step, Sim(g, [g], 0, 0, false, stats));
  }

  /** An unsettled hit never re-enters the loop, since such an entry already
      used the whole budget: the stored fitness gains `0.8 * gen + 0.2 *
      max_size` once more (strictly, when `gen > 0`) and the entry keeps its
      grid and counters. */
  lemma EvaluateUnsettledHit(cfg: Config, step: Grid -> Grid, g: Grid, cache: Cache, stats: Stats)
    requires CacheValid(cfg, cache)
    requires g in cache && !cache[g].settled
    ensures var r := Evaluate(cfg, step, g, cache, stats);
      var e := cache[g];
      && r.fitness == e.fitness + (0.8 * (e.gen as real) + 0.2 * (e.maxSize as real))
      && r.cache[g] == e.(fitness := r.fitness)
      && (e.gen > 0 ==> r.fitness > e.fitness)
  {
    var e := cache[g];
    assert EntryValid(cfg, e);
    var sim := Simulate(cfg, step, Sim(e.grid, [e.grid], e.gen, e.maxSize, e.settled, stats));
    assert sim.gen == e.gen && sim.cur == e.grid && sim.maxSize == e.maxSize && !sim.settled;
  }

  /** Once an evaluation settles, evaluating the same grid again returns the
      same fitness and changes neither the cache nor the statistics. */
  lemma SettledIsMemoized(cfg: Config, step: Grid -> Grid, g: Grid, cache: Cache, stats: Stats, later: Stats)
    requires Evaluate(cfg, step, g, cache, stats).cache[g].settled
    ensures var r := Evaluate(cfg, step, g, cache, stats);
      Evaluate(cfg, step, g, r.cache, later) == Evaluation(r.fitness, r.cache, later)
  {
  }
}
