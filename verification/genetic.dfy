/** `GeneticAlgorithm` of ga.py: the steady-state loop of `run`. Each
    generation scores the population, tracks the best candidate, records two
    samples, breeds one child from two selected parents, possibly mutates it,
    appends it and drops the first weakest member. The random draws of one
    generation are a `Draws` value. */
module Genetic {
  import opened Wrappers
  import opened Grids
  import opened Statistics
  import opened Fitness
  import opened Operators

  /** `best_fitness` / `best_candidate`; `NoBest` is the initial
      `float('-inf')` / `None`. */
  datatype Best = NoBest | Best(fitness: real, candidate: Grid)

  /** The state `run` carries from one generation to the next, with the
      class-level cache and statistics made explicit. */
  datatype Ga = Ga(population: seq<Grid>, best: Best, mutationProb: real, cache: Cache, stats: Stats)

  /** The exceptions a generation can raise. */
  datatype GaError = ZeroDivision | Operator(error: OpError)

  /** The random draws of one generation: the two roulette picks (as indices
      into the population), the crossover sample, the mutation roll of `run`,
      and the branch roll, key pick and direction pick of `mutate`. */
  datatype Draws = Draws(
    parent1: nat, parent2: nat, point0: nat, point1: nat,
    mutationRoll: real, branchRoll: real, cellPick: nat, dirPick: nat)

  /** The `mutation_prob` `run` starts with. */
  const InitialMutationProb: real := 0.01

  /** The convergence threshold on `|best_fitness - avg_fitness|`. */
  const Convergence: real := 0.1

  /** The state right after `__init__`, for a seeded population. */
  function Initial(population: seq<Grid>, cache: Cache, stats: Stats): Ga {
    Ga(population, NoBest, InitialMutationProb, cache, stats)
  }

  function Sum(xs: seq<real>): real
    decreases |xs|
  {
    if xs == [] then 0.0 else xs[0] + Sum(xs[1..])
  }

  /** A sum of values that are all at least 1 is at least their count. */
  lemma {:induction false} SumAtLeastCount(xs: seq<real>)
    requires forall i :: 0 <= i < |xs| ==> xs[i] >= 1.0
    ensures Sum(xs) >= |xs| as real
    decreases |xs|
  {
    if xs != [] {
      SumAtLeastCount(xs[1..]);
    }
  }

  /** The fitness list, with the cache and statistics after computing it. */
  datatype Scores = Scores(fitness: seq<real>, cache: Cache, stats: Stats)

  /** `_calculate_fitness`: `calculate` on each member in order, threading
      the cache and the statistics. */
  function EvaluateAll(cfg: Config, step: Grid -> Grid, pop: seq<Grid>, cache: Cache, stats: Stats): (r: Scores)
    ensures |r.fitness| == |pop|
    decreases |pop|
  {
    if pop == [] then Scores([], cache, stats)
    else
      var e := Evaluate(cfg, step, pop[0], cache, stats);
      var rest := EvaluateAll(cfg, step, pop[1..], e.cache, e.stats);
      Scores([e.fitness] + rest.fitness, rest.cache, rest.stats)
  }

  /** Scoring a population keeps the cache valid and every stored key, adds
      every member, and gives every member a fitness of at least 1. */
  lemma {:induction false} EvaluateAllKeeps(cfg: Config, step: Grid -> Grid, pop: seq<Grid>, cache: Cache, stats: Stats)
    ensures var r := EvaluateAll(cfg, step, pop, cache, stats);
      && (CacheValid(cfg, cache) ==>
            CacheValid(cfg, r.cache) && forall i :: 0 <= i < |r.fitness| ==> r.fitness[i] >= 1.0)
      && cache.Keys <= r.cache.Keys
      && (forall i :: 0 <= i < |pop| ==> pop[i] in r.cache)
    decreases |pop|
  {
    if pop != [] {
      var e := Evaluate(cfg, step, pop[0], cache, stats);
      EvaluateKeeps(cfg, step, pop[0], cache, stats);
      EvaluateAllKeeps(cfg, step, pop[1..], e.cache, e.stats);
      var r := EvaluateAll(cfg, step, pop, cache, stats);
      forall i | 1 <= i < |pop| ensures pop[i] in r.cache {
        assert pop[i] == pop[1..][i - 1];
      }
    }
  }

  /** Scoring a population never lowers an aggregate and leaves the best
      candidate and the series alone. */
  lemma {:induction false} EvaluateAllStats(cfg: Config, step: Grid -> Grid, pop: seq<Grid>, cache: Cache, stats: Stats)
    ensures var r := EvaluateAll(cfg, step, pop, cache, stats);
      && (Numeric(stats) ==> Numeric(r.stats) && NoLower(stats, r.stats))
      && r.stats.bestCandidate == stats.bestCandidate
      && (forall k :: Samples(r.stats, k) == Samples(stats, k))
    decreases |pop|
  {
    if pop != [] {
      var e := Evaluate(cfg, step, pop[0], cache, stats);
      EvaluateStats(cfg, step, pop[0], cache, stats);
      EvaluateAllStats(cfg, step, pop[1..], e.cache, e.stats);
    }
  }

  /** `fitness > self.best_fitness`, with `NoBest` below every number. */
  predicate Beats(f: real, b: Best) {
    b.NoBest? || f > b.fitness
  }

  /** The best so far and the statistics after tracking it. */
  datatype Tracked = Tracked(best: Best, stats: Stats)

  /** `_update_best_candidate`: a strictly better fitness replaces the best
      and records the candidate's string form in the statistics. */
  function UpdateBest(b: Best, stats: Stats, g: Grid, f: real): Tracked {
    if Beats(f, b) then Tracked(Best(f, g), SetStat(stats, BestCandidate, Assign(Candidate(g))))
    else Tracked(b, stats)
  }

  /** The loop of `run` over `enumerate(self.population)`. */
  function UpdateBestAll(b: Best, stats: Stats, pop: seq<Grid>, fitness: seq<real>): Tracked
    requires |fitness| == |pop|
    decreases |pop|
  {
    if pop == [] then Tracked(b, stats)
    else
      var t := UpdateBest(b, stats, pop[0], fitness[0]);
      UpdateBestAll(t.best, t.stats, pop[1..], fitness[1..])
  }

  /** After the loop the best fitness is at least the old one and every
      fitness of the list. It is either unchanged, or the first maximum of the
      list, which beat the old best, and then the statistics record that
      candidate. No other statistic changes. */
  lemma {:induction false} UpdateBestAllFinds(b: Best, stats: Stats, pop: seq<Grid>, fitness: seq<real>)
    requires |fitness| == |pop|
    ensures var t := UpdateBestAll(b, stats, pop, fitness);
      && (pop != [] ==> t.best.Best?)
      && (b.Best? ==> t.best.Best? && t.best.fitness >= b.fitness)
      && (forall i :: 0 <= i < |fitness| ==> t.best.Best? && t.best.fitness >= fitness[i])
      && ((t.best == b && t.stats == stats) ||
          exists i :: 0 <= i < |pop| && t.best == Best(fitness[i], pop[i]) && Beats(fitness[i], b) &&
            (forall j :: 0 <= j < i ==> fitness[j] < fitness[i]) &&
            Get(t.stats, BestCandidate) == Candidate(pop[i]))
      && (forall k :: k != BestCandidate ==> Get(t.stats, k) == Get(stats, k))
      && (forall k :: Samples(t.stats, k) == Samples(stats, k))
    decreases |pop|
  {
    if pop != [] {
      var u := UpdateBest(b, stats, pop[0], fitness[0]);
      UpdateBestAllFinds(u.best, u.stats, pop[1..], fitness[1..]);
      var t := UpdateBestAll(b, stats, pop, fitness);
      assert t == UpdateBestAll(u.best, u.stats, pop[1..], fitness[1..]);
      forall i | 0 <= i < |fitness| ensures t.best.Best? && t.best.fitness >= fitness[i] {
        if i > 0 {
          assert fitness[i] == fitness[1..][i - 1];
        }
      }
      if t.best == u.best && t.stats == u.stats {
        if u.best != b {
          assert t.best == Best(fitness[0], pop[0]);
        }
      } else {
        var i :| 0 <= i < |pop[1..]| && t.best == Best(fitness[1..][i], pop[1..][i]) && Beats(fitness[1..][i], u.best) &&
          (forall j :: 0 <= j < i ==> fitness[1..][j] < fitness[1..][i]) &&
          Get(t.stats, BestCandidate) == Candidate(pop[1..][i]);
        assert fitness[0] < fitness[i + 1] by {
          if Beats(fitness[0], b) {
            assert u.best.fitness == fitness[0];
          } else {
            assert b.Best? && fitness[0] <= b.fitness;
          }
        }
        forall j | 0 <= j < i + 1 ensures fitness[j] < fitness[i + 1] {
          if j > 0 {
            assert fitness[j] == fitness[1..][j - 1];
          }
        }
        assert Beats(fitness[i + 1], b);
      }
    }
  }

  /** The convergence test and the raise of `mutation_prob`:
      `max(0.5, mutation_prob * 2)` when `|best - avg| < 0.1`. */
  function AdaptMutation(p: real, best: real, avg: real): (r: real)
    ensures r >= p
    ensures Converged(best, avg) ==> r >= 0.5 && r >= 2.0 * p && (r == 0.5 || r == 2.0 * p)
    ensures !Converged(best, avg) ==> r == p
  {
    if Converged(best, avg) then (if 0.5 >= p * 2.0 then 0.5 else p * 2.0) else p
  }

  predicate Converged(best: real, avg: real) {
    -Convergence < best - avg < Convergence
  }

  /** `w` is where `min(xs)` first occurs. */
  predicate IsFirstMin(xs: seq<real>, w: int) {
    && 0 <= w < |xs|
    && (forall j :: 0 <= j < |xs| ==> xs[w] <= xs[j])
    && (forall j :: 0 <= j < w ==> xs[j] > xs[w])
  }

  /** There is only one first minimum. */
  lemma FirstMinUnique(xs: seq<real>, v: int, w: int)
    requires IsFirstMin(xs, v) && IsFirstMin(xs, w)
    ensures v == w
  {
    var a, b := xs[v], xs[w];
    assert v < w ==> a > b;
    assert w < v ==> b > a;
  }

  /** `fitness.index(min(fitness))`. */
  function FirstMinIndex(xs: seq<real>): (r: nat)
    requires |xs| > 0
    ensures IsFirstMin(xs, r)
    decreases |xs|
  {
    if |xs| == 1 then 0
    else
      var k := FirstMinIndex(xs[1..]) + 1;
      assert forall j :: 1 <= j < |xs| ==> xs[j] == xs[1..][j - 1];
      if xs[0] <= xs[k] then 0 else k
  }

  /** `del s[i]`. */
  function RemoveAt<T>(s: seq<T>, i: nat): (r: seq<T>)
    requires i < |s|
    ensures |r| == |s| - 1
    ensures forall j :: 0 <= j < i ==> r[j] == s[j]
    ensures forall j :: i <= j < |r| ==> r[j] == s[j + 1]
  {
    s[..i] + s[i + 1..]
  }

  /** The scores a generation computes from state `s`. */
  function Scored(cfg: Config, step: Grid -> Grid, s: Ga): Scores {
    EvaluateAll(cfg, step, s.population, s.cache, s.stats)
  }

  function Average(xs: seq<real>): real
    requires |xs| > 0
  {
    Sum(xs) / (|xs| as real)
  }

  /** The best candidate and statistics after the tracking loop. */
  function Tracking(s: Ga, sc: Scores): Tracked
    requires |sc.fitness| == |s.population|
  {
    UpdateBestAll(s.best, sc.stats, s.population, sc.fitness)
  }

  /** The `mutation_prob` of the generation, after the convergence test. */
  function NextProb(s: Ga, sc: Scores): real
    requires 0 < |sc.fitness| == |s.population|
  {
    UpdateBestAllFinds(s.best, sc.stats, s.population, sc.fitness);
    AdaptMutation(s.mutationProb, Tracking(s, sc).best.fitness, Average(sc.fitness))
  }

  /** The crossover of the two parents picked by index. */
  function Cross(s: Ga, n: int, d: Draws): Result<Grid, OpError>
    requires |s.population| > 0
  {
    var pop := s.population;
    CrossoverDrawn(pop[d.parent1 % |pop|], pop[d.parent2 % |pop|], n, d.point0, d.point1)
  }

  /** The child: the crossover, mutated when the roll falls below the
      adapted probability. */
  function Breed(s: Ga, n: int, prob: real, d: Draws): Result<Grid, OpError>
    requires |s.population| > 0
  {
    var cross := Cross(s, n, d);
    if cross.Failure? then cross
    else if d.mutationRoll < prob then Mutate(cross.value, n, d.branchRoll, d.cellPick, d.dirPick)
    else cross
  }

  /** One iteration of the `for gen in range(self.max_iterations)` loop of
      `run`. The average and the roulette weights divide by the population
      size and the total fitness, so an empty population fails; so does a
      crossover or mutation that fails. */
  function Generation(cfg: Config, step: Grid -> Grid, s: Ga, gen: nat, d: Draws): (r: Result<Ga, GaError>)
    ensures |s.population| == 0 ==> r == Failure(ZeroDivision)
  {
    if |s.population| == 0 then Failure(ZeroDivision)
    else
      var sc := Scored(cfg, step, s);
      var tr := Tracking(s, sc);
      var avg := Average(sc.fitness);
      var st := AddSample(AddSample(tr.stats, GenSample, gen as real), FitnessSample, avg);
      if Sum(sc.fitness) == 0.0 then Failure(ZeroDivision)
      else
        var prob := NextProb(s, sc);
        var child := Breed(s, cfg.maxGridSize, prob, d);
        if child.Failure? then Failure(Operator(child.error))
        else
          var w := FirstMinIndex(sc.fitness);
          Success(Ga(RemoveAt(s.population + [child.value], w), tr.best, prob, sc.cache, st))
  }

  /** A successful generation keeps the population size, holds a best that
      never decreases, never lowers the mutation probability, and appends
      `gen` and the average fitness to the series. */
  lemma GenerationKeeps(cfg: Config, step: Grid -> Grid, s: Ga, gen: nat, d: Draws)
    ensures var r := Generation(cfg, step, s, gen, d);
      r.Success? ==>
      && |r.value.population| == |s.population|
      && r.value.best.Best?
      && (s.best.Best? ==> r.value.best.fitness >= s.best.fitness)
      && r.value.mutationProb >= s.mutationProb
      && r.value.stats.genSample == s.stats.genSample + [gen as real]
      && r.value.stats.fitnessSample == s.stats.fitnessSample + [Average(Scored(cfg, step, s).fitness)]
  {
    if |s.population| > 0 {
      var sc := Scored(cfg, step, s);
      EvaluateAllStats(cfg, step, s.population, s.cache, s.stats);
      UpdateBestAllFinds(s.best, sc.stats, s.population, sc.fitness);
    }
  }

  /** A successful generation keeps the cache valid. */
  lemma GenerationCache(cfg: Config, step: Grid -> Grid, s: Ga, gen: nat, d: Draws)
    ensures var r := Generation(cfg, step, s, gen, d);
      r.Success? && CacheValid(cfg, s.cache) ==> CacheValid(cfg, r.value.cache)
  {
    if |s.population| > 0 {
      EvaluateAllKeeps(cfg, step, s.population, s.cache, s.stats);
    }
  }

  /** A successful generation never lowers an aggregate. */
  lemma GenerationStats(cfg: Config, step: Grid -> Grid, s: Ga, gen: nat, d: Draws)
    ensures var r := Generation(cfg, step, s, gen, d);
      r.Success? && Numeric(s.stats) ==> Numeric(r.value.stats) && NoLower(s.stats, r.value.stats)
  {
    if |s.population| > 0 {
      var sc := Scored(cfg, step, s);
      EvaluateAllStats(cfg, step, s.population, s.cache, s.stats);
      var tr := Tracking(s, sc);
      UpdateBestAllFinds(s.best, sc.stats, s.population, sc.fitness);
      var st := AddSample(AddSample(tr.stats, GenSample, gen as real), FitnessSample, Average(sc.fitness));
      if Numeric(sc.stats) {
        assert Get(st, MaxGen) == Get(sc.stats, MaxGen);
        assert Get(st, MaxFitness) == Get(sc.stats, MaxFitness);
        assert Get(st, MaxSize) == Get(sc.stats, MaxSize);
      }
    }
  }

  /** When a generation fails. With a valid cache every fitness is at least 1,
      so the roulette total is positive and only an empty population divides
      by zero; the crossover sample fails when both picked parents have fewer
      than two keys; the mutation fails when it fires on a child with no
      keys. */
  lemma GenerationFailures(cfg: Config, step: Grid -> Grid, s: Ga, gen: nat, d: Draws)
    requires CacheValid(cfg, s.cache)
    ensures var r := Generation(cfg, step, s, gen, d);
      && (r == Failure(ZeroDivision) <==> |s.population| == 0)
      && (|s.population| > 0 ==>
            (r == Failure(Operator(SampleLargerThanPopulation)) <==> Cross(s, cfg.maxGridSize, d).Failure?))
      && (|s.population| > 0 ==>
            (r == Failure(Operator(EmptySequence)) <==>
               Cross(s, cfg.maxGridSize, d).Success? && Len(Cross(s, cfg.maxGridSize, d).value) == 0 &&
               d.mutationRoll < NextProb(s, Scored(cfg, step, s))))
  {
    if |s.population| > 0 {
      var sc := Scored(cfg, step, s);
      EvaluateAllKeeps(cfg, step, s.population, s.cache, s.stats);
      SumAtLeastCount(sc.fitness);
    }
  }

  /** The population after a generation: the members before the first
      weakest of this generation's fitness list keep their places, those
      after it move up by one, and the child is last. */
  lemma GenerationPopulation(cfg: Config, step: Grid -> Grid, s: Ga, gen: nat, d: Draws)
    ensures var next := Generation(cfg, step, s, gen, d);
      next.Success? ==>
      var r := next.value;
      var pop := s.population;
      exists w ::
        && IsFirstMin(Scored(cfg, step, s).fitness, w)
        && (forall j :: 0 <= j < w ==> r.population[j] == pop[j])
        && (forall j :: w <= j < |pop| - 1 ==> r.population[j] == pop[j + 1])
        && r.population[|pop| - 1] == Breed(s, cfg.maxGridSize, r.mutationProb, d).value
  {
    if Generation(cfg, step, s, gen, d).Success? {
      var sc := Scored(cfg, step, s);
      var w := FirstMinIndex(sc.fitness);
      var r := Generation(cfg, step, s, gen, d).value;
      var child := Breed(s, cfg.maxGridSize, NextProb(s, sc), d).value;
      assert r.population == RemoveAt(s.population + [child], w);
      assert r.population[|s.population| - 1] == (s.population + [child])[|s.population|];
    }
  }

  /** The best after a generation: unchanged, or the first maximum of this
      generation's fitness list when it beats the old best, its candidate then
      recorded in the statistics; the mutation probability is the old one, or
      `max(0.5, 2 * mutation_prob)` when the best is within 0.1 of the
      average. */
  lemma GenerationBest(cfg: Config, step: Grid -> Grid, s: Ga, gen: nat, d: Draws)
    ensures var next := Generation(cfg, step, s, gen, d);
      next.Success? ==>
      var r := next.value;
      var fit := Scored(cfg, step, s).fitness;
      && r.best.Best?
      && (forall i :: 0 <= i < |fit| ==> r.best.fitness >= fit[i])
      && (r.best == s.best ||
          exists i :: 0 <= i < |fit| && r.best == Best(fit[i], s.population[i]) && Beats(fit[i], s.best) &&
            (forall j :: 0 <= j < i ==> fit[j] < fit[i]) &&
            Get(r.stats, BestCandidate) == Candidate(s.population[i]))
      && (Converged(r.best.fitness, Average(fit)) ==>
            && r.mutationProb >= 0.5 && r.mutationProb >= 2.0 * s.mutationProb
            && (r.mutationProb == 0.5 || r.mutationProb == 2.0 * s.mutationProb))
      && (!Converged(r.best.fitness, Average(fit)) ==> r.mutationProb == s.mutationProb)
  {
    if |s.population| > 0 {
      var sc := Scored(cfg, step, s);
      UpdateBestAllFinds(s.best, sc.stats, s.population, sc.fitness);
    }
  }

  /** The `for gen in range(...)` loop of `run` over `|ds|` generations from
      `gen` on, each taken by `next`, stopping at the first failure. */
  function RunWith(next: (Ga, nat, Draws) -> Result<Ga, GaError>, s: Ga, gen: nat, ds: seq<Draws>): Result<Ga, GaError>
    decreases |ds|
  {
    if ds == [] then Success(s)
    else
      var r := next(s, gen, ds[0]);
      if r.Failure? then r else RunWith(next, r.value, gen + 1, ds[1..])
  }

  /** `run` with its generation step: `Generation` on the program's
      configuration and Life step. The loop lemmas below are stated for any
      step with the per-generation guarantees, which `Generation` has. */
  function Run(cfg: Config, step: Grid -> Grid, s: Ga, gen: nat, ds: seq<Draws>): Result<Ga, GaError> {
    RunWith((t: Ga, k: nat, d: Draws) => Generation(cfg, step, t, k, d), s, gen, ds)
  }

  /** `gen`, `gen + 1`, ..., as the values `add_sample` records. */
  function Range(gen: nat, k: nat): seq<real> {
    seq(k, i requires 0 <= i < k => (gen + i) as real)
  }

  lemma RangeCons(gen: nat, k: nat)
    ensures [gen as real] + Range(gen + 1, k) == Range(gen, k + 1)
  {
  }

  /** What `GenerationKeeps` promises of one generation, for a generation
      step given as a value. */
  ghost predicate Steady(next: (Ga, nat, Draws) -> Result<Ga, GaError>) {
    forall t, k, d :: next(t, k, d).Success? ==>
      && |next(t, k, d).value.population| == |t.population|
      && next(t, k, d).value.best.Best?
      && (t.best.Best? ==> next(t, k, d).value.best.fitness >= t.best.fitness)
      && next(t, k, d).value.mutationProb >= t.mutationProb
      && next(t, k, d).value.stats.genSample == t.stats.genSample + [k as real]
      && |next(t, k, d).value.stats.fitnessSample| == |t.stats.fitnessSample| + 1
  }

  lemma GenerationIsSteady(cfg: Config, step: Grid -> Grid)
    ensures Steady((t: Ga, k: nat, d: Draws) => Generation(cfg, step, t, k, d))
  {
    forall t, k, d { GenerationKeeps(cfg, step, t, k, d); }
  }

  /** Over `k` successful generations of a steady step the population keeps
      its size, the best and the mutation probability never decrease, the
      generation series gains `gen, ..., gen + k - 1` and the fitness series
      gains `k` entries. */
  lemma {:induction false} RunWithInvariants(next: (Ga, nat, Draws) -> Result<Ga, GaError>, s: Ga, gen: nat, ds: seq<Draws>)
    requires Steady(next)
    ensures var r := RunWith(next, s, gen, ds);
      r.Success? ==>
        && |r.value.population| == |s.population|
        && (s.best.Best? ==> r.value.best.Best? && r.value.best.fitness >= s.best.fitness)
        && (ds != [] ==> r.value.best.Best?)
        && r.value.mutationProb >= s.mutationProb
        && r.value.stats.genSample == s.stats.genSample + Range(gen, |ds|)
        && |r.value.stats.fitnessSample| == |s.stats.fitnessSample| + |ds|
    decreases |ds|
  {
    if ds != [] && next(s, gen, ds[0]).Success? {
      var t := next(s, gen, ds[0]).value;
      RunWithInvariants(next, t, gen + 1, ds[1..]);
      RangeCons(gen, |ds| - 1);
      assert t.stats.genSample + Range(gen + 1, |ds| - 1) ==
        s.stats.genSample + ([gen as real] + Range(gen + 1, |ds| - 1));
    }
  }

  /** The same for `run` itself. */
  lemma RunInvariants(cfg: Config, step: Grid -> Grid, s: Ga, gen: nat, ds: seq<Draws>)
    ensures var r := Run(cfg, step, s, gen, ds);
      r.Success? ==>
        && |r.value.population| == |s.population|
        && (s.best.Best? ==> r.value.best.Best? && r.value.best.fitness >= s.best.fitness)
        && (ds != [] ==> r.value.best.Best?)
        && r.value.mutationProb >= s.mutationProb
        && r.value.stats.genSample == s.stats.genSample + Range(gen, |ds|)
        && |r.value.stats.fitnessSample| == |s.stats.fitnessSample| + |ds|
  {
    GenerationIsSteady(cfg, step);
    RunWithInvariants((t: Ga, k: nat, d: Draws) => Generation(cfg, step, t, k, d), s, gen, ds);
  }

  /** A generation step that keeps a valid cache valid. */
  ghost predicate KeepsCache(cfg: Config, next: (Ga, nat, Draws) -> Result<Ga, GaError>) {
    forall t, k, d :: next(t, k, d).Success? && CacheValid(cfg, t.cache) ==>
      CacheValid(cfg, next(t, k, d).value.cache)
  }

  lemma {:induction false} RunWithKeepsCacheValid(cfg: Config, next: (Ga, nat, Draws) -> Result<Ga, GaError>, s: Ga, gen: nat, ds: seq<Draws>)
    requires KeepsCache(cfg, next)
    requires CacheValid(cfg, s.cache)
    ensures var r := RunWith(next, s, gen, ds);
      r.Success? ==> CacheValid(cfg, r.value.cache)
    decreases |ds|
  {
    if ds != [] && next(s, gen, ds[0]).Success? {
      RunWithKeepsCacheValid(cfg, next, next(s, gen, ds[0]).value, gen + 1, ds[1..]);
    }
  }

  /** Over any number of successful generations a valid cache stays valid. */
  lemma RunKeepsCacheValid(cfg: Config, step: Grid -> Grid, s: Ga, gen: nat, ds: seq<Draws>)
    requires CacheValid(cfg, s.cache)
    ensures var r := Run(cfg, step, s, gen, ds);
      r.Success? ==> CacheValid(cfg, r.value.cache)
  {
    var next := (t: Ga, k: nat, d: Draws) => Generation(cfg, step, t, k, d);
    forall t, k, d { GenerationCache(cfg, step, t, k, d); }
    RunWithKeepsCacheValid(cfg, next, s, gen, ds);
  }

  /** `run` from a fresh start: after `k` generations `gen_sample` is
      `[0, ..., k - 1]`, `fitness_sample` holds `k` averages, and a best
      candidate exists once one generation ran. */
  lemma RunFromStart(cfg: Config, step: Grid -> Grid, population: seq<Grid>, cache: Cache, ds: seq<Draws>)
    ensures var r := Run(cfg, step, Initial(population, cache, Statistics.Initial), 0, ds);
      r.Success? ==>
        && r.value.stats.genSample == Range(0, |ds|)
        && |r.value.stats.fitnessSample| == |ds|
        && (ds != [] ==> r.value.best.Best?)
  {
    RunInvariants(cfg, step, Initial(population, cache, Statistics.Initial), 0, ds);
  }
}
