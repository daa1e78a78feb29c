/** `GeneticAlgorithmStatistics` of ga_statistics.py: the process-wide
    statistics dict and sample series, threaded here as an explicit value. */
module Statistics {
  import opened Grids

  /** The keys of the `statistics` dict. */
  datatype StatKey = MaxGen | MaxFitness | MaxSize | BestCandidate

  /** The keys of the `statistics_samples` dict. */
  datatype SampleKey = GenSample | FitnessSample

  /** A statistic's value: a number, a best-candidate grid (standing for its
      string form), or `None`. A statistic holds a dynamically typed Python
      value, so `None` is one more case of that value here, next to the two
      kinds of content; `Option` is kept for a typed result that may be
      absent, such as `get_cell`'s. */
  datatype Value = Num(num: real) | Candidate(grid: Grid) | Nothing

  /** The second argument of `set_stat`: a plain value or a callable. */
  datatype Update = Assign(value: Value) | Apply(f: Value -> Value)

  datatype Stats = Stats(
    maxGen: Value, maxFitness: Value, maxSize: Value, bestCandidate: Value,
    genSample: seq<real>, fitnessSample: seq<real>)

  /** The class-level initial state. */
  const Initial: Stats := Stats(Num(0.0), Num(0.0), Num(0.0), Nothing, [], [])

  function Get(s: Stats, k: StatKey): Value {
    match k
    case MaxGen => s.maxGen
    case MaxFitness => s.maxFitness
    case MaxSize => s.maxSize
    case BestCandidate => s.bestCandidate
  }

  function Samples(s: Stats, k: SampleKey): seq<real> {
    match k
    case GenSample => s.genSample
    case FitnessSample => s.fitnessSample
  }

  /** `set_stat`: a plain value overwrites the key, a callable replaces the
      key's value by its image; every other key and both sample series stay. */
  function SetStat(s: Stats, k: StatKey, u: Update): (r: Stats)
    ensures u.Assign? ==> Get(r, k) == u.value
    ensures u.Apply? ==> Get(r, k) == u.f(Get(s, k))
    ensures forall k' :: k' != k ==> Get(r, k') == Get(s, k')
    ensures forall sk :: Samples(r, sk) == Samples(s, sk)
  {
    var v := match u case Assign(v) => v case Apply(f) => f(Get(s, k));
    match k
    case MaxGen => s.(maxGen := v)
    case MaxFitness => s.(maxFitness := v)
    case MaxSize => s.(maxSize := v)
    case BestCandidate => s.(bestCandidate := v)
  }

  /** `add_sample`: appends to the end of the named series only. */
  function AddSample(s: Stats, k: SampleKey, v: real): (r: Stats)
    ensures Samples(r, k) == Samples(s, k) + [v]
    ensures forall k' :: k' != k ==> Samples(r, k') == Samples(s, k')
    ensures forall sk :: Get(r, sk) == Get(s, sk)
  {
    match k
    case GenSample => s.(genSample := s.genSample + [v])
    case FitnessSample => s.(fitnessSample := s.fitnessSample + [v])
  }

  /** The updater `lambda x: max(x, v)` the fitness evaluator passes to
      `set_stat`. A non-number is left alone: the three keys it is used on
      always hold numbers. */
  function MaxWith(v: real): Value -> Value {
    (x: Value) => match x case Num(a) => Num(if a >= v then a else v) case _ => x
  }

  /** The three aggregates are numbers, never negative. */
  predicate Numeric(s: Stats) {
    && s.maxGen.Num? && s.maxGen.num >= 0.0
    && s.maxFitness.Num? && s.maxFitness.num >= 0.0
    && s.maxSize.Num? && s.maxSize.num >= 0.0
  }

  /** The aggregates of `r` are all at least those of `s`. */
  predicate NoLower(s: Stats, r: Stats)
    requires Numeric(s) && Numeric(r)
  {
    && r.maxGen.num >= s.maxGen.num
    && r.maxFitness.num >= s.maxFitness.num
    && r.maxSize.num >= s.maxSize.num
  }

  /** Under the `max` updater a numeric key never decreases, ends at least
      the offered value, and takes one of the two. */
  lemma MaxUpdateRaises(s: Stats, k: StatKey, v: real)
    requires Get(s, k).Num?
    ensures var r := SetStat(s, k, Apply(MaxWith(v)));
      && Get(r, k).Num?
      && Get(r, k).num >= Get(s, k).num
      && Get(r, k).num >= v
      && (Get(r, k).num == v || Get(r, k).num == Get(s, k).num)
  {
  }

  /** The initial state satisfies the invariant, has no best candidate and
      two empty series. */
  lemma InitialShape()
    ensures Numeric(Initial)
    ensures Get(Initial, BestCandidate) == Nothing
    ensures forall k :: k != BestCandidate ==> Get(Initial, k) == Num(0.0)
    ensures forall k :: Samples(Initial, k) == []
  {
  }
}
