/** The genetic-algorithm driver as far as it exists: the configuration
    record, the seeding of the initial population, and the per-objective
    accumulation of fitness values over the generations. Selection,
    crossover and mutation inside the generation loop are not written in
    the driver, so the population is never replaced.
 */
module Evolution {
  import opened Results
  import opened Params
  import opened Individuals

  /** `GeneticHistory`: an empty run log, a generation count of zero and an
      empty hall of fame; `evolve` never changes it. */
  datatype History = History(runLog: seq<Value>, nbGenerations: int, hallOfFame: seq<Value>)

  function NewHistory(): (h: History)
    ensures |h.runLog| == 0 && h.nbGenerations == 0 && |h.hallOfFame| == 0
  {
    History([], 0, [])
  }

  /** The configuration `GeneticAlgorithm.__init__` stores. */
  datatype GeneticAlgorithm = GeneticAlgorithm(
    populationSize: int,
    nbGenerations: int,
    mutationSize: int,
    mutationProbability: real,
    crossoverProbability: real,
    verbose: int,
    seed: int,
    history: History)

  /** The result of `evolve`: best solution, best score and history. */
  datatype EvolveOutput = EvolveOutput(bestSolution: Option<seq<Value>>, bestScore: real, history: History)

  /** The largest seed `randint(0, 9999999999)` can return. */
  const MaxSeed: int := 9999999999

  /** `GeneticAlgorithm(...)`: every option is stored as given, except
      `selection_size`, which is accepted and dropped. */
  function NewGeneticAlgorithm(populationSize: int := 50, nbGenerations: int := 20, mutationSize: int := 1,
                               mutationProbability: real := 0.3, crossoverProbability: real := 0.5,
                               selectionSize: int := 20, seed: int := 1234, verbose: int := 0): (ga: GeneticAlgorithm)
    ensures ga.populationSize == populationSize && ga.nbGenerations == nbGenerations
    ensures ga.mutationSize == mutationSize && ga.mutationProbability == mutationProbability
    ensures ga.crossoverProbability == crossoverProbability
    ensures ga.seed == seed && ga.verbose == verbose
    ensures ga.history == NewHistory()
  {
    GeneticAlgorithm(populationSize, nbGenerations, mutationSize, mutationProbability,
                     crossoverProbability, verbose, seed, NewHistory())
  }

  /** The selection size has no effect on the configuration. */
  lemma SelectionSizeNotStored(populationSize: int, nbGenerations: int, mutationSize: int,
                               mutationProbability: real, crossoverProbability: real,
                               s1: int, s2: int, seed: int, verbose: int)
    ensures NewGeneticAlgorithm(populationSize, nbGenerations, mutationSize, mutationProbability,
                                crossoverProbability, s1, seed, verbose)
         == NewGeneticAlgorithm(populationSize, nbGenerations, mutationSize, mutationProbability,
                                crossoverProbability, s2, seed, verbose)
  {
  }

  /** The configuration the constructor test builds is stored as given. */
  lemma ConstructorStoresOptions()
    ensures var ga := NewGeneticAlgorithm(populationSize := 10, nbGenerations := 15, mutationSize := 1, mutationProbability := 0.9);
      && ga.populationSize == 10 && ga.nbGenerations == 15
      && ga.mutationSize == 1 && ga.mutationProbability == 0.9
      && ga.crossoverProbability == 0.5 && ga.seed == 1234
  {
  }

  /** The number of iterations of Python's `range(n)`. */
  function Count(n: int): (c: nat)
    ensures 0 <= n ==> c == n
    ensures n < 0 ==> c == 0
  {
    if n < 0 then 0 else n
  }

  /** Two parameter lists of the same length with the same kinds and value
      ranges: they differ at most in their current values. */
  predicate SameRanges(ps: seq<Param>, qs: seq<Param>) {
    |ps| == |qs| && forall i :: 0 <= i < |ps| ==> ps[i].range == qs[i].range && ps[i].kind == qs[i].kind
  }

  /** `ind` holds, for every parameter, the value at choice index `ks[j]`
      of that parameter's range. */
  predicate ValuesDrawn(params: seq<Param>, ks: seq<nat>, ind: Individual) {
    && |ind.values| == |params| && |ks| == |params|
    && forall j :: 0 <= j < |params| ==>
         HasValues(params[j]) && ks[j] < |params[j].range.value| && ind.values[j] == params[j].range.value[ks[j]]
  }

  /** Legal oracle outcomes for seeding a population of `|seeds|`
      individuals: seeds from `randint(0, 9999999999)` and, per individual,
      one choice index per parameter. */
  predicate ValidSeeding(params: seq<Param>, seeds: seq<int>, choices: seq<seq<nat>>) {
    && |choices| == |seeds|
    && (forall i :: 0 <= i < |seeds| ==> 0 <= seeds[i] <= MaxSeed)
    && (forall i :: 0 <= i < |choices| ==> ValidChoices(params, choices[i]))
  }

  /** What `Individual(parameters, seed)` yields for one seed and one
      choice per parameter: values inside the parameters' ranges, the
      `j`-th at choice index `ks[j]`, the seed stored as drawn, and
      parameters that keep their kinds and ranges. */
  predicate Seeded(params: seq<Param>, seed: int, ks: seq<nat>, ind: Individual) {
    && InDomain(ind) && ind.seed == seed && 0 <= seed <= MaxSeed
    && SameRanges(ind.params, params) && ValuesDrawn(params, ks, ind)
  }

  /** The initial population: one `Individual(parameters, seed)` per seed.
      The parameters are shared, so each individual starts from the
      parameters the previous one's draws left behind. */
  function InitPopulation(params: seq<Param>, seeds: seq<int>, choices: seq<seq<nat>>): (r: Result<seq<Individual>>)
    requires ValidSeeding(params, seeds, choices)
    ensures r.Ok? <==> |seeds| == 0 || AllHaveValues(params)
    ensures r.Ok? ==> |r.value| == |seeds|
    ensures r.Ok? ==> forall i :: 0 <= i < |r.value| ==> Seeded(params, seeds[i], choices[i], r.value[i])
    decreases |seeds|
  {
    if |seeds| == 0 then Ok([])
    else
      match NewIndividual(params, seeds[0], choices[0])
      case Err(e) => Err(e)
      case Ok(ind) =>
        NewIndividualSeeded(params, seeds[0], choices[0]);
        ValidChoicesInherited(params, ind.params, seeds, choices);
        var rest := InitPopulation(ind.params, seeds[1..], choices[1..]);
        InitPopulationStep(params, ind, seeds, choices, rest);
        match rest
        case Err(e) => Err(e)
        case Ok(inds) => Ok([ind] + inds)
  }

  lemma ValidChoicesInherited(params: seq<Param>, qs: seq<Param>, seeds: seq<int>, choices: seq<seq<nat>>)
    requires |seeds| > 0 && ValidSeeding(params, seeds, choices) && SameRanges(qs, params)
    ensures ValidSeeding(qs, seeds[1..], choices[1..])
  {
  }

  /** `Individual(parameters, seed)` succeeds on parameters that all have
      values, and the individual it builds is `Seeded`. */
  lemma NewIndividualSeeded(params: seq<Param>, seed: int, ks: seq<nat>)
    requires ValidChoices(params, ks) && AllHaveValues(params) && 0 <= seed <= MaxSeed
    ensures NewIndividual(params, seed, ks).Ok? && Seeded(params, seed, ks, NewIndividual(params, seed, ks).value)
  {
  }

  /** An individual seeded from parameters with the same kinds and ranges
      as `params` is seeded from `params`. */
  lemma SeededTransfer(params: seq<Param>, qs: seq<Param>, seed: int, ks: seq<nat>, ind: Individual)
    requires SameRanges(qs, params) && Seeded(qs, seed, ks, ind)
    ensures Seeded(params, seed, ks, ind)
  {
  }

  /** The inductive step of `InitPopulation`. */
  lemma InitPopulationStep(params: seq<Param>, ind: Individual, seeds: seq<int>, choices: seq<seq<nat>>,
                           rest: Result<seq<Individual>>)
    requires |seeds| > 0 && |choices| == |seeds|
    requires AllHaveValues(params) && Seeded(params, seeds[0], choices[0], ind)
    requires rest.Ok? <==> |seeds| == 1 || AllHaveValues(ind.params)
    requires rest.Ok? ==> |rest.value| == |seeds| - 1
    requires rest.Ok? ==> forall i :: 0 <= i < |rest.value| ==>
      Seeded(ind.params, seeds[1..][i], choices[1..][i], rest.value[i])
    ensures rest.Ok?
    ensures forall i :: 0 <= i < |[ind] + rest.value| ==> Seeded(params, seeds[i], choices[i], ([ind] + rest.value)[i])
  {
    assert AllHaveValues(ind.params);
    forall i | 0 <= i < |[ind] + rest.value|
      ensures Seeded(params, seeds[i], choices[i], ([ind] + rest.value)[i])
    {
      if i > 0 {
        SeededTransfer(params, ind.params, seeds[i], choices[i], rest.value[i - 1]);
      }
    }
  }

  /** `[[] for _ in range(nb_objectives)]`. */
  function EmptyAccumulator<O>(n: nat): (acc: seq<seq<O>>)
    ensures |acc| == n && forall i :: 0 <= i < n ==> |acc[i]| == 0
  {
    seq(n, i => [])
  }

  /** Appending one fitness result: value `i` goes to list `i`. A result
      longer than the accumulator fails on the first index past its end. */
  function AppendObjectives<O>(acc: seq<seq<O>>, res: seq<O>): (r: Result<seq<seq<O>>>)
    ensures r.Ok? <==> |res| <= |acc|
    ensures r.Err? ==> r.error == ObjectiveIndex(|acc|)
    ensures r.Ok? ==> |r.value| == |acc| && forall i :: 0 <= i < |acc| ==> r.value[i] == acc[i] + Cell(res, i)
  {
    if |acc| < |res| then Err(ObjectiveIndex(|acc|))
    else Ok(seq(|acc|, i requires 0 <= i < |acc| => acc[i] + Cell(res, i)))
  }

  /** The `i`-th objective of a result, when it has one. */
  function Cell<O>(res: seq<O>, i: nat): seq<O> {
    if i < |res| then [res[i]] else []
  }

  /** The fitness results of a population, in population order. */
  function FitnessResults<O>(pop: seq<Individual>, fitness: seq<Value> -> seq<O>): (rs: seq<seq<O>>)
    ensures |rs| == |pop| && forall j :: 0 <= j < |pop| ==> rs[j] == fitness(pop[j].values)
  {
    seq(|pop|, j requires 0 <= j < |pop| => fitness(pop[j].values))
  }

  /** Reference definition: the `i`-th objectives of the results, in order,
      skipping results too short to have one. */
  function Column<O>(results: seq<seq<O>>, i: nat): seq<O>
    decreases |results|
  {
    if |results| == 0 then []
    else Column(results[..|results| - 1], i) + Cell(results[|results| - 1], i)
  }

  /** Every result has at most `n` objectives. */
  predicate FitsIn<O>(results: seq<seq<O>>, n: nat) {
    forall j :: 0 <= j < |results| ==> |results[j]| <= n
  }

  /** One pass of `for ind in current_generation`: the fitness of every
      individual, in population order, appended objective-wise. */
  function EvaluatePopulation<O>(acc: seq<seq<O>>, pop: seq<Individual>, fitness: seq<Value> -> seq<O>): (r: Result<seq<seq<O>>>)
    ensures r.Ok? <==> FitsIn(FitnessResults(pop, fitness), |acc|)
    ensures r.Err? ==> r.error == ObjectiveIndex(|acc|)
    ensures r.Ok? ==> |r.value| == |acc|
    ensures r.Ok? ==> forall i :: 0 <= i < |acc| ==> r.value[i] == acc[i] + Column(FitnessResults(pop, fitness), i)
    decreases |pop|
  {
    if |pop| == 0 then Ok(acc)
    else
      var init := pop[..|pop| - 1];
      assert FitnessResults(pop, fitness)[..|pop| - 1] == FitnessResults(init, fitness);
      match EvaluatePopulation(acc, init, fitness)
      case Err(e) => Err(e)
      case Ok(prev) => AppendObjectives(prev, fitness(pop[|pop| - 1].values))
  }

  /** `s` repeated `g` times. */
  function Repeat<O>(s: seq<O>, g: nat): (r: seq<O>)
    ensures |r| == g * |s|
  {
    if g == 0 then [] else Repeat(s, g - 1) + s
  }

  /** `g` generations of evaluation over the same, never replaced, population. */
  function EvaluateGenerations<O>(acc: seq<seq<O>>, pop: seq<Individual>, fitness: seq<Value> -> seq<O>, g: nat): (r: Result<seq<seq<O>>>)
    ensures r.Ok? <==> g == 0 || FitsIn(FitnessResults(pop, fitness), |acc|)
    ensures r.Err? ==> r.error == ObjectiveIndex(|acc|)
    ensures r.Ok? ==> |r.value| == |acc|
    ensures r.Ok? ==> forall i :: 0 <= i < |acc| ==> r.value[i] == acc[i] + Repeat(Column(FitnessResults(pop, fitness), i), g)
    decreases g
  {
    if g == 0 then
      assert forall i :: 0 <= i < |acc| ==> acc[i] + Repeat(Column(FitnessResults(pop, fitness), i), 0) == acc[i];
      Ok(acc)
    else
      match EvaluateGenerations(acc, pop, fitness, g - 1)
      case Err(e) => Err(e)
      case Ok(prev) =>
        var r := EvaluatePopulation(prev, pop, fitness);
        if r.Ok? then
          RepeatStep(acc, prev, r.value, Columns(pop, fitness, |acc|), g);
          r
        else r
  }

  /** Column `i` of the population's results, for every `i < n`. */
  function Columns<O>(pop: seq<Individual>, fitness: seq<Value> -> seq<O>, n: nat): (cs: seq<seq<O>>)
    ensures |cs| == n && forall i :: 0 <= i < n ==> cs[i] == Column(FitnessResults(pop, fitness), i)
  {
    seq(n, i requires 0 <= i < n => Column(FitnessResults(pop, fitness), i))
  }

  /** The inductive step of `EvaluateGenerations`: one more column appended
      to `g - 1` repetitions gives `g` repetitions. */
  lemma RepeatStep<O>(acc: seq<seq<O>>, prev: seq<seq<O>>, next: seq<seq<O>>, cs: seq<seq<O>>, g: nat)
    requires g > 0 && |prev| == |acc| == |next| == |cs|
    requires forall i :: 0 <= i < |acc| ==> prev[i] == acc[i] + Repeat(cs[i], g - 1)
    requires forall i :: 0 <= i < |acc| ==> next[i] == prev[i] + cs[i]
    ensures forall i :: 0 <= i < |acc| ==> next[i] == acc[i] + Repeat(cs[i], g)
  {
  }

  /** When every result has more than `i` objectives, the `i`-th column
      holds one entry per result. */
  lemma {:induction false} ColumnFull<O>(results: seq<seq<O>>, i: nat)
    requires forall j :: 0 <= j < |results| ==> i < |results[j]|
    ensures |Column(results, i)| == |results|
    decreases |results|
  {
    if |results| > 0 {
      ColumnFull(results[..|results| - 1], i);
    }
  }

  /** When no result reaches objective `i`, its column stays empty. */
  lemma {:induction false} ColumnEmpty<O>(results: seq<seq<O>>, i: nat)
    requires forall j :: 0 <= j < |results| ==> |results[j]| <= i
    ensures Column(results, i) == []
    decreases |results|
  {
    if |results| > 0 {
      ColumnEmpty(results[..|results| - 1], i);
    }
  }

  /** There is no arity check: results shorter than the objective weights
      are accepted, and an objective no result reaches keeps an empty list. */
  lemma ShortResultsLeaveEmptyLists<O>(ga: GeneticAlgorithm, params: seq<Param>, fitness: seq<Value> -> seq<O>,
                                       objectiveWeights: seq<real>, seeds: seq<int>, choices: seq<seq<nat>>, i: nat)
    requires |seeds| == Count(ga.populationSize) && ValidSeeding(params, seeds, choices)
    requires InitPopulation(params, seeds, choices).Ok?
    requires i < |objectiveWeights|
    requires forall j :: 0 <= j < |seeds| ==>
      |fitness(InitPopulation(params, seeds, choices).value[j].values)| <= i
    ensures var r := EvolveFitness(ga, params, fitness, objectiveWeights, seeds, choices);
      r.Ok? && r.value[i] == []
  {
    var pop := InitPopulation(params, seeds, choices).value;
    var results := FitnessResults(pop, fitness);
    var acc: seq<seq<O>> := EmptyAccumulator(|objectiveWeights|);
    assert FitsIn(results, |acc|);
    ColumnEmpty(results, i);
    var r := EvaluateGenerations(acc, pop, fitness, Count(ga.nbGenerations));
    assert acc[i] == [];
    assert r.value[i] == [] + Repeat([], Count(ga.nbGenerations));
  }

  /** The accumulator `evolve` fills: `nb_objectives` empty lists, then
      `nb_generations` evaluations of the initial population. */
  function EvolveFitness<O>(ga: GeneticAlgorithm, params: seq<Param>, fitness: seq<Value> -> seq<O>,
                            objectiveWeights: seq<real>, seeds: seq<int>, choices: seq<seq<nat>>): (r: Result<seq<seq<O>>>)
    requires |seeds| == Count(ga.populationSize) && ValidSeeding(params, seeds, choices)
    ensures InitPopulation(params, seeds, choices).Err? ==> r.Err?
    ensures r.Ok? ==> |r.value| == |objectiveWeights|
  {
    match InitPopulation(params, seeds, choices)
    case Err(e) => Err(e)
    case Ok(pop) =>
      EvaluateGenerations(EmptyAccumulator(|objectiveWeights|), pop, fitness, Count(ga.nbGenerations))
  }

  /** With results of exactly `nb_objectives` values each, every list ends
      with `nb_generations * population_size` entries, the `i`-th objectives
      in population order, once per generation. */
  lemma EvolveFitnessShape<O>(ga: GeneticAlgorithm, params: seq<Param>, fitness: seq<Value> -> seq<O>,
                              objectiveWeights: seq<real>, seeds: seq<int>, choices: seq<seq<nat>>)
    requires |seeds| == Count(ga.populationSize) && ValidSeeding(params, seeds, choices)
    requires InitPopulation(params, seeds, choices).Ok?
    requires forall j :: 0 <= j < |seeds| ==>
      |fitness(InitPopulation(params, seeds, choices).value[j].values)| == |objectiveWeights|
    ensures var r := EvolveFitness(ga, params, fitness, objectiveWeights, seeds, choices);
      && r.Ok? && |r.value| == |objectiveWeights|
      && forall i :: 0 <= i < |objectiveWeights| ==>
           |r.value[i]| == Count(ga.nbGenerations) * Count(ga.populationSize)
           && r.value[i] == Repeat(Column(FitnessResults(InitPopulation(params, seeds, choices).value, fitness), i), Count(ga.nbGenerations))
  {
    var pop := InitPopulation(params, seeds, choices).value;
    var results := FitnessResults(pop, fitness);
    var acc: seq<seq<O>> := EmptyAccumulator(|objectiveWeights|);
    assert FitsIn(results, |acc|);
    var r := EvaluateGenerations(acc, pop, fitness, Count(ga.nbGenerations));
    forall i | 0 <= i < |objectiveWeights|
      ensures |r.value[i]| == Count(ga.nbGenerations) * Count(ga.populationSize)
      ensures r.value[i] == Repeat(Column(results, i), Count(ga.nbGenerations))
    {
      ColumnFull(results, i);
      assert acc[i] == [];
      assert r.value[i] == [] + Repeat(Column(results, i), Count(ga.nbGenerations));
    }
  }

  /** `evolve(parameters, fitness_function, objective_weights)`: seeds the
      population, accumulates the fitness values and returns
      `(None, 0.0, self.history)`. It fails when a parameter has no value to
      draw (with a non-empty population) or when, with at least one
      generation, some result has more values than there are objective
      weights. */
  function Evolve<O>(ga: GeneticAlgorithm, params: seq<Param>, fitness: seq<Value> -> seq<O>,
                     objectiveWeights: seq<real>, seeds: seq<int>, choices: seq<seq<nat>>): (r: Result<EvolveOutput>)
    requires |seeds| == Count(ga.populationSize) && ValidSeeding(params, seeds, choices)
    ensures r.Ok? ==> r.value == EvolveOutput(None, 0.0, ga.history)
    ensures r.Ok? <==>
      && (Count(ga.populationSize) == 0 || AllHaveValues(params))
      && (Count(ga.nbGenerations) == 0 ||
          FitsIn(FitnessResults(InitPopulation(params, seeds, choices).value, fitness), |objectiveWeights|))
  {
    match EvolveFitness(ga, params, fitness, objectiveWeights, seeds, choices)
    case Err(e) => Err(e)
    case Ok(_) => Ok(EvolveOutput(None, 0.0, ga.history))
  }

  /** With zero generations the fitness function is never called: the
      outcome is the same for any two fitness functions. */
  lemma NoGenerationsNoFitnessCalls<O>(ga: GeneticAlgorithm, params: seq<Param>,
                                       f1: seq<Value> -> seq<O>, f2: seq<Value> -> seq<O>,
                                       objectiveWeights: seq<real>, seeds: seq<int>, choices: seq<seq<nat>>)
    requires |seeds| == Count(ga.populationSize) && ValidSeeding(params, seeds, choices)
    requires ga.nbGenerations <= 0
    ensures EvolveFitness(ga, params, f1, objectiveWeights, seeds, choices)
         == EvolveFitness(ga, params, f2, objectiveWeights, seeds, choices)
  {
  }
}
