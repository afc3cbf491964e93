# libevolve core, modelled in Dafny

This project models the working core of `libevolve`, an early genetic-algorithm
library. It covers three parts:

- **Parameters** (`libevolve/common/_base.py`). Each parameter kind builds a finite
  list of legal values: integer, flag, categorical and "float". A parameter draws a
  value from that list and remembers the last draw as its current value.
- **Individuals** (`libevolve/common/go.py`). An individual is a list of one value per
  parameter. It can be randomised and mutated. The file also holds a duplicate test
  for lists.
- **The evolution driver** (`libevolve/ga/_base.py`). This covers the stored
  configuration, the seeding of the initial population, and the per-objective
  accumulation of fitness values over the generations.

Everything is immutable data and pure functions, except `Mutate`. It is a method
whose loop mirrors the source's `for` loop.

Randomness is passed in as explicit oracle arguments:

- `random.choice` on a range is a choice index `k`.
- `random.shuffle` of the position indices is a permutation `perm` of `0..n-1`.
- `random.random()` is a draw in `[0, 1)`.
- `randint(0, 9999999999)` is a seed in that interval.

The fitness function is an opaque total function from an individual's value
sequence to a sequence of objective values of any type `O`. Python exceptions
are `Err` values of `Results.Result`.

Modules:

- `Results` (`results.dfy`): `Option`, `Result` and the error kinds.
- `Params` (`params.dfy`): `libevolve/common/_base.py`.
- `Individuals` (`individual.dfy`): `libevolve/common/go.py`.
- `Evolution` (`evolution.dfy`): `libevolve/ga/_base.py`.

Points where the code differs from its documentation. The model follows the code.

- `EvoFloatParam`'s range is not the values from `min_val` to `max_val` at `step`.
  It holds the integers from `int(min_val*step)` up to, but not including,
  `int((max_val+step)*step)`. So `(10, 20, 0.5)` gives `[5, 6, 7, 8, 9]`, and the
  default `(-100, 100, 0.1)` gives `-10..9`.
- Parameters do not reject empty or duplicate categories, and they do not reject
  `max < min`.
- `evolve` does not select, cross over or mutate, and it does not check fitness
  arity. It returns `(None, 0.0, history)` with the history untouched.
- The bound setters never rebuild the range.

## Model

| member | source | states |
|---|---|---|
| Params.PyRange | libevolve/common/_base.py:135 | `range(lo, hi)` has `max(0, hi-lo)` elements; element `i` is `lo + i` |
| Params.PyRangeMembers | libevolve/common/_base.py:135 | a value is in `range(lo, hi)` iff it is an int with `lo <= x < hi` |
| Params.Trunc | libevolve/common/_base.py:200 | `int(x)` on a float truncates toward zero: within one unit of `x`, on the side of zero |
| Params.NewInputParam | libevolve/common/_base.py:23-45 | `current_value()` returns the value given at construction, `None` by default |
| Params.NewEvoParam | libevolve/common/_base.py:52-68 | a new parameter is an `EvoParam` with the given name and range (default `None`) and no current value |
| Params.NewFlagParam | libevolve/common/_base.py:105-114 | the range is exactly `[0, 1]`, in that order, so its members are 0 and 1 |
| Params.NewIntParam | libevolve/common/_base.py:121-137 | the range is the ascending inclusive list `min..max`, of length `max-min+1`, empty when `max < min`; its members are exactly those ints |
| Params.NewFloatParam | libevolve/common/_base.py:182-202 | the range is the contiguous ints from `int(min*step)` up to, not including, `int((max+step)*step)`; bounds and step are stored |
| Params.NewCategoricalParam | libevolve/common/_base.py:229-240 | the range is the categories list as given, duplicates included |
| Params.CurrentValue | libevolve/common/_base.py:37-45 | `current_value()` returns the stored value: the construction value or the last draw |
| Params.GetValueRange | libevolve/common/_base.py:81-89 | `get_value_range()`, which exists on `EvoParam` and its subclasses only, returns the range the draws choose from: drawing index `k` yields its `k`-th element; a draw can succeed iff it is non-empty |
| Params.GetRandValue | libevolve/common/_base.py:70-79 | a draw fails on an `InputParam`, which has no such method (`AttributeError`), on a missing range (`TypeError`) or on an empty one (`IndexError`), and succeeds otherwise; the value is the chosen range element, and the parameter's current value becomes that element |
| Params.DrawsAreExactlyTheRange | libevolve/common/_base.py:78-79 | for a non-empty range, a value can be drawn iff it is a member of the range |
| Params.Items | libevolve/common/_base.py:97-98 | a list used as a range is taken as given; a string used as a range is seen as its one-character strings |
| Params.SetValueRange | libevolve/common/_base.py:91-98 | defined on `EvoParam` and its subclasses only; an iterable argument replaces the range, a list by itself and a string by its characters; a non-iterable one leaves the parameter unchanged; the name, kind and current value are kept |
| Params.CurrentValueUntilDraw | libevolve/common/_base.py:35-45 | an `InputParam`'s current value is its construction value; an `EvoParam`'s is `None` until a draw replaces it with the drawn element, and setting the range does not change it |
| Params.SetMinValue | libevolve/common/_base.py:158-165 | only the stored lower bound changes; the range and the current value are untouched |
| Params.SetMaxValue | libevolve/common/_base.py:139-146 | only the stored upper bound changes; the range and the current value are untouched |
| Params.SetStepValue | libevolve/common/_base.py:204-212 | only the stored step changes; the range and the current value are untouched |
| Params.SetMaxValueLeavesRangeStale | libevolve/common/_base.py:146 | after widening an int parameter's maximum, the new maximum still cannot be drawn |
| Params.DefaultIntRange | libevolve/common/_base.py:121 | the default int range is `-100..100`, 201 values |
| Params.DemoFloatRange | libevolve/common/_base.py:200 | `EvoFloatParam(b, 10, 20, 0.5)` has the range `[5, 6, 7, 8, 9]` |
| Params.DefaultFloatRange | libevolve/common/_base.py:182-200 | the default float range `(-100, 100, 0.1)` is the ints `-10..9` |
| Individuals.SetSizeMatchesDistinct | libevolve/common/go.py:49 | a list has at most as many distinct elements as positions, and exactly as many iff no two positions hold equal values |
| Individuals.HasDuplicates | libevolve/common/go.py:30-49 | `check_list_has_duplicates` is true iff two distinct positions hold equal values |
| Individuals.HasDuplicatesExamples | libevolve/common/go.py:45-47 | `[1,2,3,4,2]` has duplicates; `[1,2,3,4]` has none |
| Individuals.CategoriesMayRepeat | libevolve/common/_base.py:239 | a categorical range with a repeated category is accepted as is |
| Individuals.NbParams | libevolve/common/go.py:114-131 | `nb_params` is the number of parameters, and `key_params` has at most that many keys |
| Individuals.ParamNames | libevolve/common/go.py:96-112 | `param_names` has one name per parameter, in parameter order |
| Individuals.KeyParams | libevolve/common/go.py:77-93 | the keys of `key_params` are exactly the parameter names; each key maps to the last parameter with that name |
| Individuals.KeyParamsKeys | libevolve/common/go.py:93-131 | the keys are the set of `param_names`; there are `nb_params` keys iff the names have no duplicates |
| Individuals.DrawAll | libevolve/common/go.py:144-146 | the parameters are drawn in order; the draw fails iff some parameter has no value, with the error of the first such parameter; otherwise value `i` is the chosen element of range `i` |
| Individuals.Randomise | libevolve/common/go.py:133-146 | after `randomise`, there are exactly `nb_params` values, value `i` comes from parameter `i`'s range, and earlier contents are discarded; names and seed are kept |
| Individuals.NewIndividual | libevolve/common/go.py:56-74 | a new individual is randomised: value `i` is the chosen element of parameter `i`'s range, in domain, with its seed, with the same names, kinds and ranges |
| Individuals.SliceLength | libevolve/common/go.py:175 | the slice `[:m]` of `n` indices keeps `m` of them when `0 <= m <= n`, all `n` when `m >= n`, and counts from the end for `m < 0` |
| Individuals.Mutate | libevolve/common/go.py:148-179 | with defaults `mutation_size = 1` and `mutation_probability = 0.5`, only the first `SliceLength(n, mutation_size)` shuffled positions can change; such a position is redrawn iff its uniform draw is below `mutation_probability`; the result fails iff a redrawn position has no value or no slot; a probability `<= 0` gives the identity; at most `mutation_size` positions change; the domain invariant and the ranges are kept |
| Evolution.NewHistory | libevolve/ga/util.py:20-27 | a new history has an empty run log, zero generations and an empty hall of fame |
| Evolution.NewGeneticAlgorithm | libevolve/ga/_base.py:12-60 | `population_size`, `nb_generations`, `mutation_size`, `mutation_probability`, `crossover_probability`, `seed` and `verbose` are stored as given; the history starts empty |
| Evolution.SelectionSizeNotStored | libevolve/ga/_base.py:18-52 | the configuration is the same whatever `selection_size` is given: it is not stored |
| Evolution.ConstructorStoresOptions | libevolve/ga/_base.py:48-52 | `GeneticAlgorithm(10, 15, 1, 0.9)` stores those four options, and the defaults for the rest |
| Evolution.InitPopulation | libevolve/ga/_base.py:142-144 | the initial population has one individual per seed, `population_size` of them; each has one in-domain value per parameter, the `j`-th being the element of parameter `j`'s range at that individual's `j`-th choice index, and a seed in `[0, 9999999999]`; it fails iff the population is non-empty and some parameter has no value |
| Evolution.EmptyAccumulator | libevolve/ga/_base.py:147 | the accumulator starts as exactly `len(objective_weights)` empty lists |
| Evolution.AppendObjectives | libevolve/ga/_base.py:152-153 | value `i` of a result is appended to list `i`; a result longer than the accumulator fails with an index error |
| Evolution.EvaluatePopulation | libevolve/ga/_base.py:150-153 | one pass over the population appends, to list `i`, the `i`-th objectives of the results in population order; it fails iff some result is too long |
| Evolution.EvaluateGenerations | libevolve/ga/_base.py:149-153 | after `g` generations over the same population, list `i` has gained the `i`-th column `g` times; zero generations leave the accumulator as it was |
| Evolution.ColumnFull | libevolve/ga/_base.py:152-153 | when every result has an `i`-th objective, column `i` has one entry per individual |
| Evolution.ColumnEmpty | libevolve/ga/_base.py:152-153 | when no result has an `i`-th objective, column `i` is empty |
| Evolution.EvolveFitness | libevolve/ga/_base.py:142-153 | the accumulator has `len(objective_weights)` lists, and it fails whenever seeding the population fails |
| Evolution.EvolveFitnessShape | libevolve/ga/_base.py:146-153 | with results of exactly `nb_objectives` values, each list ends with `nb_generations * population_size` entries: its column, repeated once per generation |
| Evolution.ShortResultsLeaveEmptyLists | libevolve/ga/_base.py:152-153 | a shorter result is accepted; an objective that no result reaches keeps an empty list |
| Evolution.Evolve | libevolve/ga/_base.py:102-161 | `evolve` returns `(None, 0.0, history)` with the history unchanged; it fails iff seeding fails or, with at least one generation, some result is longer than the objective weights |
| Evolution.NoGenerationsNoFitnessCalls | libevolve/ga/_base.py:149 | with zero generations the outcome does not depend on the fitness function |

## Left out

- Random streams and seed reproducibility: Mersenne Twister is replaced by oracle arguments. So which values a given seed yields, and how seeds are derived from the driver's stream, are not modelled. Parameters do not carry their seed; individuals do.
- Floating point: `EvoFloatParam` bounds and step are exact reals, and `int()` is truncation toward zero. This matches Python only when the products are exactly representable, as `0.5` is; the default `0.1` is one case where they are not.
- Values of `key_params`: Python maps each name to the bound method `current_value`, not to a value. The model maps each name to the parameter. The fitness function is modelled as a function of the individual's value sequence.
- Shared parameter objects: a draw returns the updated parameter. Parameters are threaded through the population, but aliasing between individuals and between positions of one list is not modelled.
- Partial state after an exception is not modelled. One example: values already appended when `randomise` fails. Errors end the operation.
- `set_value_range`: the only iterables modelled are lists and strings. Tuples, sets, dicts and generators are not.
- The getters `get_min_value`, `get_max_value` and `get_step_value` are not separate members. They are reads of the `Kind` fields.
- The `type` and `val_type` attributes are not modelled. They are set but never read.
- `validate_input_param` is not modelled: it is a runtime `isinstance` test.
- `normalise` is not modelled: it is floating-point division that nothing calls.
- `GeneticHistory` is an empty record that `evolve` returns unchanged.
- `verbose` is stored but has no behaviour.
- `_crossover` and `natural_selection` are abstract methods with no body, and the selection, crossover and mutation steps of the loop are empty comments. None of them is modelled.
- `mutation_type` is accepted by `mutate` and ignored.
- HasDuplicates: uses Dafny's structural equality on values, not Python's `==` and hashing. So `[1, 1.0]` and `[1, True]`, which Python reports as having duplicates, are duplicate-free here. The `TypeError` Python raises for a list of unhashable elements, such as lists, is not modelled.
- Mutate: the Python method returns the same object it changed. The model returns the changed individual as a new value.
