/** Individuals: one candidate solution, a list holding one value per
    parameter, in parameter order.

    The Python `Individual` subclasses `list` and keeps a reference to its
    parameter list and its own random stream. Here it is an immutable record
    of the parameters (with the current values their draws left behind), the
    values, and the seed of its stream; the stream itself is replaced by the
    explicit permutation, uniform draws and choice indices its operations take.
 */
module Individuals {
  import opened Results
  import opened Params

  datatype Individual = Individual(params: seq<Param>, values: seq<Value>, seed: int)

  /** The elements of a sequence, as a set. */
  function ToSet<T>(s: seq<T>): set<T> { set x | x in s }

  /** No two positions of `s` hold equal values. */
  predicate Distinct<T(==)>(s: seq<T>) {
    forall i, j :: 0 <= i < j < |s| ==> s[i] != s[j]
  }

  /** A sequence has at most as many distinct elements as positions, and
      exactly as many iff its positions hold pairwise different values. */
  lemma {:induction false} SetSizeMatchesDistinct<T>(s: seq<T>)
    ensures |ToSet(s)| <= |s|
    ensures |ToSet(s)| == |s| <==> Distinct(s)
  {
    if |s| == 0 {
      assert ToSet(s) == {};
    } else {
      var t := s[1..];
      SetSizeMatchesDistinct(t);
      assert ToSet(s) == {s[0]} + ToSet(t);
      if s[0] in t {
        assert ToSet(s) == ToSet(t);
        var j :| 0 <= j < |t| && t[j] == s[0];
        assert s[j + 1] == s[0];
      } else {
        assert s[0] !in ToSet(t);
        if Distinct(t) {
          forall i, j | 0 <= i < j < |s| ensures s[i] != s[j] {
            assert s[j] == t[j - 1];
            if i > 0 { assert s[i] == t[i - 1]; }
          }
        }
        if Distinct(s) {
          forall i, j | 0 <= i < j < |t| ensures t[i] != t[j] {
            assert t[i] == s[i + 1] && t[j] == s[j + 1];
          }
        }
      }
    }
  }

  /** `check_list_has_duplicates(list_obj)`: the list is longer than the set
      of its elements, which is the case exactly when two distinct positions
      hold equal values. */
  function HasDuplicates<T(==)>(s: seq<T>): (b: bool)
    ensures b <==> exists i, j :: 0 <= i < j < |s| && s[i] == s[j]
  {
    SetSizeMatchesDistinct(s);
    |s| != |ToSet(s)|
  }

  /** The documented example: `[1, 2, 3, 4, 2]` has duplicates, and a list
      of distinct values does not. */
  lemma HasDuplicatesExamples()
    ensures HasDuplicates([1, 2, 3, 4, 2])
    ensures !HasDuplicates([1, 2, 3, 4])
  {
    var s := [1, 2, 3, 4, 2];
    assert s[1] == s[4];
  }

  /** A categorical parameter keeps repeated categories: its range may have
      duplicates. */
  lemma CategoriesMayRepeat()
    ensures HasDuplicates(NewCategoricalParam("c", [VStr("a"), VStr("a")]).range.value)
  {
    var s := NewCategoricalParam("c", [VStr("a"), VStr("a")]).range.value;
    assert s[0] == s[1];
  }

  /** `nb_params`: one per parameter; `key_params` never has more keys. */
  function NbParams(ind: Individual): (n: nat)
    ensures n == |ind.params|
    ensures |KeyParams(ind.params)| <= n
  {
    var names := ParamNames(ind);
    SetSizeMatchesDistinct(names);
    assert NamesOf(ind.params) == ToSet(names) by {
      forall x | x in ToSet(names) ensures x in NamesOf(ind.params) {
        var i :| 0 <= i < |names| && names[i] == x;
      }
    }
    |ind.params|
  }

  /** `param_names`: the parameters' names, in parameter order. */
  function ParamNames(ind: Individual): (names: seq<string>)
    ensures |names| == |ind.params|
    ensures forall i :: 0 <= i < |names| ==> names[i] == ind.params[i].name
  {
    seq(|ind.params|, i requires 0 <= i < |ind.params| => ind.params[i].name)
  }

  /** The set of the parameters' names. */
  function NamesOf(ps: seq<Param>): set<string> {
    set i | 0 <= i < |ps| :: ps[i].name
  }

  /** `ps[i]` is the last parameter named `n`. */
  predicate LastNamed(ps: seq<Param>, n: string, i: int) {
    0 <= i < |ps| && ps[i].name == n && forall j :: i < j < |ps| ==> ps[j].name != n
  }

  /** The dictionary comprehension of `key_params`: name to parameter, the
      parameter standing for its bound `current_value` method. A later
      parameter with the same name overwrites an earlier one. */
  function KeyParams(ps: seq<Param>): (m: map<string, Param>)
    ensures m.Keys == NamesOf(ps)
    ensures forall n :: n in m ==> exists i :: LastNamed(ps, n, i) && m[n] == ps[i]
    decreases |ps|
  {
    if |ps| == 0 then map[]
    else
      var init, last := ps[..|ps| - 1], ps[|ps| - 1];
      var m := KeyParams(init)[last.name := last];
      KeyParamsStep(init, last, KeyParams(init));
      assert init + [last] == ps;
      m
  }

  /** The inductive step of `KeyParams`: adding the last parameter to the
      map of the ones before it. */
  lemma KeyParamsStep(init: seq<Param>, last: Param, prev: map<string, Param>)
    requires prev.Keys == NamesOf(init)
    requires forall n :: n in prev ==> exists i :: LastNamed(init, n, i) && prev[n] == init[i]
    ensures var ps, m := init + [last], prev[last.name := last];
      && m.Keys == NamesOf(ps)
      && forall n :: n in m ==> exists i :: LastNamed(ps, n, i) && m[n] == ps[i]
  {
    var ps, m := init + [last], prev[last.name := last];
    forall n | n in NamesOf(ps) ensures n in m {
      var i :| 0 <= i < |ps| && ps[i].name == n;
      if i < |init| { assert init[i].name == n; }
    }
    forall n | n in m ensures n in NamesOf(ps) {
      if n != last.name {
        var i :| 0 <= i < |init| && init[i].name == n;
        assert ps[i].name == n;
      } else {
        assert ps[|ps| - 1].name == n;
      }
    }
    forall n | n in m ensures exists i :: LastNamed(ps, n, i) && m[n] == ps[i] {
      if n == last.name {
        assert LastNamed(ps, n, |ps| - 1);
      } else {
        var i :| LastNamed(init, n, i) && prev[n] == init[i];
        assert LastNamed(ps, n, i);
      }
    }
  }

  /** `key_params` has exactly the parameter names as keys; it has one key
      per parameter iff no two parameters share a name. */
  lemma KeyParamsKeys(ind: Individual)
    ensures KeyParams(ind.params).Keys == ToSet(ParamNames(ind))
    ensures |KeyParams(ind.params).Keys| == NbParams(ind) <==> !HasDuplicates(ParamNames(ind))
  {
    var names := ParamNames(ind);
    assert KeyParams(ind.params).Keys == ToSet(names) by {
      forall n | n in ToSet(names) ensures n in NamesOf(ind.params) {
        var i :| 0 <= i < |names| && names[i] == n;
      }
    }
    SetSizeMatchesDistinct(names);
  }

  /** Every parameter of `ps` has a non-empty value range. */
  predicate AllHaveValues(ps: seq<Param>) {
    forall i :: 0 <= i < |ps| ==> HasValues(ps[i])
  }

  /** `ks[i]` is a legal choice for parameter `i`. */
  predicate ValidChoices(ps: seq<Param>, ks: seq<nat>) {
    |ks| == |ps| && forall i :: 0 <= i < |ps| ==> ValidChoice(ps[i], ks[i])
  }

  /** The individual's shape invariant: one value per parameter, each a
      member of its parameter's range. */
  predicate InDomain(ind: Individual) {
    && |ind.values| == |ind.params|
    && forall i :: 0 <= i < |ind.params| ==>
         HasValues(ind.params[i]) && ind.values[i] in ind.params[i].range.value
  }

  /** Parameter `i` is the first of `ps` whose draw fails. */
  predicate FirstFailure(ps: seq<Param>, i: int) {
    0 <= i < |ps| && !HasValues(ps[i]) && forall j :: 0 <= j < i ==> HasValues(ps[j])
  }

  /** `qs` and `vs` are what drawing `ks[i]` from every `ps[i]` leaves: the
      values chosen and the parameters remembering them. */
  predicate DrawnFrom(ps: seq<Param>, ks: seq<nat>, qs: seq<Param>, vs: seq<Value>)
    requires ValidChoices(ps, ks) && AllHaveValues(ps)
  {
    && |qs| == |ps| && |vs| == |ps|
    && forall i :: 0 <= i < |ps| ==>
         vs[i] == ps[i].range.value[ks[i]] && qs[i] == ps[i].(current := Some(vs[i]))
  }

  /** Calls `get_rand_value()` on each parameter in order, stopping at the
      first that fails; returns the updated parameters and the values. */
  function DrawAll(ps: seq<Param>, ks: seq<nat>): (r: Result<(seq<Param>, seq<Value>)>)
    requires ValidChoices(ps, ks)
    ensures r.Ok? <==> AllHaveValues(ps)
    ensures r.Err? ==> exists i :: FirstFailure(ps, i) && r.error == GetRandValue(ps[i], ks[i]).error
    ensures r.Ok? ==> DrawnFrom(ps, ks, r.value.0, r.value.1)
    decreases |ps|
  {
    if |ps| == 0 then Ok(([], []))
    else
      var d := GetRandValue(ps[0], ks[0]);
      if d.Err? then
        assert FirstFailure(ps, 0);
        Err(d.error)
      else
        var rest := DrawAll(ps[1..], ks[1..]);
        DrawAllStep(ps, ks, d, rest);
        if rest.Err? then Err(rest.error)
        else Ok(([d.value.0] + rest.value.0, [d.value.1] + rest.value.1))
  }

  /** The inductive step of `DrawAll`: a successful first draw followed by
      the draws of the remaining parameters. */
  lemma DrawAllStep(ps: seq<Param>, ks: seq<nat>, d: Result<(Param, Value)>, rest: Result<(seq<Param>, seq<Value>)>)
    requires |ps| > 0 && ValidChoices(ps, ks)
    requires d == GetRandValue(ps[0], ks[0]) && d.Ok?
    requires ValidChoices(ps[1..], ks[1..])
    requires rest.Ok? <==> AllHaveValues(ps[1..])
    requires rest.Err? ==> exists i :: FirstFailure(ps[1..], i) && rest.error == GetRandValue(ps[1..][i], ks[1..][i]).error
    requires rest.Ok? ==> DrawnFrom(ps[1..], ks[1..], rest.value.0, rest.value.1)
    ensures rest.Ok? <==> AllHaveValues(ps)
    ensures rest.Err? ==> exists i :: FirstFailure(ps, i) && rest.error == GetRandValue(ps[i], ks[i]).error
    ensures rest.Ok? ==> DrawnFrom(ps, ks, [d.value.0] + rest.value.0, [d.value.1] + rest.value.1)
  {
  }

  /** `randomise()`: the prior values are discarded and value `i` is drawn
      from parameter `i`, in parameter order. */
  function Randomise(ind: Individual, ks: seq<nat>): (r: Result<Individual>)
    requires ValidChoices(ind.params, ks)
    ensures r.Ok? <==> AllHaveValues(ind.params)
    ensures r.Ok? ==> InDomain(r.value) && r.value.seed == ind.seed
    ensures r.Ok? ==> NbParams(r.value) == NbParams(ind) && ParamNames(r.value) == ParamNames(ind)
    ensures r.Ok? ==> DrawnFrom(ind.params, ks, r.value.params, r.value.values)
  {
    match DrawAll(ind.params, ks)
    case Err(e) => Err(e)
    case Ok(d) => Ok(Individual(d.0, d.1, ind.seed))
  }

  /** `Individual(parameters, seed)`: an empty list, randomised. */
  function NewIndividual(params: seq<Param>, seed: int, ks: seq<nat>): (r: Result<Individual>)
    requires ValidChoices(params, ks)
    ensures r.Ok? <==> AllHaveValues(params)
    ensures r.Ok? ==> InDomain(r.value) && r.value.seed == seed && |r.value.params| == |params|
    ensures r.Ok? ==> forall i :: 0 <= i < |params| ==>
      r.value.params[i].range == params[i].range && r.value.params[i].kind == params[i].kind
    ensures r.Ok? ==> DrawnFrom(params, ks, r.value.params, r.value.values)
    ensures r.Ok? ==> ParamNames(r.value) == ParamNames(Individual(params, [], seed))
  {
    Randomise(Individual(params, [], seed), ks)
  }

  /** `perm` is a shuffle of the positions `0..n-1`: `n` distinct positions. */
  predicate IsPermutation(perm: seq<nat>, n: nat) {
    && |perm| == n
    && (forall i :: 0 <= i < n ==> perm[i] < n)
    && (forall i, j :: 0 <= i < j < n ==> perm[i] != perm[j])
  }

  /** The length of Python's slice `xs[:m]` of a list of length `n`; a
      negative `m` counts from the end. */
  function SliceLength(n: nat, m: int): (r: nat)
    ensures r <= n
    ensures 0 <= m ==> r <= m && (m <= n ==> r == m) && (n <= m ==> r == n)
    ensures m < 0 ==> r == if n + m < 0 then 0 else n + m
  {
    if 0 <= m then (if m < n then m else n)
    else if n + m < 0 then 0 else n + m
  }

  /** The positions where `a` and `b` differ. */
  function ChangedPositions(a: seq<Value>, b: seq<Value>): set<nat> {
    set i: nat | i < |a| && i < |b| && a[i] != b[i]
  }

  /** A subset of a set is no larger than it. */
  lemma {:induction false} SubsetCard<T>(a: set<T>, b: set<T>)
    requires a <= b
    ensures |a| <= |b|
    decreases |b|
  {
    if a != {} {
      var x :| x in a;
      SubsetCard(a - {x}, b - {x});
    }
  }

  /** Position `i` of the mutated parameters and values is as it was in `ind`. */
  predicate Kept(ind: Individual, params: seq<Param>, values: seq<Value>, i: nat)
    requires |params| == |ind.params| && |values| == |ind.values| && i < |params|
  {
    params[i] == ind.params[i] && (i < |values| ==> values[i] == ind.values[i])
  }

  /** Position `i` was redrawn from its parameter with choice index `k`. */
  predicate Redrawn(ind: Individual, params: seq<Param>, values: seq<Value>, i: nat, k: nat)
    requires |params| == |ind.params| && |values| == |ind.values| && i < |params|
  {
    && HasValues(ind.params[i]) && k < |ind.params[i].range.value| && i < |values|
    && values[i] == ind.params[i].range.value[k]
    && params[i] == ind.params[i].(current := Some(values[i]))
  }

  /** What one pass of the mutation loop over the selected positions
      `perm[..sel]` leaves behind. */
  predicate MutatedBy(ind: Individual, prob: real, perm: seq<nat>, draws: seq<real>, ks: seq<nat>,
                      sel: nat, params: seq<Param>, values: seq<Value>)
    requires IsPermutation(perm, |ind.params|) && sel <= |draws| == |ks| <= |ind.params|
  {
    && |params| == |ind.params| && |values| == |ind.values|
    && (forall i :: 0 <= i < |params| ==> params[i].range == ind.params[i].range)
    && (forall i :: 0 <= i < |params| && i !in perm[..sel] ==> Kept(ind, params, values, i))
    && (forall i :: |params| <= i < |values| ==> values[i] == ind.values[i])
    && (forall t :: 0 <= t < sel && prob <= draws[t] ==> Kept(ind, params, values, perm[t]))
    && (forall t :: 0 <= t < sel && draws[t] < prob ==> Redrawn(ind, params, values, perm[t], ks[t]))
  }

  /** One iteration of the mutation loop for a position that is kept. */
  lemma MutatedByKeepStep(ind: Individual, prob: real, perm: seq<nat>, draws: seq<real>, ks: seq<nat>,
                          j: nat, params: seq<Param>, values: seq<Value>)
    requires IsPermutation(perm, |ind.params|) && j < |draws| == |ks| <= |ind.params|
    requires MutatedBy(ind, prob, perm, draws, ks, j, params, values)
    requires prob <= draws[j]
    ensures MutatedBy(ind, prob, perm, draws, ks, j + 1, params, values)
  {
  }

  /** One iteration of the mutation loop for a position that is redrawn. */
  lemma MutatedByRedrawStep(ind: Individual, prob: real, perm: seq<nat>, draws: seq<real>, ks: seq<nat>,
                            j: nat, params: seq<Param>, values: seq<Value>)
    requires IsPermutation(perm, |ind.params|) && j < |draws| == |ks| <= |ind.params|
    requires MutatedBy(ind, prob, perm, draws, ks, j, params, values)
    requires draws[j] < prob
    requires HasValues(ind.params[perm[j]]) && ks[j] < |ind.params[perm[j]].range.value| && perm[j] < |values|
    ensures var i := perm[j];
      var v := ind.params[i].range.value[ks[j]];
      MutatedBy(ind, prob, perm, draws, ks, j + 1, params[i := ind.params[i].(current := Some(v))], values[i := v])
  {
    var i := perm[j];
    assert perm[..j + 1] == perm[..j] + [i];
    assert i !in perm[..j];
    forall t | 0 <= t < j ensures perm[t] != i {}
  }

  /** With a non-positive probability no draw is below it, so nothing changes. */
  lemma MutatedByNothing(ind: Individual, prob: real, perm: seq<nat>, draws: seq<real>, ks: seq<nat>,
                         params: seq<Param>, values: seq<Value>)
    requires IsPermutation(perm, |ind.params|) && |draws| == |ks| <= |ind.params|
    requires forall j :: 0 <= j < |draws| ==> 0.0 <= draws[j] < 1.0
    requires prob <= 0.0
    requires MutatedBy(ind, prob, perm, draws, ks, |draws|, params, values)
    ensures params == ind.params && values == ind.values
  {
    var sel := |draws|;
    forall i | 0 <= i < |params| ensures params[i] == ind.params[i] {
      if i in perm[..sel] {
        var t :| 0 <= t < sel && perm[t] == i;
        assert Kept(ind, params, values, i);
      } else {
        assert Kept(ind, params, values, i);
      }
    }
    forall i | 0 <= i < |values| ensures values[i] == ind.values[i] {
      if i < |params| {
        if i in perm[..sel] {
          var t :| 0 <= t < sel && perm[t] == i;
          assert Kept(ind, params, values, i);
        } else {
          assert Kept(ind, params, values, i);
        }
      }
    }
    assert params == ind.params;
  }

  /** Only selected positions can change, and there are at most `sel` of them. */
  lemma MutatedByChangesAtMost(ind: Individual, prob: real, perm: seq<nat>, draws: seq<real>, ks: seq<nat>,
                               params: seq<Param>, values: seq<Value>)
    requires IsPermutation(perm, |ind.params|) && |draws| == |ks| <= |ind.params|
    requires MutatedBy(ind, prob, perm, draws, ks, |draws|, params, values)
    ensures |ChangedPositions(ind.values, values)| <= |draws|
  {
    var sel := |draws|;
    var changed := ChangedPositions(ind.values, values);
    assert changed <= ToSet(perm[..sel]);
    SubsetCard(changed, ToSet(perm[..sel]));
    SetSizeMatchesDistinct(perm[..sel]);
  }

  /** Mutation keeps an individual inside its parameters' domains. */
  lemma MutatedByInDomain(ind: Individual, prob: real, perm: seq<nat>, draws: seq<real>, ks: seq<nat>,
                          params: seq<Param>, values: seq<Value>)
    requires IsPermutation(perm, |ind.params|) && |draws| == |ks| <= |ind.params|
    requires MutatedBy(ind, prob, perm, draws, ks, |draws|, params, values)
    requires InDomain(ind)
    ensures InDomain(Individual(params, values, ind.seed))
  {
    var sel := |draws|;
    forall i | 0 <= i < |params| ensures HasValues(params[i]) && values[i] in params[i].range.value {
      if i in perm[..sel] {
        var t :| 0 <= t < sel && perm[t] == i;
        if draws[t] < prob {
          assert Redrawn(ind, params, values, i, ks[t]);
        } else {
          assert Kept(ind, params, values, i);
        }
      } else {
        assert Kept(ind, params, values, i);
      }
    }
  }

  /** `mutate(mutation_size, mutation_probability)`. `perm` is the shuffle
      of the position indices; the first `SliceLength(n, mutation_size)`
      of them are selected. For the `j`-th selected position, `draws[j]` is
      its uniform draw in `[0, 1)` and `ks[j]` the choice index used when it
      is redrawn. The defaults are those of the Python method; its
      `mutation_type` argument is ignored there and left out here. The
      Python method returns the individual it changed; this
      one returns the changed individual. */
  /** Each of the first `n` selected positions that its draw redraws has
      values to draw from and a slot in `values` to hold the result. */
  predicate RedrawsFit(ind: Individual, prob: real, perm: seq<nat>, draws: seq<real>, n: nat)
    requires n <= |perm| && n <= |draws| && forall t :: 0 <= t < n ==> perm[t] < |ind.params|
  {
    forall t :: 0 <= t < n && draws[t] < prob ==> HasValues(ind.params[perm[t]]) && perm[t] < |ind.values|
  }

  method Mutate(ind: Individual, perm: seq<nat>, draws: seq<real>, ks: seq<nat>,
                mutationSize: int := 1, mutationProbability: real := 0.5)
    returns (r: Result<Individual>)
    requires IsPermutation(perm, |ind.params|)
    requires |draws| == SliceLength(|ind.params|, mutationSize)
    requires forall j :: 0 <= j < |draws| ==> 0.0 <= draws[j] < 1.0
    requires |ks| == |draws| && forall j :: 0 <= j < |ks| ==> ValidChoice(ind.params[perm[j]], ks[j])
    ensures r.Ok? ==> r.value.seed == ind.seed
    // unselected positions are kept, selected ones are kept or redrawn by their draw
    ensures r.Ok? ==> MutatedBy(ind, mutationProbability, perm, draws, ks, |draws|, r.value.params, r.value.values)
    // it fails exactly when a redrawn position has no value to draw or no slot to hold it
    ensures r.Ok? <==> RedrawsFit(ind, mutationProbability, perm, draws, |draws|)
    ensures mutationProbability <= 0.0 ==> r == Ok(ind)
    ensures r.Ok? && 0 <= mutationSize ==> |ChangedPositions(ind.values, r.value.values)| <= mutationSize
    ensures r.Ok? && InDomain(ind) ==> InDomain(r.value)
  {
    var sel := |draws|;
    var params, values := ind.params, ind.values;
    var j := 0;
    while j < sel
      invariant 0 <= j <= sel
      invariant MutatedBy(ind, mutationProbability, perm, draws, ks, j, params, values)
      invariant RedrawsFit(ind, mutationProbability, perm, draws, j)
    {
      var idx := perm[j];
      assert idx !in perm[..j];
      assert Kept(ind, params, values, idx);
      if draws[j] < mutationProbability {
        var d := GetRandValue(params[idx], ks[j]);
        if d.Err? {
          return Err(d.error);
        }
        if idx >= |values| {
          return Err(ValueIndex(idx));
        }
        MutatedByRedrawStep(ind, mutationProbability, perm, draws, ks, j, params, values);
        params := params[idx := d.value.0];
        values := values[idx := d.value.1];
      } else {
        MutatedByKeepStep(ind, mutationProbability, perm, draws, ks, j, params, values);
      }
      j := j + 1;
    }
    r := Ok(Individual(params, values, ind.seed));
    if mutationProbability <= 0.0 {
      MutatedByNothing(ind, mutationProbability, perm, draws, ks, params, values);
    }
    MutatedByChangesAtMost(ind, mutationProbability, perm, draws, ks, params, values);
    if InDomain(ind) {
      MutatedByInDomain(ind, mutationProbability, perm, draws, ks, params, values);
    }
  }
}
