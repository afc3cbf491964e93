/** Evolutionary parameters: one dimension of the search space each.

    A parameter owns a finite list of legal values (its value range) and
    remembers the last value drawn from it. The Python classes `InputParam`,
    `EvoParam`, `EvoFlagParam`, `EvoIntParam`, `EvoFloatParam` and
    `EvoCategoricalParam` are the constructors of one datatype here, told
    apart by their `Kind`. The parameter's own random stream is replaced by
    an explicit choice index supplied by the caller.
 */
module Params {
  import opened Results

  /** A Python value a parameter can hold. The ranges the library builds
      hold ints; categories and bounds may be ints, floats or strings. */
  datatype Value = VInt(i: int) | VReal(r: real) | VStr(s: string)

  /** Which class built the parameter, with the bounds and step the
      numeric classes store alongside their range. */
  datatype Kind =
    | Input
    | Evo
    | Flag
    | IntKind(minVal: Value, maxVal: Value)
    | FloatKind(minVal: Value, maxVal: Value, step: Value)
    | Categorical

  /** `range` is `None` when no value range was ever given (a bare
      `EvoParam`, or an `InputParam`); `current` is the last value drawn,
      or the value given at construction. */
  datatype Param = Param(name: string, kind: Kind, range: Option<seq<Value>>, current: Option<Value>)

  /** The argument of `set_value_range`: a list, any other single object,
      or `None`. */
  datatype RangeArg = ListArg(items: seq<Value>) | ScalarArg(v: Value) | NoneArg

  /** Python's `range(lo, hi)`, as a list of ints. */
  function PyRange(lo: int, hi: int): (r: seq<Value>)
    ensures |r| == if lo <= hi then hi - lo else 0
    ensures forall i :: 0 <= i < |r| ==> r[i] == VInt(lo + i)
    decreases hi - lo
  {
    if hi <= lo then [] else [VInt(lo)] + PyRange(lo + 1, hi)
  }

  /** `range(lo, hi)` holds exactly the ints `lo <= x < hi`, and nothing else. */
  lemma PyRangeMembers(lo: int, hi: int, v: Value)
    ensures v in PyRange(lo, hi) <==> v.VInt? && lo <= v.i < hi
  {
    if v.VInt? && lo <= v.i < hi {
      assert PyRange(lo, hi)[v.i - lo] == v;
    }
  }

  /** Python's `int(x)` on a float: truncation toward zero. */
  function Trunc(x: real): (r: int)
    ensures 0.0 <= x ==> r as real <= x < r as real + 1.0
    ensures x < 0.0 ==> r as real - 1.0 < x <= r as real
  {
    if 0.0 <= x then x.Floor else -((-x).Floor)
  }

  /** `InputParam(name, param_value)`. */
  function NewInputParam(name: string, paramValue: Option<Value> := None): (p: Param)
    ensures p.name == name && p.kind == Input
    ensures CurrentValue(p) == paramValue
  {
    Param(name, Input, None, paramValue)
  }

  /** `EvoParam(name, value_range)`: no value has been drawn yet. */
  function NewEvoParam(name: string, valueRange: Option<seq<Value>> := None): (p: Param)
    ensures p.name == name && p.kind == Evo
    ensures GetValueRange(p) == valueRange
    ensures CurrentValue(p) == None
  {
    Param(name, Evo, valueRange, None)
  }

  /** `EvoFlagParam(name)`: the range is `[0, 1]`. */
  function NewFlagParam(name: string): (p: Param)
    ensures p.name == name && p.kind == Flag && p.current == None
    ensures p.range == Some([VInt(0), VInt(1)])
    ensures forall v :: v in p.range.value <==> v == VInt(0) || v == VInt(1)
  {
    Param(name, Flag, Some([VInt(0), VInt(1)]), None)
  }

  /** `EvoIntParam(name, min_val, max_val)`: the ascending inclusive list
      `min_val..max_val`, empty when `max_val < min_val`. */
  function NewIntParam(name: string, minVal: int := -100, maxVal: int := 100): (p: Param)
    ensures p.name == name && p.current == None
    ensures p.kind == IntKind(VInt(minVal), VInt(maxVal))
    ensures p.range.Some?
    ensures |p.range.value| == if minVal <= maxVal then maxVal - minVal + 1 else 0
    ensures forall i :: 0 <= i < |p.range.value| ==> p.range.value[i] == VInt(minVal + i)
    ensures forall v :: v in p.range.value <==> v.VInt? && minVal <= v.i <= maxVal
  {
    var r := PyRange(minVal, maxVal + 1);
    forall v ensures v in r <==> v.VInt? && minVal <= v.i <= maxVal {
      PyRangeMembers(minVal, maxVal + 1, v);
    }
    Param(name, IntKind(VInt(minVal), VInt(maxVal)), Some(r), None)
  }

  /** The first value and the exclusive end of a float parameter's range:
      `int(min_val*step)` and `int((max_val+step)*step)`. */
  function FloatRangeStart(minVal: real, step: real): int { Trunc(minVal * step) }
  function FloatRangeEnd(maxVal: real, step: real): int { Trunc((maxVal + step) * step) }

  /** `EvoFloatParam(name, min_val, max_val, step)`. It is first built as an
      integer parameter over `[0, 1]`, then its bounds, step and range are
      overwritten; the range holds the INTEGERS from `int(min_val*step)` up
      to, not including, `int((max_val+step)*step)`. */
  function NewFloatParam(name: string, minVal: real := -100.0, maxVal: real := 100.0, step: real := 0.1): (p: Param)
    ensures p.name == name && p.current == None
    ensures p.kind == FloatKind(VReal(minVal), VReal(maxVal), VReal(step))
    ensures p.range.Some?
    ensures var lo, hi := FloatRangeStart(minVal, step), FloatRangeEnd(maxVal, step);
      && |p.range.value| == (if lo <= hi then hi - lo else 0)
      && (forall i :: 0 <= i < |p.range.value| ==> p.range.value[i] == VInt(lo + i))
      && (forall v :: v in p.range.value <==> v.VInt? && lo <= v.i < hi)
  {
    var base := NewIntParam(name, 0, 1);
    var lo, hi := FloatRangeStart(minVal, step), FloatRangeEnd(maxVal, step);
    forall v ensures v in PyRange(lo, hi) <==> v.VInt? && lo <= v.i < hi {
      PyRangeMembers(lo, hi, v);
    }
    base.(kind := FloatKind(VReal(minVal), VReal(maxVal), VReal(step)), range := Some(PyRange(lo, hi)))
  }

  /** `EvoCategoricalParam(name, categories)`: the categories are the range,
      as given; duplicates and an empty list are accepted. */
  function NewCategoricalParam(name: string, categories: seq<Value>): (p: Param)
    ensures p.name == name && p.kind == Categorical && p.current == None
    ensures GetValueRange(p) == Some(categories)
  {
    Param(name, Categorical, Some(categories), None)
  }

  /** `current_value()`: the value given at construction, or the last
      value drawn (see `CurrentValueUntilDraw`). */
  function CurrentValue(p: Param): (v: Option<Value>)
    ensures v == p.current
  {
    p.current
  }

  /** `get_value_range()`, defined on `EvoParam` and its subclasses: the
      range that draws choose from. */
  function GetValueRange(p: Param): (r: Option<seq<Value>>)
    requires !p.kind.Input?
    ensures r == p.range
    ensures HasValues(p) <==> r.Some? && |r.value| > 0
    ensures r.Some? ==> forall k :: 0 <= k < |r.value| ==>
      GetRandValue(p, k) == Ok((p.(current := Some(r.value[k])), r.value[k]))
  {
    p.range
  }

  /** A draw from `p` can succeed: it is an `EvoParam` whose range is set
      and non-empty. */
  predicate HasValues(p: Param) { !p.kind.Input? && p.range.Some? && |p.range.value| > 0 }

  /** `k` is a legal outcome of `random.choice` on `p`'s range (any `k`
      when the choice fails before picking). */
  predicate ValidChoice(p: Param, k: nat) { !HasValues(p) || k < |p.range.value| }

  /** `get_rand_value()`, with `random.choice` resolved to index `k`. The
      result is the parameter with its current value updated, and the value. */
  function GetRandValue(p: Param, k: nat): (r: Result<(Param, Value)>)
    requires ValidChoice(p, k)
    ensures r.Ok? <==> HasValues(p)
    ensures p.kind.Input? ==> r == Err(NoDraw(p.name))
    ensures !p.kind.Input? && p.range.None? ==> r == Err(NoRange(p.name))
    ensures !p.kind.Input? && p.range.Some? && |p.range.value| == 0 ==> r == Err(EmptyRange(p.name))
    ensures r.Ok? ==> r.value.1 in p.range.value && r.value.1 == p.range.value[k]
    ensures r.Ok? ==> r.value.0 == p.(current := Some(r.value.1))
  {
    if p.kind.Input? then Err(NoDraw(p.name))
    else match p.range
    case None => Err(NoRange(p.name))
    case Some(s) =>
      if |s| == 0 then Err(EmptyRange(p.name))
      else var v := s[k]; Ok((p.(current := Some(v)), v))
  }

  /** Every member of a non-empty range is the outcome of some choice, and
      every outcome is a member: draws are exactly the range. */
  lemma DrawsAreExactlyTheRange(p: Param, v: Value)
    requires HasValues(p)
    ensures v in p.range.value <==>
      exists k: nat :: k < |p.range.value| && GetRandValue(p, k) == Ok((p.(current := Some(v)), v))
  {
    if v in p.range.value {
      var k :| 0 <= k < |p.range.value| && p.range.value[k] == v;
      assert GetRandValue(p, k) == Ok((p.(current := Some(v)), v));
    }
  }

  /** `isinstance(value_range, Iterable)`: lists and strings are iterable;
      ints, floats and `None` are not. */
  predicate IsIterable(arg: RangeArg) {
    arg.ListArg? || (arg.ScalarArg? && arg.v.VStr?)
  }

  /** What `random.choice` sees in an iterable argument: a list's items,
      or a string's one-character strings. */
  function Items(arg: RangeArg): (s: seq<Value>)
    requires IsIterable(arg)
    ensures arg.ListArg? ==> s == arg.items
    ensures arg.ScalarArg? ==> |s| == |arg.v.s| && forall i :: 0 <= i < |s| ==> s[i] == VStr([arg.v.s[i]])
  {
    if arg.ListArg? then arg.items
    else seq(|arg.v.s|, i requires 0 <= i < |arg.v.s| => VStr([arg.v.s[i]]))
  }

  /** `set_value_range(value_range)`, defined on `EvoParam` and its
      subclasses: replaces the range when the argument
      is iterable; otherwise the parameter is left as it was. */
  function SetValueRange(p: Param, arg: RangeArg): (r: Param)
    requires !p.kind.Input?
    ensures r.name == p.name && r.kind == p.kind && r.current == p.current
    ensures IsIterable(arg) ==> GetValueRange(r) == Some(Items(arg))
    ensures !IsIterable(arg) ==> r == p
  {
    if IsIterable(arg) then p.(range := Some(Items(arg))) else p
  }

  /** `current_value()` is the construction value until a draw overwrites
      it; changing the range does not touch it. */
  lemma CurrentValueUntilDraw(name: string, v: Option<Value>, valueRange: Option<seq<Value>>, arg: RangeArg, k: nat)
    ensures CurrentValue(NewInputParam(name, v)) == v
    ensures CurrentValue(SetValueRange(NewEvoParam(name, valueRange), arg)) == None
    ensures var q := SetValueRange(NewEvoParam(name, valueRange), arg);
      HasValues(q) && k < |q.range.value| ==>
        GetRandValue(q, k).Ok? && CurrentValue(GetRandValue(q, k).value.0) == Some(q.range.value[k])
  {
  }

  /** The parameters that carry bounds: `EvoIntParam` and its subclass `EvoFloatParam`. */
  predicate HasBounds(p: Param) { p.kind.IntKind? || p.kind.FloatKind? }

  /** `set_min_value(min_value)`: only the stored lower bound changes. */
  function SetMinValue(p: Param, v: Value): (r: Param)
    requires HasBounds(p)
    ensures HasBounds(r) && r.kind.minVal == v && r.kind.maxVal == p.kind.maxVal
    ensures r.kind.FloatKind? == p.kind.FloatKind?
    ensures r.kind.FloatKind? ==> r.kind.step == p.kind.step
    ensures r.name == p.name && r.range == p.range && r.current == p.current
  {
    match p.kind
    case IntKind(_, hi) => p.(kind := IntKind(v, hi))
    case FloatKind(_, hi, s) => p.(kind := FloatKind(v, hi, s))
  }

  /** `set_max_value(max_value)`: only the stored upper bound changes. */
  function SetMaxValue(p: Param, v: Value): (r: Param)
    requires HasBounds(p)
    ensures HasBounds(r) && r.kind.maxVal == v && r.kind.minVal == p.kind.minVal
    ensures r.kind.FloatKind? == p.kind.FloatKind?
    ensures r.kind.FloatKind? ==> r.kind.step == p.kind.step
    ensures r.name == p.name && r.range == p.range && r.current == p.current
  {
    match p.kind
    case IntKind(lo, _) => p.(kind := IntKind(lo, v))
    case FloatKind(lo, _, s) => p.(kind := FloatKind(lo, v, s))
  }

  /** `set_step_value(step)`, defined on float parameters only: only the
      stored step changes. */
  function SetStepValue(p: Param, v: Value): (r: Param)
    requires p.kind.FloatKind?
    ensures r.kind == p.kind.(step := v)
    ensures r.name == p.name && r.range == p.range && r.current == p.current
  {
    p.(kind := p.kind.(step := v))
  }

  /** The bounds are not used again after construction: widening the upper
      bound of `EvoIntParam(a, 0, 1)` to 5 leaves 5 undrawable. */
  lemma SetMaxValueLeavesRangeStale(k: nat)
    requires k < 2
    ensures var p := SetMaxValue(NewIntParam("a", 0, 1), VInt(5));
      GetRandValue(p, k).Ok? && GetRandValue(p, k).value.1 != VInt(5)
      && !(VInt(5) in p.range.value)
  {
  }

  /** The default integer range is `-100..100`: 201 values. */
  lemma DefaultIntRange()
    ensures var p := NewIntParam("a");
      |p.range.value| == 201 && p.range.value[0] == VInt(-100) && p.range.value[200] == VInt(100)
  {
  }

  /** The float range of `EvoFloatParam(b, 10, 20, 0.5)` is `[5, 6, 7, 8, 9]`:
      integers scaled by the step, none of them inside `[10, 20]`. */
  lemma DemoFloatRange()
    ensures NewFloatParam("b", 10.0, 20.0, 0.5).range == Some([VInt(5), VInt(6), VInt(7), VInt(8), VInt(9)])
  {
    assert FloatRangeStart(10.0, 0.5) == 5;
    assert FloatRangeEnd(20.0, 0.5) == 10;
    var r := PyRange(5, 10);
    assert |r| == 5 && r[0] == VInt(5) && r[1] == VInt(6) && r[2] == VInt(7) && r[3] == VInt(8) && r[4] == VInt(9);
    assert r == [VInt(5), VInt(6), VInt(7), VInt(8), VInt(9)];
  }

  /** The default float range `(-100, 100, 0.1)` is the integers `-10..9`. */
  lemma DefaultFloatRange()
    ensures NewFloatParam("b").range == Some(PyRange(-10, 10))
  {
    assert FloatRangeStart(-100.0, 0.1) == -10;
    assert FloatRangeEnd(100.0, 0.1) == 10;
  }
}
