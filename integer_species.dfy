/**
 * The integer-valued species (esec/species/integer.py): the expansion of
 * bound arguments into per-gene lists, the length and bound checks made
 * before initialisation, the deterministic initialisers (lowest, highest,
 * incrementing) and the delta mutation that clamps each changed gene into
 * its bounds.
 */
module IntegerSpecies {
  import opened Wrappers
  import BinarySpecies

  // ---------------------------------------------------------------------
  // Bounds
  // ---------------------------------------------------------------------

  /** A bound argument: one number for every gene, or a list of per-gene values. */
  datatype Bound = Scalar(v: int) | PerGene(values: seq<int>)

  /**
   * `_convert_bounds`: a number becomes `length` copies of itself; a list
   * shorter than `length` is padded with its last element (an empty one
   * has no last element: IndexError); a longer list is kept as it is.
   */
  function ConvertBounds(src: Bound, length: nat): (r: Option<seq<int>>)
  {
    match src
    case Scalar(v) => Some(seq(length, _ => v))
    case PerGene(values) =>
      if |values| >= length then Some(values)
      else if values == [] then None
      else Some(values + seq(length - |values|, _ => values[|values| - 1]))
  }

  /** The bound gene `i` receives: the number itself, or the list's entry at `i`, or its last entry past the end. */
  function BoundAt(src: Bound, i: nat): int
    requires src.PerGene? ==> src.values != []
  {
    match src
    case Scalar(v) => v
    case PerGene(values) => if i < |values| then values[i] else values[|values| - 1]
  }

  function Max(a: int, b: int): int { if a >= b then a else b }

  /**
   * Converting fails only for an empty list that must be padded; the
   * result covers at least `length` genes (more only when the list was
   * longer) and holds at each position the bound that gene receives.
   */
  lemma ConvertBoundsMeaning(src: Bound, length: nat)
    ensures ConvertBounds(src, length).None? <==> src.PerGene? && src.values == [] && length > 0
    ensures ConvertBounds(src, length).Some? ==>
      var r := ConvertBounds(src, length).value;
      && |r| == (if src.Scalar? then length else Max(length, |src.values|))
      && (src.PerGene? && |src.values| >= length ==> r == src.values)
      && forall i :: 0 <= i < |r| ==> r[i] == BoundAt(src, i)
  {
  }

  // ---------------------------------------------------------------------
  // Initialisation checks
  // ---------------------------------------------------------------------

  /**
   * The `length` argument: absent, a number (used when non-zero), or a
   * dictionary whose `min`, `max` and `exact` entries default to 0.
   */
  datatype LengthArg = Unset | Count(n: int) | Dims(min: Option<int>, max: Option<int>, exact: Option<int>)

  datatype InitError =
    | ShortestNotPositive
    | LongestBelowShortest
    | EmptyBoundList
    | HighestBelowLowest
    | ZeroRange

  function OrZero(x: Option<int>): int { if x.Some? then x.value else 0 }

  /** The genome length range `_init` settles on, or the assertion it fails. */
  function Lengths(length: LengthArg, shortest: int, longest: int): (r: Result<(int, int), InitError>)
  {
    var s := if length.Dims? then OrZero(length.min) else shortest;
    var l := if length.Dims? then OrZero(length.max) else longest;
    var exact := match length
      case Unset => 0
      case Count(n) => n
      case Dims(_, _, e) => OrZero(e);
    var s' := if exact != 0 then exact else s;
    var l' := if exact != 0 then exact else l;
    if s' <= 0 then Err(ShortestNotPositive)
    else if l' < s' then Err(LongestBelowShortest)
    else Ok((s', l'))
  }

  /**
   * Initialisation requires the shortest length to be positive and the
   * longest at least the shortest; a non-zero exact length fixes both.
   */
  lemma LengthsMeaning(length: LengthArg, shortest: int, longest: int)
    ensures var r := Lengths(length, shortest, longest);
      r.Ok? ==> 0 < r.value.0 <= r.value.1
    ensures length == Unset ==>
      (Lengths(length, shortest, longest).Ok? <==> 0 < shortest <= longest)
    ensures length.Count? && length.n != 0 ==>
      (Lengths(length, shortest, longest) == if length.n > 0 then Ok((length.n, length.n)) else Err(ShortestNotPositive))
    ensures length == Unset && shortest <= 0 ==> Lengths(length, shortest, longest) == Err(ShortestNotPositive)
    ensures length == Unset && 0 < shortest && longest < shortest ==> Lengths(length, shortest, longest) == Err(LongestBelowShortest)
  {
  }

  /** Python truth of a bound argument: None, 0 and the empty list are false. */
  predicate Given(b: Option<Bound>)
  {
    match b
    case None => false
    case Some(Scalar(v)) => v != 0
    case Some(PerGene(values)) => values != []
  }

  /** The lengths and per-gene bounds `_init` works from. */
  datatype Plan = Plan(shortest: int, longest: int, lowest: seq<int>, highest: seq<int>, lower: seq<int>, upper: seq<int>)

  /** Every paired `highest`/`lowest` entry is ordered (the pairing stops at the shorter list). */
  predicate Ordered(lowest: seq<int>, highest: seq<int>)
  {
    forall i :: 0 <= i < |lowest| && i < |highest| ==> lowest[i] <= highest[i]
  }

  /**
   * The checks and conversions of `_init` in the source's order: lengths,
   * defaulting of the mutation bounds to the initial bounds, conversion of
   * all four bound arguments, then the ordering of highest over lowest.
   */
  function MakePlan(length: LengthArg, shortest: int, longest: int, lowest: Bound, highest: Bound,
                    lowerBounds: Option<Bound>, upperBounds: Option<Bound>): (r: Result<Plan, InitError>)
  {
    match Lengths(length, shortest, longest)
    case Err(e) => Err(e)
    case Ok(range) =>
      var n := range.1 as nat;
      var lowerArg := if Given(lowerBounds) then lowerBounds.value else lowest;
      var upperArg := if Given(upperBounds) then upperBounds.value else highest;
      var lo := ConvertBounds(lowest, n);
      var hi := ConvertBounds(highest, n);
      var lb := ConvertBounds(lowerArg, n);
      var ub := ConvertBounds(upperArg, n);
      if lo.None? || hi.None? || lb.None? || ub.None? then Err(EmptyBoundList)
      else if !Ordered(lo.value, hi.value) then Err(HighestBelowLowest)
      else Ok(Plan(range.0, range.1, lo.value, hi.value, lb.value, ub.value))
  }

  /** A plan covers the longest genome in every bound list, and orders its initial bounds. */
  lemma PlanShape(length: LengthArg, shortest: int, longest: int, lowest: Bound, highest: Bound,
                  lowerBounds: Option<Bound>, upperBounds: Option<Bound>)
    ensures var r := MakePlan(length, shortest, longest, lowest, highest, lowerBounds, upperBounds);
      r.Ok? ==>
        && 0 < r.value.shortest <= r.value.longest
        && |r.value.lowest| >= r.value.longest && |r.value.highest| >= r.value.longest
        && |r.value.lower| >= r.value.longest && |r.value.upper| >= r.value.longest
        && forall i :: 0 <= i < r.value.longest ==> r.value.lowest[i] <= r.value.highest[i]
    ensures !Given(lowerBounds) && !Given(upperBounds) ==>
      var r := MakePlan(length, shortest, longest, lowest, highest, lowerBounds, upperBounds);
      r.Ok? ==> r.value.lower == r.value.lowest && r.value.upper == r.value.highest
  {
    LengthsMeaning(length, shortest, longest);
    var rng := Lengths(length, shortest, longest);
    if rng.Ok? {
      var n := rng.value.1 as nat;
      ConvertBoundsMeaning(lowest, n);
      ConvertBoundsMeaning(highest, n);
      var lowerArg := if Given(lowerBounds) then lowerBounds.value else lowest;
      var upperArg := if Given(upperBounds) then upperBounds.value else highest;
      ConvertBoundsMeaning(lowerArg, n);
      ConvertBoundsMeaning(upperArg, n);
    }
  }

  // ---------------------------------------------------------------------
  // Deterministic initialisers
  // ---------------------------------------------------------------------

  /** The gene functions of `init_low`, `init_high` and `init_increment`. */
  datatype Generator = Low | High | Increment

  /**
   * The value of gene `i` between `low` and `high`; the incrementing
   * initialiser divides by `high - low`, so equal bounds raise
   * ZeroDivisionError.
   */
  function Gene(g: Generator, low: int, high: int, i: nat): Option<int>
    requires low <= high
  {
    match g
    case Low => Some(low)
    case High => Some(high)
    case Increment => if high == low then None else Some(i % (high - low) + low)
  }

  /** Genes `0 .. length-1` from the per-gene bounds, or None if one cannot be computed. */
  function Genes(g: Generator, lowest: seq<int>, highest: seq<int>, length: nat): Option<seq<int>>
    requires length <= |lowest| && length <= |highest|
    requires forall i :: 0 <= i < length ==> lowest[i] <= highest[i]
  {
    if g == Increment && exists i :: 0 <= i < length && lowest[i] == highest[i] then None
    else Some(seq(length, i requires 0 <= i < length => Gene(g, lowest[i], highest[i], i).value))
  }

  /** An initialised individual: its genome and the bounds mutation respects. */
  datatype Individual = Individual(genome: seq<int>, lower: seq<int>, upper: seq<int>)

  /**
   * One individual from `_init`: the fixed length when the range is a
   * single value, otherwise the length `pick` selects in the range (the
   * source draws it at random).
   */
  function Init(g: Generator, length: LengthArg, shortest: int, longest: int, lowest: Bound, highest: Bound,
                lowerBounds: Option<Bound>, upperBounds: Option<Bound>, pick: nat): (r: Result<Individual, InitError>)
  {
    match MakePlan(length, shortest, longest, lowest, highest, lowerBounds, upperBounds)
    case Err(e) => Err(e)
    case Ok(plan) =>
      PlanShape(length, shortest, longest, lowest, highest, lowerBounds, upperBounds);
      var n := if plan.shortest >= plan.longest then plan.shortest
               else plan.shortest + pick % (plan.longest - plan.shortest + 1);
      match Genes(g, plan.lowest, plan.highest, n)
      case None => Err(ZeroRange)
      case Some(genes) => Ok(Individual(genes, plan.lower, plan.upper))
  }

  /**
   * An initialised genome has a length in the configured range and each
   * gene between its lowest and highest value; the incrementing genome
   * never reaches the highest value.
   */
  lemma InitShape(g: Generator, length: LengthArg, shortest: int, longest: int, lowest: Bound, highest: Bound,
                  lowerBounds: Option<Bound>, upperBounds: Option<Bound>, pick: nat)
    ensures var r := Init(g, length, shortest, longest, lowest, highest, lowerBounds, upperBounds, pick);
      var p := MakePlan(length, shortest, longest, lowest, highest, lowerBounds, upperBounds);
      r.Ok? ==>
        && p.Ok?
        && p.value.shortest <= |r.value.genome| <= p.value.longest
        && |r.value.genome| <= |p.value.lowest| && |r.value.genome| <= |p.value.highest|
        && forall i :: 0 <= i < |r.value.genome| ==>
             p.value.lowest[i] <= r.value.genome[i] <= p.value.highest[i] &&
             (g == Increment ==> r.value.genome[i] < p.value.highest[i])
  {
    PlanShape(length, shortest, longest, lowest, highest, lowerBounds, upperBounds);
  }

  /**
   * With the same bounds everywhere the incrementing genome counts up
   * from `low` one gene at a time and restarts at `low` where the next
   * value would be `high`.
   */
  lemma IncrementCounts(low: int, high: int, i: nat)
    requires low < high
    ensures Gene(Increment, low, high, 0) == Some(low)
    ensures Gene(Increment, low, high, i + 1).value ==
      if Gene(Increment, low, high, i).value + 1 == high then low else Gene(Increment, low, high, i).value + 1
  {
    var d := high - low;
    var q := i / d;
    var r := i % d;
    assert i == q * d + r;
    if r + 1 == d {
      assert i + 1 == (q + 1) * d + 0;
      ModSmall(q + 1, 0, d);
    } else {
      assert i + 1 == q * d + (r + 1);
      ModSmall(q, r + 1, d);
    }
  }

  /** The remainder of `q * d + r` by `d` is `r` when `0 <= r < d`. */
  lemma ModSmall(q: nat, r: nat, d: nat)
    requires d > 0 && r < d
    ensures (q * d + r) % d == r
  {
    var n := q * d + r;
    assert (q + 1) * d == q * d + d;
    BinarySpecies.FloorDiv(n, d, q);
  }

  /** Equal bounds make the incrementing initialiser fail. */
  lemma IncrementNeedsRange(lowest: seq<int>, highest: seq<int>, length: nat, i: nat)
    requires length <= |lowest| && length <= |highest|
    requires forall j :: 0 <= j < length ==> lowest[j] <= highest[j]
    requires i < length && lowest[i] == highest[i]
    ensures Genes(Increment, lowest, highest, length) == None
  {
  }

  // ---------------------------------------------------------------------
  // Delta mutation
  // ---------------------------------------------------------------------

  /** A changed gene is moved to the nearer bound when it leaves `[low, high]`. */
  function Clamp(low: int, high: int, v: int): int
  {
    if v < low then low else if v > high then high else v
  }

  /** Clamping lands inside ordered bounds and leaves a value already inside alone. */
  lemma ClampMeaning(low: int, high: int, v: int)
    requires low <= high
    ensures low <= Clamp(low, high, v) <= high
    ensures low <= v <= high <==> Clamp(low, high, v) == v
    ensures Clamp(low, high, Clamp(low, high, v)) == Clamp(low, high, v)
  {
  }

  /** One mutated gene: its index and whether the step is added (true) or subtracted. */
  datatype Pick = Pick(index: nat, up: bool)

  /**
   * The genes the mutation visits, in the order it visits them: each
   * index at most once, and inside the paired genome and bound lists.
   */
  predicate ValidPicks(picks: seq<Pick>, n: nat)
  {
    && (forall k :: 0 <= k < |picks| ==> picks[k].index < n)
    && (forall k, l :: 0 <= k < l < |picks| ==> picks[k].index != picks[l].index)
  }

  /** The direction of the step gene `i` receives, if it is mutated. */
  function StepFor(picks: seq<Pick>, i: nat): Option<bool>
  {
    if picks == [] then None
    else if picks[0].index == i then Some(picks[0].up)
    else StepFor(picks[1..], i)
  }

  /** The new value of gene `i`. */
  function Mutated(genome: seq<int>, lower: seq<int>, upper: seq<int>, step: int, picks: seq<Pick>, i: nat): int
    requires i < |genome| && i < |lower| && i < |upper|
  {
    match StepFor(picks, i)
    case None => genome[i]
    case Some(up) => Clamp(lower[i], upper[i], if up then genome[i] + step else genome[i] - step)
  }

  function MinLen(genome: seq<int>, lower: seq<int>, upper: seq<int>): nat
  {
    if |genome| <= |lower| && |genome| <= |upper| then |genome|
    else if |lower| <= |upper| then |lower| else |upper|
  }

  /**
   * `mutate_delta` for one selected individual: each visited gene is
   * moved by `step` up or down and clamped into its bounds; the step sum
   * counts `step` once per visited gene. Which genes are visited and in
   * which direction are drawn at random in the source and are given here.
   */
  method MutateDelta(genome: seq<int>, lower: seq<int>, upper: seq<int>, step: int, picks: seq<Pick>)
    returns (genes: seq<int>, stepSum: int)
    requires ValidPicks(picks, MinLen(genome, lower, upper))
    ensures |genes| == |genome|
    ensures forall i :: 0 <= i < MinLen(genome, lower, upper) ==> genes[i] == Mutated(genome, lower, upper, step, picks, i)
    ensures forall i :: MinLen(genome, lower, upper) <= i < |genome| ==> genes[i] == genome[i]
    ensures stepSum == step * |picks|
  {
    genes := genome;
    stepSum := 0;
    var k := 0;
    while k < |picks|
      invariant 0 <= k <= |picks|
      invariant |genes| == |genome|
      invariant stepSum == step * k
      invariant forall i :: 0 <= i < |genome| ==>
        genes[i] == (if i < MinLen(genome, lower, upper) && StepFor(picks[..k], i).Some?
                     then Mutated(genome, lower, upper, step, picks[..k], i) else genome[i])
    {
      var p := picks[k];
      StepForSnoc(picks, k);
      stepSum := stepSum + step;
      var moved := if p.up then genome[p.index] + step else genome[p.index] - step;
      genes := genes[p.index := Clamp(lower[p.index], upper[p.index], moved)];
      k := k + 1;
    }
    assert picks[..k] == picks;
  }

  /** Extending the visited prefix by one pick sets that pick's gene and no other. */
  lemma StepForSnoc(picks: seq<Pick>, k: nat)
    requires k < |picks|
    requires forall a, b :: 0 <= a < b < |picks| ==> picks[a].index != picks[b].index
    ensures StepFor(picks[..k], picks[k].index) == None
    ensures StepFor(picks[..k + 1], picks[k].index) == Some(picks[k].up)
    ensures forall i :: i != picks[k].index ==> StepFor(picks[..k + 1], i) == StepFor(picks[..k], i)
  {
    StepForAppend(picks[..k], picks[k]);
    assert picks[..k + 1] == picks[..k] + [picks[k]];
    StepForAbsent(picks[..k], picks[k].index);
  }

  lemma {:induction false} StepForAppend(ps: seq<Pick>, p: Pick)
    ensures forall i :: StepFor(ps + [p], i) == if StepFor(ps, i).Some? then StepFor(ps, i) else if i == p.index then Some(p.up) else None
  {
    if ps != [] {
      StepForAppend(ps[1..], p);
      assert (ps + [p])[1..] == ps[1..] + [p];
    } else {
      assert ([p])[1..] == [];
    }
  }

  lemma {:induction false} StepForAbsent(ps: seq<Pick>, i: nat)
    requires forall k :: 0 <= k < |ps| ==> ps[k].index != i
    ensures StepFor(ps, i) == None
  {
    if ps != [] {
      StepForAbsent(ps[1..], i);
    }
  }

  /** A gene the mutation does not visit keeps its value. */
  lemma {:induction false} UnvisitedUnchanged(genome: seq<int>, lower: seq<int>, upper: seq<int>, step: int, picks: seq<Pick>, i: nat)
    requires i < |genome| && i < |lower| && i < |upper|
    requires forall k :: 0 <= k < |picks| ==> picks[k].index != i
    ensures Mutated(genome, lower, upper, step, picks, i) == genome[i]
  {
    StepForAbsent(picks, i);
  }

  /**
   * Delta mutation keeps a genome inside its bounds: if every gene starts
   * inside ordered bounds, every gene ends inside them.
   */
  lemma MutationKeepsBounds(genome: seq<int>, lower: seq<int>, upper: seq<int>, step: int, picks: seq<Pick>, i: nat)
    requires i < |genome| && i < |lower| && i < |upper|
    requires lower[i] <= genome[i] <= upper[i]
    ensures lower[i] <= Mutated(genome, lower, upper, step, picks, i) <= upper[i]
  {
    if StepFor(picks, i).Some? {
      ClampMeaning(lower[i], upper[i], if StepFor(picks, i).value then genome[i] + step else genome[i] - step);
    }
  }
}
