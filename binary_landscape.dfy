/**
 * Integer-valued binary benchmark landscapes (esec/landscape/binary.py):
 * bit-list conversion, OneMax, Royal Road, Goldberg's deceptive 3-bit
 * function, CNF-SAT stepwise adaptation of weights, the error-correcting
 * code design problem and multiple-task tardiness (MTTP).
 */
module BinaryLandscape {
  import opened Wrappers
  import opened Slices
  import opened BinaryIntMapping

  // ---------------------------------------------------------------------
  // inttobinlist
  // ---------------------------------------------------------------------

  /** Python's `n >> y`: an arithmetic shift, i.e. halving (rounding down) y times. */
  function ShiftRight(n: int, y: nat): int
    decreases y
  {
    if y == 0 then n else ShiftRight(n / 2, y - 1)
  }

  /** `inttobinlist(n, count)`: bit y of n for y = count-1 down to 0. */
  function IntToBinList(n: int, count: nat): (r: seq<Bit>)
    ensures |r| == count
  {
    if count == 0 then [] else [ShiftRight(n, count - 1) % 2] + IntToBinList(n, count - 1)
  }

  /** The lowest bit comes last, after the bits of n halved. */
  lemma {:induction false} IntToBinListSnoc(n: int, count: nat)
    requires count > 0
    ensures IntToBinList(n, count) == IntToBinList(n / 2, count - 1) + [n % 2]
  {
    if count > 1 {
      IntToBinListSnoc(n, count - 1);
    }
  }

  lemma ModUnique(n: int, m: int, q: int, r: int)
    requires m > 0 && n == q * m + r && 0 <= r < m
    ensures n % m == r && n / m == q
  {
    var d, e := n / m, n % m;
    assert n == d * m + e && 0 <= e < m;
    MulLeInt(d + 1, q, m);
    MulLeInt(q + 1, d, m);
  }

  lemma MulLeInt(a: int, b: int, c: nat)
    ensures a <= b ==> a * c <= b * c
  {
    assert b * c - a * c == (b - a) * c;
  }

  /** n mod 2p splits into the low bit and (n / 2) mod p. */
  lemma ModDouble(n: int, p: int)
    requires p > 0
    ensures n % (2 * p) == n % 2 + 2 * ((n / 2) % p)
  {
    var q, b := n / 2, n % 2;
    var hi, lo := q / p, q % p;
    assert n == (hi * (2 * p)) + (2 * lo + b) by {
      assert n == 2 * q + b;
      assert q == hi * p + lo;
    }
    ModUnique(n, 2 * p, hi, 2 * lo + b);
  }

  /** Reading the bits back as unsigned binary gives n modulo 2^count. */
  lemma {:induction false} IntToBinListValue(n: int, count: nat)
    ensures OnesComplement(IntToBinList(n, count)) == n % Pow2(count)
    decreases count
  {
    if count > 0 {
      var r := IntToBinList(n, count);
      IntToBinListSnoc(n, count);
      IntToBinListValue(n / 2, count - 1);
      assert r[..count - 1] == IntToBinList(n / 2, count - 1);
      ModDouble(n, Pow2(count - 1));
    }
  }

  /** Converting an unsigned block's value back to a bit list of the same length gives the block. */
  lemma {:induction false} IntToBinListOfValue(block: seq<Bit>)
    ensures IntToBinList(OnesComplement(block), |block|) == block
  {
    if block != [] {
      var n, init, last := |block|, block[..|block| - 1], block[|block| - 1];
      var v := OnesComplement(block);
      assert v == last + 2 * OnesComplement(init);
      IntToBinListSnoc(v, n);
      assert v / 2 == OnesComplement(init) && v % 2 == last;
      IntToBinListOfValue(init);
      assert init + [last] == block;
    }
  }

  /** The test's examples. */
  lemma IntToBinListExamples()
    ensures IntToBinList(1, 4) == [0, 0, 0, 1]
    ensures IntToBinList(15, 8) == [0, 0, 0, 0, 1, 1, 1, 1]
  {
  }

  // ---------------------------------------------------------------------
  // OneMax
  // ---------------------------------------------------------------------

  /** OneMax fitness: the sum of the genes, i.e. the number of ones. */
  function OneMax(indiv: seq<Bit>): (r: int)
    ensures r == multiset(indiv)[1]
    ensures 0 <= r <= |indiv|
  {
    if indiv == [] then 0
    else
      assert indiv == [indiv[0]] + indiv[1..];
      indiv[0] + OneMax(indiv[1..])
  }

  /** OneMax counts what the species' count mapping counts. */
  lemma {:induction false} OneMaxIsCountOnes(indiv: seq<Bit>)
    ensures OneMax(indiv) == CountOnes(indiv)
  {
    if indiv != [] {
      OneMaxIsCountOnes(indiv[1..]);
    }
  }

  // ---------------------------------------------------------------------
  // Royal Road
  // ---------------------------------------------------------------------

  /** Whether block k (genes [k*C, k*C + C), clamped to the genome) sums to C. */
  predicate FullBlock(indiv: seq<Bit>, c: nat, k: nat)
  {
    Sum(Slice(indiv, k * c, k * c + c)) == c
  }

  /** Royal Road fitness of the first `k` blocks: C for each block that sums to C. */
  function RoyalRoadTotal(indiv: seq<Bit>, c: nat, k: nat): int
  {
    if k == 0 then 0
    else RoyalRoadTotal(indiv, c, k - 1) + (if FullBlock(indiv, c, k - 1) then c else 0)
  }

  /**
   * Royal Road evaluation with Q blocks of C genes: the loop visits
   * i = 0, C, 2C, ... below Q*C. A block size of 0 is a zero range step,
   * which Python rejects.
   */
  method RoyalRoad(indiv: seq<Bit>, q: nat, c: nat) returns (r: Option<int>)
    ensures c == 0 <==> r.None?
    ensures r.Some? ==> r.value == RoyalRoadTotal(indiv, c, q)
  {
    if c == 0 {
      return None;
    }
    var total := 0;
    var k := 0;
    while k < q
      invariant k <= q
      invariant total == RoyalRoadTotal(indiv, c, k)
    {
      var i := k * c;
      if Sum(Slice(indiv, i, i + c)) == c {
        total := total + c;
      }
      k := k + 1;
    }
    return Some(total);
  }

  /** The sum of a bit block equals its count of ones. */
  lemma {:induction false} SumIsCount(s: seq<Bit>)
    ensures Sum(s) == CountOnes(s)
  {
    if s != [] {
      SumIsCount(s[1..]);
    }
  }

  /**
   * A block scores exactly when all C of its genes exist and are 1; so the
   * total is a multiple of C between 0 and Q*C.
   */
  lemma FullBlockMeaning(indiv: seq<Bit>, c: nat, k: nat)
    requires c > 0
    ensures FullBlock(indiv, c, k) <==>
      k * c + c <= |indiv| && forall i :: k * c <= i < k * c + c ==> indiv[i] == 1
  {
    var b := Slice(indiv, k * c, k * c + c);
    SumIsCount(b);
    CountOnesExtremes(b);
    if k * c + c <= |indiv| {
      assert b == indiv[k * c..k * c + c];
      if FullBlock(indiv, c, k) {
        forall i | k * c <= i < k * c + c ensures indiv[i] == 1 {
          assert b[i - k * c] == indiv[i];
        }
      }
    }
  }

  /** How many of the first `k` blocks are full. */
  function FullCount(indiv: seq<Bit>, c: nat, k: nat): (n: nat)
    ensures n <= k
  {
    if k == 0 then 0 else FullCount(indiv, c, k - 1) + (if FullBlock(indiv, c, k - 1) then 1 else 0)
  }

  /** The Royal Road fitness is C times the number of full blocks, so it lies in [0, Q*C]. */
  lemma {:induction false} RoyalRoadCountsFullBlocks(indiv: seq<Bit>, c: nat, q: nat)
    ensures RoyalRoadTotal(indiv, c, q) == c * FullCount(indiv, c, q)
    ensures 0 <= RoyalRoadTotal(indiv, c, q) <= q * c
  {
    if q > 0 {
      RoyalRoadCountsFullBlocks(indiv, c, q - 1);
      var n := FullCount(indiv, c, q - 1);
      if FullBlock(indiv, c, q - 1) {
        MulSucc(c, n);
      }
    }
    MulWithin(c, FullCount(indiv, c, q), q);
  }

  lemma MulSucc(c: nat, n: nat)
    ensures c * (n + 1) == c * n + c
  {
  }

  /** A count of at most q blocks of c genes scores between 0 and q * c. */
  lemma MulWithin(c: nat, n: nat, q: nat)
    requires n <= q
    ensures 0 <= c * n <= q * c
  {
    MulLeInt(n, q, c);
  }

  // ---------------------------------------------------------------------
  // Goldberg's deceptive 3-bit function
  // ---------------------------------------------------------------------

  /** The maximisation table of the deceptive order-3 problem. */
  function D3BValue(b0: Bit, b1: Bit, b2: Bit): (v: nat)
  {
    match (b0, b1, b2)
    case (0, 0, 0) => 7
    case (0, 0, 1) => 5
    case (0, 1, 0) => 5
    case (0, 1, 1) => 0
    case (1, 0, 0) => 3
    case (1, 0, 1) => 0
    case (1, 1, 0) => 0
    case (1, 1, 1) => 8
  }

  /** Only 111 scores the top value 8; every other segment scores at most 7. */
  lemma D3BTable(b0: Bit, b1: Bit, b2: Bit)
    ensures D3BValue(b0, b1, b2) <= 8
    ensures D3BValue(b0, b1, b2) == 8 <==> b0 == 1 && b1 == 1 && b2 == 1
  {
  }

  /**
   * The deceptive function over the first `k` 3-bit segments. A segment
   * that is cut short by the end of the genome is not a table key (None).
   */
  function D3BTotal(indiv: seq<Bit>, k: nat): (r: Option<nat>)
    ensures r.Some? <==> 3 * k <= |indiv|
  {
    if k == 0 then Some(0)
    else
      var seg := Slice(indiv, 3 * (k - 1), 3 * (k - 1) + 3);
      match D3BTotal(indiv, k - 1)
      case None => None
      case Some(t) => if |seg| == 3 then Some(t + D3BValue(seg[0], seg[1], seg[2])) else None
  }

  /** Evaluates N segments: `total += max_x[tuple(indiv[i:i+3])]` for i = 0, 3, ... below 3N. */
  method GoldbergD3B(indiv: seq<Bit>, n: nat) returns (r: Option<nat>)
    ensures r == D3BTotal(indiv, n)
  {
    var total := 0;
    var k := 0;
    while k < n
      invariant k <= n
      invariant D3BTotal(indiv, k) == Some(total)
    {
      var seg := Slice(indiv, 3 * k, 3 * k + 3);
      if |seg| != 3 {
        NoneStaysNone(indiv, k + 1, n);
        return None;
      }
      total := total + D3BValue(seg[0], seg[1], seg[2]);
      k := k + 1;
    }
    return Some(total);
  }

  lemma {:induction false} NoneStaysNone(indiv: seq<Bit>, k: nat, n: nat)
    requires k <= n && D3BTotal(indiv, k).None?
    ensures D3BTotal(indiv, n).None?
  {
  }

  /** The result is at most 8N, and exactly 8N when every segment is 111. */
  lemma {:induction false} D3BMaximum(indiv: seq<Bit>, k: nat)
    requires 3 * k <= |indiv|
    ensures D3BTotal(indiv, k).value <= 8 * k
    ensures D3BTotal(indiv, k).value == 8 * k <==> forall i :: 0 <= i < 3 * k ==> indiv[i] == 1
  {
    if k > 0 {
      D3BMaximum(indiv, k - 1);
      var j := 3 * (k - 1);
      var seg := Slice(indiv, j, j + 3);
      assert seg == indiv[j..j + 3];
      D3BTable(seg[0], seg[1], seg[2]);
      if D3BTotal(indiv, k).value == 8 * k {
        forall i | 0 <= i < 3 * k ensures indiv[i] == 1 {
          if i >= j {
            assert seg[i - j] == indiv[i];
          }
        }
      }
    }
  }

  // ---------------------------------------------------------------------
  // CNF-SAT with stepwise adaptation of weights
  // ---------------------------------------------------------------------

  /** A literal k names variable |k| (1-based); negative means negated. */
  predicate LiteralInRange(lit: int, vars: nat)
  {
    1 <= lit <= vars || 1 <= -lit <= vars
  }

  predicate ClauseInRange(clause: seq<int>, vars: nat)
  {
    forall k :: 0 <= k < |clause| ==> LiteralInRange(clause[k], vars)
  }

  /** Literal k holds when k > 0 and gene k-1 is set, or k < 0 and gene -k-1 is clear. */
  predicate LiteralHolds(lit: int, genes: seq<Bit>)
    requires LiteralInRange(lit, |genes|)
  {
    (lit > 0 && genes[lit - 1] == 1) || (lit < 0 && genes[-lit - 1] == 0)
  }

  /** A clause is satisfied when one of its literals holds. */
  predicate ClauseHolds(clause: seq<int>, genes: seq<Bit>)
    requires ClauseInRange(clause, |genes|)
  {
    exists k :: 0 <= k < |clause| && LiteralHolds(clause[k], genes)
  }

  /** The inner literal loop, which breaks at the first literal that holds. */
  method ClauseSatisfied(clause: seq<int>, genes: seq<Bit>) returns (satisfied: bool)
    requires ClauseInRange(clause, |genes|)
    ensures satisfied <==> ClauseHolds(clause, genes)
  {
    satisfied := false;
    var k := 0;
    while k < |clause|
      invariant 0 <= k <= |clause|
      invariant forall i :: 0 <= i < k ==> !LiteralHolds(clause[i], genes)
    {
      var lit := clause[k];
      if (lit > 0 && genes[lit - 1] == 1) || (lit < 0 && genes[-lit - 1] == 0) {
        satisfied := true;
        return;
      }
      k := k + 1;
    }
  }

  /** The SAW fitness: the total weight of the satisfied clauses. */
  function SawTotal(clauses: seq<seq<int>>, weights: seq<int>, genes: seq<Bit>): int
    requires |weights| == |clauses|
    requires forall j :: 0 <= j < |clauses| ==> ClauseInRange(clauses[j], |genes|)
  {
    if clauses == [] then 0
    else
      var first := if ClauseHolds(clauses[0], genes) then weights[0] else 0;
      first + SawTotal(clauses[1..], weights[1..], genes)
  }

  /** One stepwise weight adaptation: +1 for each clause `best` leaves unsatisfied. */
  function Adapted(clauses: seq<seq<int>>, weights: seq<int>, best: seq<Bit>): (r: seq<int>)
    requires |weights| == |clauses|
    requires forall j :: 0 <= j < |clauses| ==> ClauseInRange(clauses[j], |best|)
    ensures |r| == |weights|
  {
    seq(|weights|, j requires 0 <= j < |weights| =>
      weights[j] + (if ClauseHolds(clauses[j], best) then 0 else 1))
  }

  /**
   * A random CNF expression with SAW weights. The clauses are fixed at
   * construction (their random generation is not modelled: they are a
   * parameter); the weight list starts at zero and is updated in place.
   */
  class CnfSat {
    const vars: nat
    const clauses: seq<seq<int>>
    var weights: seq<int>

    ghost predicate Valid()
      reads this
    {
      |weights| == |clauses| &&
      (forall j :: 0 <= j < |clauses| ==> ClauseInRange(clauses[j], vars)) &&
      (forall j :: 0 <= j < |weights| ==> weights[j] >= 0)
    }

    constructor(vars: nat, clauses: seq<seq<int>>)
      requires forall j :: 0 <= j < |clauses| ==> ClauseInRange(clauses[j], vars)
      ensures Valid()
      ensures this.vars == vars && this.clauses == clauses
      ensures weights == seq(|clauses|, _ => 0)
    {
      this.vars := vars;
      this.clauses := clauses;
      weights := seq(|clauses|, _ => 0);
    }

    /** `_eval_saw`: sums the weights of the clauses the genome satisfies. */
    method EvalSaw(genes: seq<Bit>) returns (total: int)
      requires Valid() && |genes| == vars
      ensures total == SawTotal(clauses, weights, genes)
    {
      total := 0;
      var j := |clauses|;
      while j > 0
        invariant 0 <= j <= |clauses|
        invariant total == SawTotal(clauses[j..], weights[j..], genes)
      {
        j := j - 1;
        var sat := ClauseSatisfied(clauses[j], genes);
        assert clauses[j..][1..] == clauses[j + 1..] && weights[j..][1..] == weights[j + 1..];
        if sat {
          total := total + weights[j];
        }
      }
    }

    /** `update_saw`: each weight goes up by one exactly when `best` leaves its clause unsatisfied. */
    method UpdateSaw(best: seq<Bit>)
      requires Valid() && |best| == vars
      modifies this
      ensures Valid()
      ensures weights == Adapted(clauses, old(weights), best)
    {
      var j := 0;
      while j < |clauses|
        invariant 0 <= j <= |clauses| && |weights| == |clauses|
        invariant forall i :: 0 <= i < j ==>
          weights[i] == old(weights)[i] + (if ClauseHolds(clauses[i], best) then 0 else 1)
        invariant forall i :: j <= i < |clauses| ==> weights[i] == old(weights)[i]
        invariant Valid()
      {
        var sat := ClauseSatisfied(clauses[j], best);
        weights := weights[j := weights[j] + 1 - (if sat then 1 else 0)];
        j := j + 1;
      }
    }
  }

  /** Weights never decrease, and each grows by at most one per adaptation. */
  lemma AdaptedGrows(clauses: seq<seq<int>>, weights: seq<int>, best: seq<Bit>, j: nat)
    requires |weights| == |clauses| && j < |clauses|
    requires forall i :: 0 <= i < |clauses| ==> ClauseInRange(clauses[i], |best|)
    ensures weights[j] <= Adapted(clauses, weights, best)[j] <= weights[j] + 1
    ensures Adapted(clauses, weights, best)[j] == weights[j] <==> ClauseHolds(clauses[j], best)
  {
  }

  /**
   * Adapting the weights to `best` leaves the SAW fitness of `best` itself
   * unchanged: only the weights of clauses it fails are raised.
   */
  lemma {:induction false} AdaptedKeepsBestFitness(clauses: seq<seq<int>>, weights: seq<int>, best: seq<Bit>)
    requires |weights| == |clauses|
    requires forall i :: 0 <= i < |clauses| ==> ClauseInRange(clauses[i], |best|)
    ensures SawTotal(clauses, Adapted(clauses, weights, best), best) == SawTotal(clauses, weights, best)
  {
    if clauses != [] {
      var w2 := Adapted(clauses, weights, best);
      assert Adapted(clauses[1..], weights[1..], best) == w2[1..];
      AdaptedKeepsBestFitness(clauses[1..], weights[1..], best);
    }
  }

  /** With non-negative weights, no genome's SAW fitness falls after an adaptation. */
  lemma {:induction false} AdaptedMonotone(clauses: seq<seq<int>>, weights: seq<int>, best: seq<Bit>, genes: seq<Bit>)
    requires |weights| == |clauses| && |genes| == |best|
    requires forall i :: 0 <= i < |clauses| ==> ClauseInRange(clauses[i], |best|)
    ensures SawTotal(clauses, weights, genes) <= SawTotal(clauses, Adapted(clauses, weights, best), genes)
  {
    if clauses != [] {
      var w2 := Adapted(clauses, weights, best);
      assert Adapted(clauses[1..], weights[1..], best) == w2[1..];
      AdaptedMonotone(clauses[1..], weights[1..], best, genes);
    }
  }

  // ---------------------------------------------------------------------
  // Error-correcting code design
  // ---------------------------------------------------------------------

  /** The number of differing positions of two code words, over the shorter length (`zip`). */
  function HammDist(v1: seq<Bit>, v2: seq<Bit>): (r: nat)
    ensures r <= |v1| && r <= |v2|
  {
    if v1 == [] || v2 == [] then 0
    else (if v1[0] != v2[0] then 1 else 0) + HammDist(v1[1..], v2[1..])
  }

  lemma {:induction false} HammDistSymmetric(v1: seq<Bit>, v2: seq<Bit>)
    ensures HammDist(v1, v2) == HammDist(v2, v1)
  {
    if v1 != [] && v2 != [] {
      HammDistSymmetric(v1[1..], v2[1..]);
    }
  }

  /** A word is at distance 0 from itself and at distance its length from its complement. */
  lemma {:induction false} HammDistSelfAndComplement(v: seq<Bit>)
    ensures HammDist(v, v) == 0
    ensures HammDist(v, Complement(v)) == |v|
  {
    if v != [] {
      HammDistSelfAndComplement(v[1..]);
      assert Complement(v)[1..] == Complement(v[1..]);
    }
  }

  /** The complementary code word: each x becomes -x + 1. */
  function Complement(v: seq<Bit>): (r: seq<Bit>)
    ensures |r| == |v|
    ensures forall i :: 0 <= i < |v| ==> r[i] == 1 - v[i]
  {
    seq(|v|, i requires 0 <= i < |v| => 1 - v[i])
  }

  /**
   * `_splitgenome`: M slots; slot i < M/2 holds genes [i*n, i*n + n) and
   * slot M/2 + i its complement. With M odd the last slot stays None.
   */
  function Split(genes: seq<Bit>, n: nat, m: nat): (code: seq<Option<seq<Bit>>>)
    ensures |code| == m
  {
    var mid := m / 2;
    seq(m, i requires 0 <= i < m =>
      if i < mid then Some(Word(genes, n, i))
      else if i < 2 * mid then Some(Complement(Word(genes, n, i - mid)))
      else None)
  }

  /** Code word i: genes [i*n, i*n + n), clamped to the genome. */
  function Word(genes: seq<Bit>, n: nat, i: nat): seq<Bit>
  {
    Slice(genes, i * n, i * n + n)
  }

  /** The loop that fills the code list. */
  method SplitGenome(genes: seq<Bit>, n: nat, m: nat) returns (code: seq<Option<seq<Bit>>>)
    ensures code == Split(genes, n, m)
  {
    var mid := m / 2;
    code := seq(m, _ => None);
    var i := 0;
    while i < mid
      invariant 0 <= i <= mid && |code| == m
      invariant forall k :: 0 <= k < m ==>
        code[k] == if k < i || mid <= k < mid + i then Split(genes, n, m)[k] else None
    {
      var word := Word(genes, n, i);
      code := code[i := Some(word)];
      code := code[mid + i := Some(Complement(word))];
      i := i + 1;
    }
  }

  /** The second half of the code is the complement of the first, word by word. */
  lemma SplitComplements(genes: seq<Bit>, n: nat, m: nat, i: nat)
    requires i < m / 2
    ensures Split(genes, n, m)[i].Some? && Split(genes, n, m)[m / 2 + i].Some?
    ensures Split(genes, n, m)[m / 2 + i].value == Complement(Split(genes, n, m)[i].value)
  {
    var mid, code := m / 2, Split(genes, n, m);
    assert code[mid + i] == Some(Complement(Word(genes, n, i)));
  }

  /** When the genome holds all M/2 words, word i is exactly genes [i*n, i*n + n). */
  lemma WordInside(genes: seq<Bit>, n: nat, mid: nat, i: nat)
    requires i < mid && mid * n <= |genes|
    ensures i * n + n <= |genes|
    ensures Word(genes, n, i) == genes[i * n..i * n + n]
  {
    MulLeInt(i + 1, mid, n);
    assert (i + 1) * n == i * n + n;
  }

  /** Only an odd M leaves an empty slot, the last one. */
  lemma SplitNone(genes: seq<Bit>, n: nat, m: nat, i: nat)
    requires i < m
    ensures Split(genes, n, m)[i].None? <==> m % 2 == 1 && i == m - 1
  {
  }

  datatype EccError = TypeError

  /**
   * The pair scan of `legal` from position (i, j) in row-major order: a pair
   * of one slot with itself, or of two empty slots, is skipped (`i is j`);
   * a pair with one empty slot fails with a TypeError; a pair closer than d
   * gives False.
   */
  function Scan(code: seq<Option<seq<Bit>>>, d: int, i: nat, j: nat): Result<bool, EccError>
    requires i <= |code| && j <= |code|
    decreases |code| - i, |code| - j
  {
    if i == |code| then Ok(true)
    else if j == |code| then Scan(code, d, i + 1, 0)
    else if i == j || (code[i].None? && code[j].None?) then Scan(code, d, i, j + 1)
    else if code[i].None? || code[j].None? then Err(TypeError)
    else if HammDist(code[i].value, code[j].value) < d then Ok(false)
    else Scan(code, d, i, j + 1)
  }

  /** The pair (a, b) comes at or after (i, j) in row-major order. */
  predicate AtOrAfter(a: nat, b: nat, i: nat, j: nat)
  {
    a > i || (a == i && b >= j)
  }

  /** ECC `legal`: every pair of distinct code words is at least d apart. */
  method EccLegal(genes: seq<Bit>, n: nat, m: nat, d: int) returns (r: Result<bool, EccError>)
    ensures r == Scan(Split(genes, n, m), d, 0, 0)
  {
    var code := SplitGenome(genes, n, m);
    r := ScanPairs(code, d);
  }

  /** The double loop of `legal` over the slots of the code. */
  method ScanPairs(code: seq<Option<seq<Bit>>>, d: int) returns (r: Result<bool, EccError>)
    ensures r == Scan(code, d, 0, 0)
  {
    var m := |code|;
    var i := 0;
    while i < m
      invariant 0 <= i <= m
      invariant Scan(code, d, 0, 0) == Scan(code, d, i, 0)
    {
      var j := 0;
      while j < m
        invariant 0 <= j <= m
        invariant Scan(code, d, 0, 0) == Scan(code, d, i, j)
      {
        if i == j || (code[i].None? && code[j].None?) {
          j := j + 1;
          continue;
        }
        if code[i].None? || code[j].None? {
          return Err(TypeError);
        }
        if HammDist(code[i].value, code[j].value) < d {
          return Ok(false);
        }
        j := j + 1;
      }
      i := i + 1;
    }
    return Ok(true);
  }

  /**
   * With no empty slot, the scan from (i, j) succeeds, and answers True
   * exactly when every pair of distinct slots from (i, j) on is d apart.
   */
  lemma {:induction false} ScanMeaning(code: seq<Option<seq<Bit>>>, d: int, i: nat, j: nat)
    requires i <= |code| && j <= |code|
    requires forall k :: 0 <= k < |code| ==> code[k].Some?
    ensures Scan(code, d, i, j).Ok?
    ensures Scan(code, d, i, j).value <==>
      forall a, b :: 0 <= a < |code| && 0 <= b < |code| && a != b && AtOrAfter(a, b, i, j) ==>
        HammDist(code[a].value, code[b].value) >= d
    decreases |code| - i, |code| - j
  {
    if i == |code| {
    } else if j == |code| {
      ScanMeaning(code, d, i + 1, 0);
    } else if i == j {
      ScanMeaning(code, d, i, j + 1);
    } else if HammDist(code[i].value, code[j].value) < d {
    } else {
      ScanMeaning(code, d, i, j + 1);
    }
  }

  /** For an even M, `legal` holds iff all distinct code words are at least d apart. */
  lemma EccLegalMeaning(genes: seq<Bit>, n: nat, m: nat, d: int)
    requires m % 2 == 0
    ensures var code := Split(genes, n, m);
      Scan(code, d, 0, 0).Ok? &&
      (Scan(code, d, 0, 0).value <==>
        forall a, b :: 0 <= a < m && 0 <= b < m && a != b ==> HammDist(code[a].value, code[b].value) >= d)
  {
    var code := Split(genes, n, m);
    forall k | 0 <= k < m ensures code[k].Some? {
      SplitNone(genes, n, m, k);
    }
    ScanMeaning(code, d, 0, 0);
  }

  /** The test's rejected example with n = 3, M = 4 and d = 1: words 0 and 3 coincide. */
  lemma EccLegalExampleClash()
    ensures Scan(Split([0, 0, 0, 1, 1, 1], 3, 4), 1, 0, 0) == Ok(false)
  {
    var g1: seq<Bit> := [0, 0, 0, 1, 1, 1];
    var c1 := Split(g1, 3, 4);
    assert Word(g1, 3, 0) == [0, 0, 0] && Word(g1, 3, 1) == [1, 1, 1];
    assert Complement([1, 1, 1]) == [0, 0, 0];
    assert c1[0] == Some([0, 0, 0]) && c1[3] == Some([0, 0, 0]);
  }

  /** The test's accepted example with n = 3, M = 4 and d = 1: all four words differ. */
  lemma EccLegalExampleDistinct()
    ensures Scan(Split([0, 0, 0, 0, 0, 1], 3, 4), 1, 0, 0) == Ok(true)
  {
    var g2: seq<Bit> := [0, 0, 0, 0, 0, 1];
    var c2 := Split(g2, 3, 4);
    EccExampleWords();
    var w: seq<seq<Bit>> := [[0, 0, 0], [0, 0, 1], [1, 1, 1], [1, 1, 0]];
    assert forall k :: 0 <= k < 4 ==> c2[k] == Some(w[k]);
    forall a, b | 0 <= a < 4 && 0 <= b < 4 && a != b
      ensures HammDist(c2[a].value, c2[b].value) >= 1
    {
      assert c2[a].value[0] != c2[b].value[0] || c2[a].value[2] != c2[b].value[2];
      FirstDifference(c2[a].value, c2[b].value);
    }
    EccLegalMeaning(g2, 3, 4, 1);
    assert Scan(c2, 1, 0, 0).Ok?;
    assert Scan(c2, 1, 0, 0).value;
  }

  /** The code words of the accepted example. */
  lemma EccExampleWords()
    ensures Split([0, 0, 0, 0, 0, 1], 3, 4)[0] == Some([0, 0, 0])
    ensures Split([0, 0, 0, 0, 0, 1], 3, 4)[1] == Some([0, 0, 1])
    ensures Split([0, 0, 0, 0, 0, 1], 3, 4)[2] == Some([1, 1, 1])
    ensures Split([0, 0, 0, 0, 0, 1], 3, 4)[3] == Some([1, 1, 0])
  {
    var g2: seq<Bit> := [0, 0, 0, 0, 0, 1];
    assert Word(g2, 3, 0) == [0, 0, 0] && Word(g2, 3, 1) == [0, 0, 1];
    assert Complement([0, 0, 0]) == [1, 1, 1] && Complement([0, 0, 1]) == [1, 1, 0];
  }

  /** Two words of three bits that differ in the first or the last bit are at least 1 apart. */
  lemma FirstDifference(v1: seq<Bit>, v2: seq<Bit>)
    requires |v1| == 3 && |v2| == 3 && (v1[0] != v2[0] || v1[2] != v2[2])
    ensures HammDist(v1, v2) >= 1
  {
    var t1, t2 := v1[1..][1..], v2[1..][1..];
    assert t1[0] == v1[2] && t2[0] == v2[2];
    assert HammDist(t1, t2) == (if v1[2] != v2[2] then 1 else 0) + HammDist(t1[1..], t2[1..]);
    assert HammDist(v1[1..], v2[1..]) >= HammDist(t1, t2);
    assert HammDist(v1, v2) == (if v1[0] != v2[0] then 1 else 0) + HammDist(v1[1..], v2[1..]);
  }

  // ---------------------------------------------------------------------
  // Minimum tardy task problem
  // ---------------------------------------------------------------------

  /** A task: (length, deadline, penalty weight). */
  datatype Task = Task(length: int, deadline: int, weight: int)

  /** The 5-task instance (the table holds 8 rows; a 5-gene genome selects among the first 5). */
  const Mttp5: seq<Task> := [
      Task(2, 3, 15), Task(4, 5, 20), Task(1, 6, 16), Task(7, 8, 19),
      Task(4, 10, 10), Task(3, 15, 25), Task(5, 16, 17), Task(2, 20, 18)
    ]

  const Mttp20: seq<Task> := [
      Task(2, 3, 15), Task(4, 5, 20), Task(1, 6, 16), Task(7, 8, 19),
      Task(4, 10, 10), Task(3, 15, 25), Task(5, 16, 17), Task(2, 20, 18),
      Task(4, 25, 21), Task(7, 29, 17), Task(2, 30, 31), Task(9, 36, 2),
      Task(8, 49, 26), Task(6, 59, 42), Task(1, 80, 50), Task(4, 81, 19),
      Task(9, 89, 17), Task(7, 97, 21), Task(8, 100, 22), Task(2, 105, 13)
    ]

  /** The five tasks repeated, with shifted deadlines and scaled weights, to build larger instances. */
  const Mttp5iBase: seq<Task> := [Task(3, 5, 60), Task(6, 10, 40), Task(9, 15, 7), Task(12, 20, 3), Task(15, 25, 50)]

  /** The subset S: tasks paired (`zip`) with a set gene. */
  function Selected(tasks: seq<Task>, genes: seq<Bit>): (s: seq<Task>)
    ensures |s| <= |tasks| && |s| <= |genes|
  {
    if tasks == [] || genes == [] then []
    else (if genes[0] == 1 then [tasks[0]] else []) + Selected(tasks[1..], genes[1..])
  }

  /** The time at which the first `k` tasks of `s` finish when they run back to back. */
  function FinishTime(s: seq<Task>, k: nat): int
    requires k <= |s|
  {
    if k == 0 then 0 else FinishTime(s, k - 1) + s[k - 1].length
  }

  /** Run in the given order, every task finishes by its deadline. */
  predicate OnTime(s: seq<Task>)
  {
    forall k :: 0 <= k < |s| ==> FinishTime(s, k + 1) <= s[k].deadline
  }

  /** MTTP `legal`: runs the selected tasks in order and fails at the first deadline bust. */
  method MttpLegal(tasks: seq<Task>, genes: seq<Bit>) returns (ok: bool)
    ensures ok <==> OnTime(Selected(tasks, genes))
  {
    var s := Selected(tasks, genes);
    var time := 0;
    var k := 0;
    while k < |s|
      invariant 0 <= k <= |s|
      invariant time == FinishTime(s, k)
      invariant forall i :: 0 <= i < k ==> FinishTime(s, i + 1) <= s[i].deadline
    {
      time := time + s[k].length;
      if time > s[k].deadline {
        return false;
      }
      k := k + 1;
    }
    return true;
  }

  /**
   * Entry j (1-based) of the repeated instance in group m: task (j-1) mod 5
   * with its deadline moved 24*m later, and its weight scaled by m+1 unless
   * j mod 5 is 3 or 4.
   */
  function Mttp5iEntry(j: nat, m: nat): Task
    requires j >= 1
  {
    var t := Mttp5iBase[(j - 1) % 5];
    Task(t.length, t.deadline + 24 * m, if j % 5 == 3 || j % 5 == 4 then t.weight else (m + 1) * t.weight)
  }

  /** `_make_mttp5i` as written: the group of 1-based entry j is j // 5. */
  function MakeMttp5iAsWritten(n: nat): (r: seq<Task>)
    ensures |r| == 5 * n
  {
    seq(5 * n, i requires 0 <= i < 5 * n => Mttp5iEntry(i + 1, (i + 1) / 5))
  }

  /** The replacement loop over the repeated base list, as written. */
  method BuildMttp5iAsWritten(n: nat) returns (result: seq<Task>)
    ensures result == MakeMttp5iAsWritten(n)
  {
    result := [];
    var k := 0;
    while k < n
      invariant 0 <= k <= n && |result| == 5 * k
      invariant forall i :: 0 <= i < 5 * k ==> result[i] == Mttp5iBase[i % 5]
    {
      result := result + Mttp5iBase;
      k := k + 1;
    }
    var j := 0;
    while j < |result|
      invariant 0 <= j <= |result| == 5 * n
      invariant forall i :: 0 <= i < j ==> result[i] == Mttp5iEntry(i + 1, (i + 1) / 5)
      invariant forall i :: j <= i < |result| ==> result[i] == Mttp5iBase[i % 5]
    {
      var jj := j + 1;
      var t := result[j];
      var m := jj / 5;
      var w := if jj % 5 == 3 || jj % 5 == 4 then t.weight else (m + 1) * t.weight;
      result := result[j := Task(t.length, t.deadline + 24 * m, w)];
      j := j + 1;
    }
  }

  /** Entries 4 to 9 (1-based) of the instance for n = 2, as written. */
  lemma Mttp5iAsWrittenEntries()
    ensures var r := MakeMttp5iAsWritten(2);
      r[3] == Task(12, 20, 3) && r[4] == Task(15, 49, 100) && r[5] == Task(3, 29, 120) &&
      r[6] == Task(6, 34, 80) && r[7] == Task(9, 39, 7)
  {
  }

  /** Selection distributes over concatenation when the first parts have equal length. */
  lemma {:induction false} SelectedAppend(t1: seq<Task>, g1: seq<Bit>, t2: seq<Task>, g2: seq<Bit>)
    requires |t1| == |g1|
    ensures Selected(t1 + t2, g1 + g2) == Selected(t1, g1) + Selected(t2, g2)
  {
    if t1 == [] {
      assert t1 + t2 == t2 && g1 + g2 == g2;
    } else {
      assert (t1 + t2)[1..] == t1[1..] + t2 && (g1 + g2)[1..] == g1[1..] + g2;
      SelectedAppend(t1[1..], g1[1..], t2, g2);
    }
  }

  /** All genes clear selects nothing; all genes set selects every task. */
  lemma {:induction false} SelectedUniform(tasks: seq<Task>, genes: seq<Bit>)
    requires |tasks| == |genes|
    ensures (forall i :: 0 <= i < |genes| ==> genes[i] == 0) ==> Selected(tasks, genes) == []
    ensures (forall i :: 0 <= i < |genes| ==> genes[i] == 1) ==> Selected(tasks, genes) == tasks
  {
    if tasks != [] {
      SelectedUniform(tasks[1..], genes[1..]);
    }
  }

  /** Selecting entries 4 to 8 (1-based) of the instance for n = 2, as written. */
  lemma Mttp5iAsWrittenSelection()
    ensures Selected(MakeMttp5iAsWritten(2), [0, 0, 0, 1, 1, 1, 1, 1, 0, 0])
      == [Task(12, 20, 3), Task(15, 49, 100), Task(3, 29, 120), Task(6, 34, 80), Task(9, 39, 7)]
  {
    var r := MakeMttp5iAsWritten(2);
    SelectedMiddle(r, [0, 0, 0, 1, 1, 1, 1, 1, 0, 0]);
    FiveFrom(r, 3);
    Mttp5iAsWrittenEntries();
  }

  /** Five consecutive elements, listed. */
  lemma FiveFrom<T>(r: seq<T>, i: nat)
    requires i + 5 <= |r|
    ensures r[i..i + 5] == [r[i], r[i + 1], r[i + 2], r[i + 3], r[i + 4]]
  {
  }

  /** Of ten tasks, the genes 0001111100 select the fourth to the eighth. */
  lemma SelectedMiddle(r: seq<Task>, genes: seq<Bit>)
    requires |r| == 10 && genes == [0, 0, 0, 1, 1, 1, 1, 1, 0, 0]
    ensures Selected(r, genes) == r[3..8]
  {
    var z3, o5, z2: seq<Bit> := [0, 0, 0], [1, 1, 1, 1, 1], [0, 0];
    assert r == r[..3] + (r[3..8] + r[8..]);
    assert genes == z3 + (o5 + z2);
    SelectedAppend(r[..3], z3, r[3..8] + r[8..], o5 + z2);
    SelectedAppend(r[3..8], o5, r[8..], z2);
    SelectedUniform(r[..3], z3);
    SelectedUniform(r[3..8], o5);
    SelectedUniform(r[8..], z2);
    var mid := r[3..8];
    assert Selected(r, z3 + (o5 + z2)) == [] + (mid + []);
    assert [] + (mid + []) == mid;
  }

  /** Run in table order, the selection busts the third deadline (30 > 29). */
  lemma SelectionLateInOrder()
    ensures !OnTime([Task(12, 20, 3), Task(15, 49, 100), Task(3, 29, 120), Task(6, 34, 80), Task(9, 39, 7)])
  {
    var s := [Task(12, 20, 3), Task(15, 49, 100), Task(3, 29, 120), Task(6, 34, 80), Task(9, 39, 7)];
    assert FinishTime(s, 1) == 12;
    assert FinishTime(s, 2) == 27;
    assert FinishTime(s, 3) == 30;
  }

  /** Run in deadline order, the same tasks all finish in time. */
  lemma SelectionOnTimeByDeadline()
    ensures OnTime([Task(12, 20, 3), Task(3, 29, 120), Task(6, 34, 80), Task(9, 39, 7), Task(15, 49, 100)])
  {
    var o := [Task(12, 20, 3), Task(3, 29, 120), Task(6, 34, 80), Task(9, 39, 7), Task(15, 49, 100)];
    assert FinishTime(o, 1) == 12;
    assert FinishTime(o, 2) == 15;
    assert FinishTime(o, 3) == 21;
    assert FinishTime(o, 4) == 30;
    assert FinishTime(o, 5) == 45;
  }

  /**
   * As written, the fifth entry of each group already takes the next group's
   * deadline offset, so deadlines are not increasing (49 before 29 for n = 2),
   * and the in-order check rejects the selection of entries 4 to 8 although
   * a reordering of the same tasks meets every deadline.
   */
  lemma Mttp5iAsWrittenCounterexample()
    ensures MakeMttp5iAsWritten(2)[4].deadline == 49 && MakeMttp5iAsWritten(2)[5].deadline == 29
    ensures var s := Selected(MakeMttp5iAsWritten(2), [0, 0, 0, 1, 1, 1, 1, 1, 0, 0]);
      |s| == 5 && !OnTime(s) &&
      OnTime([s[0], s[2], s[3], s[4], s[1]]) &&
      multiset([s[0], s[2], s[3], s[4], s[1]]) == multiset(s)
  {
    Mttp5iAsWrittenEntries();
    Mttp5iAsWrittenSelection();
    SelectionLateInOrder();
    SelectionOnTimeByDeadline();
    SecondToLast(Selected(MakeMttp5iAsWritten(2), [0, 0, 0, 1, 1, 1, 1, 1, 0, 0]));
  }

  /** Moving the second of five elements to the end permutes them. */
  lemma SecondToLast<T>(s: seq<T>)
    requires |s| == 5
    ensures multiset([s[0], s[2], s[3], s[4], s[1]]) == multiset(s)
  {
    assert s == [s[0]] + [s[1]] + [s[2]] + [s[3]] + [s[4]];
    assert [s[0], s[2], s[3], s[4], s[1]] == [s[0]] + [s[2]] + [s[3]] + [s[4]] + [s[1]];
  }

  /** `_make_mttp5i` with the group of 1-based entry j taken as (j - 1) // 5. */
  function MakeMttp5i(n: nat): (r: seq<Task>)
    ensures |r| == 5 * n
  {
    seq(5 * n, i requires 0 <= i < 5 * n => Mttp5iEntry(i + 1, i / 5))
  }

  /** The corrected instance is ordered by strictly increasing deadline. */
  lemma Mttp5iDeadlinesIncrease(n: nat, a: nat, b: nat)
    requires a < b < 5 * n
    ensures MakeMttp5i(n)[a].deadline < MakeMttp5i(n)[b].deadline
  {
    var r := MakeMttp5i(n);
    assert r[a].deadline == 5 * (a % 5) + 5 + 24 * (a / 5);
    assert r[b].deadline == 5 * (b % 5) + 5 + 24 * (b / 5);
  }

  /**
   * The task table for a genome of `size` genes: the 5- and 20-task tables,
   * the repeated instance as written for another positive multiple of 5,
   * and otherwise an error (None).
   */
  function MttpTasks(size: int): (r: Option<seq<Task>>)
    ensures r.None? <==> !(size > 0 && size % 5 == 0)
    ensures r.Some? ==> |r.value| >= size
    ensures r.Some? && size != 5 && size != 20 ==>
      |r.value| == size &&
      forall i :: 0 <= i < size ==> r.value[i] == Mttp5iEntry(i + 1, (i + 1) / 5)
  {
    if size == 5 then Some(Mttp5)
    else if size == 20 then Some(Mttp20)
    else if size > 0 && size % 5 == 0 then Some(MakeMttp5iAsWritten(size / 5))
    else None
  }

  /** For ten tasks the table is the one as written: tasks 5 and 10 take the next group's offset. */
  lemma MttpTasksTen()
    ensures MttpTasks(10).Some? && |MttpTasks(10).value| == 10
    ensures MttpTasks(10).value[4] == Task(15, 49, 100) && MttpTasks(10).value[9] == Task(15, 73, 150)
  {
  }
}
