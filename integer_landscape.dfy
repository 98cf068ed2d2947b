/**
 * Integer-valued landscapes (esec/landscape/integer.py): per-gene bounds,
 * the legality check, N-sum and Robbins.
 */
module IntegerLandscape {
  import opened Wrappers
  import opened Slices
  import opened BinaryIntMapping

  /** `sys.maxsize` on a 64-bit build. */
  const MaxSize: int := 0x7FFF_FFFF_FFFF_FFFF

  /** A configured bound: absent (None), one value for every gene, or a list. */
  datatype BoundSpec = NoBound | Scalar(v: int) | Values(vs: seq<int>)

  /** Python truthiness of a configured bound: None, 0 and [] are falsy. */
  predicate Truthy(b: BoundSpec)
  {
    match b
    case NoBound => false
    case Scalar(v) => v != 0
    case Values(vs) => vs != []
  }

  datatype BoundsError = TooFewBounds

  /**
   * The per-gene bound list: `lower_bounds` overrules `bounds.lower` when it
   * is truthy; an absent bound becomes `missing` (-maxsize - 1 below,
   * maxsize above); a scalar is repeated `size.max` times; and fewer than
   * `size.max` values fail the assertion.
   */
  function ExpandBounds(overrule: BoundSpec, fallback: BoundSpec, missing: int, sizeMax: nat): (r: Result<seq<int>, BoundsError>)
    ensures r.Ok? ==> |r.value| >= sizeMax
    ensures var b := if Truthy(overrule) then overrule else fallback;
      (b.NoBound? ==> r == Ok(seq(sizeMax, _ => missing))) &&
      (b.Scalar? ==> r == Ok(seq(sizeMax, _ => b.v))) &&
      (b.Values? ==> (r.Ok? <==> |b.vs| >= sizeMax) && (r.Ok? ==> r.value == b.vs))
  {
    var b := if Truthy(overrule) then overrule else fallback;
    var list := match b
      case NoBound => seq(sizeMax, _ => missing)
      case Scalar(v) => seq(sizeMax, _ => v)
      case Values(vs) => vs;
    if |list| >= sizeMax then Ok(list) else Err(TooFewBounds)
  }

  /** The lower bound list; an absent bound is -maxsize - 1. */
  function LowerBounds(overrule: BoundSpec, fallback: BoundSpec, sizeMax: nat): Result<seq<int>, BoundsError>
  {
    ExpandBounds(overrule, fallback, -MaxSize - 1, sizeMax)
  }

  /** The upper bound list; an absent bound is maxsize. */
  function UpperBounds(overrule: BoundSpec, fallback: BoundSpec, sizeMax: nat): Result<seq<int>, BoundsError>
  {
    ExpandBounds(overrule, fallback, MaxSize, sizeMax)
  }

  /** A scalar bound expands to one entry per gene, `size.max` entries in all. */
  lemma ScalarBoundsExpand(v: int, fallback: BoundSpec, sizeMax: nat)
    requires v != 0
    ensures LowerBounds(Scalar(v), fallback, sizeMax) == Ok(seq(sizeMax, _ => v))
    ensures UpperBounds(Scalar(v), fallback, sizeMax) == Ok(seq(sizeMax, _ => v))
  {
  }

  /** The gene lies within its bounds, for every position the three lists share (`izip`). */
  predicate GenesWithin(lower: seq<int>, genes: seq<int>, upper: seq<int>)
  {
    forall i :: 0 <= i < |lower| && i < |genes| && i < |upper| ==> lower[i] <= genes[i] <= upper[i]
  }

  /** `Integer.legal`: the length is within [size.min, size.max] and each gene within its bounds. */
  method Legal(sizeMin: int, sizeMax: int, lower: seq<int>, upper: seq<int>, genes: seq<int>) returns (ok: bool)
    ensures ok <==> sizeMin <= |genes| <= sizeMax && GenesWithin(lower, genes, upper)
  {
    if !(sizeMin <= |genes| <= sizeMax) {
      return false;
    }
    var i := 0;
    while i < |lower| && i < |genes| && i < |upper|
      invariant 0 <= i <= |genes| && i <= |lower| && i <= |upper|
      invariant forall k :: 0 <= k < i ==> lower[k] <= genes[k] <= upper[k]
    {
      if !(lower[i] <= genes[i] <= upper[i]) {
        return false;
      }
      i := i + 1;
    }
    return true;
  }

  /** With at least `size.max` bounds each side, every gene of a legal genome is checked. */
  lemma LegalChecksEveryGene(sizeMax: int, lower: seq<int>, upper: seq<int>, genes: seq<int>)
    requires |lower| >= sizeMax && |upper| >= sizeMax && |genes| <= sizeMax
    ensures GenesWithin(lower, genes, upper) <==>
      forall i :: 0 <= i < |genes| ==> lower[i] <= genes[i] <= upper[i]
  {
  }

  /** The test's cases for two genes with bounds [0, 10]. */
  lemma LegalExamples()
    ensures GenesWithin([0, 0], [5, 5], [10, 10])
    ensures GenesWithin([0, 0], [10, 10], [10, 10])
    ensures !GenesWithin([0, 0], [-5, 15], [10, 10])
    ensures !GenesWithin([0, 0], [5, -5], [10, 10])
  {
    OutOfBounds([0, 0], [-5, 15], [10, 10], 0);
    OutOfBounds([0, 0], [5, -5], [10, 10], 1);
  }

  lemma OutOfBounds(lower: seq<int>, genes: seq<int>, upper: seq<int>, i: nat)
    requires i < |lower| && i < |genes| && i < |upper|
    requires !(lower[i] <= genes[i] <= upper[i])
    ensures !GenesWithin(lower, genes, upper)
  {
  }

  // ---------------------------------------------------------------------
  // N-sum
  // ---------------------------------------------------------------------

  /** N-sum fitness: the sum of the genes. */
  function Nsum(genes: seq<int>): int
  {
    Sum(genes)
  }

  /** A genome within its bounds sums to between the sums of its bounds. */
  lemma {:induction false} NsumBounds(lower: seq<int>, genes: seq<int>, upper: seq<int>)
    requires |lower| == |genes| == |upper|
    requires forall i :: 0 <= i < |genes| ==> lower[i] <= genes[i] <= upper[i]
    ensures Sum(lower) <= Nsum(genes) <= Sum(upper)
  {
    if genes != [] {
      NsumBounds(lower[1..], genes[1..], upper[1..]);
    }
  }

  // ---------------------------------------------------------------------
  // Robbins
  // ---------------------------------------------------------------------

  /** The genes read as big-endian base-2 digits: each step doubles and adds the next gene. */
  function BigEndian(genes: seq<int>): int
  {
    if genes == [] then 0 else 2 * BigEndian(genes[..|genes| - 1]) + genes[|genes| - 1]
  }

  /** Robbins fitness: `fitness = (fitness << 1) + value` over the genes. */
  method Robbins(genes: seq<int>) returns (fitness: int)
    ensures fitness == BigEndian(genes)
  {
    fitness := 0;
    var i := 0;
    while i < |genes|
      invariant 0 <= i <= |genes|
      invariant fitness == BigEndian(genes[..i])
    {
      assert genes[..i + 1][..i] == genes[..i];
      fitness := 2 * fitness + genes[i];
      i := i + 1;
    }
    assert genes[..|genes|] == genes;
  }

  /** On a genome of bits, Robbins is the unsigned binary value of the genome. */
  lemma {:induction false} RobbinsOfBits(genes: seq<Bit>)
    ensures BigEndian(genes) == OnesComplement(genes)
  {
    if genes != [] {
      RobbinsOfBits(genes[..|genes| - 1]);
    }
  }

  /** The example in the source: (0, 0, 1, 0, 1, 1) evaluates to 11. */
  lemma RobbinsExample()
    ensures BigEndian([0, 0, 1, 0, 1, 1]) == 11
  {
    assert [0][..0] == [] && BigEndian([0]) == 0;
    assert [0, 0][..1] == [0] && BigEndian([0, 0]) == 0;
    assert [0, 0, 1][..2] == [0, 0] && BigEndian([0, 0, 1]) == 1;
    assert [0, 0, 1, 0][..3] == [0, 0, 1] && BigEndian([0, 0, 1, 0]) == 2;
    assert [0, 0, 1, 0, 1][..4] == [0, 0, 1, 0] && BigEndian([0, 0, 1, 0, 1]) == 5;
    assert [0, 0, 1, 0, 1, 1][..5] == [0, 0, 1, 0, 1];
  }

  /** With every gene in [lo, hi], the value lies in [lo*(2^n - 1), hi*(2^n - 1)]. */
  lemma {:induction false} RobbinsRange(genes: seq<int>, lo: int, hi: int)
    requires forall i :: 0 <= i < |genes| ==> lo <= genes[i] <= hi
    ensures lo * (Pow2(|genes|) - 1) <= BigEndian(genes) <= hi * (Pow2(|genes|) - 1)
  {
    if genes != [] {
      var n := |genes|;
      var init := genes[..n - 1];
      RobbinsRange(init, lo, hi);
      var p := Pow2(n - 1) - 1;
      assert Pow2(n) - 1 == 2 * p + 1;
      assert lo * (2 * p + 1) == 2 * (lo * p) + lo;
      assert hi * (2 * p + 1) == 2 * (hi * p) + hi;
    }
  }
}
