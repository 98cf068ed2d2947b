/**
 * The binary species (esec/species/binary.py): the phenome of a
 * `BinaryIntegerIndividual` (offset plus resolution times the ones in each
 * block) and the two deterministic parts of the inversion mutations.
 */
module BinarySpecies {
  import opened BinaryIntMapping
  import Slices

  /**
   * How `bits_per_value` cuts the genome: a list of block sizes, one fixed
   * block size repeated while a whole block fits, or (a falsy value, here a
   * fixed size of 0) the whole genome as a single block.
   */
  datatype BitsPerValue = PerValue(sizes: seq<nat>) | Fixed(size: nat)

  /** Fixed-size blocks from index `i` on, while a whole block still fits. */
  function FixedBlocks(genome: seq<Bit>, size: nat, i: nat): seq<seq<Bit>>
    requires size > 0
    decreases |genome| - i
  {
    if i + size > |genome| then []
    else [genome[i..i + size]] + FixedBlocks(genome, size, i + size)
  }

  /**
   * There are floor((len - i) / size) fixed blocks, and the k-th covers
   * genes [i + k*size, i + (k+1)*size).
   */
  lemma {:induction false} FixedBlocksShape(genome: seq<Bit>, size: nat, i: nat)
    requires size > 0 && i <= |genome|
    ensures var n := |FixedBlocks(genome, size, i)|;
      n * size <= |genome| - i < (n + 1) * size
    ensures forall k :: 0 <= k < |FixedBlocks(genome, size, i)| ==>
      FixedBlocks(genome, size, i)[k] == genome[i + k * size..i + (k + 1) * size]
    decreases |genome| - i
  {
    var r := FixedBlocks(genome, size, i);
    if i + size <= |genome| {
      FixedBlocksShape(genome, size, i + size);
      var rest := FixedBlocks(genome, size, i + size);
      assert r == [genome[i..i + size]] + rest;
      var n := |rest|;
      NextMultiple(n, size);
      NextMultiple(n + 1, size);
      forall k | 0 <= k < |r|
        ensures r[k] == genome[i + k * size..i + (k + 1) * size]
      {
        if k > 0 {
          assert r[k] == rest[k - 1];
          NextMultiple(k - 1, size);
          NextMultiple(k, size);
        }
      }
    }
  }

  lemma NextMultiple(k: nat, size: nat)
    ensures k * size + size == (k + 1) * size
  {
  }

  /** A count q with q*size <= n < (q+1)*size is the floor of n / size. */
  lemma FloorDiv(n: nat, size: nat, q: nat)
    requires size > 0 && q * size <= n < (q + 1) * size
    ensures q == n / size
  {
    var d, m := n / size, n % size;
    assert n == d * size + m && 0 <= m < size;
    if d < q {
      MulMono(d + 1, q, size);
      assert false;
    } else if d > q {
      MulMono(q + 1, d, size);
      assert false;
    }
  }

  lemma MulMono(a: nat, b: nat, c: nat)
    requires a <= b
    ensures a * c <= b * c
  {
  }

  /** The blocks whose ones are counted, for each form of `bits_per_value`. */
  function PhenomeBlocks(genome: seq<Bit>, bpv: BitsPerValue): seq<seq<Bit>>
  {
    match bpv
    case PerValue(sizes) => Blocks(genome, sizes, 0)
    case Fixed(size) => if size > 0 then FixedBlocks(genome, size, 0) else [genome]
  }

  /** Each phenome value is offset + resolution * (ones in its block). */
  function Scale(offset: int, resolution: int, counts: seq<int>): (r: seq<int>)
    ensures |r| == |counts|
    ensures forall k :: 0 <= k < |counts| ==> r[k] == offset + resolution * counts[k]
  {
    if counts == [] then [] else [offset + resolution * counts[0]] + Scale(offset, resolution, counts[1..])
  }

  function CountAll(blocks: seq<seq<Bit>>): (r: seq<int>)
    ensures |r| == |blocks|
    ensures forall k :: 0 <= k < |blocks| ==> r[k] == CountOnes(blocks[k])
  {
    if blocks == [] then [] else [CountOnes(blocks[0]) as int] + CountAll(blocks[1..])
  }

  /** The phenome of a binary-integer individual of this species. */
  function PhenomeOf(genome: seq<Bit>, bpv: BitsPerValue, offset: int, resolution: int): seq<int>
  {
    Scale(offset, resolution, CountAll(PhenomeBlocks(genome, bpv)))
  }

  /** Counts the ones per listed block size, stopping at the first block that does not fit. */
  method PerValueCounts(genome: seq<Bit>, sizes: seq<nat>) returns (counts: seq<int>)
    ensures counts == CountAll(Blocks(genome, sizes, 0))
  {
    counts := [];
    var i: nat := 0;
    var k := 0;
    while k < |sizes|
      invariant 0 <= k <= |sizes|
      invariant CountAll(Blocks(genome, sizes, 0)) == counts + CountAll(Blocks(genome, sizes[k..], i))
    {
      if i + sizes[k] > |genome| {
        BlocksStepCounts(genome, sizes, k, i);
        assert counts + [] == counts;
        return;
      }
      BlocksStepCounts(genome, sizes, k, i);
      Slices.ConcatAssoc(counts, [CountOnes(genome[i..i + sizes[k]]) as int],
        CountAll(Blocks(genome, sizes[k + 1..], i + sizes[k])));
      counts := counts + [CountOnes(genome[i..i + sizes[k]])];
      i := i + sizes[k];
      k := k + 1;
    }
    assert sizes[k..] == [];
    assert counts + [] == counts;
  }

  /** Counts the ones in each fixed-size block while a whole block fits. */
  method FixedCounts(genome: seq<Bit>, size: nat) returns (counts: seq<int>)
    requires size > 0
    ensures counts == CountAll(FixedBlocks(genome, size, 0))
  {
    counts := [];
    var i := 0;
    while i + size <= |genome|
      invariant CountAll(FixedBlocks(genome, size, 0)) == counts + CountAll(FixedBlocks(genome, size, i))
      decreases |genome| - i
    {
      FixedStepCounts(genome, size, i);
      Slices.ConcatAssoc(counts, [CountOnes(genome[i..i + size]) as int], CountAll(FixedBlocks(genome, size, i + size)));
      counts := counts + [CountOnes(genome[i..i + size])];
      i := i + size;
    }
    FixedStepCounts(genome, size, i);
    assert counts + [] == counts;
  }

  /** The phenome as the individual computes it, for each form of `bits_per_value`. */
  method Phenome(genome: seq<Bit>, bpv: BitsPerValue, offset: int, resolution: int) returns (r: seq<int>)
    ensures r == PhenomeOf(genome, bpv, offset, resolution)
  {
    var counts: seq<int>;
    match bpv {
      case PerValue(sizes) =>
        counts := PerValueCounts(genome, sizes);
      case Fixed(size) =>
        if size > 0 {
          counts := FixedCounts(genome, size);
        } else {
          counts := [CountOnes(genome)];
        }
    }
    r := Scale(offset, resolution, counts);
  }

  /** One iteration of the listed-sizes loop, stated on the counts. */
  lemma BlocksStepCounts(genome: seq<Bit>, sizes: seq<nat>, k: nat, i: nat)
    requires k < |sizes|
    ensures i + sizes[k] > |genome| ==> CountAll(Blocks(genome, sizes[k..], i)) == []
    ensures i + sizes[k] <= |genome| ==>
      CountAll(Blocks(genome, sizes[k..], i))
        == [CountOnes(genome[i..i + sizes[k]]) as int] + CountAll(Blocks(genome, sizes[k + 1..], i + sizes[k]))
  {
    assert sizes[k..][0] == sizes[k];
    assert sizes[k..][1..] == sizes[k + 1..];
  }

  /** One iteration of the fixed-size loop, stated on the counts. */
  lemma FixedStepCounts(genome: seq<Bit>, size: nat, i: nat)
    requires size > 0
    ensures i + size > |genome| ==> CountAll(FixedBlocks(genome, size, i)) == []
    ensures i + size <= |genome| ==>
      CountAll(FixedBlocks(genome, size, i))
        == [CountOnes(genome[i..i + size]) as int] + CountAll(FixedBlocks(genome, size, i + size))
  {
    var fb := FixedBlocks(genome, size, i);
    if i + size <= |genome| {
      assert fb[1..] == FixedBlocks(genome, size, i + size);
    }
  }

  /** With a fixed block size there are floor(len / size) phenome values. */
  lemma FixedPhenomeLength(genome: seq<Bit>, size: nat, offset: int, resolution: int)
    requires size > 0
    ensures |PhenomeOf(genome, Fixed(size), offset, resolution)| == |genome| / size
  {
    FixedBlocksShape(genome, size, 0);
    FloorDiv(|genome|, size, |FixedBlocks(genome, size, 0)|);
  }

  /** With a fixed block size the k-th value counts the ones in genes [k*size, (k+1)*size). */
  lemma FixedPhenomeValue(genome: seq<Bit>, size: nat, offset: int, resolution: int, k: nat)
    requires size > 0
    requires k < |PhenomeOf(genome, Fixed(size), offset, resolution)|
    ensures (k + 1) * size <= |genome|
    ensures PhenomeOf(genome, Fixed(size), offset, resolution)[k]
      == offset + resolution * CountOnes(genome[k * size..(k + 1) * size])
  {
    var blocks := FixedBlocks(genome, size, 0);
    FixedBlocksShape(genome, size, 0);
    MulMono(k + 1, |blocks|, size);
    assert blocks[k] == genome[k * size..(k + 1) * size];
  }

  /** With a falsy `bits_per_value` the phenome is one value for the whole genome. */
  lemma WholePhenome(genome: seq<Bit>, offset: int, resolution: int)
    ensures PhenomeOf(genome, Fixed(0), offset, resolution) == [offset + resolution * CountOnes(genome)]
  {
  }

  // ---------------------------------------------------------------------
  // Inversion mutations
  // ---------------------------------------------------------------------

  /** Inversion: every gene g becomes 1 - g. */
  function Invert(genome: seq<Bit>): (r: seq<Bit>)
    ensures |r| == |genome|
    ensures forall i :: 0 <= i < |genome| ==> r[i] == 1 - genome[i]
  {
    if genome == [] then [] else [1 - genome[0]] + Invert(genome[1..])
  }

  /** Inverting twice restores the genome. */
  lemma InvertInvolution(genome: seq<Bit>)
    ensures Invert(Invert(genome)) == genome
  {
  }

  /** The segment chosen by gap inversion: [cut1, cut2). */
  datatype Cut = Cut(cut1: nat, cut2: nat)

  /**
   * Where the inverted segment lies. When the genome is longer than
   * `length`, the segment starts at the random draw (in [0, len - length))
   * and spans `length` genes; otherwise the whole genome is inverted.
   */
  function GapCut(genomeLength: nat, length: nat, draw: nat): (c: Cut)
    requires genomeLength > length ==> draw < genomeLength - length
    ensures c.cut1 <= c.cut2 <= genomeLength
    ensures genomeLength > length ==> c.cut2 - c.cut1 == length
    ensures genomeLength <= length ==> c == Cut(0, genomeLength)
  {
    var maxCut1 := genomeLength - length;
    if maxCut1 > 0 then Cut(draw, draw + length) else Cut(0, genomeLength)
  }

  /** Gap inversion: genes in [cut1, cut2) are inverted, the rest are kept. */
  function GapInvert(genome: seq<Bit>, length: nat, draw: nat): (r: seq<Bit>)
    requires |genome| > length ==> draw < |genome| - length
    ensures |r| == |genome|
    ensures var c := GapCut(|genome|, length, draw);
      forall i :: 0 <= i < |genome| ==>
        r[i] == if c.cut1 <= i < c.cut2 then 1 - genome[i] else genome[i]
  {
    var c := GapCut(|genome|, length, draw);
    genome[..c.cut1] + Invert(genome[c.cut1..c.cut2]) + genome[c.cut2..]
  }

  /** The same gap inversion applied twice restores the genome. */
  lemma GapInvertInvolution(genome: seq<Bit>, length: nat, draw: nat)
    requires |genome| > length ==> draw < |genome| - length
    ensures GapInvert(GapInvert(genome, length, draw), length, draw) == genome
  {
  }
}
