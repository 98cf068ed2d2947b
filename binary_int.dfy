/**
 * Genotype-to-phenotype decoders of the binary-integer species
 * (esec/species/binary_int.py): a genome of bits is cut into blocks by
 * `bits_per_value` and each block is decoded by one of four mappings.
 */
module BinaryIntMapping {
  import opened Wrappers

  /** A gene of a binary genome. */
  type Bit = b: int | 0 <= b <= 1

  function Pow2(n: nat): (r: int)
    ensures r >= 1
  {
    if n == 0 then 1 else 2 * Pow2(n - 1)
  }

  /** Bitwise exclusive-or of two bits. */
  function Xor(a: Bit, b: Bit): Bit
  {
    if a == b then 0 else 1
  }

  // ---------------------------------------------------------------------
  // Ones-complement (plain unsigned binary, most significant bit first)
  // ---------------------------------------------------------------------

  /**
   * The block read as an unsigned binary number: the last gene has weight 1,
   * and each gene before it has double the weight of the one after it.
   */
  function OnesComplement(block: seq<Bit>): (r: nat)
    ensures r < Pow2(|block|)
  {
    if block == [] then 0
    else block[|block| - 1] + 2 * OnesComplement(block[..|block| - 1])
  }

  /** Independent reading: the first gene carries weight 2^(n-1). */
  function MsbFirstValue(block: seq<Bit>): int
  {
    if block == [] then 0
    else (if block[0] == 1 then Pow2(|block| - 1) else 0) + MsbFirstValue(block[1..])
  }

  /** Splitting off the most significant gene. */
  lemma {:induction false} OnesComplementMsb(block: seq<Bit>)
    requires block != []
    ensures OnesComplement(block) == (if block[0] == 1 then Pow2(|block| - 1) else 0) + OnesComplement(block[1..])
  {
    if |block| > 1 {
      var init := block[..|block| - 1];
      assert init[1..] == block[1..][..|block[1..]| - 1];
      OnesComplementMsb(init);
    }
  }

  /** Ones-complement agrees with the most-significant-bit-first weighted sum. */
  lemma {:induction false} OnesComplementIsWeightedSum(block: seq<Bit>)
    ensures OnesComplement(block) == MsbFirstValue(block)
  {
    if block != [] {
      OnesComplementMsb(block);
      OnesComplementIsWeightedSum(block[1..]);
    }
  }

  /** Appending a gene doubles the value and adds the gene. */
  lemma OnesComplementAppend(block: seq<Bit>, b: Bit)
    ensures OnesComplement(block + [b]) == 2 * OnesComplement(block) + b
  {
    assert (block + [b])[..|block|] == block;
  }

  /** The test's example: [1,0,1,1] decodes to 11. */
  lemma OnesComplementExample()
    ensures OnesComplement([1, 0, 1, 1]) == 11
  {
    assert [1, 0, 1, 1][..3] == [1, 0, 1];
    assert [1, 0, 1][..2] == [1, 0];
    assert [1, 0][..1] == [1];
  }

  // ---------------------------------------------------------------------
  // Twos-complement
  // ---------------------------------------------------------------------

  /**
   * Like ones-complement, but the most significant gene has weight
   * -2^(n-1). An empty block has no most significant gene: the source
   * fails with an index error, modelled as `None`.
   */
  function TwosComplement(block: seq<Bit>): (r: Option<int>)
    ensures r.None? <==> block == []
    ensures r.Some? ==> -Pow2(|block| - 1) <= r.value < Pow2(|block| - 1)
    ensures r.Some? ==> (r.value < 0 <==> block[0] == 1)
  {
    if block == [] then None
    else Some(OnesComplement(block[1..]) - (if block[0] == 1 then Pow2(|block| - 1) else 0))
  }

  /** A twos-complement value is congruent to the ones-complement value modulo 2^n. */
  lemma TwosComplementCongruent(block: seq<Bit>)
    requires block != []
    ensures TwosComplement(block).value == OnesComplement(block) - (if block[0] == 1 then Pow2(|block|) else 0)
  {
    OnesComplementMsb(block);
    assert Pow2(|block|) == 2 * Pow2(|block| - 1);
  }

  /** The test's example: [1,0,0,0] decodes to -8. */
  lemma TwosComplementExample()
    ensures TwosComplement([1, 0, 0, 0]) == Some(-8)
  {
    assert [1, 0, 0, 0][1..] == [0, 0, 0];
    assert [0, 0, 0][..2] == [0, 0];
    assert [0, 0][..1] == [0];
  }

  // ---------------------------------------------------------------------
  // Gray code
  // ---------------------------------------------------------------------

  /** XOR of all genes of `s`. */
  function Parity(s: seq<Bit>): Bit
  {
    if s == [] then 0 else Xor(Parity(s[..|s| - 1]), s[|s| - 1])
  }

  /**
   * Gray decoding into plain binary: each output gene is the running XOR of
   * the input genes so far, starting from `last`.
   */
  function GrayDecodeFrom(gray: seq<Bit>, last: Bit): (r: seq<Bit>)
    ensures |r| == |gray|
  {
    if gray == [] then []
    else
      var v := Xor(last, gray[0]);
      [v] + GrayDecodeFrom(gray[1..], v)
  }

  function GrayDecode(gray: seq<Bit>): (r: seq<Bit>)
    ensures |r| == |gray|
  {
    GrayDecodeFrom(gray, 0)
  }

  /** Gray encoding of plain binary: each gene XOR the gene before it. */
  function GrayEncodeFrom(binary: seq<Bit>, last: Bit): (r: seq<Bit>)
    ensures |r| == |binary|
  {
    if binary == [] then []
    else [Xor(last, binary[0])] + GrayEncodeFrom(binary[1..], binary[0])
  }

  function GrayEncode(binary: seq<Bit>): (r: seq<Bit>)
    ensures |r| == |binary|
  {
    GrayEncodeFrom(binary, 0)
  }

  /** Each decoded gene is the parity of the Gray genes up to and including it. */
  lemma {:induction false} GrayDecodeIsPrefixParity(gray: seq<Bit>, i: nat)
    requires i < |gray|
    ensures GrayDecode(gray)[i] == Parity(gray[..i + 1])
  {
    GrayDecodeFromAt(gray, 0, i);
  }

  lemma {:induction false} GrayDecodeFromAt(gray: seq<Bit>, last: Bit, i: nat)
    requires i < |gray|
    ensures GrayDecodeFrom(gray, last)[i] == Xor(last, Parity(gray[..i + 1]))
  {
    var v := Xor(last, gray[0]);
    if i == 0 {
      assert gray[..1][..0] == [];
    } else {
      GrayDecodeFromAt(gray[1..], v, i - 1);
      assert gray[1..][..i] == gray[1..i + 1];
      ParityCons(gray[0], gray[1..i + 1]);
      assert [gray[0]] + gray[1..i + 1] == gray[..i + 1];
    }
  }

  lemma {:induction false} ParityCons(b: Bit, s: seq<Bit>)
    ensures Parity([b] + s) == Xor(b, Parity(s))
  {
    if s != [] {
      assert ([b] + s)[..|[b] + s| - 1] == [b] + s[..|s| - 1];
      ParityCons(b, s[..|s| - 1]);
    } else {
      assert ([b] + s)[..0] == [];
    }
  }

  /** Decoding undoes encoding. */
  lemma {:induction false} GrayDecodeEncode(binary: seq<Bit>, last: Bit)
    ensures GrayDecodeFrom(GrayEncodeFrom(binary, last), last) == binary
  {
    if binary != [] {
      GrayDecodeEncode(binary[1..], binary[0]);
    }
  }

  /** Encoding undoes decoding. */
  lemma {:induction false} GrayEncodeDecode(gray: seq<Bit>, last: Bit)
    ensures GrayEncodeFrom(GrayDecodeFrom(gray, last), last) == gray
  {
    if gray != [] {
      GrayEncodeDecode(gray[1..], Xor(last, gray[0]));
    }
  }

  /** Gray mapping: decode to plain binary, then read it as ones-complement. */
  function GrayCode(block: seq<Bit>): (r: nat)
    ensures r < Pow2(|block|)
  {
    OnesComplement(GrayDecode(block))
  }

  /** Every value of the block's range has exactly one Gray code. */
  lemma GrayCodeRoundTrip(binary: seq<Bit>)
    ensures GrayCode(GrayEncode(binary)) == OnesComplement(binary)
  {
    GrayDecodeEncode(binary, 0);
  }

  /** The test's example: [1,0,0,0] decodes to 15. */
  lemma GrayCodeExample()
    ensures GrayCode([1, 0, 0, 0]) == 15
  {
    assert GrayDecode([1, 0, 0, 0]) == [1, 1, 1, 1];
    assert [1, 1, 1, 1][..3] == [1, 1, 1];
    assert [1, 1, 1][..2] == [1, 1];
    assert [1, 1][..1] == [1];
  }

  // ---------------------------------------------------------------------
  // Count
  // ---------------------------------------------------------------------

  /** Number of ones in the block. */
  function CountOnes(block: seq<Bit>): (r: nat)
    ensures r <= |block|
  {
    if block == [] then 0 else block[0] + CountOnes(block[1..])
  }

  /** The count is 0 exactly for an all-zero block and |block| exactly for an all-one block. */
  lemma {:induction false} CountOnesExtremes(block: seq<Bit>)
    ensures CountOnes(block) == 0 <==> (forall i :: 0 <= i < |block| ==> block[i] == 0)
    ensures CountOnes(block) == |block| <==> (forall i :: 0 <= i < |block| ==> block[i] == 1)
  {
    if block != [] {
      CountOnesExtremes(block[1..]);
      assert forall i :: 1 <= i < |block| ==> block[i] == block[1..][i - 1];
    }
  }

  // ---------------------------------------------------------------------
  // Phenome
  // ---------------------------------------------------------------------

  /** The four encodings a binary-integer individual may use (count is the default). */
  datatype Encoding = OnesComplementMapping | TwosComplementMapping | GrayCodeMapping | CountMapping

  /** Decodes one block; only twos-complement can fail (on an empty block). */
  function Decode(encoding: Encoding, block: seq<Bit>): (r: Option<int>)
    ensures r.None? <==> encoding == TwosComplementMapping && block == []
  {
    match encoding
    case OnesComplementMapping => Some(OnesComplement(block))
    case TwosComplementMapping => TwosComplement(block)
    case GrayCodeMapping => Some(GrayCode(block))
    case CountMapping => Some(CountOnes(block))
  }

  /** Decodes every block in order, failing if any block fails. */
  function DecodeAll(encoding: Encoding, blocks: seq<seq<Bit>>): (r: Option<seq<int>>)
    ensures r.Some? <==> forall k :: 0 <= k < |blocks| ==> Decode(encoding, blocks[k]).Some?
    ensures r.Some? ==> |r.value| == |blocks|
    ensures r.Some? ==> forall k :: 0 <= k < |blocks| ==> r.value[k] == Decode(encoding, blocks[k]).value
  {
    if blocks == [] then Some([])
    else
      match (Decode(encoding, blocks[0]), DecodeAll(encoding, blocks[1..]))
      case (Some(v), Some(rest)) => Some([v] + rest)
      case _ => None
  }

  function TotalBits(s: seq<nat>): nat
  {
    if s == [] then 0 else s[0] + TotalBits(s[1..])
  }

  /**
   * The blocks cut from `genome` starting at `i`: one block of `bits[k]`
   * genes per entry, stopping at the first block that would run past the end.
   */
  function Blocks(genome: seq<Bit>, bits: seq<nat>, i: nat): (r: seq<seq<Bit>>)
    ensures |r| <= |bits|
    decreases |bits|
  {
    if bits == [] || i + bits[0] > |genome| then []
    else [genome[i..i + bits[0]]] + Blocks(genome, bits[1..], i + bits[0])
  }

  /** There is at most one block per `bits` entry, and the k-th block has `bits[k]` genes. */
  lemma {:induction false} BlocksLengths(genome: seq<Bit>, bits: seq<nat>, i: nat)
    ensures forall k :: 0 <= k < |Blocks(genome, bits, i)| ==> |Blocks(genome, bits, i)[k]| == bits[k]
    decreases |bits|
  {
    if bits != [] && i + bits[0] <= |genome| {
      BlocksLengths(genome, bits[1..], i + bits[0]);
    }
  }

  /** The genes of a list of blocks, in order. */
  function Flatten(blocks: seq<seq<Bit>>): seq<Bit>
  {
    if blocks == [] then [] else blocks[0] + Flatten(blocks[1..])
  }

  /**
   * The blocks, put back together, are the genome from `i` on up to the end
   * of the last block taken; when fewer blocks than `bits` entries are taken,
   * the next block would have run past the end of the genome.
   */
  lemma {:induction false} BlocksShape(genome: seq<Bit>, bits: seq<nat>, i: nat)
    requires i <= |genome|
    ensures var r := Blocks(genome, bits, i);
      i + TotalBits(bits[..|r|]) <= |genome| &&
      Flatten(r) == genome[i..i + TotalBits(bits[..|r|])] &&
      (|r| < |bits| ==> i + TotalBits(bits[..|r|]) + bits[|r|] > |genome|)
    decreases |bits|
  {
    var r := Blocks(genome, bits, i);
    BlocksLengths(genome, bits, i);
    if bits == [] || i + bits[0] > |genome| {
      assert bits[..0] == [];
    } else {
      BlocksShape(genome, bits[1..], i + bits[0]);
      var rest := Blocks(genome, bits[1..], i + bits[0]);
      assert r[1..] == rest;
      assert bits[..|r|][1..] == bits[1..][..|rest|];
      assert bits[|r|..] == bits[1..][|rest|..];
      assert genome[i..i + bits[0]] + genome[i + bits[0]..i + TotalBits(bits[..|r|])]
          == genome[i..i + TotalBits(bits[..|r|])];
    }
  }

  /** The blocks of a genome whose genes are all `b` are all-`b` blocks. */
  lemma {:induction false} BlocksOfRepeat(b: Bit, n: nat, bits: seq<nat>, i: nat)
    ensures var r := Blocks(Repeat(b, n), bits, i);
      forall k :: 0 <= k < |r| ==> r[k] == Repeat(b, bits[k])
    decreases |bits|
  {
    if bits != [] && i + bits[0] <= n {
      BlocksOfRepeat(b, n, bits[1..], i + bits[0]);
      var r := Blocks(Repeat(b, n), bits, i);
      assert r[0] == Repeat(b, bits[0]);
    }
  }

  /** How many blocks are taken depends only on the genome's length. */
  lemma {:induction false} BlocksCount(g1: seq<Bit>, g2: seq<Bit>, bits: seq<nat>, i: nat)
    requires |g1| == |g2|
    ensures |Blocks(g1, bits, i)| == |Blocks(g2, bits, i)|
    decreases |bits|
  {
    if bits != [] && i + bits[0] <= |g1| {
      BlocksCount(g1, g2, bits[1..], i + bits[0]);
    }
  }

  /** The phenome of a genome: its blocks decoded by the individual's encoding. */
  function PhenomeOf(genome: seq<Bit>, bits: seq<nat>, encoding: Encoding): Option<seq<int>>
  {
    DecodeAll(encoding, Blocks(genome, bits, 0))
  }

  function Repeat(b: Bit, n: nat): (r: seq<Bit>)
    ensures |r| == n && forall i :: 0 <= i < n ==> r[i] == b
  {
    if n == 0 then [] else [b] + Repeat(b, n - 1)
  }

  /** A block of zeros decodes to 0 and a block of ones to 2^n - 1 (ones-complement). */
  lemma {:induction false} OnesComplementExtremes(n: nat)
    ensures OnesComplement(Repeat(0, n)) == 0
    ensures OnesComplement(Repeat(1, n)) == Pow2(n) - 1
  {
    if n > 0 {
      OnesComplementExtremes(n - 1);
      assert Repeat(0, n)[..n - 1] == Repeat(0, n - 1);
      assert Repeat(1, n)[..n - 1] == Repeat(1, n - 1);
    }
  }

  /**
   * Computes the phenome as the individual does: walk `bits`, stop at the
   * first block that does not fit, then decode the blocks.
   */
  method ComputePhenome(genome: seq<Bit>, bits: seq<nat>, encoding: Encoding) returns (r: Option<seq<int>>)
    ensures r == PhenomeOf(genome, bits, encoding)
  {
    var genes: seq<seq<Bit>> := [];
    var i: nat := 0;
    var k := 0;
    while k < |bits|
      invariant 0 <= k <= |bits|
      invariant genes + Blocks(genome, bits[k..], i) == Blocks(genome, bits, 0)
    {
      if i + bits[k] > |genome| {
        BlocksStep(genome, bits, k, i, genes);
        break;
      }
      BlocksStep(genome, bits, k, i, genes);
      genes := genes + [genome[i..i + bits[k]]];
      i := i + bits[k];
      k := k + 1;
    }
    if k == |bits| {
      assert bits[k..] == [];
      assert Blocks(genome, bits[k..], i) == [];
      assert genes + [] == genes;
    }
    r := DecodeAll(encoding, genes);
  }

  /** One iteration of the block-cutting loop. */
  lemma BlocksStep(genome: seq<Bit>, bits: seq<nat>, k: nat, i: nat, genes: seq<seq<Bit>>)
    requires k < |bits|
    requires genes + Blocks(genome, bits[k..], i) == Blocks(genome, bits, 0)
    ensures i + bits[k] > |genome| ==> genes == Blocks(genome, bits, 0)
    ensures i + bits[k] <= |genome| ==>
      (genes + [genome[i..i + bits[k]]]) + Blocks(genome, bits[k + 1..], i + bits[k]) == Blocks(genome, bits, 0)
  {
    assert bits[k..][0] == bits[k];
    assert bits[k..][1..] == bits[k + 1..];
  }

  /**
   * A binary-integer individual: the genome, how it is cut into blocks, the
   * encoding, the cached phenome and the bounds computed at construction.
   */
  class BinaryIntegerIndividual {
    const genome: seq<Bit>
    const bitsPerValue: seq<nat>
    const encoding: Encoding
    const lowerBounds: Option<seq<int>>
    const upperBounds: Option<seq<int>>
    var cache: seq<int>

    /** The cache, when filled, holds the phenome of the genome. */
    ghost predicate Valid()
      reads this
    {
      cache != [] ==> PhenomeOf(genome, bitsPerValue, encoding) == Some(cache)
    }

    /**
     * The bounds are the phenomes of the all-zero and the all-one genome
     * of the same length.
     */
    constructor (genome: seq<Bit>, bitsPerValue: seq<nat>, encoding: Encoding)
      ensures Valid()
      ensures this.genome == genome && this.bitsPerValue == bitsPerValue && this.encoding == encoding
      ensures lowerBounds == PhenomeOf(Repeat(0, |genome|), bitsPerValue, encoding)
      ensures upperBounds == PhenomeOf(Repeat(1, |genome|), bitsPerValue, encoding)
    {
      this.genome := genome;
      this.bitsPerValue := bitsPerValue;
      this.encoding := encoding;
      var lower := ComputePhenome(Repeat(0, |genome|), bitsPerValue, encoding);
      var upper := ComputePhenome(Repeat(1, |genome|), bitsPerValue, encoding);
      lowerBounds := lower;
      upperBounds := upper;
      cache := [];
    }

    /** The phenome, computed on first use (an empty result is recomputed each time). */
    method Phenome() returns (r: Option<seq<int>>)
      requires Valid()
      modifies this`cache
      ensures Valid()
      ensures r == PhenomeOf(genome, bitsPerValue, encoding)
    {
      if cache == [] {
        r := ComputePhenome(genome, bitsPerValue, encoding);
        if r.Some? {
          cache := r.value;
        }
      } else {
        r := Some(cache);
      }
    }
  }

  /**
   * Under ones-complement, every phenome value of a genome lies between the
   * values of the all-zero and all-one genomes of the same length.
   */
  lemma OnesComplementBounds(genome: seq<Bit>, bits: seq<nat>, k: nat)
    requires k < |Blocks(genome, bits, 0)|
    ensures var lo := PhenomeOf(Repeat(0, |genome|), bits, OnesComplementMapping);
      var hi := PhenomeOf(Repeat(1, |genome|), bits, OnesComplementMapping);
      var p := PhenomeOf(genome, bits, OnesComplementMapping);
      lo.Some? && hi.Some? && p.Some? && k < |lo.value| == |p.value| == |hi.value| &&
      lo.value[k] == 0 <= p.value[k] <= hi.value[k] == Pow2(bits[k]) - 1
  {
    var zeros, ones := Repeat(0, |genome|), Repeat(1, |genome|);
    BlocksCount(genome, zeros, bits, 0);
    BlocksCount(genome, ones, bits, 0);
    BlocksOfRepeat(0, |genome|, bits, 0);
    BlocksOfRepeat(1, |genome|, bits, 0);
    BlocksLengths(genome, bits, 0);
    OnesComplementExtremes(bits[k]);
  }

  /** Under count mapping, the same holds with the block length as the top value. */
  lemma CountBounds(genome: seq<Bit>, bits: seq<nat>, k: nat)
    requires k < |Blocks(genome, bits, 0)|
    ensures var lo := PhenomeOf(Repeat(0, |genome|), bits, CountMapping);
      var hi := PhenomeOf(Repeat(1, |genome|), bits, CountMapping);
      var p := PhenomeOf(genome, bits, CountMapping);
      lo.Some? && hi.Some? && p.Some? && k < |lo.value| == |p.value| == |hi.value| &&
      lo.value[k] == 0 <= p.value[k] <= hi.value[k] == bits[k]
  {
    var zeros, ones := Repeat(0, |genome|), Repeat(1, |genome|);
    BlocksCount(genome, zeros, bits, 0);
    BlocksCount(genome, ones, bits, 0);
    BlocksOfRepeat(0, |genome|, bits, 0);
    BlocksOfRepeat(1, |genome|, bits, 0);
    BlocksLengths(genome, bits, 0);
    CountOnesExtremes(Repeat(0, bits[k]));
    CountOnesExtremes(Repeat(1, bits[k]));
  }
}
