/**
 * Permutation genomes (esec/species/sequence.py): the legality check,
 * sequential repair of duplicates, and forward initialisation.
 */
module SequenceSpecies {
  import opened Wrappers

  /** The set of values in a genome (`set(genome)`). */
  function Elems(s: seq<int>): set<int>
  {
    set x | x in s
  }

  /** No value occurs twice. */
  predicate Distinct(s: seq<int>)
  {
    forall i, j :: 0 <= i < j < |s| ==> s[i] != s[j]
  }

  /** Position i repeats a value seen earlier: it is not the first occurrence. */
  predicate Repeat(s: seq<int>, i: nat)
    requires i < |s|
  {
    s[i] in s[..i]
  }

  /** The number of positions that repeat an earlier value. */
  function Dups(s: seq<int>): nat
  {
    if s == [] then 0
    else Dups(s[..|s| - 1]) + (if s[|s| - 1] in s[..|s| - 1] then 1 else 0)
  }

  /** Each value is counted once in the set, so the repeats make up the rest of the length. */
  lemma {:induction false} DupsCount(s: seq<int>)
    ensures Dups(s) + |Elems(s)| == |s|
  {
    if s != [] {
      var init := s[..|s| - 1];
      DupsCount(init);
      var last := s[|s| - 1];
      assert Elems(s) == Elems(init) + {last} by {
        assert s == init + [last];
      }
      assert last in Elems(init) <==> last in init;
      if last in init {
        assert Elems(s) == Elems(init);
        assert Dups(s) == Dups(init) + 1;
      } else {
        assert |Elems(s)| == |Elems(init)| + 1;
        assert Dups(s) == Dups(init);
      }
    }
  }

  /** A genome without repeats is exactly one with as many distinct values as genes. */
  lemma {:induction false} DupsZero(s: seq<int>)
    ensures Dups(s) == 0 <==> Distinct(s)
  {
    if s != [] {
      var init := s[..|s| - 1];
      DupsZero(init);
      if Distinct(s) {
        assert Distinct(init) by {
          forall i, j | 0 <= i < j < |init| ensures init[i] != init[j] {
            assert init[i] == s[i] && init[j] == s[j];
          }
        }
      }
    }
  }

  /** The repeats in a prefix never exceed those in a longer prefix; a repeat at a adds one. */
  lemma {:induction false} DupsMonotone(s: seq<int>, a: nat, b: nat)
    requires a <= b <= |s|
    ensures Dups(s[..a]) <= Dups(s[..b])
    ensures a < b && Repeat(s, a) ==> Dups(s[..a]) < Dups(s[..b])
    decreases b - a
  {
    if a < b {
      DupsMonotone(s, a, b - 1);
      assert s[..b][..b - 1] == s[..b - 1];
      if a == b - 1 && Repeat(s, a) {
        assert s[..b][b - 1] == s[a];
      }
    }
  }

  /** `legal`: the genome has as many distinct values as genes, i.e. no value occurs twice. */
  function Legal(genome: seq<int>): (r: bool)
    ensures r <==> Distinct(genome)
  {
    DupsCount(genome);
    DupsZero(genome);
    |Elems(genome)| == |genome|
  }

  // ---------------------------------------------------------------------
  // Sequential repair
  // ---------------------------------------------------------------------

  /** The set {0, ..., n - 1} (`set(xrange(n))`). */
  function Range(n: nat): (r: set<int>)
    ensures forall x :: x in r <==> 0 <= x < n
  {
    if n == 0 then {} else Range(n - 1) + {n - 1}
  }

  /** `sorted(needs - has)`: the values below n missing from the genome, in ascending order. */
  function MissingBelow(g: seq<int>, n: nat): (r: seq<int>)
    ensures forall i :: 0 <= i < |r| ==> 0 <= r[i] < n && r[i] !in g
    ensures forall i, j :: 0 <= i < j < |r| ==> r[i] < r[j]
  {
    if n == 0 then [] else MissingBelow(g, n - 1) + (if n - 1 in g then [] else [n - 1])
  }

  /** Every value below n is either in the genome or among the missing ones. */
  lemma {:induction false} MissingBelowCount(g: seq<int>, n: nat)
    ensures |MissingBelow(g, n)| + |Elems(g) * Range(n)| == n
  {
    if n > 0 {
      MissingBelowCount(g, n - 1);
      var below := Elems(g) * Range(n - 1);
      if n - 1 in g {
        assert Elems(g) * Range(n) == below + {n - 1};
        assert n - 1 !in below;
      } else {
        assert Elems(g) * Range(n) == below;
      }
    }
  }

  /** There are at least as many missing values as repeated positions. */
  lemma EnoughMissing(g: seq<int>)
    ensures Dups(g) <= |MissingBelow(g, |g|)|
  {
    DupsCount(g);
    MissingBelowCount(g, |g|);
    SubsetCard(Elems(g) * Range(|g|), Elems(g));
  }

  lemma {:induction false} SubsetCard(a: set<int>, b: set<int>)
    requires a <= b
    ensures |a| <= |b|
    ensures |a| == |b| ==> a == b
    decreases |b|
  {
    if forall x :: x in b ==> x in a {
      assert a == b;
    } else {
      var x :| x in b && x !in a;
      SubsetCard(a, b - {x});
    }
  }

  /** Every repeated position has a replacement value available. */
  predicate EnoughWants(g: seq<int>, wants: seq<int>)
  {
    forall i :: 0 <= i < |g| && Repeat(g, i) ==> Dups(g[..i]) < |wants|
  }

  lemma EnoughWantsFromCount(g: seq<int>, wants: seq<int>)
    requires Dups(g) <= |wants|
    ensures EnoughWants(g, wants)
  {
    forall i | 0 <= i < |g| && Repeat(g, i) ensures Dups(g[..i]) < |wants| {
      DupsMonotone(g, i, |g|);
      assert g[..|g|] == g;
    }
  }

  /**
   * The repaired genome: the first occurrence of each value stays, and the
   * repeated positions, from left to right, take the wanted values in order.
   */
  function Repaired(g: seq<int>, wants: seq<int>): (r: seq<int>)
    requires EnoughWants(g, wants)
    ensures |r| == |g|
  {
    seq(|g|, i requires 0 <= i < |g| => if Repeat(g, i) then wants[Dups(g[..i])] else g[i])
  }

  /**
   * With distinct replacement values that the genome does not already
   * hold, the repaired genome has no repeats.
   */
  lemma RepairedDistinct(g: seq<int>, wants: seq<int>)
    requires EnoughWants(g, wants)
    requires forall i, j :: 0 <= i < j < |wants| ==> wants[i] != wants[j]
    requires forall i :: 0 <= i < |wants| ==> wants[i] !in g
    ensures Distinct(Repaired(g, wants))
  {
    var r := Repaired(g, wants);
    forall a, b | 0 <= a < b < |r| ensures r[a] != r[b] {
      if Repeat(g, a) && Repeat(g, b) {
        DupsMonotone(g, a, b);
      } else if !Repeat(g, b) && !Repeat(g, a) {
        assert g[..b][a] == g[a];
      }
    }
  }

  /**
   * When every gene lies in [0, n) for n the genome length, the repaired
   * genome holds each of 0 .. n - 1 exactly once.
   */
  lemma RepairedIsPermutation(g: seq<int>)
    requires forall i :: 0 <= i < |g| ==> 0 <= g[i] < |g|
    ensures EnoughWants(g, MissingBelow(g, |g|))
    ensures Distinct(Repaired(g, MissingBelow(g, |g|)))
    ensures Elems(Repaired(g, MissingBelow(g, |g|))) == Range(|g|)
  {
    var wants := MissingBelow(g, |g|);
    EnoughMissing(g);
    EnoughWantsFromCount(g, wants);
    var r := Repaired(g, wants);
    RepairedDistinct(g, wants);
    DupsZero(r);
    DupsCount(r);
    assert Elems(r) <= Range(|g|);
    RangeCard(|g|);
    SubsetCard(Elems(r), Range(|g|));
  }

  lemma {:induction false} RangeCard(n: nat)
    ensures |Range(n)| == n
  {
    if n > 0 {
      RangeCard(n - 1);
    }
  }

  /** A genome with no repeats is its own repair. */
  lemma RepairedLegal(g: seq<int>, wants: seq<int>)
    requires Distinct(g)
    ensures EnoughWants(g, wants)
    ensures Repaired(g, wants) == g
  {
    forall i | 0 <= i < |g| ensures !Repeat(g, i) {
      assert forall k :: 0 <= k < i ==> g[..i][k] == g[k];
    }
  }

  /**
   * `repair` with `sequentially` set, for one individual: a legal genome is
   * returned as it is (`repaired` false); otherwise each position after the
   * first occurrence of its value takes the lowest value below the length
   * that the genome lacks and that is not yet used.
   */
  method Repair(genes: seq<int>) returns (r: seq<int>, repaired: bool)
    ensures repaired <==> !Distinct(genes)
    ensures EnoughWants(genes, MissingBelow(genes, |genes|))
    ensures r == Repaired(genes, MissingBelow(genes, |genes|))
    ensures Distinct(r)
  {
    var wants := MissingBelow(genes, |genes|);
    EnoughMissing(genes);
    EnoughWantsFromCount(genes, wants);
    if Legal(genes) {
      RepairedLegal(genes, wants);
      return genes, false;
    }
    RepairedDistinct(genes, wants);
    r := [];
    var k := 0;
    var i := 0;
    while i < |genes|
      invariant 0 <= i <= |genes| && k == Dups(genes[..i])
      invariant r == Repaired(genes, wants)[..i]
    {
      assert genes[..i + 1][..i] == genes[..i];
      if genes[i] in genes[..i] {
        r := r + [wants[k]];
        k := k + 1;
      } else {
        r := r + [genes[i]];
      }
      i := i + 1;
    }
    repaired := true;
  }

  /** For [1, 1, 0] the only value below 3 that is missing is 2. */
  lemma MissingExample()
    ensures MissingBelow([1, 1, 0], 3) == [2]
  {
    var g := [1, 1, 0];
    assert g[2] == 0 && g[0] == 1;
    assert 2 !in g;
    assert MissingBelow(g, 1) == [];
    assert MissingBelow(g, 2) == [];
  }

  /** The repeated 1 at position 1 of [1, 1, 0] takes the missing 2. */
  lemma RepairExample()
    ensures EnoughWants([1, 1, 0], [2])
    ensures Repaired([1, 1, 0], [2]) == [1, 2, 0]
  {
    var g := [1, 1, 0];
    assert g[..1] == [1] && g[..2] == [1, 1];
    assert Dups([1]) == 0 by {
      assert [1][..0] == [];
    }
    assert !Repeat(g, 0) && Repeat(g, 1) && !Repeat(g, 2);
    var r := Repaired(g, [2]);
    assert r[0] == 1 && r[1] == 2 && r[2] == 0;
  }

  // ---------------------------------------------------------------------
  // Initialisation
  // ---------------------------------------------------------------------

  /** How the length is configured: absent, a number, or a size dictionary with an optional 'exact'. */
  datatype LengthArg = NoLength | Number(n: int) | SizeDict(exact: Option<int>)

  datatype LengthError = NotPositive | NoExactLength

  /**
   * `_get_length`: an absent length falls back to `item_count`; a size
   * dictionary gives its 'exact' entry (an absent one cannot be converted
   * with `int`); the length must be positive.
   */
  function GetLength(length: LengthArg, itemCount: int): (r: Result<nat, LengthError>)
    ensures r.Ok? ==> r.value > 0
    ensures length.NoLength? ==> (r.Ok? <==> itemCount > 0) && (r.Ok? ==> r.value == itemCount)
    ensures length.Number? ==> (r.Ok? <==> length.n > 0) && (r.Ok? ==> r.value == length.n)
    ensures length == SizeDict(None) ==> r == Err(NoExactLength)
  {
    var n := match length
      case NoLength => Ok(itemCount)
      case Number(v) => Ok(v)
      case SizeDict(e) => if e.Some? then Ok(e.value) else Err(NoExactLength);
    match n
    case Err(e) => Err(e)
    case Ok(v) => if v > 0 then Ok(v) else Err(NotPositive)
  }

  /** `init_forward`: the genome 0, 1, ..., n - 1. */
  function InitForward(n: nat): (r: seq<int>)
    ensures |r| == n && forall i :: 0 <= i < n ==> r[i] == i
  {
    seq(n, i => i)
  }

  /** The forward genome is legal and holds each of 0 .. n - 1 once. */
  lemma InitForwardLegal(n: nat)
    ensures Legal(InitForward(n))
    ensures Elems(InitForward(n)) == Range(n)
  {
    var r := InitForward(n);
    forall x | x in Range(n) ensures x in Elems(r) {
      assert r[x] == x;
    }
  }
}
