/**
 * Support functions of the framework (esec/utils/__init__.py): safe
 * division, nested dictionary merging, `all_equal`, and the pair
 * generators used by recombination and tour-length evaluation.
 */
module Utils {
  import opened Wrappers
  import opened PyValues

  // ---------------------------------------------------------------------
  // safe_div
  // ---------------------------------------------------------------------

  /** Python's integer `//` (and Python 2's `/` on integers): the floor of a / b. */
  function FloorDivide(a: int, b: int): (q: int)
    requires b != 0
    ensures b > 0 ==> q * b <= a < q * b + b
    ensures b < 0 ==> q * b >= a > q * b + b
  {
    if b > 0 then a / b else (-a) / (-b)
  }

  /** `safe_div`: the quotient, or 0 when the divisor is 0 (falsy). */
  function SafeDiv(first: int, second: int): (r: int)
    ensures second == 0 ==> r == 0
    ensures second > 0 ==> r * second <= first < r * second + second
    ensures second < 0 ==> r * second >= first > r * second + second
  {
    if second != 0 then FloorDivide(first, second) else 0
  }

  /** The test's cases. */
  lemma SafeDivExamples()
    ensures SafeDiv(4, 2) == 2 && SafeDiv(1, 0) == 0
  {
  }

  // ---------------------------------------------------------------------
  // dict_merge
  // ---------------------------------------------------------------------

  /** Both the value in `first` and the one in `second` are dictionaries: they are merged. */
  predicate BothDicts(first: map<string, Value>, second: map<string, Value>, key: string)
  {
    key in first && key in second && first[key].Dict? && second[key].Dict?
  }

  /**
   * `dict_merge(first, second)`: a copy of `first` with `second` laid over
   * it; where both hold a dictionary under the same key the two are merged
   * recursively. A `second` of None leaves the copy as it is. (`first`
   * itself is a value here, so it is never modified.)
   */
  function DictMerge(first: map<string, Value>, second: Option<map<string, Value>>): (r: map<string, Value>)
    ensures second.None? ==> r == first
    ensures second.Some? ==> r.Keys == first.Keys + second.value.Keys
    decreases Dict(first)
  {
    match second
    case None => first
    case Some(s) =>
      map k | k in first.Keys + s.Keys ::
        if k in s then
          (if BothDicts(first, s, k) then Dict(DictMerge(first[k].entries, Some(s[k].entries))) else s[k])
        else first[k]
  }

  /**
   * `second` wins at every key where the two are not both dictionaries, and
   * keys only in `first` keep their value.
   */
  lemma DictMergeWins(first: map<string, Value>, second: map<string, Value>, k: string)
    ensures k in second && !BothDicts(first, second, k) ==> DictMerge(first, Some(second))[k] == second[k]
    ensures k in first && k !in second ==> DictMerge(first, Some(second))[k] == first[k]
    ensures BothDicts(first, second, k) ==>
      DictMerge(first, Some(second))[k] == Dict(DictMerge(first[k].entries, Some(second[k].entries)))
  {
  }

  /** Merging a dictionary with itself gives it back. */
  lemma {:induction false} DictMergeIdempotent(d: map<string, Value>)
    ensures DictMerge(d, Some(d)) == d
    decreases Dict(d)
  {
    var r := DictMerge(d, Some(d));
    forall k | k in d ensures r[k] == d[k] {
      if d[k].Dict? {
        DictMergeIdempotent(d[k].entries);
      }
    }
  }

  /** Merging onto an empty dictionary gives `second` itself. */
  lemma DictMergeOntoEmpty(second: map<string, Value>)
    ensures DictMerge(map[], Some(second)) == second
  {
  }

  /** The nested part of the test's overlay example: {x:1, y:2} + {x:5}. */
  lemma DictMergeExampleNested()
    ensures DictMerge(map["x" := Int(1), "y" := Int(2)], Some(map["x" := Int(5)])) == map["x" := Int(5), "y" := Int(2)]
  {
    var r := DictMerge(map["x" := Int(1), "y" := Int(2)], Some(map["x" := Int(5)]));
    assert r.Keys == {"x", "y"};
    assert r["x"] == Int(5) && r["y"] == Int(2);
  }

  /** The test's overlay example: {a:1, b:2, c:{x:1, y:2}} + {f:8, b:3, c:{x:5}}. */
  lemma DictMergeExample()
    ensures DictMerge(
      map["a" := Int(1), "b" := Int(2), "c" := Dict(map["x" := Int(1), "y" := Int(2)])],
      Some(map["f" := Int(8), "b" := Int(3), "c" := Dict(map["x" := Int(5)])]))
      == map["a" := Int(1), "b" := Int(3), "c" := Dict(map["x" := Int(5), "y" := Int(2)]), "f" := Int(8)]
  {
    var first := map["a" := Int(1), "b" := Int(2), "c" := Dict(map["x" := Int(1), "y" := Int(2)])];
    var second := map["f" := Int(8), "b" := Int(3), "c" := Dict(map["x" := Int(5)])];
    var expected := map["a" := Int(1), "b" := Int(3), "c" := Dict(map["x" := Int(5), "y" := Int(2)]), "f" := Int(8)];
    DictMergeExampleNested();
    var r := DictMerge(first, Some(second));
    assert r.Keys == expected.Keys;
    assert BothDicts(first, second, "c");
    assert r["a"] == expected["a"] && r["b"] == expected["b"];
    assert r["c"] == expected["c"] && r["f"] == expected["f"];
  }

  // ---------------------------------------------------------------------
  // all_equal
  // ---------------------------------------------------------------------

  /** `all_equal`: every element equals the first; an empty list has no first (IndexError, None). */
  function AllEqual<T(==)>(values: seq<T>): (r: Option<bool>)
    ensures r.None? <==> values == []
    ensures r.Some? ==> (r.value <==> forall i :: 0 <= i < |values| ==> values[i] == values[0])
  {
    if values == [] then None
    else Some(forall i :: 1 <= i < |values| ==> values[i] == values[0])
  }

  /** Equal to the first element means all pairwise equal. */
  lemma AllEqualPairwise<T>(values: seq<T>)
    requires values != []
    ensures AllEqual(values).value <==>
      forall i, j :: 0 <= i < |values| && 0 <= j < |values| ==> values[i] == values[j]
  {
    if AllEqual(values).value {
      forall i, j | 0 <= i < |values| && 0 <= j < |values| ensures values[i] == values[j] {
        assert values[i] == values[0] && values[j] == values[0];
      }
    }
  }

  // ---------------------------------------------------------------------
  // pairs and overlapped_pairs
  // ---------------------------------------------------------------------

  /** `pairs` on a list: `zip(source[::2], source[1::2])`. */
  function Pairs<T>(source: seq<T>): (r: seq<(T, T)>)
    ensures |r| == |source| / 2
  {
    if |source| < 2 then [] else [(source[0], source[1])] + Pairs(source[2..])
  }

  /** Pair i holds elements 2i and 2i + 1: the pairs are disjoint and consecutive. */
  lemma {:induction false} PairsElements<T>(source: seq<T>, i: nat)
    requires i < |source| / 2
    ensures 2 * i + 1 < |source|
    ensures Pairs(source)[i] == (source[2 * i], source[2 * i + 1])
  {
    if i > 0 {
      PairsElements(source[2..], i - 1);
    }
  }

  /** All elements but an odd trailing one, put back together. */
  function Unpair<T>(ps: seq<(T, T)>): (r: seq<T>)
    ensures |r| == 2 * |ps|
  {
    if ps == [] then [] else [ps[0].0, ps[0].1] + Unpair(ps[1..])
  }

  /** Flattening the pairs gives the source without its odd trailing element. */
  lemma {:induction false} PairsCover<T>(source: seq<T>)
    ensures Unpair(Pairs(source)) == source[..|source| / 2 * 2]
  {
    if |source| >= 2 {
      PairsCover(source[2..]);
      assert source[2..][..|source[2..]| / 2 * 2] == source[2..|source| / 2 * 2];
    }
  }

  /**
   * `pairs` on any other iterable: the generator takes two items at a
   * time and stops when fewer than two are left.
   */
  method PairsIter<T>(source: seq<T>) returns (out: seq<(T, T)>)
    ensures out == Pairs(source)
  {
    out := [];
    var i := 0;
    while i + 1 < |source|
      invariant 0 <= i <= |source| && i % 2 == 0
      invariant out + Pairs(source[i..]) == Pairs(source)
      decreases |source| - i
    {
      assert source[i..][2..] == source[i + 2..];
      out := out + [(source[i], source[i + 1])];
      i := i + 2;
    }
    assert out + [] == out;
  }

  /**
   * `overlapped_pairs` on a list: `zip_longest(source, source[1:],
   * fillvalue=source[0])`, so the last element pairs with the first. An
   * empty list has no `source[0]` (IndexError, None).
   */
  function OverlappedPairs<T>(source: seq<T>): (r: Option<seq<(T, T)>>)
    ensures r.None? <==> source == []
    ensures r.Some? ==> |r.value| == |source|
  {
    if source == [] then None
    else Some(seq(|source|, i requires 0 <= i < |source| =>
      (source[i], if i + 1 < |source| then source[i + 1] else source[0])))
  }

  /** Pair i joins element i to the next one, cyclically. */
  lemma OverlappedPairsCyclic<T>(source: seq<T>, i: nat)
    requires i < |source|
    ensures OverlappedPairs(source).value[i] == (source[i], source[(i + 1) % |source|])
  {
    if i + 1 == |source| {
      assert (i + 1) % |source| == 0;
    } else {
      assert (i + 1) % |source| == i + 1;
    }
  }

  /** Each item paired with the next, without the closing pair. */
  function ChainedPairs<T>(source: seq<T>): (r: seq<(T, T)>)
    ensures |r| == if source == [] then 0 else |source| - 1
  {
    if |source| < 2 then [] else [(source[0], source[1])] + ChainedPairs(source[1..])
  }

  /**
   * `overlapped_pairs` on any other iterable, as written: the generator
   * pairs each item with the next and never pairs the last with the first,
   * so it yields one pair fewer than the list form (none for fewer than
   * two items).
   */
  method OverlappedPairsIterAsWritten<T>(source: seq<T>) returns (out: seq<(T, T)>)
    ensures out == ChainedPairs(source)
  {
    out := [];
    if source == [] {
      return;
    }
    var p1 := source[0];
    var i := 1;
    while i < |source|
      invariant 1 <= i <= |source| && p1 == source[i - 1]
      invariant out + ChainedPairs(source[i - 1..]) == ChainedPairs(source)
    {
      assert source[i - 1..][1..] == source[i..];
      var p2 := source[i];
      out := out + [(p1, p2)];
      p1 := p2;
      i := i + 1;
    }
    assert out + [] == out;
  }

  /** For [1, 2, 3] the generator as written misses the closing pair (3, 1) that the list form yields. */
  lemma OverlappedPairsIterCounterexample()
    ensures ChainedPairs([1, 2, 3]) == [(1, 2), (2, 3)]
    ensures OverlappedPairs([1, 2, 3]) == Some([(1, 2), (2, 3), (3, 1)])
  {
    assert [1, 2, 3][1..] == [2, 3] && [2, 3][1..] == [3];
    var r := OverlappedPairs([1, 2, 3]).value;
    assert r[0] == (1, 2) && r[1] == (2, 3) && r[2] == (3, 1);
    assert r == [(1, 2), (2, 3), (3, 1)];
  }

  /** The generator with the closing pair from the last item back to the first restored. */
  method OverlappedPairsIter<T>(source: seq<T>) returns (out: seq<(T, T)>)
    ensures source != [] ==> out == OverlappedPairs(source).value
    ensures source == [] ==> out == []
  {
    out := [];
    if source == [] {
      return;
    }
    var first := source[0];
    var p1 := first;
    var i := 1;
    while i < |source|
      invariant 1 <= i <= |source| && p1 == source[i - 1] && |out| == i - 1
      invariant forall k :: 0 <= k < |out| ==> out[k] == OverlappedPairs(source).value[k]
    {
      var p2 := source[i];
      out := out + [(p1, p2)];
      p1 := p2;
      i := i + 1;
    }
    out := out + [(p1, first)];
  }
}
