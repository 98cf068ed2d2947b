/**
 * Multi-stage fitness values (esec/fitness.py): lexicographic comparison,
 * minimisation, Pareto-style domination, the EmptyFitness sentinel, and
 * part-wise arithmetic. Parts are integers here.
 */
module Fitnesses {

  /**
   * The class of a fitness: `Fitness`/`FitnessMaximise` (larger is
   * fitter), `FitnessMinimise` (smaller is fitter) or the class
   * `SimpleDominatingFitness(count)` returns for a value count.
   */
  datatype Kind = Maximise | Minimise | Dominating(count: nat)

  /** A fitness value, or the EmptyFitness sentinel that stands for "not yet set". */
  datatype Fitness = Empty | Fit(kind: Kind, values: seq<int>)

  // ---------------------------------------------------------------------
  // Tuple ordering
  // ---------------------------------------------------------------------

  /**
   * Python's `<` on tuples: at the first position where they differ the
   * smaller element decides; a proper prefix is smaller.
   */
  predicate LexLess(a: seq<int>, b: seq<int>)
    ensures LexLess(a, b) <==> Precedes(a, b)
  {
    if a == [] then
      assert b != [] ==> [] == b[..0];
      b != []
    else if b == [] then false
    else
      var rest := LexLess(a[1..], b[1..]);
      PrecedesCons(a, b, rest);
      a[0] < b[0] || (a[0] == b[0] && rest)
  }

  /** `a` comes first: `b` properly extends it, or `a` is smaller where they first differ. */
  ghost predicate Precedes(a: seq<int>, b: seq<int>)
  {
    (|a| < |b| && a == b[..|a|]) ||
    exists k :: 0 <= k < |a| && k < |b| && a[..k] == b[..k] && a[k] < b[k]
  }

  /** How `Precedes` of two non-empty tuples follows from their heads and `Precedes` of their tails. */
  lemma PrecedesCons(a: seq<int>, b: seq<int>, rest: bool)
    requires a != [] && b != [] && (rest <==> Precedes(a[1..], b[1..]))
    ensures (a[0] < b[0] || (a[0] == b[0] && rest)) <==> Precedes(a, b)
  {
    if a[0] < b[0] {
      assert a[..0] == b[..0];
    } else if a[0] == b[0] {
      if rest {
        if |a[1..]| < |b[1..]| && a[1..] == b[1..][..|a[1..]|] {
          assert a == b[..|a|] by {
            assert a == [a[0]] + a[1..] && b[..|a|] == [b[0]] + b[1..][..|a[1..]|];
          }
        } else {
          var k :| 0 <= k < |a[1..]| && k < |b[1..]| && a[1..][..k] == b[1..][..k] && a[1..][k] < b[1..][k];
          assert a[..k + 1] == [a[0]] + a[1..][..k] && b[..k + 1] == [b[0]] + b[1..][..k];
          assert a[k + 1] < b[k + 1];
        }
      }
      if Precedes(a, b) {
        if |a| < |b| && a == b[..|a|] {
          assert a[1..] == b[1..][..|a[1..]|];
        } else {
          var k :| 0 <= k < |a| && k < |b| && a[..k] == b[..k] && a[k] < b[k];
          assert k != 0;
          assert a[1..][..k - 1] == a[..k][1..] && b[1..][..k - 1] == b[..k][1..];
          assert a[1..][k - 1] < b[1..][k - 1];
        }
      }
    }
  }

  lemma {:induction false} LexLessIrreflexive(a: seq<int>)
    ensures !LexLess(a, a)
  {
    if a != [] {
      LexLessIrreflexive(a[1..]);
    }
  }

  lemma {:induction false} LexLessTransitive(a: seq<int>, b: seq<int>, c: seq<int>)
    requires LexLess(a, b) && LexLess(b, c)
    ensures LexLess(a, c)
  {
    if a != [] && b != [] && c != [] && a[0] == b[0] && b[0] == c[0] {
      LexLessTransitive(a[1..], b[1..], c[1..]);
    }
  }

  /** Exactly one of a < b, a == b, b < a holds. */
  lemma {:induction false} LexTrichotomy(a: seq<int>, b: seq<int>)
    ensures LexLess(a, b) || a == b || LexLess(b, a)
    ensures !(LexLess(a, b) && LexLess(b, a))
    ensures a == b ==> !LexLess(a, b)
  {
    if a != [] && b != [] && a[0] == b[0] {
      LexTrichotomy(a[1..], b[1..]);
      if a[1..] == b[1..] {
        assert a == [a[0]] + a[1..] && b == [b[0]] + b[1..];
      }
    }
    if a == b {
      LexLessIrreflexive(a);
    }
  }

  // ---------------------------------------------------------------------
  // Comparisons
  // ---------------------------------------------------------------------

  /**
   * `self > other` with `self`'s method: any fitness is fitter than an
   * EmptyFitness, which is fitter than nothing; the plain and minimising
   * classes compare the value tuples lexicographically (in opposite
   * directions); a dominating fitness beats another of its own class when
   * each of its values is at most the other's.
   */
  predicate Gt(self: Fitness, other: Fitness)
    ensures Gt(self, other) ==> self.Fit?
    ensures self.Fit? && other.Empty? ==> Gt(self, other)
    ensures self.Fit? && other.Fit? && self.kind == Maximise ==> (Gt(self, other) <==> Precedes(other.values, self.values))
    ensures self.Fit? && other.Fit? && self.kind == Minimise ==> (Gt(self, other) <==> Precedes(self.values, other.values))
    ensures self.Fit? && self.kind.Dominating? && Gt(self, other) && other.Fit? ==> other.kind == self.kind
  {
    match self
    case Empty => false
    case Fit(kind, values) =>
      if other.Empty? then true
      else match kind
        case Maximise => LexLess(other.values, values)
        case Minimise => LexLess(values, other.values)
        case Dominating(_) =>
          other.kind == kind &&
          forall i :: 0 <= i < |values| && i < |other.values| ==> values[i] <= other.values[i]
  }

  /** `self == other`: equal value tuples, or both EmptyFitness. */
  predicate Eq(self: Fitness, other: Fitness)
    ensures Eq(self, other) ==> (self.Empty? <==> other.Empty?)
    ensures self.Fit? && other.Fit? && Eq(self, other) ==>
      (Gt(self, other) <==> self.kind.Dominating? && other.kind == self.kind)
  {
    match self
    case Empty => other.Empty?
    case Fit(_, values) => LexLessIrreflexive(values); other.Fit? && values == other.values
  }

  /** `self < other`; every EmptyFitness is less, even than another EmptyFitness. */
  predicate Lt(self: Fitness, other: Fitness)
    ensures Lt(self, other) ==> !Gt(self, other)
    ensures SameOrder(self, other) ==> (Lt(self, other) <==> Gt(other, self))
  {
    var r := if self.Empty? then true else !Eq(self, other) && !Gt(self, other);
    if SameOrder(self, other) then LexTrichotomy(self.values, other.values); r else r
  }

  /** `self >= other`. */
  predicate Ge(self: Fitness, other: Fitness)
    ensures self.Fit? ==> (Ge(self, other) <==> !Lt(self, other))
  {
    if self.Empty? then other.Empty? else Gt(self, other) || Eq(self, other)
  }

  /** `self <= other`. */
  predicate Le(self: Fitness, other: Fitness)
    ensures Le(self, other) <==> !Gt(self, other)
    ensures SameOrder(self, other) ==> (Le(self, other) <==> Lt(self, other) || Eq(self, other))
  {
    var r := if self.Empty? then true else !Gt(self, other);
    if SameOrder(self, other) then LexTrichotomy(self.values, other.values); r else r
  }

  /** Two real fitnesses of one plain or minimising class, which compare lexicographically. */
  predicate SameOrder(self: Fitness, other: Fitness)
  {
    self.Fit? && other.Fit? && self.kind == other.kind && !self.kind.Dominating?
  }

  /** Greater-than on plain fitnesses is a strict order. */
  lemma GtStrictOrder(kind: Kind, a: seq<int>, b: seq<int>, c: seq<int>)
    requires kind == Maximise || kind == Minimise
    ensures !Gt(Fit(kind, a), Fit(kind, a))
    ensures Gt(Fit(kind, a), Fit(kind, b)) && Gt(Fit(kind, b), Fit(kind, c)) ==> Gt(Fit(kind, a), Fit(kind, c))
  {
    LexLessIrreflexive(a);
    if Gt(Fit(kind, a), Fit(kind, b)) && Gt(Fit(kind, b), Fit(kind, c)) {
      if kind == Maximise {
        LexLessTransitive(c, b, a);
      } else {
        LexLessTransitive(a, b, c);
      }
    }
  }

  /** Minimising reverses the order: a minimising a beats b exactly when a maximising b beats a. */
  lemma MinimiseReverses(a: seq<int>, b: seq<int>)
    ensures Gt(Fit(Minimise, a), Fit(Minimise, b)) <==> Gt(Fit(Maximise, b), Fit(Maximise, a))
    ensures Eq(Fit(Minimise, a), Fit(Minimise, b)) <==> Eq(Fit(Maximise, b), Fit(Maximise, a))
  {
  }

  /**
   * The most significant part, larger for a fitter value: negated when
   * minimising (dominating classes are minimising ones), 0 for
   * EmptyFitness.
   */
  function Simple(f: Fitness): (r: int)
    requires f.Fit? ==> |f.values| >= 1
    ensures f.Fit? && !f.kind.Maximise? ==> r == -f.values[0]
    ensures f.Fit? && f.kind.Maximise? ==> r == f.values[0]
    ensures f.Empty? ==> r == 0
  {
    match f
    case Empty => 0
    case Fit(kind, values) => if kind.Maximise? then values[0] else -values[0]
  }

  /** A larger `simple` means fitter, for single-part plain and minimising fitnesses. */
  lemma SimpleAgreesWithGt(kind: Kind, x: int, y: int)
    requires kind == Maximise || kind == Minimise
    ensures Gt(Fit(kind, [x]), Fit(kind, [y])) <==> Simple(Fit(kind, [x])) > Simple(Fit(kind, [y]))
  {
    assert [x][1..] == [] && [y][1..] == [] && !LexLess([], []);
    assert LexLess([x], [y]) <==> x < y;
    assert LexLess([y], [x]) <==> y < x;
  }

  /**
   * EmptyFitness is less than everything, greater than nothing, equal only
   * to another EmptyFitness; every fitness is greater than it.
   */
  lemma EmptyIsLeast(f: Fitness)
    ensures Lt(Empty, f) && !Gt(Empty, f) && Le(Empty, f)
    ensures Eq(Empty, f) <==> f.Empty?
    ensures Ge(Empty, f) <==> f.Empty?
    ensures f.Fit? ==> Gt(f, Empty) && !Eq(f, Empty) && !Lt(f, Empty)
  {
  }

  /** Dominance: a beats a fitness of its own class exactly when each value is at most the other's. */
  lemma DominationMeaning(n: nat, a: seq<int>, b: seq<int>)
    requires |a| == |b|
    ensures Gt(Fit(Dominating(n), a), Fit(Dominating(n), b)) <==> forall i :: 0 <= i < |a| ==> a[i] <= b[i]
    ensures Gt(Fit(Dominating(n), a), Empty)
    ensures Gt(Fit(Dominating(n), a), Fit(Dominating(n), a))
  {
  }

  /** A dominating fitness never beats one of another class. */
  lemma DominationNeedsSameClass(n: nat, a: seq<int>, other: Fitness)
    requires other.Fit? && other.kind != Dominating(n)
    ensures !Gt(Fit(Dominating(n), a), other)
  {
  }

  /** Dominance is transitive. */
  lemma DominationTransitive(n: nat, a: seq<int>, b: seq<int>, c: seq<int>)
    requires |a| == |b| == |c|
    requires Gt(Fit(Dominating(n), a), Fit(Dominating(n), b)) && Gt(Fit(Dominating(n), b), Fit(Dominating(n), c))
    ensures Gt(Fit(Dominating(n), a), Fit(Dominating(n), c))
  {
    forall i | 0 <= i < |a| ensures a[i] <= c[i] {
      assert a[i] <= b[i] && b[i] <= c[i];
    }
  }

  // ---------------------------------------------------------------------
  // Arithmetic
  // ---------------------------------------------------------------------

  /** Part-wise sum over the parts both tuples have (`izip`). */
  function AddParts(a: seq<int>, b: seq<int>): (r: seq<int>)
    ensures |r| == if |a| < |b| then |a| else |b|
    ensures forall i :: 0 <= i < |r| ==> r[i] == a[i] + b[i]
  {
    seq(if |a| < |b| then |a| else |b|, i requires 0 <= i < |a| && i < |b| => a[i] + b[i])
  }

  /** Part-wise difference over the parts both tuples have. */
  function SubParts(a: seq<int>, b: seq<int>): (r: seq<int>)
    ensures |r| == if |a| < |b| then |a| else |b|
    ensures forall i :: 0 <= i < |r| ==> r[i] == a[i] - b[i]
  {
    seq(if |a| < |b| then |a| else |b|, i requires 0 <= i < |a| && i < |b| => a[i] - b[i])
  }

  /** Every part negated. */
  function NegParts(a: seq<int>): (r: seq<int>)
    ensures |r| == |a| && forall i :: 0 <= i < |a| ==> r[i] == -a[i]
  {
    seq(|a|, i requires 0 <= i < |a| => -a[i])
  }

  /** The default instance of a built-in fitness class, whose `defaults` are all 0. */
  function Zeros(n: nat): (r: seq<int>)
    ensures |r| == n && forall i :: 0 <= i < n ==> r[i] == 0
  {
    seq(n, _ => 0)
  }

  /**
   * `a + b`. EmptyFitness stands for the all-zero instance of the other
   * operand's class (through `__radd__` when it is on the right); two
   * EmptyFitness values add to EmptyFitness.
   */
  function Add(a: Fitness, b: Fitness): (r: Fitness)
    ensures r.Empty? <==> a.Empty? && b.Empty?
    ensures r.Fit? ==> r.kind == (if a.Fit? then a.kind else b.kind)
    ensures a.Fit? && b.Fit? ==>
      |r.values| == (if |a.values| < |b.values| then |a.values| else |b.values|) &&
      forall i :: 0 <= i < |r.values| ==> r.values[i] == a.values[i] + b.values[i]
  {
    match (a, b)
    case (Empty, Empty) => Empty
    case (Empty, Fit(k, v)) => Fit(k, AddParts(Zeros(|v|), v))
    case (Fit(k, v), Empty) => Fit(k, AddParts(v, Zeros(|v|)))
    case (Fit(k, v), Fit(_, w)) => Fit(k, AddParts(v, w))
  }

  /** `a - b`, with EmptyFitness again standing for zeros. */
  function Sub(a: Fitness, b: Fitness): (r: Fitness)
    ensures r.Empty? <==> a.Empty? && b.Empty?
    ensures r.Fit? ==> r.kind == (if a.Fit? then a.kind else b.kind)
    ensures a.Fit? && b.Fit? ==>
      |r.values| == (if |a.values| < |b.values| then |a.values| else |b.values|) &&
      forall i :: 0 <= i < |r.values| ==> r.values[i] == a.values[i] - b.values[i]
  {
    match (a, b)
    case (Empty, Empty) => Empty
    case (Empty, Fit(k, v)) => Fit(k, SubParts(Zeros(|v|), v))
    case (Fit(k, v), Empty) => Fit(k, SubParts(v, Zeros(|v|)))
    case (Fit(k, v), Fit(_, w)) => Fit(k, SubParts(v, w))
  }

  /** `-a`. */
  function Neg(a: Fitness): (r: Fitness)
    requires a.Fit?
    ensures r.Fit? && r.kind == a.kind && |r.values| == |a.values|
    ensures forall i :: 0 <= i < |a.values| ==> r.values[i] == -a.values[i]
  {
    Fit(a.kind, NegParts(a.values))
  }

  /** `a * k` for an integer k; EmptyFitness stays empty. */
  function Scale(a: Fitness, k: int): (r: Fitness)
    ensures a.Empty? ==> r.Empty?
    ensures a.Fit? ==> r.Fit? && r.kind == a.kind && |r.values| == |a.values|
    ensures a.Fit? ==> forall i :: 0 <= i < |a.values| ==> r.values[i] == a.values[i] * k
  {
    match a
    case Empty => Empty
    case Fit(kind, values) => Fit(kind, seq(|values|, i requires 0 <= i < |values| => values[i] * k))
  }

  /** EmptyFitness is the identity of addition and subtraction on either side. */
  lemma EmptyIsZero(f: Fitness)
    requires f.Fit?
    ensures Add(Empty, f) == f && Add(f, Empty) == f && Sub(f, Empty) == f
    ensures Sub(Empty, f) == Neg(f)
  {
  }

  /** Subtracting what was added gives the original back, for values of one width. */
  lemma SubUndoesAdd(a: Fitness, b: Fitness)
    requires a.Fit? && b.Fit? && |a.values| == |b.values|
    ensures Sub(Add(a, b), b) == a
  {
  }

  /** Addition of same-width values commutes in the parts (the class of the left operand is kept). */
  lemma AddCommutesInParts(a: Fitness, b: Fitness)
    requires a.Fit? && b.Fit?
    ensures Add(a, b).values == Add(b, a).values
  {
  }

  /** Negation is an involution. */
  lemma NegInvolution(f: Fitness)
    requires f.Fit?
    ensures Neg(Neg(f)) == f
  {
  }

  /** A fitness value that accumulates in place (`+=`, `-=`). */
  class Accumulator {
    var kind: Kind
    var values: seq<int>

    constructor(f: Fitness)
      requires f.Fit?
      ensures kind == f.kind && values == f.values
    {
      kind := f.kind;
      values := f.values;
    }

    /** The value held now. */
    function Value(): (f: Fitness)
      reads this
      ensures f.Fit? && f.values == values
    {
      Fit(kind, values)
    }

    /**
     * `self += other`: part-wise in place. With an EmptyFitness operand,
     * `__iadd__` and `__add__` return NotImplemented and EmptyFitness's `__radd__`
     * builds a new object that the name is rebound to; its values are the
     * ones modelled here, but an alias of the old object keeps the old ones.
     */
    method AddInPlace(other: Fitness)
      modifies this
      ensures Value() == Add(old(Value()), other)
    {
      match other
      case Empty =>
        values := AddParts(values, Zeros(|values|));
      case Fit(_, w) =>
        var r: seq<int> := [];
        var n := if |values| < |w| then |values| else |w|;
        while |r| < n
          invariant |r| <= n && forall i :: 0 <= i < |r| ==> r[i] == values[i] + w[i]
        {
          r := r + [values[|r|] + w[|r|]];
        }
        values := r;
    }

    /**
     * `self -= other`: part-wise in place. With an EmptyFitness operand,
     * `__isub__` and `__sub__` return NotImplemented and EmptyFitness's `__rsub__`
     * builds a new object that the name is rebound to; its values are the
     * ones modelled here, but an alias of the old object keeps the old ones.
     */
    method SubInPlace(other: Fitness)
      modifies this
      ensures Value() == Sub(old(Value()), other)
    {
      match other
      case Empty =>
        values := SubParts(values, Zeros(|values|));
      case Fit(_, w) =>
        var r: seq<int> := [];
        var n := if |values| < |w| then |values| else |w|;
        while |r| < n
          invariant |r| <= n && forall i :: 0 <= i < |r| ==> r[i] == values[i] - w[i]
        {
          r := r + [values[|r|] - w[|r|]];
        }
        values := r;
    }
  }

  /** Adding then subtracting the same value in place restores the accumulator. */
  method AccumulateRoundTrip(acc: Accumulator, f: Fitness)
    requires f.Fit? && |f.values| == |acc.values|
    modifies acc
    ensures acc.Value() == old(acc.Value())
  {
    acc.AddInPlace(f);
    acc.SubInPlace(f);
    SubUndoesAdd(old(acc.Value()), f);
  }
}
