/**
 * Expression parsing in the ESDL syntax tree builder (esdlc/ast/__init__.py,
 * `AST.parse_expression`): operands and operators are collected into a flat
 * list, which is then reduced class by class into one tree, so that the
 * order of the reductions fixes operator precedence and the direction of
 * each reduction fixes associativity.
 */
module ExprParser {
  import opened Wrappers

  /** A syntax-tree node: a leaf (name, number, bracketed group) or a node with a tag and two optional children. */
  datatype Node = Leaf(text: string) | Tree(tag: string, left: Option<Node>, right: Option<Node>)

  /** An operator as it sits in the flat list: a node with its tag and no children yet. */
  function Op(tag: string): Option<Node>
  {
    Some(Tree(tag, None, None))
  }

  predicate IsOp(x: Option<Node>)
  {
    x.Some? && x.value.Tree?
  }

  /**
   * Whether a reduction of the class `m` takes the operator `op` with the
   * left operand `left`; the unary reduction takes it only when the left
   * operand is missing.
   */
  predicate Matches(left: Option<Node>, op: Option<Node>, m: set<string>, unary: bool)
  {
    IsOp(op) && op.value.tag in m && (!unary || left.None?)
  }

  /** `left`, `op`, `right` replaced by one node with the operator's tag. */
  function Combine(left: Option<Node>, op: Option<Node>, right: Option<Node>): Option<Node>
    requires IsOp(op)
  {
    Some(Tree(op.value.tag, left, right))
  }

  /**
   * The list alternates operand (possibly missing) and operator, starting
   * and ending with an operand, and every operator's tag is in `tags`.
   */
  predicate OpsIn(e: seq<Option<Node>>, tags: set<string>)
  {
    |e| % 2 == 1 && forall k :: 0 <= k < |e| && k % 2 == 1 ==> IsOp(e[k]) && e[k].value.tag in tags
  }

  // ---------------------------------------------------------------------
  // The reductions, as functions
  // ---------------------------------------------------------------------

  /**
   * `_reduce` (and `_reduce_unary` when `unary`): from the left, every
   * operator the class takes combines the operands on either side, and the
   * node it makes is the left operand of the next operator; so a chain of
   * such operators nests to the left.
   */
  function LeftFold(e: seq<Option<Node>>, m: set<string>, unary: bool): seq<Option<Node>>
    decreases |e|
  {
    if |e| < 3 then e
    else if Matches(e[0], e[1], m, unary) then LeftFold([Combine(e[0], e[1], e[2])] + e[3..], m, unary)
    else e[..2] + LeftFold(e[2..], m, unary)
  }

  /**
   * `_reduce_reverse`: from the right, every operator the class takes
   * combines the operands on either side, and the node it makes is the
   * right operand of the operator before it; so a chain nests to the right.
   */
  function RightFold(e: seq<Option<Node>>, m: set<string>): seq<Option<Node>>
    decreases |e|
  {
    if |e| < 3 then e
    else
      var n := |e|;
      if Matches(e[n - 3], e[n - 2], m, false) then RightFold(e[..n - 3] + [Combine(e[n - 3], e[n - 2], e[n - 1])], m)
      else RightFold(e[..n - 2], m) + e[n - 2..]
  }

  const Dotted: set<string> := {".", "CallFunc", "GetElement"}
  const Signs: set<string> := {"+", "-"}
  const Products: set<string> := {"*", "/"}

  /** Every operator tag some reduction takes. */
  const AllTags: set<string> := {".", "CallFunc", "GetElement", "+", "-", "%", "^", "*", "/", ","}

  /**
   * The reductions in their order: member access, calls and indexing; unary
   * signs; '%'; '^' (from the right); '*' and '/'; '+' and '-'; ','.
   */
  function Reduced(e: seq<Option<Node>>): seq<Option<Node>>
  {
    var e1 := LeftFold(e, Dotted, false);
    var e2 := LeftFold(e1, Signs, true);
    var e3 := LeftFold(e2, {"%"}, false);
    var e4 := RightFold(e3, {"^"});
    var e5 := LeftFold(e4, Products, false);
    var e6 := LeftFold(e5, Signs, false);
    LeftFold(e6, {","}, false)
  }

  // ---------------------------------------------------------------------
  // The reductions, as the loops that rewrite the list
  // ---------------------------------------------------------------------

  /** One step of the left-to-right loop, in terms of the fold still to do. */
  lemma LeftFoldAt(r: seq<Option<Node>>, i: nat, m: set<string>, unary: bool)
    requires i + 3 <= |r|
    ensures Matches(r[i], r[i + 1], m, unary) ==>
      var next := r[..i] + [Combine(r[i], r[i + 1], r[i + 2])] + r[i + 3..];
      next[..i] + LeftFold(next[i..], m, unary) == r[..i] + LeftFold(r[i..], m, unary)
    ensures !Matches(r[i], r[i + 1], m, unary) ==>
      r[..i + 2] + LeftFold(r[i + 2..], m, unary) == r[..i] + LeftFold(r[i..], m, unary)
  {
    var t := r[i..];
    assert t[0] == r[i] && t[1] == r[i + 1] && t[2] == r[i + 2];
    assert t[3..] == r[i + 3..] && t[2..] == r[i + 2..] && t[..2] == r[i..i + 2];
    if Matches(r[i], r[i + 1], m, unary) {
      var next := r[..i] + [Combine(r[i], r[i + 1], r[i + 2])] + r[i + 3..];
      assert next[..i] == r[..i] && next[i..] == [Combine(t[0], t[1], t[2])] + t[3..];
    } else {
      assert r[..i + 2] == r[..i] + t[..2];
    }
  }

  /** `_reduce`, and `_reduce_unary` when `unary`: the loop over the list, replacing three entries by one where the operator matches. */
  method Reduce(expr: seq<Option<Node>>, m: set<string>, unary: bool) returns (r: seq<Option<Node>>)
    ensures r == LeftFold(expr, m, unary)
  {
    r := expr;
    var i := 0;
    while i + 3 <= |r|
      invariant 0 <= i <= |r|
      invariant r[..i] + LeftFold(r[i..], m, unary) == LeftFold(expr, m, unary)
      decreases |r| - i
    {
      var left, op, right := r[i], r[i + 1], r[i + 2];
      LeftFoldAt(r, i, m, unary);
      if Matches(left, op, m, unary) {
        r := r[..i] + [Combine(left, op, right)] + r[i + 3..];
      } else {
        i := i + 2;
      }
    }
    assert r[..i] + r[i..] == r;
  }

  /** One step of the right-to-left loop, in terms of the fold still to do. */
  lemma RightFoldAt(r: seq<Option<Node>>, i: nat, m: set<string>)
    requires i + 3 <= |r|
    ensures Matches(r[i], r[i + 1], m, false) ==>
      var next := r[..i] + [Combine(r[i], r[i + 1], r[i + 2])] + r[i + 3..];
      RightFold(next[..i + 1], m) + next[i + 1..] == RightFold(r[..i + 3], m) + r[i + 3..]
    ensures !Matches(r[i], r[i + 1], m, false) ==>
      RightFold(r[..i + 1], m) + r[i + 1..] == RightFold(r[..i + 3], m) + r[i + 3..]
  {
    var t := r[..i + 3];
    assert t[i] == r[i] && t[i + 1] == r[i + 1] && t[i + 2] == r[i + 2];
    assert t[..i] == r[..i] && t[..i + 1] == r[..i + 1] && t[i + 1..] == r[i + 1..i + 3];
    if Matches(r[i], r[i + 1], m, false) {
      var next := r[..i] + [Combine(r[i], r[i + 1], r[i + 2])] + r[i + 3..];
      assert next[..i + 1] == t[..i] + [Combine(t[i], t[i + 1], t[i + 2])] && next[i + 1..] == r[i + 3..];
    } else {
      assert r[i + 1..] == t[i + 1..] + r[i + 3..];
    }
  }

  /** `_reduce_reverse`: the loop from the last operator back to the first. */
  method ReduceReverse(expr: seq<Option<Node>>, m: set<string>) returns (r: seq<Option<Node>>)
    ensures r == RightFold(expr, m)
  {
    r := expr;
    var i := |r| - 3;
    assert r[..|r|] == r && r + [] == r;
    while i >= 0
      invariant -3 <= i && i + 3 <= |r|
      invariant RightFold(r[..i + 3], m) + r[i + 3..] == RightFold(expr, m)
      decreases i + 3
    {
      var left, op, right := r[i], r[i + 1], r[i + 2];
      RightFoldAt(r, i, m);
      if Matches(left, op, m, false) {
        r := r[..i] + [Combine(left, op, right)] + r[i + 3..];
      }
      i := i - 2;
    }
    assert r[..i + 3] + r[i + 3..] == r;
  }

  /** The seven reductions in the order `parse_expression` runs them. */
  method ReduceAll(expr: seq<Option<Node>>) returns (r: seq<Option<Node>>)
    ensures r == Reduced(expr)
  {
    r := Reduce(expr, Dotted, false);
    r := Reduce(r, Signs, true);
    r := Reduce(r, {"%"}, false);
    r := ReduceReverse(r, {"^"});
    r := Reduce(r, Products, false);
    r := Reduce(r, Signs, false);
    r := Reduce(r, {","}, false);
  }

  // ---------------------------------------------------------------------
  // What the reductions achieve
  // ---------------------------------------------------------------------

  /**
   * A left reduction keeps the list alternating and leaves no operator of
   * its class (the unary one keeps the operators it could not take).
   */
  lemma {:induction false} LeftFoldOps(e: seq<Option<Node>>, m: set<string>, unary: bool, tags: set<string>)
    requires OpsIn(e, tags)
    ensures OpsIn(LeftFold(e, m, unary), if unary then tags else tags - m)
    decreases |e|
  {
    if |e| >= 3 {
      if Matches(e[0], e[1], m, unary) {
        var a := [Combine(e[0], e[1], e[2])] + e[3..];
        assert forall k :: 1 <= k < |a| ==> a[k] == e[k + 2];
        LeftFoldOps(a, m, unary, tags);
      } else {
        var b := e[2..];
        assert forall k :: 0 <= k < |b| ==> b[k] == e[k + 2];
        LeftFoldOps(b, m, unary, tags);
        var rest := LeftFold(b, m, unary);
        var r := e[..2] + rest;
        assert forall k :: 2 <= k < |r| ==> r[k] == rest[k - 2];
      }
    }
  }

  /** A right reduction keeps the list alternating and leaves no operator of its class. */
  lemma {:induction false} RightFoldOps(e: seq<Option<Node>>, m: set<string>, tags: set<string>)
    requires OpsIn(e, tags)
    ensures OpsIn(RightFold(e, m), tags - m)
    decreases |e|
  {
    if |e| >= 3 {
      var n := |e|;
      if Matches(e[n - 3], e[n - 2], m, false) {
        var a := e[..n - 3] + [Combine(e[n - 3], e[n - 2], e[n - 1])];
        assert forall k :: 0 <= k < n - 3 ==> a[k] == e[k];
        RightFoldOps(a, m, tags);
      } else {
        var b := e[..n - 2];
        assert forall k :: 0 <= k < |b| ==> b[k] == e[k];
        RightFoldOps(b, m, tags);
        var front := RightFold(b, m);
        var r := front + e[n - 2..];
        assert r[|front|] == e[n - 2] && r[|front| + 1] == e[n - 1];
      }
    }
  }

  /** An alternating list with no operators left is a single entry. */
  lemma NoOpsSingle(e: seq<Option<Node>>)
    ensures OpsIn(e, {}) ==> |e| == 1
  {
    if |e| >= 3 {
      assert !(IsOp(e[1]) && e[1].value.tag in {});
    }
  }

  /**
   * The reductions end with exactly one entry when every operator in the
   * list is one they know: the closing `len(expr) == 1` assertion.
   */
  lemma ReducedSingle(e: seq<Option<Node>>)
    requires OpsIn(e, AllTags)
    ensures |Reduced(e)| == 1
  {
    var e1 := LeftFold(e, Dotted, false);
    LeftFoldOps(e, Dotted, false, AllTags);
    var t1 := AllTags - Dotted;
    var e2 := LeftFold(e1, Signs, true);
    LeftFoldOps(e1, Signs, true, t1);
    var e3 := LeftFold(e2, {"%"}, false);
    LeftFoldOps(e2, {"%"}, false, t1);
    var t3 := t1 - {"%"};
    var e4 := RightFold(e3, {"^"});
    RightFoldOps(e3, {"^"}, t3);
    var t4 := t3 - {"^"};
    var e5 := LeftFold(e4, Products, false);
    LeftFoldOps(e4, Products, false, t4);
    var t5 := t4 - Products;
    var e6 := LeftFold(e5, Signs, false);
    LeftFoldOps(e5, Signs, false, t5);
    var t6 := t5 - Signs;
    assert t6 == {","};
    LeftFoldOps(e6, {","}, false, t6);
    assert t6 - {","} == {};
    NoOpsSingle(Reduced(e));
  }

  /** An odd-length list of three or more entries, or one whose first entry is present. */
  predicate HeadBuilt(e: seq<Option<Node>>)
  {
    |e| % 2 == 1 && (|e| >= 3 || e[0].Some?)
  }

  /** A left reduction never leaves a missing operand as the whole result of a list that had an operator. */
  lemma {:induction false} LeftFoldHead(e: seq<Option<Node>>, m: set<string>, unary: bool)
    requires HeadBuilt(e)
    ensures HeadBuilt(LeftFold(e, m, unary))
    decreases |e|
  {
    if |e| >= 3 {
      if Matches(e[0], e[1], m, unary) {
        LeftFoldHead([Combine(e[0], e[1], e[2])] + e[3..], m, unary);
      } else {
        LeftFoldLength(e[2..], m, unary);
      }
    }
  }

  lemma {:induction false} LeftFoldLength(e: seq<Option<Node>>, m: set<string>, unary: bool)
    requires |e| % 2 == 1
    ensures |LeftFold(e, m, unary)| % 2 == 1
    decreases |e|
  {
    if |e| >= 3 {
      if Matches(e[0], e[1], m, unary) {
        LeftFoldLength([Combine(e[0], e[1], e[2])] + e[3..], m, unary);
      } else {
        LeftFoldLength(e[2..], m, unary);
      }
    }
  }

  /** A right reduction never leaves a missing operand as the whole result of a list that had an operator. */
  lemma {:induction false} RightFoldHead(e: seq<Option<Node>>, m: set<string>)
    requires HeadBuilt(e)
    ensures HeadBuilt(RightFold(e, m))
    decreases |e|
  {
    if |e| >= 3 {
      var n := |e|;
      if Matches(e[n - 3], e[n - 2], m, false) {
        var a := e[..n - 3] + [Combine(e[n - 3], e[n - 2], e[n - 1])];
        assert |a| == 1 ==> a[0] == Combine(e[n - 3], e[n - 2], e[n - 1]);
        RightFoldHead(a, m);
      } else {
        var b := e[..n - 2];
        if |b| >= 3 {
          RightFoldHead(b, m);
        }
      }
    }
  }

  /** A list that starts with an operand, or holds an operator, reduces to a node and not to a missing operand. */
  lemma ReducedHead(e: seq<Option<Node>>)
    requires HeadBuilt(e)
    ensures HeadBuilt(Reduced(e))
  {
    var e1 := LeftFold(e, Dotted, false);
    LeftFoldHead(e, Dotted, false);
    var e2 := LeftFold(e1, Signs, true);
    LeftFoldHead(e1, Signs, true);
    var e3 := LeftFold(e2, {"%"}, false);
    LeftFoldHead(e2, {"%"}, false);
    var e4 := RightFold(e3, {"^"});
    RightFoldHead(e3, {"^"});
    var e5 := LeftFold(e4, Products, false);
    LeftFoldHead(e4, Products, false);
    var e6 := LeftFold(e5, Signs, false);
    LeftFoldHead(e5, Signs, false);
    LeftFoldHead(e6, {","}, false);
  }

  // ---------------------------------------------------------------------
  // Precedence and associativity
  // ---------------------------------------------------------------------

  /** Operands and operators of a two-operator expression, in order. */
  function Chain(a: Node, op1: string, b: Node, op2: string, c: Node): seq<Option<Node>>
  {
    [Some(a), Op(op1), Some(b), Op(op2), Some(c)]
  }

  lemma LeftFoldTake(x: Option<Node>, op: Option<Node>, y: Option<Node>, rest: seq<Option<Node>>, m: set<string>, unary: bool)
    requires Matches(x, op, m, unary)
    ensures LeftFold([x, op, y] + rest, m, unary) == LeftFold([Combine(x, op, y)] + rest, m, unary)
  {
    var e := [x, op, y] + rest;
    assert e[0] == x && e[1] == op && e[2] == y && e[3..] == rest;
  }

  lemma LeftFoldSkip(x: Option<Node>, op: Option<Node>, rest: seq<Option<Node>>, m: set<string>, unary: bool)
    requires !Matches(x, op, m, unary) && |rest| >= 1
    ensures LeftFold([x, op] + rest, m, unary) == [x, op] + LeftFold(rest, m, unary)
  {
    var e := [x, op] + rest;
    assert e[0] == x && e[1] == op && e[2..] == rest && e[..2] == [x, op];
  }

  lemma RightFoldTake(rest: seq<Option<Node>>, x: Option<Node>, op: Option<Node>, y: Option<Node>, m: set<string>)
    requires Matches(x, op, m, false)
    ensures RightFold(rest + [x, op, y], m) == RightFold(rest + [Combine(x, op, y)], m)
  {
    var e := rest + [x, op, y];
    var n := |e|;
    assert e[n - 3] == x && e[n - 2] == op && e[n - 1] == y && e[..n - 3] == rest;
  }

  /** `a - b - c` is `(a - b) - c`: the left reductions nest to the left. */
  lemma LeftAssociative(a: Node, b: Node, c: Node, tag: string, m: set<string>)
    requires tag in m
    ensures LeftFold(Chain(a, tag, b, tag, c), m, false) == [Some(Tree(tag, Some(Tree(tag, Some(a), Some(b))), Some(c)))]
  {
    var ab := Combine(Some(a), Op(tag), Some(b));
    LeftFoldTake(Some(a), Op(tag), Some(b), [Op(tag), Some(c)], m, false);
    assert Chain(a, tag, b, tag, c) == [Some(a), Op(tag), Some(b)] + [Op(tag), Some(c)];
    LeftFoldTake(ab, Op(tag), Some(c), [], m, false);
    assert [ab] + [Op(tag), Some(c)] == [ab, Op(tag), Some(c)] + [];
  }

  /** `a ^ b ^ c` is `a ^ (b ^ c)`: the reverse reduction nests to the right. */
  lemma RightAssociative(a: Node, b: Node, c: Node, tag: string, m: set<string>)
    requires tag in m
    ensures RightFold(Chain(a, tag, b, tag, c), m) == [Some(Tree(tag, Some(a), Some(Tree(tag, Some(b), Some(c)))))]
  {
    var bc := Combine(Some(b), Op(tag), Some(c));
    assert Chain(a, tag, b, tag, c) == [Some(a), Op(tag)] + [Some(b), Op(tag), Some(c)];
    RightFoldTake([Some(a), Op(tag)], Some(b), Op(tag), Some(c), m);
    assert [Some(a), Op(tag)] + [bc] == [] + [Some(a), Op(tag), bc];
    RightFoldTake([], Some(a), Op(tag), bc, m);
    assert [] + [Combine(Some(a), Op(tag), bc)] == [Combine(Some(a), Op(tag), bc)];
  }

  /** A list the reduction of a class leaves alone: it holds no operator the class takes. */
  predicate NoneTaken(e: seq<Option<Node>>, m: set<string>, unary: bool)
  {
    forall k :: 0 <= k < |e| - 1 && k % 2 == 0 ==> !Matches(e[k], e[k + 1], m, unary)
  }

  lemma {:induction false} LeftFoldNoMatch(e: seq<Option<Node>>, m: set<string>, unary: bool)
    requires NoneTaken(e, m, unary)
    ensures LeftFold(e, m, unary) == e
    decreases |e|
  {
    if |e| >= 3 {
      var b := e[2..];
      assert forall k :: 0 <= k < |b| ==> b[k] == e[k + 2];
      LeftFoldNoMatch(b, m, unary);
      assert e[..2] + b == e;
    }
  }

  lemma {:induction false} RightFoldNoMatch(e: seq<Option<Node>>, m: set<string>)
    requires |e| % 2 == 1 && NoneTaken(e, m, false)
    ensures RightFold(e, m) == e
    decreases |e|
  {
    if |e| >= 3 {
      var n := |e|;
      var b := e[..n - 2];
      assert forall k :: 0 <= k < |b| ==> b[k] == e[k];
      RightFoldNoMatch(b, m);
      assert b + e[n - 2..] == e;
    }
  }

  /** The stages before '*' and '/' leave `a + b * c` and `a * b + c` alone. */
  lemma EarlyStagesIdle(a: Node, op1: string, b: Node, op2: string, c: Node)
    requires {op1, op2} <= Signs + Products
    ensures var e := Chain(a, op1, b, op2, c);
      RightFold(LeftFold(LeftFold(LeftFold(e, Dotted, false), Signs, true), {"%"}, false), {"^"}) == e
  {
    var e := Chain(a, op1, b, op2, c);
    LeftFoldNoMatch(e, Dotted, false);
    LeftFoldNoMatch(e, Signs, true);
    LeftFoldNoMatch(e, {"%"}, false);
    RightFoldNoMatch(e, {"^"});
  }

  /** `*` and `/` bind tighter than `+` and `-` on the right: `a + b * c` is `a + (b * c)`. */
  lemma ProductOnRight(a: Node, b: Node, c: Node, sign: string, product: string)
    requires sign in Signs && product in Products
    ensures Reduced(Chain(a, sign, b, product, c)) == [Some(Tree(sign, Some(a), Some(Tree(product, Some(b), Some(c)))))]
  {
    var e := Chain(a, sign, b, product, c);
    EarlyStagesIdle(a, sign, b, product, c);
    var bc := Combine(Some(b), Op(product), Some(c));
    assert e == [Some(a), Op(sign)] + ([Some(b), Op(product), Some(c)] + []);
    LeftFoldSkip(Some(a), Op(sign), [Some(b), Op(product), Some(c)], Products, false);
    LeftFoldTake(Some(b), Op(product), Some(c), [], Products, false);
    assert [bc] + [] == [bc];
    var e5 := [Some(a), Op(sign), bc];
    assert LeftFold(e, Products, false) == e5;
    LeftFoldTake(Some(a), Op(sign), bc, [], Signs, false);
    assert e5 + [] == e5;
  }

  /** `*` and `/` bind tighter than `+` and `-` on the left: `a * b + c` is `(a * b) + c`. */
  lemma ProductOnLeft(a: Node, b: Node, c: Node, sign: string, product: string)
    requires sign in Signs && product in Products
    ensures Reduced(Chain(a, product, b, sign, c)) == [Some(Tree(sign, Some(Tree(product, Some(a), Some(b))), Some(c)))]
  {
    var e := Chain(a, product, b, sign, c);
    EarlyStagesIdle(a, product, b, sign, c);
    var ab := Combine(Some(a), Op(product), Some(b));
    assert e == [Some(a), Op(product), Some(b)] + [Op(sign), Some(c)];
    LeftFoldTake(Some(a), Op(product), Some(b), [Op(sign), Some(c)], Products, false);
    var e5 := [ab, Op(sign), Some(c)];
    assert [ab] + [Op(sign), Some(c)] == e5;
    LeftFoldSkip(ab, Op(sign), [Some(c)], Products, false);
    assert LeftFold(e, Products, false) == e5;
    LeftFoldTake(ab, Op(sign), Some(c), [], Signs, false);
    assert e5 + [] == e5;
  }

  /** A leading sign has no left operand: `-a` is a node with only a right child. */
  lemma LeadingSign(a: Node, sign: string)
    requires sign in Signs
    ensures Reduced([None, Op(sign), Some(a)]) == [Some(Tree(sign, None, Some(a)))]
  {
    var e: seq<Option<Node>> := [None, Op(sign), Some(a)];
    LeftFoldNoMatch(e, Dotted, false);
    LeftFoldTake(None, Op(sign), Some(a), [], Signs, true);
    assert e + [] == e;
  }

  /**
   * A sign after a binary operator is unary and binds first: `a % -b` is
   * `a % (-b)`.
   */
  lemma SignAfterOperator(a: Node, b: Node, sign: string)
    requires sign in Signs
    ensures Reduced([Some(a), Op("%"), None, Op(sign), Some(b)]) == [Some(Tree("%", Some(a), Some(Tree(sign, None, Some(b)))))]
  {
    var e: seq<Option<Node>> := [Some(a), Op("%"), None, Op(sign), Some(b)];
    LeftFoldNoMatch(e, Dotted, false);
    var nb := Combine(None, Op(sign), Some(b));
    assert e == [Some(a), Op("%")] + ([None, Op(sign), Some(b)] + []);
    LeftFoldSkip(Some(a), Op("%"), [None, Op(sign), Some(b)], Signs, true);
    LeftFoldTake(None, Op(sign), Some(b), [], Signs, true);
    assert [nb] + [] == [nb];
    var e2 := [Some(a), Op("%"), nb];
    assert LeftFold(e, Signs, true) == e2;
    LeftFoldTake(Some(a), Op("%"), nb, [], {"%"}, false);
    assert e2 + [] == e2;
  }

  // ---------------------------------------------------------------------
  // Collecting the flat list
  // ---------------------------------------------------------------------

  /**
   * The token groups `parse_expression` reads: an operand (a name, number
   * or bracketed group, as `parse_operand` returns it), an operator or comma
   * with its text, a call's parameter list or an index expression with
   * whether its closing bracket follows, or any other token, which ends the
   * expression.
   */
  datatype Item = Operand(node: Node) | Operator(op: string) | Call(params: Option<Node>, closed: bool) | Index(inner: Option<Node>, closed: bool) | Other

  /** The errors `parse_expression` raises; `Unreduced` is its closing assertion failing. */
  datatype ExprError = InvalidSyntax(at: nat) | InvalidFunctionCall(at: nat) | UnmatchedBracket(at: nat) | Unreduced

  /** `Collect` with the entries gathered so far in front. */
  function After(gathered: seq<Option<Node>>, r: Result<seq<Option<Node>>, ExprError>): Result<seq<Option<Node>>, ExprError>
  {
    match r
    case Ok(t) => Ok(gathered + t)
    case Err(e) => Err(e)
  }

  lemma AfterAfter(g: seq<Option<Node>>, h: seq<Option<Node>>, r: Result<seq<Option<Node>>, ExprError>)
    ensures After(g + h, r) == After(g, After(h, r))
  {
    if r.Ok? {
      assert (g + h) + r.value == g + (h + r.value);
    }
  }

  predicate IsSign(items: seq<Item>, pos: nat)
  {
    pos < |items| && items[pos].Operator? && items[pos].op in Signs
  }

  /**
   * The list entries from position `pos` on, which is where an operator is
   * expected: an operator is followed by its operand, or by nothing when a
   * sign comes next; a call or index brings its parameters or inner
   * expression as the operand; anything else, or a comma when commas stop
   * the expression, ends it. An operator with no operand is a syntax error,
   * and a call or index without its closing bracket is an error of its own.
   */
  function Collect(items: seq<Item>, pos: nat, stopAtComma: bool): Result<seq<Option<Node>>, ExprError>
    decreases |items| - pos
  {
    if pos >= |items| then Ok([])
    else match items[pos]
      case Operator(op) =>
        if stopAtComma && op == "," then Ok([])
        else if IsSign(items, pos + 1) then
          After([Op(op), None], Collect(items, pos + 1, stopAtComma))
        else if pos + 1 < |items| && items[pos + 1].Operand? then
          After([Op(op), Some(items[pos + 1].node)], Collect(items, pos + 2, stopAtComma))
        else Err(InvalidSyntax(pos))
      case Call(params, closed) =>
        if !closed then Err(InvalidFunctionCall(pos))
        else After([Op("CallFunc"), params], Collect(items, pos + 1, stopAtComma))
      case Index(inner, closed) =>
        if !closed then Err(UnmatchedBracket(pos))
        else After([Op("GetElement"), inner], Collect(items, pos + 1, stopAtComma))
      case _ => Ok([])
  }

  /** The operator texts among the items. */
  function ItemTags(items: seq<Item>): set<string>
  {
    set k | 0 <= k < |items| && items[k].Operator? :: items[k].op
  }

  /** Entries in (operator, operand) pairs whose operators carry one of the given tags. */
  predicate Paired(t: seq<Option<Node>>, tags: set<string>)
  {
    |t| % 2 == 0 && forall k :: 0 <= k < |t| && k % 2 == 0 ==> IsOp(t[k]) && t[k].value.tag in tags
  }

  /** A leading pair keeps the entries paired. */
  lemma PairedCons(x: Option<Node>, y: Option<Node>, rest: seq<Option<Node>>, tags: set<string>)
    requires IsOp(x) && x.value.tag in tags && Paired(rest, tags)
    ensures Paired([x, y] + rest, tags)
  {
    var t := [x, y] + rest;
    assert forall k :: 2 <= k < |t| ==> t[k] == rest[k - 2];
  }

  /** The entries collected after the first operand come in (operator, operand) pairs with the items' tags. */
  lemma {:induction false} CollectPairs(items: seq<Item>, pos: nat, stopAtComma: bool)
    requires Collect(items, pos, stopAtComma).Ok?
    ensures Paired(Collect(items, pos, stopAtComma).value, ItemTags(items) + Dotted)
    decreases |items| - pos
  {
    var tags := ItemTags(items) + Dotted;
    if pos < |items| {
      match items[pos]
      case Operator(op) =>
        if !(stopAtComma && op == ",") {
          assert op in ItemTags(items) by { assert items[pos].op == op; }
          var next := if IsSign(items, pos + 1) then pos + 1 else pos + 2;
          CollectPairs(items, next, stopAtComma);
          var y := if IsSign(items, pos + 1) then None else Some(items[pos + 1].node);
          PairedCons(Op(op), y, Collect(items, next, stopAtComma).value, tags);
        }
      case Call(params, _) =>
        CollectPairs(items, pos + 1, stopAtComma);
        PairedCons(Op("CallFunc"), params, Collect(items, pos + 1, stopAtComma).value, tags);
      case Index(inner, _) =>
        CollectPairs(items, pos + 1, stopAtComma);
        PairedCons(Op("GetElement"), inner, Collect(items, pos + 1, stopAtComma).value, tags);
      case _ =>
    }
  }

  /** Collecting fails only with the errors the loop raises, never with a failed reduction. */
  lemma {:induction false} CollectErrors(items: seq<Item>, pos: nat, stopAtComma: bool)
    ensures Collect(items, pos, stopAtComma).Err? ==> Collect(items, pos, stopAtComma).error != Unreduced
    decreases |items| - pos
  {
    if pos < |items| {
      match items[pos]
      case Operator(_) =>
        CollectErrors(items, pos + 1, stopAtComma);
        CollectErrors(items, pos + 2, stopAtComma);
      case Call(_, _) =>
        CollectErrors(items, pos + 1, stopAtComma);
      case Index(_, _) =>
        CollectErrors(items, pos + 1, stopAtComma);
      case _ =>
    }
  }

  /** The first operand, or none for a leading sign, and where the operators start; None when there is no expression. */
  function FirstOperand(items: seq<Item>): Option<(Option<Node>, nat)>
  {
    if items == [] then None
    else if IsSign(items, 0) then Some((None, 0))
    else if items[0].Operand? then Some((Some(items[0].node), 1))
    else None
  }

  /**
   * `parse_expression`: no expression (None) for an empty input or one
   * that starts with neither an operand nor a sign; otherwise the
   * collected list reduced to its single node, a collecting error, or a
   * failed reduction (the closing assertions) when an operator no
   * reduction takes is left over.
   */
  function ParseExpression(items: seq<Item>, stopAtComma: bool): Result<Option<Node>, ExprError>
  {
    match FirstOperand(items)
    case None => Ok(None)
    case Some(start) =>
      match Collect(items, start.1, stopAtComma)
      case Err(e) => Err(e)
      case Ok(rest) =>
        var red := Reduced([start.0] + rest);
        if |red| == 1 && red[0].Some? then Ok(red[0]) else Err(Unreduced)
  }

  /** The operators `parse_expression` can meet that a reduction takes. */
  const KnownOps: set<string> := {".", "+", "-", "%", "^", "*", "/", ","}

  /** The list `parse_expression` builds alternates operands and operators, with the items' tags. */
  lemma CollectAlternates(items: seq<Item>, stopAtComma: bool)
    requires FirstOperand(items).Some?
    requires Collect(items, FirstOperand(items).value.1, stopAtComma).Ok?
    ensures var start := FirstOperand(items).value;
      var e := [start.0] + Collect(items, start.1, stopAtComma).value;
      OpsIn(e, ItemTags(items) + Dotted) && HeadBuilt(e)
  {
    var start := FirstOperand(items).value;
    CollectPairs(items, start.1, stopAtComma);
    var t := Collect(items, start.1, stopAtComma).value;
    var e := [start.0] + t;
    assert forall k :: 1 <= k < |e| ==> e[k] == t[k - 1];
    if start.1 == 0 {
      assert items[0].op in Signs;
      assert t != [];
    }
  }

  /**
   * When every operator read is one the reductions know, the closing
   * assertions hold: parsing ends in one node, in no expression, or in a
   * collecting error, never in `Unreduced`.
   */
  lemma ParseReducesFully(items: seq<Item>, stopAtComma: bool)
    requires ItemTags(items) <= KnownOps
    ensures ParseExpression(items, stopAtComma) != Err(Unreduced)
    ensures ParseExpression(items, stopAtComma).Ok? <==>
      FirstOperand(items).None? || Collect(items, FirstOperand(items).value.1, stopAtComma).Ok?
  {
    var first := FirstOperand(items);
    if first.Some? && Collect(items, first.value.1, stopAtComma).Ok? {
      var e := [first.value.0] + Collect(items, first.value.1, stopAtComma).value;
      CollectAlternates(items, stopAtComma);
      assert ItemTags(items) + Dotted <= AllTags;
      assert OpsIn(e, AllTags);
      ReducedSingle(e);
      ReducedHead(e);
    } else if first.Some? {
      CollectErrors(items, first.value.1, stopAtComma);
    }
  }

  /**
   * `parse_expression` as written: the first operand, then the loop that
   * appends (operator, operand) pairs until the expression ends, then the
   * reductions.
   */
  method Parse(items: seq<Item>, stopAtComma: bool) returns (r: Result<Option<Node>, ExprError>)
    ensures r == ParseExpression(items, stopAtComma)
  {
    var expr: seq<Option<Node>>;
    var pos: nat;
    if items == [] {
      return Ok(None);
    } else if IsSign(items, 0) {
      expr, pos := [None], 0;
    } else if items[0].Operand? {
      expr, pos := [Some(items[0].node)], 1;
    } else {
      return Ok(None);
    }
    ghost var start := expr;
    ghost var first := pos;
    assert start + [] == start;
    while pos < |items|
      invariant first == FirstOperand(items).value.1 && start == [FirstOperand(items).value.0]
      invariant After(expr, Collect(items, pos, stopAtComma)) == After(start, Collect(items, first, stopAtComma))
      decreases |items| - pos
    {
      var item := items[pos];
      if item.Operator? {
        if stopAtComma && item.op == "," {
          break;
        }
        if IsSign(items, pos + 1) {
          AfterAfter(expr, [Op(item.op), None], Collect(items, pos + 1, stopAtComma));
          expr := expr + [Op(item.op), None];
          pos := pos + 1;
        } else if pos + 1 < |items| && items[pos + 1].Operand? {
          AfterAfter(expr, [Op(item.op), Some(items[pos + 1].node)], Collect(items, pos + 2, stopAtComma));
          expr := expr + [Op(item.op), Some(items[pos + 1].node)];
          pos := pos + 2;
        } else {
          return Err(InvalidSyntax(pos));
        }
      } else if item.Call? {
        if !item.closed {
          return Err(InvalidFunctionCall(pos));
        }
        AfterAfter(expr, [Op("CallFunc"), item.params], Collect(items, pos + 1, stopAtComma));
        expr := expr + [Op("CallFunc"), item.params];
        pos := pos + 1;
      } else if item.Index? {
        if !item.closed {
          return Err(UnmatchedBracket(pos));
        }
        AfterAfter(expr, [Op("GetElement"), item.inner], Collect(items, pos + 1, stopAtComma));
        expr := expr + [Op("GetElement"), item.inner];
        pos := pos + 1;
      } else {
        break;
      }
    }
    assert Collect(items, pos, stopAtComma) == Ok([]) && expr + [] == expr;
    var reduced := ReduceAll(expr);
    if |reduced| == 1 && reduced[0].Some? {
      r := Ok(reduced[0]);
    } else {
      r := Err(Unreduced);
    }
  }
}
