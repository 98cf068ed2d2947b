/**
 * Tree-based genetic programming (esec/species/tgp.py): a program is a
 * list of instructions in prefix order, each instruction followed by the
 * branches of its parameters. This module models the branch-end search,
 * the depth computation, the algebraic edit mutation (NOT NOT removal,
 * IF NOT X Y Z rewritten as IF X Z Y) and the crossover splice with its
 * depth limit.
 */
module Tgp {
  import opened Wrappers

  // ---------------------------------------------------------------------
  // Programs
  // ---------------------------------------------------------------------

  /**
   * An instruction or terminal. The boolean NOT and IF instructions are
   * told apart from all others, as the edit mutation does; every other
   * instruction, and every terminal (no parameters), is an `Op`.
   */
  datatype Node = Not | If | Op(name: string, arity: nat)

  /** The number of parameters (branches) that follow a node. */
  function Params(n: Node): nat
  {
    match n
    case Not => 1
    case If => 3
    case Op(_, a) => a
  }

  /** A program tree: a node and the branches of its parameters. */
  datatype Tree = Tree(op: Node, children: seq<Tree>)

  /** Every node has exactly as many children as it takes parameters. */
  predicate WellFormed(t: Tree)
    decreases t
  {
    |t.children| == Params(t.op) && forall c :: c in t.children ==> WellFormed(c)
  }

  predicate AllWellFormed(ts: seq<Tree>)
    decreases ts
  {
    forall c :: c in ts ==> WellFormed(c)
  }

  /** The prefix-order list of a tree, as programs are stored. */
  function Flatten(t: Tree): seq<Node>
    decreases t
  {
    [t.op] + FlattenAll(t.children)
  }

  function FlattenAll(ts: seq<Tree>): seq<Node>
    decreases ts
  {
    if ts == [] then [] else Flatten(ts[0]) + FlattenAll(ts[1..])
  }

  // ---------------------------------------------------------------------
  // Branch ends (_find_end)
  // ---------------------------------------------------------------------

  /**
   * The scan of `_find_end` from index `e`, with `need` branches still
   * missing: each node fills one and opens as many as it has parameters.
   */
  function EndFrom(p: seq<Node>, need: int, e: nat): (r: nat)
    requires e <= |p|
    ensures e <= r <= |p|
    decreases |p| - e
  {
    if need <= 0 || e >= |p| then e else EndFrom(p, need + Params(p[e]) - 1, e + 1)
  }

  /** The index just past the branch that starts at `start`. */
  function BranchEnd(p: seq<Node>, start: nat): (r: nat)
    ensures start >= |p| ==> r == start
    ensures start < |p| ==> start < r <= |p|
  {
    if start >= |p| then start else EndFrom(p, Params(p[start]), start + 1)
  }

  /** `_find_end`: the counter loop over the program. */
  method FindEnd(program: seq<Node>, start: nat) returns (end: nat)
    ensures end == BranchEnd(program, start)
  {
    if start >= |program| {
      return start;
    }
    var params: int := Params(program[start]);
    end := start + 1;
    while params > 0 && end < |program|
      invariant start < end <= |program|
      invariant EndFrom(program, params, end) == BranchEnd(program, start)
      decreases |program| - end
    {
      params := params + Params(program[end]) - 1;
      end := end + 1;
    }
  }

  /** A tree's list, met with at least one branch missing, fills exactly one of them. */
  lemma {:induction false} EndFromTree(p: seq<Node>, need: int, e: nat, t: Tree)
    requires WellFormed(t) && need >= 1
    requires e + |Flatten(t)| <= |p| && p[e..e + |Flatten(t)|] == Flatten(t)
    ensures EndFrom(p, need, e) == EndFrom(p, need - 1, e + |Flatten(t)|)
    decreases t, 1
  {
    assert p[e] == Flatten(t)[0] == t.op;
    assert Flatten(t)[1..] == FlattenAll(t.children);
    assert p[e + 1..e + |Flatten(t)|] == FlattenAll(t.children);
    EndFromTrees(p, need + Params(t.op) - 1, e + 1, t.children);
  }

  /** A list of `k` trees fills exactly `k` missing branches. */
  lemma {:induction false} EndFromTrees(p: seq<Node>, need: int, e: nat, ts: seq<Tree>)
    requires AllWellFormed(ts) && need >= |ts|
    requires e + |FlattenAll(ts)| <= |p| && p[e..e + |FlattenAll(ts)|] == FlattenAll(ts)
    ensures EndFrom(p, need, e) == EndFrom(p, need - |ts|, e + |FlattenAll(ts)|)
    decreases ts, 0
  {
    if ts != [] {
      var n := |Flatten(ts[0])|;
      SliceSplit(p, e, Flatten(ts[0]), FlattenAll(ts[1..]));
      RestWellFormed(ts);
      EndFromTree(p, need, e, ts[0]);
      EndFromTrees(p, need - 1, e + n, ts[1..]);
    }
  }

  /** Two lists stored one after the other at `e`: each at its own place. */
  lemma SliceSplit(p: seq<Node>, e: nat, a: seq<Node>, b: seq<Node>)
    requires e + |a + b| <= |p| && p[e..e + |a + b|] == a + b
    ensures p[e..e + |a|] == a && p[e + |a|..e + |a + b|] == b
  {
    var q := p[e..e + |a + b|];
    assert p[e..e + |a|] == q[..|a|];
    assert p[e + |a|..e + |a + b|] == q[|a|..];
  }

  lemma RestWellFormed(ts: seq<Tree>)
    requires ts != [] && AllWellFormed(ts)
    ensures WellFormed(ts[0]) && AllWellFormed(ts[1..])
  {
    assert ts[0] in ts;
    forall c | c in ts[1..] ensures WellFormed(c) { assert c in ts; }
  }

  /**
   * The branch found from `start` is exactly the subtree stored there:
   * when `p[start..]` begins with the list of a well-formed tree, the end
   * is just past it, whatever follows.
   */
  lemma BranchEndOfTree(p: seq<Node>, start: nat, t: Tree)
    requires WellFormed(t)
    requires start + |Flatten(t)| <= |p| && p[start..start + |Flatten(t)|] == Flatten(t)
    ensures BranchEnd(p, start) == start + |Flatten(t)|
  {
    assert p[start] == Flatten(t)[0] == t.op;
    assert Flatten(t)[1..] == FlattenAll(t.children);
    assert p[start + 1..start + |Flatten(t)|] == FlattenAll(t.children);
    EndFromTrees(p, Params(t.op), start + 1, t.children);
  }

  /**
   * When the scan stops before the end of the program, every branch it
   * opened was closed: the slice holds one complete branch.
   */
  lemma {:induction false} EndFromCloses(p: seq<Node>, need: int, e: nat)
    requires e <= |p| && need >= 0
    ensures var r := EndFrom(p, need, e);
      r < |p| ==> Missing(p, need, e, r) == 0
    ensures forall k :: e <= k < EndFrom(p, need, e) ==> Missing(p, need, e, k) > 0
    decreases |p| - e
  {
    if need > 0 && e < |p| {
      EndFromCloses(p, need + Params(p[e]) - 1, e + 1);
      var r := EndFrom(p, need, e);
      MissingStep(p, need, e, r);
      forall k | e <= k < r ensures Missing(p, need, e, k) > 0 {
        if k > e { MissingStep(p, need, e, k); }
      }
    }
  }

  /** The branches still missing after scanning `p[e..k]` with `need` missing at `e`. */
  function Missing(p: seq<Node>, need: int, e: nat, k: nat): int
    requires e <= k <= |p|
    decreases k - e
  {
    if k == e then need else Missing(p, need, e, k - 1) + Params(p[k - 1]) - 1
  }

  lemma {:induction false} MissingStep(p: seq<Node>, need: int, e: nat, k: nat)
    requires e < k <= |p|
    ensures Missing(p, need, e, k) == Missing(p, need + Params(p[e]) - 1, e + 1, k)
    decreases k - e
  {
    if k > e + 1 {
      MissingStep(p, need, e, k - 1);
    }
  }

  /**
   * `_find_end` returns `start` past the end of the program; otherwise an
   * index after `start` and at most the length, where (unless the program
   * ran out first) the branches opened since `start` are all closed,
   * and not before.
   */
  lemma BranchEndMeaning(p: seq<Node>, start: nat)
    ensures start >= |p| ==> BranchEnd(p, start) == start
    ensures start < |p| ==> start < BranchEnd(p, start) <= |p|
    ensures start < |p| && BranchEnd(p, start) < |p| ==> Missing(p, 1, start, BranchEnd(p, start)) == 0
    ensures start < |p| ==> forall k :: start <= k < BranchEnd(p, start) ==> Missing(p, 1, start, k) > 0
  {
    if start < |p| {
      var r := BranchEnd(p, start);
      EndFromCloses(p, Params(p[start]), start + 1);
      MissingStep(p, 1, start, r);
      forall k | start <= k < r ensures Missing(p, 1, start, k) > 0 {
        if k > start { MissingStep(p, 1, start, k); }
      }
    }
  }

  // ---------------------------------------------------------------------
  // Depth
  // ---------------------------------------------------------------------

  /** The depth loop's state: the open instructions' remaining parameter counts, and the maximum. */
  datatype DepthState = DepthState(stack: seq<int>, deepest: int)

  /** Takes one parameter off the topmost open instruction. */
  function Decrement(s: seq<int>): seq<int>
  {
    if s == [] then [] else s[..|s| - 1] + [s[|s| - 1] - 1]
  }

  /** Closes every completed instruction on top of the stack. */
  function Settle(s: seq<int>): seq<int>
    decreases |s|
  {
    if s != [] && s[|s| - 1] <= 0 then Settle(Decrement(s[..|s| - 1])) else s
  }

  /** The stack after a terminal fills a parameter of the topmost instruction. */
  function Close(s: seq<int>): seq<int>
  {
    Settle(Decrement(s))
  }

  /** One iteration of the `depth` loop. */
  function DepthStep(st: DepthState, op: Node): DepthState
  {
    if Params(op) > 0 then
      var s := st.stack + [Params(op)];
      DepthState(s, if |s| > st.deepest then |s| else st.deepest)
    else
      DepthState(Close(st.stack), st.deepest)
  }

  /** The state after the loop has visited `p`, starting from `st`. */
  function DepthRun(st: DepthState, p: seq<Node>): DepthState
    decreases |p|
  {
    if p == [] then st else DepthStep(DepthRun(st, p[..|p| - 1]), p[|p| - 1])
  }

  const DepthStart := DepthState([], 1)

  /** `depth`: the deepest stack of open instructions seen, at least 1. */
  function DepthOf(p: seq<Node>): int
  {
    DepthRun(DepthStart, p).deepest
  }

  /** `depth`, with the stack loop. */
  method Depth(program: seq<Node>) returns (maxDepth: int)
    ensures maxDepth == DepthOf(program)
  {
    var opStack: seq<int> := [];
    maxDepth := 1;
    for i := 0 to |program|
      invariant DepthRun(DepthStart, program[..i]) == DepthState(opStack, maxDepth)
    {
      var op := program[i];
      assert program[..i + 1][..i] == program[..i];
      if Params(op) > 0 {
        opStack := opStack + [Params(op)];
        if |opStack| > maxDepth {
          maxDepth := |opStack|;
        }
      } else {
        opStack := CloseTop(opStack);
      }
    }
    assert program[..|program|] == program;
  }

  /** A terminal fills one parameter of the topmost instruction; finished instructions are popped. */
  method CloseTop(s: seq<int>) returns (opStack: seq<int>)
    ensures opStack == Close(s)
  {
    opStack := s;
    if opStack != [] {
      opStack := opStack[..|opStack| - 1] + [opStack[|opStack| - 1] - 1];
    }
    while opStack != [] && opStack[|opStack| - 1] <= 0
      invariant Settle(opStack) == Close(s)
      decreases |opStack|
    {
      opStack := opStack[..|opStack| - 1];
      if opStack != [] {
        opStack := opStack[..|opStack| - 1] + [opStack[|opStack| - 1] - 1];
      }
    }
  }

  /** Running the loop over two lists one after the other. */
  lemma {:induction false} DepthRunAppend(st: DepthState, a: seq<Node>, b: seq<Node>)
    ensures DepthRun(st, a + b) == DepthRun(DepthRun(st, a), b)
    decreases |b|
  {
    if b == [] {
      assert a + b == a;
    } else {
      assert (a + b)[..|a + b| - 1] == a + b[..|b| - 1];
      assert (a + b)[|a + b| - 1] == b[|b| - 1];
      DepthRunAppend(st, a, b[..|b| - 1]);
    }
  }

  /** The nesting of instructions with parameters along the deepest path of a tree. */
  function Height(t: Tree): nat
    decreases t
  {
    if Params(t.op) == 0 then 0 else 1 + MaxHeight(t.children)
  }

  function MaxHeight(ts: seq<Tree>): nat
    decreases ts
  {
    if ts == [] then 0
    else
      var h := Height(ts[0]);
      var rest := MaxHeight(ts[1..]);
      if h > rest then h else rest
  }

  /**
   * Visiting a whole subtree closes one parameter of the instruction
   * below it and raises the maximum to the stack height plus the
   * subtree's nesting.
   */
  lemma {:induction false} DepthRunTree(s: seq<int>, d: int, t: Tree)
    requires WellFormed(t) && d >= |s|
    ensures DepthRun(DepthState(s, d), Flatten(t))
         == DepthState(Close(s), if |s| + Height(t) > d then |s| + Height(t) else d)
    decreases t, 1
  {
    DepthRunAppend(DepthState(s, d), [t.op], FlattenAll(t.children));
    assert [t.op][..0] == [];
    var st := DepthRun(DepthState(s, d), [t.op]);
    if Params(t.op) > 0 {
      var k := Params(t.op);
      assert st == DepthState(s + [k], if |s| + 1 > d then |s| + 1 else d);
      DepthRunTrees(st, s, k, t.children);
    } else {
      assert t.children == [];
    }
  }

  /** Visiting the `k` remaining branches of the topmost instruction closes it. */
  lemma {:induction false} DepthRunTrees(st: DepthState, s: seq<int>, k: nat, ts: seq<Tree>)
    requires AllWellFormed(ts) && |ts| == k >= 1
    requires st.stack == s + [k] && st.deepest >= |s| + 1
    ensures DepthRun(st, FlattenAll(ts))
         == DepthState(Close(s), if |s| + 1 + MaxHeight(ts) > st.deepest then |s| + 1 + MaxHeight(ts) else st.deepest)
    decreases ts, 0
  {
    RestWellFormed(ts);
    var d := st.deepest;
    var h := Height(ts[0]);
    var d1 := if |s| + 1 + h > d then |s| + 1 + h else d;
    var rest := ts[1..];
    var m := MaxHeight(rest);
    assert MaxHeight(ts) == if h > m then h else m;
    var mid := DepthRun(st, Flatten(ts[0]));
    assert mid == DepthState(Close(s + [k]), d1) by {
      assert st == DepthState(s + [k], d);
      DepthRunTree(s + [k], d, ts[0]);
    }
    assert DepthRun(st, FlattenAll(ts)) == DepthRun(mid, FlattenAll(rest)) by {
      assert FlattenAll(ts) == Flatten(ts[0]) + FlattenAll(rest);
      DepthRunAppend(st, Flatten(ts[0]), FlattenAll(rest));
    }
    CloseLast(s, k);
    if k > 1 {
      assert mid.stack == s + [k - 1] && mid.deepest >= |s| + 1;
      DepthRunTrees(mid, s, k - 1, rest);
    } else {
      assert FlattenAll(rest) == [];
      assert m == 0;
    }
  }

  /** Filling a parameter of an instruction with `k` left: it stays open with `k - 1`, or closes. */
  lemma CloseLast(s: seq<int>, k: int)
    ensures Close(s + [k]) == if k - 1 <= 0 then Close(s) else s + [k - 1]
  {
    assert Decrement(s + [k]) == s + [k - 1];
    assert (s + [k - 1])[..|s|] == s;
  }

  /** `depth` of a well-formed program is its nesting of instructions with parameters, and at least 1. */
  lemma DepthOfTree(t: Tree)
    requires WellFormed(t)
    ensures DepthOf(Flatten(t)) == if Height(t) > 1 then Height(t) else 1
  {
    DepthRunTree([], 1, t);
  }

  /** The maximum the loop keeps never falls. */
  lemma {:induction false} DepthRunGrows(st: DepthState, p: seq<Node>)
    ensures DepthRun(st, p).deepest >= st.deepest
    decreases |p|
  {
    if p != [] {
      DepthRunGrows(st, p[..|p| - 1]);
    }
  }

  /** `depth` is at least 1 for every program, well-formed or not. */
  lemma DepthAtLeastOne(p: seq<Node>)
    ensures DepthOf(p) >= 1
  {
    DepthRunGrows(DepthStart, p);
  }

  // ---------------------------------------------------------------------
  // The edit mutation
  // ---------------------------------------------------------------------

  /**
   * The edited program from index `i` on: a NOT followed by NOT is
   * dropped with it; an IF followed by NOT is written IF, then the
   * condition after the NOT, then the third branch, then the second;
   * every other node is copied.
   */
  function EditFrom(p: seq<Node>, i: nat): seq<Node>
    requires i <= |p|
    decreases |p| - i
  {
    if i == |p| then []
    else if p[i] == Not && i + 1 < |p| && p[i + 1] == Not then EditFrom(p, i + 2)
    else if p[i] == If && i + 1 < |p| && p[i + 1] == Not then
      var x := BranchEnd(p, i + 2);
      var f := BranchEnd(p, x);
      var t := BranchEnd(p, f);
      [If] + p[i + 2..x] + p[f..t] + p[x..f] + EditFrom(p, t)
    else [p[i]] + EditFrom(p, i + 1)
  }

  /** The edit mutation of one program. */
  function Edited(p: seq<Node>): seq<Node>
  {
    EditFrom(p, 0)
  }

  /** `_edit` for one program: the lookahead loop. */
  method Edit(program: seq<Node>) returns (newProgram: seq<Node>)
    ensures newProgram == Edited(program)
  {
    newProgram := [];
    var i := 0;
    while i < |program|
      invariant i <= |program|
      invariant newProgram + EditFrom(program, i) == Edited(program)
      decreases |program| - i
    {
      var instr := program[i];
      var next := if i < |program| - 1 then Some(program[i + 1]) else None;
      if instr == Not && next == Some(Not) {
        i := i + 2;
      } else if instr == If && next == Some(Not) {
        var exprEnd := FindEnd(program, i + 2);
        var falseEnd := FindEnd(program, exprEnd);
        var trueEnd := FindEnd(program, falseEnd);
        var exprStart, falseStart, trueStart := i + 2, exprEnd, falseEnd;
        EditIfNotStep(program, i, exprEnd, falseEnd, trueEnd, newProgram);
        i := trueEnd;
        newProgram := newProgram + [If];
        newProgram := newProgram + program[exprStart..exprEnd];
        newProgram := newProgram + program[trueStart..trueEnd];
        newProgram := newProgram + program[falseStart..falseEnd];
      } else {
        EditCopyStep(program, i, newProgram);
        newProgram := newProgram + [program[i]];
        i := i + 1;
      }
    }
  }

  /** The IF NOT step of the loop keeps the edit of the whole program in view. */
  lemma EditIfNotStep(p: seq<Node>, i: nat, x: nat, f: nat, t: nat, done: seq<Node>)
    requires i + 1 < |p| && p[i] == If && p[i + 1] == Not
    requires x == BranchEnd(p, i + 2) && f == BranchEnd(p, x) && t == BranchEnd(p, f)
    ensures i + 2 <= x <= f <= t <= |p|
    ensures (((done + [If]) + p[i + 2..x]) + p[f..t]) + p[x..f] + EditFrom(p, t) == done + EditFrom(p, i)
  {
    EditIfNot(p, i, x, f, t);
    var rest := EditFrom(p, t);
    assert (((done + [If]) + p[i + 2..x]) + p[f..t]) + p[x..f] + rest
        == done + ([If] + p[i + 2..x] + p[f..t] + p[x..f] + rest);
  }

  /** The copying step of the loop keeps the edit of the whole program in view. */
  lemma EditCopyStep(p: seq<Node>, i: nat, done: seq<Node>)
    requires i < |p| && !(p[i] == Not && i + 1 < |p| && p[i + 1] == Not)
    requires !(p[i] == If && i + 1 < |p| && p[i + 1] == Not)
    ensures (done + [p[i]]) + EditFrom(p, i + 1) == done + EditFrom(p, i)
  {
    assert EditFrom(p, i) == [p[i]] + EditFrom(p, i + 1);
  }

  /**
   * IF NOT X Y Z becomes IF X Z Y when X, Y and Z are whole branches; the
   * edit continues after Z, and the branches themselves are copied
   * unedited.
   */
  lemma IfNotSwapped(p: seq<Node>, i: nat, x: Tree, y: Tree, z: Tree)
    requires WellFormed(x) && WellFormed(y) && WellFormed(z)
    requires i + 2 + |Flatten(x) + Flatten(y) + Flatten(z)| <= |p| && p[i] == If && p[i + 1] == Not
    requires p[i + 2..i + 2 + |Flatten(x) + Flatten(y) + Flatten(z)|] == Flatten(x) + Flatten(y) + Flatten(z)
    ensures EditFrom(p, i) == [If] + Flatten(x) + Flatten(z) + Flatten(y)
                            + EditFrom(p, i + 2 + |Flatten(x) + Flatten(y) + Flatten(z)|)
  {
    var fx, fy, fz := Flatten(x), Flatten(y), Flatten(z);
    var a, b, c := i + 2 + |fx|, i + 2 + |fx| + |fy|, i + 2 + |fx + fy + fz|;
    assert p[i + 2..a] == fx && p[a..b] == fy && p[b..c] == fz &&
      BranchEnd(p, i + 2) == a && BranchEnd(p, a) == b && BranchEnd(p, b) == c by {
      assert fx + fy + fz == fx + (fy + fz);
      SliceSplit(p, i + 2, fx, fy + fz);
      SliceSplit(p, a, fy, fz);
      BranchEndOfTree(p, i + 2, x);
      BranchEndOfTree(p, a, y);
      BranchEndOfTree(p, b, z);
    }
    EditIfNot(p, i, a, b, c);
  }

  /** One IF NOT step of the edit. */
  lemma EditIfNot(p: seq<Node>, i: nat, x: nat, f: nat, t: nat)
    requires i + 1 < |p| && p[i] == If && p[i + 1] == Not
    requires x == BranchEnd(p, i + 2) && f == BranchEnd(p, x) && t == BranchEnd(p, f)
    ensures i + 2 <= x <= f <= t <= |p|
    ensures EditFrom(p, i) == [If] + p[i + 2..x] + p[f..t] + p[x..f] + EditFrom(p, t)
  {
  }

  /** A node other than NOT and IF is copied to the front of the edit. */
  lemma EditHead(p: seq<Node>, i: nat)
    requires i < |p| && p[i] != Not && p[i] != If
    ensures EditFrom(p, i) != [] && EditFrom(p, i)[0] == p[i]
  {
  }

  /** Without IF, the edited program has no two adjacent NOTs left. */
  lemma {:induction false} NoNotNotLeft(p: seq<Node>, i: nat)
    requires i <= |p| && forall k :: 0 <= k < |p| ==> p[k] != If
    ensures var r := EditFrom(p, i);
      forall k :: 0 <= k < |r| - 1 ==> !(r[k] == Not && r[k + 1] == Not)
    decreases |p| - i
  {
    if i < |p| {
      if p[i] == Not && i + 1 < |p| && p[i + 1] == Not {
        NoNotNotLeft(p, i + 2);
        assert EditFrom(p, i) == EditFrom(p, i + 2);
      } else {
        NoNotNotLeft(p, i + 1);
        var rest := EditFrom(p, i + 1);
        if p[i] == Not && i + 1 < |p| {
          EditHead(p, i + 1);
        }
        assert EditFrom(p, i) == [p[i]] + rest;
      }
    }
  }

  // ---------------------------------------------------------------------
  // Concrete edits
  // ---------------------------------------------------------------------

  const T0 := Op("T0", 0)
  const T1 := Op("T1", 0)
  const T2 := Op("T2", 0)
  const And := Op("AND", 2)
  const Or := Op("OR", 2)

  /** 'not not T0' edits to 'T0'; 'and not not T0 or T1 T0' to 'and T0 or T1 T0'. */
  lemma NotNotExamples()
    ensures Edited([Not, Not, T0]) == [T0]
    ensures Edited([And, Not, Not, T0, Or, T1, T0]) == [And, T0, Or, T1, T0]
  {
    var p := [Not, Not, T0];
    assert EditFrom(p, 0) == EditFrom(p, 2) == [T0] + EditFrom(p, 3);
    var q := [And, Not, Not, T0, Or, T1, T0];
    assert EditFrom(q, 4) == [Or] + EditFrom(q, 5) == [Or, T1] + EditFrom(q, 6) == [Or, T1, T0];
    assert EditFrom(q, 0) == [And] + EditFrom(q, 1) == [And] + EditFrom(q, 3) == [And, T0] + EditFrom(q, 4);
  }

  /** 'not not or T0 T1' edits to 'or T0 T1'. */
  lemma NestedNotNotExample()
    ensures Edited([Not, Not, Or, T0, T1]) == [Or, T0, T1]
  {
    var p := [Not, Not, Or, T0, T1];
    assert EditFrom(p, 3) == [T0] + EditFrom(p, 4) == [T0, T1];
    assert EditFrom(p, 0) == EditFrom(p, 2) == [Or] + EditFrom(p, 3);
  }

  /** 'if not T0 T2 T1' edits to 'if T0 T1 T2'. */
  lemma IfNotExample()
    ensures Edited([If, Not, T0, T2, T1]) == [If, T0, T1, T2]
  {
    var p := [If, Not, T0, T2, T1];
    assert BranchEnd(p, 2) == 3 && BranchEnd(p, 3) == 4 && BranchEnd(p, 4) == 5;
    EditIfNot(p, 0, 3, 4, 5);
  }

  /** 'if not (and T0 T1) (and T0 T2) (or T0 T1)' edits to 'if (and T0 T1) (or T0 T1) (and T0 T2)'. */
  lemma NestedIfNotExample()
    ensures Edited([If, Not, And, T0, T1, And, T0, T2, Or, T0, T1])
         == [If, And, T0, T1, Or, T0, T1, And, T0, T2]
  {
    var p := [If, Not, And, T0, T1, And, T0, T2, Or, T0, T1];
    assert EndFrom(p, 2, 3) == EndFrom(p, 1, 4) == EndFrom(p, 0, 5) == 5;
    assert EndFrom(p, 2, 6) == EndFrom(p, 1, 7) == EndFrom(p, 0, 8) == 8;
    assert EndFrom(p, 2, 9) == EndFrom(p, 1, 10) == EndFrom(p, 0, 11) == 11;
    EditIfNot(p, 0, 5, 8, 11);
  }

  /**
   * The branches an IF NOT rewrite moves are copied without being edited,
   * so a NOT NOT inside the condition survives: 'if not not not T0 T1 T2'
   * edits to 'if not not T0 T2 T1'. This is why `NoNotNotLeft` is stated
   * for programs without IF.
   */
  lemma IfNotKeepsNotNot()
    ensures Edited([If, Not, Not, Not, T0, T1, T2]) == [If, Not, Not, T0, T2, T1]
  {
    var p := [If, Not, Not, Not, T0, T1, T2];
    assert EndFrom(p, 1, 3) == EndFrom(p, 1, 4) == EndFrom(p, 0, 5) == 5;
    assert BranchEnd(p, 5) == 6 && BranchEnd(p, 6) == 7;
    EditIfNot(p, 0, 5, 6, 7);
  }

  // ---------------------------------------------------------------------
  // Crossover
  // ---------------------------------------------------------------------

  /** The two children of swapping `p1[s1..e1]` with `p2[s2..e2]`. */
  function Splice(p1: seq<Node>, p2: seq<Node>, s1: nat, e1: nat, s2: nat, e2: nat): (seq<Node>, seq<Node>)
    requires s1 <= e1 <= |p1| && s2 <= e2 <= |p2|
  {
    (p1[..s1] + p2[s2..e2] + p1[e1..], p2[..s2] + p1[s1..e1] + p2[e2..])
  }

  /** The splice keeps every node of the pair: the same total count, the same multiset. */
  lemma SpliceKeepsNodes(p1: seq<Node>, p2: seq<Node>, s1: nat, e1: nat, s2: nat, e2: nat)
    requires s1 <= e1 <= |p1| && s2 <= e2 <= |p2|
    ensures var c := Splice(p1, p2, s1, e1, s2, e2);
      |c.0| + |c.1| == |p1| + |p2| && multiset(c.0) + multiset(c.1) == multiset(p1) + multiset(p2)
  {
    assert p1 == p1[..s1] + p1[s1..e1] + p1[e1..];
    assert p2 == p2[..s2] + p2[s2..e2] + p2[e2..];
  }

  /** Splicing the swapped pieces back restores the parents. */
  lemma SpliceUndo(p1: seq<Node>, p2: seq<Node>, s1: nat, e1: nat, s2: nat, e2: nat)
    requires s1 <= e1 <= |p1| && s2 <= e2 <= |p2|
    ensures var c := Splice(p1, p2, s1, e1, s2, e2);
      Splice(c.0, c.1, s1, s1 + (e2 - s2), s2, s2 + (e1 - s1)) == (p1, p2)
  {
    var c := Splice(p1, p2, s1, e1, s2, e2);
    assert c.0[..s1] == p1[..s1] && c.0[s1..s1 + (e2 - s2)] == p2[s2..e2] && c.0[s1 + (e2 - s2)..] == p1[e1..];
    assert c.1[..s2] == p2[..s2] && c.1[s2..s2 + (e1 - s1)] == p1[s1..e1] && c.1[s2 + (e1 - s1)..] == p2[e2..];
    assert p1 == p1[..s1] + p1[s1..e1] + p1[e1..];
    assert p2 == p2[..s2] + p2[s2..e2] + p2[e2..];
  }

  /** A child is rejected when a (non-zero) depth limit is set and it is deeper. */
  predicate TooDeep(p: seq<Node>, deepestResult: int)
  {
    deepestResult != 0 && DepthOf(p) > deepestResult
  }

  /**
   * The crossover of one program pair: both must have more than one node;
   * each pick is the start of the chosen branch, or None when no node of
   * the wanted kind was found; the branches are swapped, and the parents
   * kept when either child exceeds the depth limit (0: no limit).
   */
  function Crossover(p1: seq<Node>, p2: seq<Node>, pick1: Option<nat>, pick2: Option<nat>, deepestResult: int)
    : (seq<Node>, seq<Node>)
  {
    if |p1| > 1 && |p2| > 1 then
      var s1 := if pick1.Some? then pick1.value else 0;
      var s2 := if pick2.Some? then pick2.value else 0;
      var e1 := if pick1.Some? then BranchEnd(p1, s1) else 0;
      var e2 := if pick2.Some? then BranchEnd(p2, s2) else 0;
      if s1 < e1 && s2 < e2 then
        var c := Splice(p1, p2, s1, e1, s2, e2);
        if TooDeep(c.0, deepestResult) || TooDeep(c.1, deepestResult) then (p1, p2) else c
      else (p1, p2)
    else (p1, p2)
  }

  /**
   * Crossover keeps the pair's nodes, and its children respect the depth
   * limit unless they are the parents themselves; with both picks inside
   * the programs it swaps exactly the picked branches, unless a child is
   * too deep.
   */
  lemma CrossoverMeaning(p1: seq<Node>, p2: seq<Node>, pick1: Option<nat>, pick2: Option<nat>, deepestResult: int)
    ensures var r := Crossover(p1, p2, pick1, pick2, deepestResult);
      |r.0| + |r.1| == |p1| + |p2| && multiset(r.0) + multiset(r.1) == multiset(p1) + multiset(p2)
    ensures var r := Crossover(p1, p2, pick1, pick2, deepestResult);
      r == (p1, p2) || (!TooDeep(r.0, deepestResult) && !TooDeep(r.1, deepestResult))
    ensures |p1| > 1 && |p2| > 1 && pick1.Some? && pick1.value < |p1| && pick2.Some? && pick2.value < |p2| ==>
      var c := Splice(p1, p2, pick1.value, BranchEnd(p1, pick1.value), pick2.value, BranchEnd(p2, pick2.value));
      Crossover(p1, p2, pick1, pick2, deepestResult)
        == if TooDeep(c.0, deepestResult) || TooDeep(c.1, deepestResult) then (p1, p2) else c
  {
    if |p1| > 1 && |p2| > 1 && pick1.Some? && pick2.Some? {
      var s1, s2 := pick1.value, pick2.value;
      var e1, e2 := BranchEnd(p1, s1), BranchEnd(p2, s2);
      if s1 < e1 && s2 < e2 {
        SpliceKeepsNodes(p1, p2, s1, e1, s2, e2);
      }
    }
  }
}
