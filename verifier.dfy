/**
 * Static checks of the ESDL syntax tree (esdlc/verifier.py): which names
 * each block reads before writing them and which it writes
 * (`_calculate_variables_in_out`), which globals are constants
 * (`_calculate_globals`, `_calculate_constants`), and the checks on the
 * groups of FROM and JOIN statements (`_verify_groups`).
 *
 * The dictionaries the source builds map a name to the list of nodes that
 * mention it; those lists only serve to place error messages, so here they
 * are sets of names.
 */
module Verifier {
  import Slices

  // ---------------------------------------------------------------------
  // The statements of a block, as far as the checks look at them
  // ---------------------------------------------------------------------

  /** What a sub-expression reads before writing it (`input`) and what it writes (`output`): a function call's own `variables_in`/`variables_out`. */
  datatype Access = Access(input: set<string>, output: set<string>)

  /** The size given to a group: none, a function call (`_list` for a list), a variable, or a literal. */
  datatype Size = NoSize | SizeCall(fname: string, uses: Access) | SizeVariable(name: string) | SizeLiteral

  /** A destination group of a FROM or JOIN statement. */
  datatype Dest = Dest(name: string, size: Size)

  /** A source group; `sized` when a size was written on it. */
  datatype Src = Src(name: string, sized: bool)

  /** The USING part: the sources of a JOIN, or the filter chain of a FROM. */
  datatype Using = JoinSource | Filters(uses: Access)

  /** The count of a REPEAT. */
  datatype Count = CountVariable(name: string) | CountCall(uses: Access) | CountLiteral

  datatype Stmt =
    | Call(uses: Access)
    | Variable(name: string)
    | Transfer(sources: seq<Src>, dests: seq<Dest>, using: Using)
    | Eval(groups: seq<string>, funcs: seq<Access>)
    | Repeat(count: Count, body: seq<Stmt>)
    | Block(body: seq<Stmt>)
    | Ignored

  // ---------------------------------------------------------------------
  // Names read and written by a block
  // ---------------------------------------------------------------------

  /** `variables_in`, `variables_out` and `groups_local` of a block. */
  datatype Vars = Vars(vin: set<string>, vout: set<string>, local: set<string>)

  const NoVars := Vars({}, {}, {})

  /** A read and a write in turn: what is read and was not written before is needed from outside. */
  function Touch(acc: Vars, input: set<string>, output: set<string>): Vars
  {
    Vars(acc.vin + (input - acc.vout), acc.vout + output, acc.local)
  }

  /** The size expressions of the destinations, in order. */
  function SizesTouch(acc: Vars, dests: seq<Dest>): Vars
    decreases |dests|
  {
    if dests == [] then acc
    else
      var next := match dests[0].size
        case SizeCall(_, uses) => Touch(acc, uses.input, uses.output)
        case SizeVariable(name) => Touch(acc, {name}, {})
        case _ => acc;
      SizesTouch(next, dests[1..])
  }

  function FuncsTouch(acc: Vars, funcs: seq<Access>): Vars
    decreases |funcs|
  {
    if funcs == [] then acc
    else FuncsTouch(Touch(acc, funcs[0].input, funcs[0].output), funcs[1..])
  }

  function Names(srcs: seq<Src>): set<string>
  {
    set s | s in srcs :: s.name
  }

  function DestNames(dests: seq<Dest>): set<string>
  {
    set d | d in dests :: d.name
  }

  /** A nested block's names, seen from the enclosing block. */
  function Inner(acc: Vars, sub: Vars): Vars
  {
    var t := Touch(acc, sub.vin, sub.vout);
    Vars(t.vin, t.vout, t.local + sub.local)
  }

  /** One statement's effect on the names of its block. */
  function Apply(acc: Vars, s: Stmt): Vars
    decreases s
  {
    match s
    case Call(uses) => Touch(acc, uses.input, uses.output)
    case Variable(name) => Touch(acc, {name}, {})
    case Transfer(sources, dests, using) =>
      var a1 := match using
        case JoinSource => Touch(acc, Names(sources), {})
        case Filters(uses) => Touch(acc, uses.input, uses.output);
      var groups := DestNames(dests);
      var a2 := Vars(a1.vin, a1.vout + groups, a1.local + (groups - a1.vin));
      SizesTouch(a2, dests)
    case Eval(groups, funcs) =>
      FuncsTouch(Touch(acc, set g | g in groups, {}), funcs)
    case Repeat(count, body) =>
      var a1 := match count
        case CountVariable(name) => Touch(acc, {name}, {})
        case CountCall(uses) => Touch(acc, uses.input, {})
        case CountLiteral => acc;
      Inner(a1, Summary(NoVars, body))
    case Block(body) => Inner(acc, Summary(NoVars, body))
    case Ignored => acc
  }

  /** The statements of a block applied in order. */
  function Summary(acc: Vars, block: seq<Stmt>): Vars
    decreases block
  {
    if block == [] then acc else Summary(Apply(acc, block[0]), block[1..])
  }

  /**
   * `_calculate_variables_in_out`: the loop over the block's statements,
   * recursing into nested blocks and REPEATs.
   */
  method CalculateVariables(block: seq<Stmt>) returns (vars: Vars)
    ensures vars == Summary(NoVars, block)
    decreases block
  {
    vars := NoVars;
    var i := 0;
    while i < |block|
      invariant 0 <= i <= |block|
      invariant Summary(vars, block[i..]) == Summary(NoVars, block)
      decreases |block| - i
    {
      var s := block[i];
      match s {
        case Repeat(count, body) =>
          match count {
            case CountVariable(name) =>
              vars := Touch(vars, {name}, {});
            case CountCall(uses) =>
              vars := Touch(vars, uses.input, {});
            case CountLiteral =>
          }
          var sub := CalculateVariables(body);
          vars := Inner(vars, sub);
        case Block(body) =>
          var sub := CalculateVariables(body);
          vars := Inner(vars, sub);
        case _ =>
          vars := Apply(vars, s);
      }
      assert block[i..][1..] == block[i + 1..];
      i := i + 1;
    }
  }

  /** The input and output of a block's statements in the order the loop sees them, nested blocks summarised. */
  function Touches(s: Stmt): seq<Access>
  {
    match s
    case Call(uses) => [uses]
    case Variable(name) => [Access({name}, {})]
    case Transfer(sources, dests, using) =>
      var first := match using
        case JoinSource => Access(Names(sources), {})
        case Filters(uses) => uses;
      [first, Access({}, DestNames(dests))] + SizeTouches(dests)
    case Eval(groups, funcs) => [Access(set g | g in groups, {})] + funcs
    case Repeat(count, body) =>
      var c := match count
        case CountVariable(name) => [Access({name}, {})]
        case CountCall(uses) => [Access(uses.input, {})]
        case CountLiteral => [];
      var sub := Summary(NoVars, body);
      c + [Access(sub.vin, sub.vout)]
    case Block(body) =>
      var sub := Summary(NoVars, body);
      [Access(sub.vin, sub.vout)]
    case Ignored => []
  }

  function SizeTouches(dests: seq<Dest>): seq<Access>
    decreases |dests|
  {
    if dests == [] then []
    else
      var here := match dests[0].size
        case SizeCall(_, uses) => [uses]
        case SizeVariable(name) => [Access({name}, {})]
        case _ => [];
      here + SizeTouches(dests[1..])
  }

  /** Touches applied in order, groups_local aside. */
  function Replay(acc: Vars, ts: seq<Access>): Vars
    decreases |ts|
  {
    if ts == [] then acc else Replay(Touch(acc, ts[0].input, ts[0].output), ts[1..])
  }

  lemma {:induction false} ReplayAppend(acc: Vars, ts: seq<Access>, us: seq<Access>)
    ensures Replay(acc, ts + us) == Replay(Replay(acc, ts), us)
    decreases |ts|
  {
    if ts != [] {
      assert (ts + us)[0] == ts[0] && (ts + us)[1..] == ts[1..] + us;
      ReplayAppend(Touch(acc, ts[0].input, ts[0].output), ts[1..], us);
    } else {
      assert ts + us == us;
    }
  }

  /** The read and written names of `Apply` are those of replaying the statement's touches. */
  lemma {:induction false} ApplyReplays(acc: Vars, other: Vars, s: Stmt)
    requires acc.vin == other.vin && acc.vout == other.vout
    ensures Apply(acc, s).vin == Replay(other, Touches(s)).vin
    ensures Apply(acc, s).vout == Replay(other, Touches(s)).vout
  {
    match s
    case Transfer(sources, dests, using) =>
      var first := match using
        case JoinSource => Access(Names(sources), {})
        case Filters(uses) => uses;
      var a1 := Touch(acc, first.input, first.output);
      var groups := DestNames(dests);
      var a2 := Vars(a1.vin, a1.vout + groups, a1.local + (groups - a1.vin));
      assert Touches(s) == [first, Access({}, groups)] + SizeTouches(dests);
      var o1 := Touch(other, first.input, first.output);
      var o2 := Touch(o1, {}, groups);
      assert Replay(other, [first, Access({}, groups)]) == o2 by {
        var l := [first, Access({}, groups)];
        assert l[0] == first && l[1..] == [Access({}, groups)];
        assert Replay(other, l) == Replay(o1, [Access({}, groups)]);
        assert [Access({}, groups)][1..] == [];
        assert Replay(o1, [Access({}, groups)]) == Replay(o2, []);
      }
      ReplayAppend(other, [first, Access({}, groups)], SizeTouches(dests));
      SizesReplay(a2, o2, dests);
    case Eval(groups, funcs) =>
      var g := Access(set x | x in groups, {});
      ReplayAppend(other, [g], funcs);
      FuncsReplay(Touch(acc, g.input, g.output), Touch(other, g.input, g.output), funcs);
    case Repeat(count, body) =>
      var c := match count
        case CountVariable(name) => [Access({name}, {})]
        case CountCall(uses) => [Access(uses.input, {})]
        case CountLiteral => [];
      var sub := Summary(NoVars, body);
      ReplayAppend(other, c, [Access(sub.vin, sub.vout)]);
    case _ =>
  }

  lemma {:induction false} SizesReplay(acc: Vars, other: Vars, dests: seq<Dest>)
    requires acc.vin == other.vin && acc.vout == other.vout
    ensures SizesTouch(acc, dests).vin == Replay(other, SizeTouches(dests)).vin
    ensures SizesTouch(acc, dests).vout == Replay(other, SizeTouches(dests)).vout
    decreases |dests|
  {
    if dests != [] {
      var here := match dests[0].size
        case SizeCall(_, uses) => [uses]
        case SizeVariable(name) => [Access({name}, {})]
        case _ => [];
      ReplayAppend(other, here, SizeTouches(dests[1..]));
      var next := match dests[0].size
        case SizeCall(_, uses) => Touch(acc, uses.input, uses.output)
        case SizeVariable(name) => Touch(acc, {name}, {})
        case _ => acc;
      SizesReplay(next, Replay(other, here), dests[1..]);
    }
  }

  lemma {:induction false} FuncsReplay(acc: Vars, other: Vars, funcs: seq<Access>)
    requires acc.vin == other.vin && acc.vout == other.vout
    ensures FuncsTouch(acc, funcs).vin == Replay(other, funcs).vin
    ensures FuncsTouch(acc, funcs).vout == Replay(other, funcs).vout
    decreases |funcs|
  {
    if funcs != [] {
      FuncsReplay(Touch(acc, funcs[0].input, funcs[0].output), Touch(other, funcs[0].input, funcs[0].output), funcs[1..]);
    }
  }

  /** Whether one of the touches output `n`. */
  predicate WrittenIn(n: string, ts: seq<Access>)
  {
    exists j :: 0 <= j < |ts| && n in ts[j].output
  }

  /**
   * The names needed from outside are exactly those read by some touch
   * before any touch has written them (and not already written before
   * the touches start); the names written are all the touches write.
   */
  lemma {:induction false} ReplayReadsFirst(acc: Vars, ts: seq<Access>, n: string)
    ensures n in Replay(acc, ts).vin <==>
      n in acc.vin || (n !in acc.vout && exists k :: 0 <= k < |ts| && n in ts[k].input && !WrittenIn(n, ts[..k]))
    ensures n in Replay(acc, ts).vout <==> n in acc.vout || WrittenIn(n, ts)
    decreases |ts|
  {
    if ts != [] {
      var next := Touch(acc, ts[0].input, ts[0].output);
      ReplayReadsFirst(next, ts[1..], n);
      if n in acc.vin || (n !in acc.vout && exists k :: 0 <= k < |ts| && n in ts[k].input && !WrittenIn(n, ts[..k])) {
        if n !in acc.vin {
          var k :| 0 <= k < |ts| && n in ts[k].input && !WrittenIn(n, ts[..k]);
          if k > 0 {
            assert n !in ts[0].output by {
              assert ts[..k][0] == ts[0];
            }
            var t1 := ts[1..][..k - 1];
            assert !WrittenIn(n, t1) by {
              forall j | 0 <= j < |t1| ensures n !in t1[j].output {
                assert t1[j] == ts[..k][j + 1];
              }
            }
            assert ts[1..][k - 1] == ts[k];
          }
        }
      }
      if n in Replay(acc, ts).vin && n !in acc.vin {
        if n in next.vin {
          assert n in ts[0].input && n !in acc.vout;
          assert !WrittenIn(n, ts[..0]);
        } else {
          var k :| 0 <= k < |ts[1..]| && n in ts[1..][k].input && !WrittenIn(n, ts[1..][..k]);
          assert ts[1..][k] == ts[k + 1];
          var t1 := ts[..k + 1];
          assert !WrittenIn(n, t1) by {
            forall j | 0 <= j < |t1| ensures n !in t1[j].output {
              if j > 0 {
                assert t1[j] == ts[1..][..k][j - 1];
              }
            }
          }
        }
      }
      if WrittenIn(n, ts) && n !in acc.vout && n !in ts[0].output {
        var j :| 0 <= j < |ts| && n in ts[j].output;
        assert ts[1..][j - 1] == ts[j];
      }
      if WrittenIn(n, ts[1..]) {
        var j :| 0 <= j < |ts[1..]| && n in ts[1..][j].output;
        assert ts[1..][j] == ts[j + 1];
      }
    }
  }

  /** The touches of a whole block, statement after statement. */
  function BlockTouches(block: seq<Stmt>): seq<Access>
    decreases |block|
  {
    if block == [] then [] else Touches(block[0]) + BlockTouches(block[1..])
  }

  lemma {:induction false} SummaryReplays(acc: Vars, other: Vars, block: seq<Stmt>)
    requires acc.vin == other.vin && acc.vout == other.vout
    ensures Summary(acc, block).vin == Replay(other, BlockTouches(block)).vin
    ensures Summary(acc, block).vout == Replay(other, BlockTouches(block)).vout
    decreases |block|
  {
    if block != [] {
      ApplyReplays(acc, other, block[0]);
      ReplayAppend(other, Touches(block[0]), BlockTouches(block[1..]));
      SummaryReplays(Apply(acc, block[0]), Replay(other, Touches(block[0])), block[1..]);
    }
  }

  /**
   * `variables_in` of a block holds exactly the names some statement input
   * before any earlier statement (or earlier part of the same statement)
   * has written them, so a name written earlier in the block is never an
   * input; `variables_out` holds every name the block output.
   */
  lemma BlockInputs(block: seq<Stmt>, n: string)
    ensures var ts := BlockTouches(block);
      n in Summary(NoVars, block).vin <==> exists k :: 0 <= k < |ts| && n in ts[k].input && !WrittenIn(n, ts[..k])
    ensures n in Summary(NoVars, block).vout <==> WrittenIn(n, BlockTouches(block))
  {
    SummaryReplays(NoVars, NoVars, block);
    ReplayReadsFirst(NoVars, BlockTouches(block), n);
  }

  // ---------------------------------------------------------------------
  // Globals and constants
  // ---------------------------------------------------------------------

  /** The names some block reads from outside. */
  function AllInputs(blocks: seq<Vars>): (r: set<string>)
    ensures forall n :: n in r <==> exists i :: 0 <= i < |blocks| && n in blocks[i].vin
    decreases |blocks|
  {
    if blocks == [] then {}
    else
      var rest := AllInputs(blocks[1..]);
      assert forall i :: 1 <= i < |blocks| ==> blocks[i] == blocks[1..][i - 1];
      blocks[0].vin + rest
  }

  /**
   * `_calculate_globals`: the names that must be kept between blocks, which
   * are the initialiser's outputs and the inputs of every other block.
   */
  function Globals(init: Vars, blocks: seq<Vars>): set<string>
  {
    init.vout + AllInputs(blocks)
  }

  /**
   * `_calculate_constants`: the globals, less every name some block other
   * than the initialiser writes, removed block by block and name by name.
   */
  method CalculateConstants(init: Vars, blocks: seq<Vars>) returns (constants: set<string>)
    ensures forall n :: n in constants <==>
      (n in init.vout || exists i :: 0 <= i < |blocks| && n in blocks[i].vin) &&
      forall i :: 0 <= i < |blocks| ==> n !in blocks[i].vout
  {
    constants := Globals(init, blocks);
    var b := 0;
    while b < |blocks|
      invariant 0 <= b <= |blocks|
      invariant forall n :: n in constants <==>
        n in Globals(init, blocks) && forall i :: 0 <= i < b ==> n !in blocks[i].vout
    {
      var written := blocks[b].vout;
      while written != {}
        invariant written <= blocks[b].vout
        invariant forall n :: n in constants <==>
          n in Globals(init, blocks) && (forall i :: 0 <= i < b ==> n !in blocks[i].vout) &&
          (n in blocks[b].vout ==> n in written)
        decreases written
      {
        var v :| v in written;
        constants := constants - {v};
        written := written - {v};
      }
      b := b + 1;
    }
  }

  // ---------------------------------------------------------------------
  // Group checks
  // ---------------------------------------------------------------------

  /** The errors `_verify_groups` reports; `at` is the position of the group in its list. */
  datatype GroupError =
    | RepeatedDestination(at: nat, name: string)
    | UnusedGroup(at: nat, name: string)
    | InvalidGroupSize(at: nat, name: string)
    | UnexpectedGroupSize(at: nat, name: string)

  /** Destination `k` names a group an earlier destination already names. */
  predicate RepeatedAt(dests: seq<Dest>, k: nat)
    requires k < |dests|
  {
    dests[k].name in DestNames(dests[..k])
  }

  /** Every destination after the first one of its name. */
  function Repeated(dests: seq<Dest>): seq<GroupError>
    decreases |dests|
  {
    if dests == [] then []
    else
      var k := |dests| - 1;
      Repeated(dests[..k]) + if RepeatedAt(dests, k) then [RepeatedDestination(k, dests[k].name)] else []
  }

  /** Destination `k` follows a destination with no size, which takes every remaining individual. */
  predicate UnusedAt(dests: seq<Dest>, k: nat)
    requires k < |dests|
  {
    exists j :: 0 <= j < k && dests[j].size == NoSize
  }

  function Unused(dests: seq<Dest>): seq<GroupError>
    decreases |dests|
  {
    if dests == [] then []
    else
      var k := |dests| - 1;
      Unused(dests[..k]) + if UnusedAt(dests, k) then [UnusedGroup(k, dests[k].name)] else []
  }

  /** A size given as a list (a call to `_list`). */
  predicate ListSized(d: Dest)
  {
    d.size.SizeCall? && d.size.fname == "_list"
  }

  function ListSizes(dests: seq<Dest>): seq<GroupError>
    decreases |dests|
  {
    if dests == [] then []
    else
      var k := |dests| - 1;
      ListSizes(dests[..k]) + if ListSized(dests[k]) then [InvalidGroupSize(k, dests[k].name)] else []
  }

  function SizedSources(sources: seq<Src>): seq<GroupError>
    decreases |sources|
  {
    if sources == [] then []
    else
      var k := |sources| - 1;
      SizedSources(sources[..k]) + if sources[k].sized then [UnexpectedGroupSize(k, sources[k].name)] else []
  }

  /** The errors of one FROM or JOIN statement, in the order they are reported. */
  function StatementGroupErrors(dests: seq<Dest>, sources: seq<Src>): seq<GroupError>
  {
    Repeated(dests) + Unused(dests) + ListSizes(dests) + SizedSources(sources)
  }

  lemma DestNamesSnoc(dests: seq<Dest>, k: nat)
    requires k < |dests|
    ensures DestNames(dests[..k + 1]) == DestNames(dests[..k]) + {dests[k].name}
  {
    assert dests[..k + 1] == dests[..k] + [dests[k]];
  }

  /**
   * One repeated-destination error per destination beyond the distinct
   * names: the count is the number of destinations less the number of
   * distinct names, so there are none exactly when the names are distinct.
   */
  lemma {:induction false} RepeatedCount(dests: seq<Dest>)
    ensures |Repeated(dests)| + |DestNames(dests)| == |dests|
    decreases |dests|
  {
    if dests != [] {
      var k := |dests| - 1;
      RepeatedCount(dests[..k]);
      DestNamesSnoc(dests, k);
      assert dests[..k + 1] == dests;
      var before := DestNames(dests[..k]);
      if RepeatedAt(dests, k) {
        assert DestNames(dests) == before;
        assert |Repeated(dests)| == |Repeated(dests[..k])| + 1;
      } else {
        assert dests[k].name !in before;
        assert |DestNames(dests)| == |before| + 1;
        assert |Repeated(dests)| == |Repeated(dests[..k])|;
      }
    } else {
      assert DestNames(dests) == {};
    }
  }

  /** The repeated-destination errors name exactly the destinations whose name appeared before. */
  lemma {:induction false} RepeatedExactly(dests: seq<Dest>, e: GroupError)
    ensures e in Repeated(dests) <==>
      exists k :: 0 <= k < |dests| && RepeatedAt(dests, k) && e == RepeatedDestination(k, dests[k].name)
    decreases |dests|
  {
    if dests != [] {
      var k := |dests| - 1;
      RepeatedExactly(dests[..k], e);
      forall j | 0 <= j < k
        ensures RepeatedAt(dests[..k], j) == RepeatedAt(dests, j) && dests[..k][j] == dests[j]
      {
        assert dests[..k][..j] == dests[..j];
      }
    }
  }

  /** The unused-group errors name exactly the destinations after the first one without a size. */
  lemma {:induction false} UnusedExactly(dests: seq<Dest>, e: GroupError)
    ensures e in Unused(dests) <==>
      exists k :: 0 <= k < |dests| && UnusedAt(dests, k) && e == UnusedGroup(k, dests[k].name)
    decreases |dests|
  {
    if dests != [] {
      var k := |dests| - 1;
      UnusedExactly(dests[..k], e);
      forall j | 0 <= j < k
        ensures UnusedAt(dests[..k], j) == UnusedAt(dests, j) && dests[..k][j] == dests[j]
      {
        if UnusedAt(dests, j) {
          var i :| 0 <= i < j && dests[i].size == NoSize;
          assert dests[..k][i] == dests[i];
        }
      }
    }
  }

  /** The unexpected-size errors name exactly the sized sources. */
  lemma {:induction false} SizedSourcesExactly(sources: seq<Src>, e: GroupError)
    ensures e in SizedSources(sources) <==>
      exists k :: 0 <= k < |sources| && sources[k].sized && e == UnexpectedGroupSize(k, sources[k].name)
    decreases |sources|
  {
    if sources != [] {
      var k := |sources| - 1;
      SizedSourcesExactly(sources[..k], e);
      assert forall j :: 0 <= j < k ==> sources[..k][j] == sources[j];
    }
  }

  /**
   * Repeated destinations: looked for only when the distinct names are
   * fewer than the destinations; the first destination of each name takes
   * it out of the set of distinct names and every later one is reported.
   */
  method FindRepeated(dests: seq<Dest>) returns (errors: seq<GroupError>)
    ensures errors == Repeated(dests)
  {
    errors := [];
    var distinct := DestNames(dests);
    RepeatedCount(dests);
    if |distinct| < |dests| {
      var i := 0;
      while i < |dests|
        invariant 0 <= i <= |dests|
        invariant distinct == DestNames(dests) - DestNames(dests[..i])
        invariant errors == Repeated(dests[..i])
      {
        RepeatedStep(dests, i, distinct);
        if dests[i].name in distinct {
          distinct := distinct - {dests[i].name};
        } else {
          errors := errors + [RepeatedDestination(i, dests[i].name)];
        }
        i := i + 1;
      }
      assert dests[..i] == dests;
    }
  }

  /** One pass of the loop of FindRepeated over destination i. */
  lemma RepeatedStep(dests: seq<Dest>, i: nat, distinct: set<string>)
    requires i < |dests| && distinct == DestNames(dests) - DestNames(dests[..i])
    ensures DestNames(dests) - DestNames(dests[..i + 1]) == distinct - {dests[i].name}
    ensures Repeated(dests[..i + 1]) == Repeated(dests[..i]) +
      if dests[i].name in distinct then [] else [RepeatedDestination(i, dests[i].name)]
  {
    DestNamesSnoc(dests, i);
    assert dests[..i + 1][..i] == dests[..i];
    assert dests[i] in dests;
  }

  /** Destinations after an unsized one: a flag clears at the first destination without a size. */
  method FindUnused(dests: seq<Dest>) returns (errors: seq<GroupError>)
    ensures errors == Unused(dests)
  {
    errors := [];
    var allBounded := true;
    var j := 0;
    while j < |dests|
      invariant 0 <= j <= |dests|
      invariant allBounded <==> forall i :: 0 <= i < j ==> dests[i].size != NoSize
      invariant errors == Unused(dests[..j])
    {
      assert dests[..j + 1][..j] == dests[..j];
      if allBounded {
        if dests[j].size == NoSize {
          allBounded := false;
        }
      } else {
        errors := errors + [UnusedGroup(j, dests[j].name)];
      }
      j := j + 1;
    }
    assert dests[..j] == dests;
  }

  method FindListSizes(dests: seq<Dest>) returns (errors: seq<GroupError>)
    ensures errors == ListSizes(dests)
  {
    errors := [];
    var j := 0;
    while j < |dests|
      invariant 0 <= j <= |dests|
      invariant errors == ListSizes(dests[..j])
    {
      assert dests[..j + 1][..j] == dests[..j];
      if ListSized(dests[j]) {
        errors := errors + [InvalidGroupSize(j, dests[j].name)];
      }
      j := j + 1;
    }
    assert dests[..j] == dests;
  }

  method FindSizedSources(sources: seq<Src>) returns (errors: seq<GroupError>)
    ensures errors == SizedSources(sources)
  {
    errors := [];
    var j := 0;
    while j < |sources|
      invariant 0 <= j <= |sources|
      invariant errors == SizedSources(sources[..j])
    {
      assert sources[..j + 1][..j] == sources[..j];
      if sources[j].sized {
        errors := errors + [UnexpectedGroupSize(j, sources[j].name)];
      }
      j := j + 1;
    }
    assert sources[..j] == sources;
  }

  /** The checks on one FROM or JOIN statement, in the order they are reported. */
  method CheckStatement(dests: seq<Dest>, sources: seq<Src>) returns (errors: seq<GroupError>)
    ensures errors == StatementGroupErrors(dests, sources)
  {
    var repeated := FindRepeated(dests);
    var unused := FindUnused(dests);
    var listed := FindListSizes(dests);
    var sized := FindSizedSources(sources);
    errors := repeated + unused + listed + sized;
  }

  /** The group errors of a block, nested blocks and REPEATs included. */
  function GroupErrors(block: seq<Stmt>): seq<GroupError>
    decreases block
  {
    if block == [] then [] else StmtGroupErrors(block[0]) + GroupErrors(block[1..])
  }

  function StmtGroupErrors(s: Stmt): seq<GroupError>
    decreases s
  {
    match s
    case Transfer(sources, dests, _) => StatementGroupErrors(dests, sources)
    case Repeat(_, body) => GroupErrors(body)
    case Block(body) => GroupErrors(body)
    case _ => []
  }

  /** `_verify_groups`: the checks on every FROM and JOIN of the block, recursing into nested blocks. */
  method VerifyGroups(block: seq<Stmt>) returns (errors: seq<GroupError>)
    ensures errors == GroupErrors(block)
    decreases block
  {
    errors := [];
    var i := 0;
    while i < |block|
      invariant 0 <= i <= |block|
      invariant errors + GroupErrors(block[i..]) == GroupErrors(block)
      decreases |block| - i
    {
      var more := StmtVerifyGroups(block[i]);
      GroupErrorsFrom(block, i);
      Slices.ConcatAssoc(errors, more, GroupErrors(block[i + 1..]));
      errors := errors + more;
      i := i + 1;
    }
    assert errors + [] == errors;
  }

  /** The checks on one statement of a block: a FROM or JOIN, or a nested block. */
  method StmtVerifyGroups(s: Stmt) returns (errors: seq<GroupError>)
    ensures errors == StmtGroupErrors(s)
    decreases s
  {
    match s {
      case Transfer(sources, dests, _) =>
        errors := CheckStatement(dests, sources);
      case Repeat(_, body) =>
        errors := VerifyGroups(body);
      case Block(body) =>
        errors := VerifyGroups(body);
      case _ =>
        errors := [];
    }
  }

  /** The group errors of a block from statement i: those of statement i, then the rest. */
  lemma GroupErrorsFrom(block: seq<Stmt>, i: nat)
    requires i < |block|
    ensures GroupErrors(block[i..]) == StmtGroupErrors(block[i]) + GroupErrors(block[i + 1..])
  {
    assert block[i..][1..] == block[i + 1..];
  }
}
