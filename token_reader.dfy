/**
 * The token stream of the ESDL front end (esdlc/ast/lexer.py): tokens
 * ordered by position, the line-by-line assembly of the stream with
 * end-of-statement tokens and backslash continuation, and the reader that
 * walks the stream with lookahead and a stack of saved positions.
 */
module AstLexer {
  import opened Wrappers
  import Slices

  /** A token: its tag, its general type, its text, and its line and column. */
  datatype Token = Token(tag: string, ttype: string, value: string, line: int, col: int)

  /** `Token.__eq__`: tag, text and position agree (the general type is not compared). */
  predicate Same(a: Token, b: Token)
  {
    a.tag == b.tag && a.value == b.value && a.line == b.line && a.col == b.col
  }

  /** `Token.__lt__`: (line, col) compared as a tuple. */
  predicate Before(a: Token, b: Token)
  {
    a.line < b.line || (a.line == b.line && a.col < b.col)
  }

  /** `Token.__gt__`. */
  predicate After(a: Token, b: Token)
  {
    a.line > b.line || (a.line == b.line && a.col > b.col)
  }

  /**
   * Tokens are ordered by position alone: `>` is `<` reversed, the order is
   * strict and total on positions, and equal tokens are not ordered.
   */
  lemma TokenOrder(a: Token, b: Token, c: Token)
    ensures After(a, b) <==> Before(b, a)
    ensures !Before(a, a)
    ensures Before(a, b) && Before(b, c) ==> Before(a, c)
    ensures (a.line, a.col) == (b.line, b.col) || Before(a, b) || Before(b, a)
    ensures Same(a, b) ==> !Before(a, b) && !After(a, b)
  {
  }

  /** The first two cases of the test: the text takes part in equality, not in order. */
  lemma TokenOrderExample()
    ensures Same(Token("tag", "type", "value", 0, 1), Token("tag", "type", "value", 0, 1))
    ensures !Same(Token("tag", "type", "value", 0, 1), Token("tag", "type", "value B", 0, 1))
    ensures !Before(Token("tag", "type", "value", 0, 1), Token("tag", "type", "value B", 0, 1))
    ensures Before(Token("tag", "type", "value", 0, 1), Token("tag", "type", "value B", 0, 3))
  {
  }

  // ---------------------------------------------------------------------
  // tokenise
  // ---------------------------------------------------------------------

  /** One source line as `Token.parse` leaves it: its tokens and the column where reading stopped. */
  datatype ParsedLine = ParsedLine(tokens: seq<Token>, endCol: int)

  predicate IsContinuation(t: Token) { t.tag == "CONTINUATION" }

  /** The continuation pattern is anchored at the end of a line: it can only be a line's last token. */
  predicate WellFormed(lines: seq<ParsedLine>)
  {
    forall k, j :: 0 <= k < |lines| && 0 <= j < |lines[k].tokens| - 1 ==> !IsContinuation(lines[k].tokens[j])
  }

  predicate EndsContinued(ts: seq<Token>)
  {
    ts != [] && IsContinuation(ts[|ts| - 1])
  }

  /** The end-of-statement token of line k (lines are numbered from 0 here). */
  function Eos(k: int, col: int): Token
  {
    Token("EOS", "end", "\\n", k, col)
  }

  /**
   * What line k contributes to the stream: its tokens and an end of
   * statement, or, when it ends in a continuation, its tokens without the
   * continuation and no end of statement.
   */
  function LineOut(line: ParsedLine, k: int): (r: seq<Token>)
  {
    if EndsContinued(line.tokens) then line.tokens[..|line.tokens| - 1]
    else line.tokens + [Eos(k, line.endCol)]
  }

  /** The stream of lines from k on. */
  function Stream(lines: seq<ParsedLine>, k: nat): seq<Token>
    requires k <= |lines|
    decreases |lines| - k
  {
    if k == |lines| then [] else LineOut(lines[k], k) + Stream(lines, k + 1)
  }

  /** The stream of the first k lines, built the way `tokenise` builds it: line by line at the end. */
  function StreamUpTo(lines: seq<ParsedLine>, k: nat): seq<Token>
    requires k <= |lines|
  {
    if k == 0 then [] else StreamUpTo(lines, k - 1) + LineOut(lines[k - 1], k - 1)
  }

  /** The first k lines' stream followed by the rest's is the whole stream. */
  lemma {:induction false} StreamSplit(lines: seq<ParsedLine>, k: nat)
    requires k <= |lines|
    ensures StreamUpTo(lines, k) + Stream(lines, k) == Stream(lines, 0)
  {
    if k > 0 {
      StreamSplit(lines, k - 1);
      Slices.ConcatAssoc(StreamUpTo(lines, k - 1), LineOut(lines[k - 1], k - 1), Stream(lines, k));
    }
  }

  /** Built line by line, the stream of all the lines is the whole stream. */
  lemma StreamWhole(lines: seq<ParsedLine>)
    ensures StreamUpTo(lines, |lines|) == Stream(lines, 0)
  {
    StreamSplit(lines, |lines|);
    assert Stream(lines, |lines|) == [];
    assert StreamUpTo(lines, |lines|) + [] == StreamUpTo(lines, |lines|);
  }

  /**
   * `tokenise`: an empty source is a single end of statement at (1, 1);
   * otherwise each line's tokens are appended, and the last token of the
   * whole stream decides whether the line continues (the continuation is
   * removed) or ends (an end of statement is appended).
   */
  method Tokenise(lines: seq<ParsedLine>) returns (tokens: seq<Token>)
    requires WellFormed(lines)
    ensures lines == [] ==> tokens == [Token("EOS", "end", "\\n", 1, 1)]
    ensures lines != [] ==> tokens == Stream(lines, 0)
  {
    if lines == [] {
      return [Token("EOS", "end", "\\n", 1, 1)];
    }
    tokens := [];
    var lineno := 0;
    while lineno < |lines|
      invariant 0 <= lineno <= |lines|
      invariant tokens == StreamUpTo(lines, lineno)
      invariant !EndsContinued(tokens)
    {
      tokens := AppendLine(tokens, lines, lineno);
      lineno := lineno + 1;
    }
    StreamWhole(lines);
  }

  /**
   * One pass of the `tokenise` loop: the line's tokens go on, then the
   * continuation that ends them is dropped, or an end of statement is added.
   */
  method AppendLine(before: seq<Token>, lines: seq<ParsedLine>, k: nat) returns (tokens: seq<Token>)
    requires WellFormed(lines) && k < |lines|
    requires !EndsContinued(before)
    ensures tokens == before + LineOut(lines[k], k)
    ensures !EndsContinued(tokens)
  {
    var line := lines[k];
    tokens := before + line.tokens;
    if line.tokens != [] {
      assert tokens[|tokens| - 1] == line.tokens[|line.tokens| - 1];
    }
    if tokens != [] && tokens[|tokens| - 1].tag == "CONTINUATION" {
      assert tokens[..|tokens| - 1] == before + line.tokens[..|line.tokens| - 1];
      tokens := tokens[..|tokens| - 1];
      if |line.tokens| >= 2 {
        assert !IsContinuation(lines[k].tokens[|line.tokens| - 2]);
        assert tokens[|tokens| - 1] == line.tokens[|line.tokens| - 2];
      }
    } else {
      tokens := tokens + [Eos(k, line.endCol)];
    }
  }

  function EosCount(ts: seq<Token>): nat
  {
    if ts == [] then 0 else (if ts[0].tag == "EOS" then 1 else 0) + EosCount(ts[1..])
  }

  lemma {:induction false} EosCountConcat(a: seq<Token>, b: seq<Token>)
    ensures EosCount(a + b) == EosCount(a) + EosCount(b)
  {
    if a == [] {
      assert a + b == b;
    } else {
      EosCountConcat(a[1..], b);
      assert (a + b)[1..] == a[1..] + b;
    }
  }

  /** The lines from k on that do not end in a continuation. */
  function Ended(lines: seq<ParsedLine>, k: nat): nat
    requires k <= |lines|
    decreases |lines| - k
  {
    if k == |lines| then 0 else (if EndsContinued(lines[k].tokens) then 0 else 1) + Ended(lines, k + 1)
  }

  /**
   * When the parsed lines hold no end-of-statement tokens of their own, the
   * stream holds one per line not continued, and no continuation at all.
   */
  lemma {:induction false} StreamStatements(lines: seq<ParsedLine>, k: nat)
    requires k <= |lines| && WellFormed(lines)
    requires forall m, j :: 0 <= m < |lines| && 0 <= j < |lines[m].tokens| ==> lines[m].tokens[j].tag != "EOS"
    ensures EosCount(Stream(lines, k)) == Ended(lines, k)
    ensures forall t :: t in Stream(lines, k) ==> !IsContinuation(t)
    decreases |lines| - k
  {
    if k < |lines| {
      StreamStatements(lines, k + 1);
      var line := lines[k];
      var out := LineOut(line, k);
      EosCountConcat(out, Stream(lines, k + 1));
      NoEos(line.tokens[..if EndsContinued(line.tokens) then |line.tokens| - 1 else |line.tokens|]);
      if !EndsContinued(line.tokens) {
        EosCountConcat(line.tokens, [Eos(k, line.endCol)]);
        assert [Eos(k, line.endCol)][1..] == [];
        assert line.tokens[..|line.tokens|] == line.tokens;
      }
      forall t | t in out ensures !IsContinuation(t) {
        if EndsContinued(line.tokens) {
          var j :| 0 <= j < |line.tokens| - 1 && out[j] == t;
        } else if t in line.tokens {
          var j :| 0 <= j < |line.tokens| && line.tokens[j] == t;
        }
      }
    }
  }

  lemma {:induction false} NoEos(ts: seq<Token>)
    requires forall j :: 0 <= j < |ts| ==> ts[j].tag != "EOS"
    ensures EosCount(ts) == 0
  {
    if ts != [] {
      NoEos(ts[1..]);
    }
  }

  /** The test's continuation: "name 2.3 \" then "name 4.6" is one statement. */
  lemma ContinuationExample(n1: Token, x1: Token, c: Token, n2: Token, x2: Token)
    requires c.tag == "CONTINUATION" && n2.tag != "CONTINUATION" && x2.tag != "CONTINUATION"
    ensures Stream([ParsedLine([n1, x1, c], 10), ParsedLine([n2, x2], 9)], 0) == [n1, x1, n2, x2, Eos(1, 9)]
  {
    var lines := [ParsedLine([n1, x1, c], 10), ParsedLine([n2, x2], 9)];
    assert [n1, x1, c][..2] == [n1, x1];
    assert Stream(lines, 2) == [];
    assert Stream(lines, 1) == [n2, x2, Eos(1, 9)];
  }

  // ---------------------------------------------------------------------
  // TokenReader
  // ---------------------------------------------------------------------

  /** `tag.startswith('COMMENT')`. */
  predicate IsComment(t: Token)
  {
    |t.tag| >= 7 && t.tag[..7] == "COMMENT"
  }

  /**
   * Where `move_next` lands from position i: the next position, and, when
   * comments are skipped, past every comment token after it.
   */
  function Advance(tokens: seq<Token>, i: int, skip: bool): (r: int)
    ensures r > i
    ensures !skip ==> r == i + 1
    ensures skip && i + 1 < r ==> 0 <= i + 1 && r <= |tokens|
    ensures skip ==> forall j :: i + 1 <= j < r ==> IsComment(tokens[j])
    ensures skip && 0 <= r < |tokens| ==> !IsComment(tokens[r])
  {
    if skip then SkipFrom(tokens, i + 1) else i + 1
  }

  /** The first position from j on that does not hold a comment (or is out of range). */
  function SkipFrom(tokens: seq<Token>, j: int): (r: int)
    ensures r >= j
    ensures j < r ==> 0 <= j && r <= |tokens|
    ensures forall m :: j <= m < r ==> IsComment(tokens[m])
    ensures 0 <= r < |tokens| ==> !IsComment(tokens[r])
    decreases |tokens| - j
  {
    if 0 <= j < |tokens| && IsComment(tokens[j]) then SkipFrom(tokens, j + 1) else j
  }

  /** Sequential reading and lookahead over a list of tokens. */
  class TokenReader {
    var tokens: seq<Token>
    var i: int
    var skipComments: bool
    var iStack: seq<int>

    /** A reader that skips comments starts on the first token that is not one. */
    constructor(tokens: seq<Token>, skipComments: bool)
      ensures this.tokens == tokens && this.skipComments == skipComments && iStack == []
      ensures i == if skipComments then SkipFrom(tokens, 0) else 0
    {
      this.tokens := tokens;
      this.skipComments := skipComments;
      iStack := [];
      i := if skipComments then -1 else 0;
      new;
      if skipComments {
        MoveNext();
      }
    }

    /** `__nonzero__`: the position is on a token. */
    predicate OnToken()
      reads this
    {
      0 <= i < |tokens|
    }

    /** `current`: the token at the position, None exactly when the position is past either end. */
    function Current(): (r: Option<Token>)
      reads this
      ensures r.None? <==> !OnToken()
      ensures r.Some? ==> r.value == tokens[i] && r.value in tokens
    {
      if OnToken() then Some(tokens[i]) else None
    }

    /** `rest`: the tokens from the position on, starting with the current one; none past the end. */
    function Rest(): (r: seq<Token>)
      reads this
      ensures OnToken() ==> |r| == |tokens| - i && r[0] == tokens[i] && tokens == tokens[..i] + r
      ensures !OnToken() ==> r == []
    {
      if OnToken() then tokens[i..] else []
    }

    /** `last`: the final token, None for an empty list. */
    function Last(): (r: Option<Token>)
      reads this
      ensures r.None? <==> tokens == []
      ensures r.Some? ==> r.value == tokens[|tokens| - 1]
    {
      if tokens != [] then Some(tokens[|tokens| - 1]) else None
    }

    /** `move_next`: one step on, then past any comments when they are skipped. */
    method MoveNext()
      modifies this
      ensures i == Advance(tokens, old(i), skipComments)
      ensures tokens == old(tokens) && skipComments == old(skipComments) && iStack == old(iStack)
    {
      var j := i + 1;
      if skipComments {
        while 0 <= j < |tokens| && IsComment(tokens[j])
          invariant i < j && SkipFrom(tokens, j) == SkipFrom(tokens, i + 1)
          decreases |tokens| - j
        {
          j := j + 1;
        }
      }
      i := j;
    }

    /** `push_location`. */
    method PushLocation()
      modifies this
      ensures iStack == old(iStack) + [i]
      ensures tokens == old(tokens) && skipComments == old(skipComments) && i == old(i)
    {
      iStack := iStack + [i];
    }

    /** `pop_location`: back to the position saved last. */
    method PopLocation()
      requires iStack != []
      modifies this
      ensures i == old(iStack[|iStack| - 1]) && iStack == old(iStack[..|iStack| - 1])
      ensures tokens == old(tokens) && skipComments == old(skipComments)
    {
      i := iStack[|iStack| - 1];
      iStack := iStack[..|iStack| - 1];
    }

    /** `drop_location`: forgets the position saved last. */
    method DropLocation()
      requires iStack != []
      modifies this
      ensures iStack == old(iStack[..|iStack| - 1])
      ensures tokens == old(tokens) && skipComments == old(skipComments) && i == old(i)
    {
      iStack := iStack[..|iStack| - 1];
    }

    /**
     * `peek`: the token `move_next` would land on, found by saving the
     * position, moving, and restoring it; the reader is left as it was.
     */
    method Peek() returns (tok: Option<Token>)
      modifies this
      ensures tok == (var j := Advance(tokens, i, skipComments); if 0 <= j < |tokens| then Some(tokens[j]) else None)
      ensures i == old(i) && iStack == old(iStack)
      ensures tokens == old(tokens) && skipComments == old(skipComments)
    {
      PushLocation();
      MoveNext();
      tok := Current();
      PopLocation();
    }
  }
}
