/**
 * The character-level ESDL lexer (esdlc/lexer.py): a state machine over the
 * stripped source that emits tokens with their line and column, and the
 * grouping of tokens into statements with backslash continuation.
 */
module CharLexer {
  import opened Wrappers
  import Slices

  /** A token: its tag, its text, and its 1-based line and column. */
  datatype Token = Token(tag: string, value: string, line: int, col: int)

  /**
   * The lexer as written, where the empty string standing for "end of
   * input" passes every `in` test; or with the end of input handled as
   * evidently intended (a pending word is emitted, nothing else is).
   */
  datatype Variant = AsWritten | EndFixed

  /** The lexer's modes; a name's keyword tags are chosen when it is emitted. */
  datatype Mode = Idle | Number | Name | Comment | Backtick

  /** The loop state: mode, pending word, line, the index before the line's first column, and position. */
  datatype State = State(mode: Mode, word: string, line: int, iStart: int, i: int)

  predicate IsDigit(c: char) { '0' <= c <= '9' }
  predicate IsAlpha(c: char) { 'a' <= c <= 'z' || 'A' <= c <= 'Z' }
  predicate IsSpace(c: char) { c in {' ', '\t', '\n', '\r', '\U{000B}', '\U{000C}'} }

  function StripLeft(s: string): (r: string)
    ensures |r| <= |s|
  {
    if s != [] && IsSpace(s[0]) then StripLeft(s[1..]) else s
  }

  function StripRight(s: string): (r: string)
    ensures |r| <= |s|
  {
    if s != [] && IsSpace(s[|s| - 1]) then StripRight(s[..|s| - 1]) else s
  }

  /** `str.strip()`: the source without leading and trailing whitespace. */
  function Strip(s: string): (r: string)
    ensures r != [] ==> !IsSpace(r[0]) && !IsSpace(r[|r| - 1])
  {
    StripLeftEnds(s);
    StripRightEnds(StripLeft(s));
    StripRight(StripLeft(s))
  }

  lemma {:induction false} StripLeftEnds(s: string)
    ensures StripLeft(s) != [] ==> !IsSpace(StripLeft(s)[0])
    ensures StripLeft(s) == s[|s| - |StripLeft(s)|..]
  {
    if s != [] && IsSpace(s[0]) {
      StripLeftEnds(s[1..]);
    }
  }

  lemma {:induction false} StripRightEnds(s: string)
    requires s != [] ==> !IsSpace(s[0])
    ensures StripRight(s) != [] ==> !IsSpace(StripRight(s)[0]) && !IsSpace(StripRight(s)[|StripRight(s)| - 1])
    ensures StripRight(s) == s[..|StripRight(s)|]
  {
    if s != [] && IsSpace(s[|s| - 1]) {
      StripRightEnds(s[..|s| - 1]);
      assert s[..|s| - 1][..|StripRight(s)|] == s[..|StripRight(s)|];
    }
  }

  /** The character at i, or the empty string past the end (None). */
  function At(s: string, i: int): Option<char>
  {
    if 0 <= i < |s| then Some(s[i]) else None
  }

  /** The text of the current character: one character, or empty past the end. */
  function Text(c: Option<char>): (t: string)
    ensures |t| == if c.Some? then 1 else 0
  {
    if c.Some? then [c.value] else []
  }

  /** Python's `char in chars`: as written, the empty string is in every string. */
  predicate In(c: Option<char>, chars: set<char>, v: Variant)
  {
    if c.None? then v == AsWritten else c.value in chars
  }

  predicate Digit(c: Option<char>) { c.Some? && IsDigit(c.value) }
  predicate Alpha(c: Option<char>) { c.Some? && IsAlpha(c.value) }

  /** The last character of the pending word is one of `chars` (the word is never empty here). */
  predicate LastIn(word: string, chars: set<char>)
  {
    word != [] && word[|word| - 1] in chars
  }

  /**
   * Whether a pending word's mode takes the current character rather than
   * ending the word: comments and backtick text run to the line break; a
   * number takes digits, '.', 'e', 'E', and a sign after an exponent mark; a
   * name takes letters, digits, '_' and '.'. With the end handled, the end of
   * input always ends the word.
   */
  predicate Continues(mode: Mode, word: string, c: Option<char>, v: Variant)
  {
    if v == EndFixed && c.None? then false
    else match mode
      case Idle => false
      case Comment => !In(c, {'\r', '\n'}, v)
      case Backtick => !In(c, {'\r', '\n'}, v)
      case Number => Digit(c) || In(c, {'.', 'e', 'E'}, v) || (In(c, {'+', '-'}, v) && LastIn(word, {'e', 'E'}))
      case Name => Alpha(c) || Digit(c) || In(c, {'_', '.'}, v)
  }

  function Upper(s: string): (r: string)
    ensures |r| == |s|
  {
    if s == [] then [] else
      [if 'a' <= s[0] <= 'z' then (s[0] as int - 32) as char else s[0]] + Upper(s[1..])
  }

  /**
   * The token for a finished word: a name that spells a statement keyword
   * (in any case) takes the keyword as its tag, EVAL/EVALUATE take 'EVAL',
   * TRUE/FALSE/NULL/NONE become an upper-case 'constant'.
   */
  function WordToken(mode: Mode, word: string, line: int, col: int): (t: Token)
    requires mode != Idle
    ensures |t.value| == |word|
  {
    match mode
    case Number => Token("number", word, line, col)
    case Comment => Token("comment", word, line, col)
    case Backtick => Token("backtick", word, line, col)
    case Name =>
      var up := Upper(word);
      if up in ["FROM", "SELECT", "USING", "JOIN", "INTO", "YIELD", "BEGIN", "REPEAT", "END"] then Token(up, word, line, col)
      else if up in ["EVAL", "EVALUATE"] then Token("EVAL", word, line, col)
      else if up in ["TRUE", "FALSE", "NULL", "NONE"] then Token("constant", up, line, col)
      else Token("name", word, line, col)
  }

  /**
   * Keywords are recognised in any case: two names that differ only in
   * case get the same tag, and EVAL and EVALUATE share one.
   */
  lemma KeywordsIgnoreCase(w1: string, w2: string, line: int, col: int)
    requires Upper(w1) == Upper(w2)
    ensures WordToken(Name, w1, line, col).tag == WordToken(Name, w2, line, col).tag
    ensures Upper(w1) == "EVALUATE" ==> WordToken(Name, w1, line, col).tag == "EVAL"
    ensures Upper(w1) == "END" ==> WordToken(Name, w1, line, col) == Token("END", w1, line, col)
  {
  }

  /** A sign continues a number only directly after an exponent mark. */
  lemma ExponentSign(word: string, sign: char, v: Variant)
    requires sign == '+' || sign == '-'
    ensures Continues(Number, word, Some(sign), v) <==> LastIn(word, {'e', 'E'})
  {
  }

  /** The position of the current word's first character (of the next token when idle). */
  function Pos(st: State): (int, int)
  {
    (st.line, st.i - st.iStart - |st.word|)
  }

  /** (line, col) ordering, as tokens compare. */
  predicate PosLe(a: (int, int), b: (int, int))
  {
    a.0 < b.0 || (a.0 == b.0 && a.1 <= b.1)
  }

  /** 0 while a word continues, 1 when idle, 2 when a word is about to end: the step measure's tie-break. */
  function Rank(s: string, st: State, v: Variant): nat
  {
    if st.mode == Idle then 1 else if Continues(st.mode, st.word, At(s, st.i), v) then 0 else 2
  }

  function Measure(s: string, st: State, v: Variant): int
  {
    3 * (|s| + 1 - st.i) + Rank(s, st, v)
  }

  /** The state the loop keeps: a position within one past the end, lines and columns from 1. */
  predicate Good(s: string, st: State)
  {
    0 <= st.i <= |s| + 1 && st.line >= 1 && Pos(st).1 >= 1 && (st.mode == Idle ==> st.word == [])
  }

  /**
   * What every iteration does: it consumes input or moves towards consuming
   * it, never moves the position backwards, yields at most one token, at the
   * position where it started, and advances the line exactly when that token
   * ends a statement.
   */
  predicate Advances(s: string, st: State, r: (State, seq<Token>), v: Variant)
  {
    Good(s, r.0) && 0 <= Measure(s, r.0, v) < Measure(s, st, v) && PosLe(Pos(st), Pos(r.0)) && |r.1| <= 1
    && (forall t :: t in r.1 ==> (t.line, t.col) == Pos(st)) && r.0.line == st.line + EosCount(r.1)
  }

  /** What an idle iteration makes of the current character, tested in the loop's order. */
  datatype Kind = StartsNumber | StartsName | AtEnd | Operator | Blank | StartsComment | StartsBacktick
                | Slash | Continuation | Break | Stray

  /**
   * The idle loop's tests of the current character, in order: a digit, a
   * letter or '_', the end of input (when handled), an operator, a blank,
   * '#' or ';', a backtick, '/' (a comment when doubled), a backslash, a
   * line break, anything else.
   */
  function Classify(s: string, i: int, v: Variant): (k: Kind)
    ensures k == StartsNumber <==> Digit(At(s, i))
    ensures k == StartsName ==> Alpha(At(s, i)) || At(s, i) == Some('_')
    ensures k == StartsComment ==> At(s, i).Some? && At(s, i).value in {'#', ';', '/'}
    ensures k == AtEnd ==> At(s, i).None?
    ensures k == Break <==> 0 <= i < |s| && s[i] in {'\r', '\n'}
  {
    var c := At(s, i);
    if Digit(c) then StartsNumber
    else if Alpha(c) || c == Some('_') then StartsName
    else if v == EndFixed && c.None? then AtEnd
    else if In(c, {'(', ')', '[', ']', '{', '}', '.', ',', '+', '-', '*', '%', '^', '='}, v) then Operator
    else if In(c, {' ', '\t', '\U{000B}'}, v) then Blank
    else if In(c, {'#', ';'}, v) then StartsComment
    else if c == Some('`') then StartsBacktick
    else if c == Some('/') then (if i + 1 < |s| && s[i + 1] == '/' then StartsComment else Slash)
    else if c == Some('\\') then Continuation
    else if In(c, {'\r', '\n'}, v) then Break
    else Stray
  }

  /**
   * One iteration of the `while i <= len(source)` loop when no word is
   * pending: classify the current character, yielding at most one token.
   */
  function IdleStep(s: string, st: State, v: Variant): (r: (State, seq<Token>))
    requires Good(s, st) && st.i <= |s| && st.mode == Idle
  {
    var c := At(s, st.i);
    var col := st.i - st.iStart;
    match Classify(s, st.i, v)
    case StartsNumber => (st.(mode := Number), [])
    case StartsName => (st.(mode := Name), [])
    case AtEnd => (st.(i := st.i + 1), [])
    case Operator => (st.(i := st.i + 1), [Token(Text(c), Text(c), st.line, col)])
    case Blank => (st.(i := st.i + 1), [])
    case StartsComment => (st.(mode := Comment), [])
    case StartsBacktick => (st.(mode := Backtick, i := st.i + 1), [])
    case Slash => (st.(i := st.i + 1), [Token("/", "/", st.line, col)])
    case Continuation => (st.(i := st.i + 1), [Token("continue", "\\", st.line, col)])
    case Break =>
      var next := if st.i + 1 < |s| && s[st.i] == '\r' && s[st.i + 1] == '\n' then st.i + 2 else st.i + 1;
      (State(Idle, [], st.line + 1, next - 1, next), [Token("eos", "\n", st.line, col)])
    case Stray => (st.(i := st.i + 1), [Token("error", Text(c), st.line, col)])
  }

  /**
   * One iteration of the loop while a word is pending: the word takes the
   * current character, or is yielded and the lexer goes idle.
   */
  function WordStep(s: string, st: State, v: Variant): (r: (State, seq<Token>))
    requires Good(s, st) && st.i <= |s| && st.mode != Idle
  {
    var c := At(s, st.i);
    if Continues(st.mode, st.word, c, v) then (st.(word := st.word + Text(c), i := st.i + 1), [])
    else (st.(mode := Idle, word := []), [WordToken(st.mode, st.word, st.line, st.i - st.iStart - |st.word|)])
  }

  /** One iteration of the loop. */
  function Step(s: string, st: State, v: Variant): (r: (State, seq<Token>))
    requires Good(s, st) && st.i <= |s|
  {
    if st.mode == Idle then IdleStep(s, st, v) else WordStep(s, st, v)
  }

  lemma IdleStepAdvances(s: string, st: State, v: Variant)
    requires Good(s, st) && st.i <= |s| && st.mode == Idle
    ensures Advances(s, st, IdleStep(s, st, v), v)
  {
    var k := Classify(s, st.i, v);
    if k == StartsNumber || k == StartsName || k == StartsComment {
      IdleSwitchAdvances(s, st, v);
    } else if k == AtEnd || k == Blank || k == StartsBacktick {
      IdleQuietAdvances(s, st, v);
    } else if k == Break {
      IdleBreakAdvances(s, st, v);
    } else {
      IdleEmitAdvances(s, st, v);
    }
  }

  /** An idle iteration that starts a number, a name or a comment, whose mode takes the current character. */
  lemma IdleSwitchAdvances(s: string, st: State, v: Variant)
    requires Good(s, st) && st.i <= |s| && st.mode == Idle
    requires Classify(s, st.i, v) in {StartsNumber, StartsName, StartsComment}
    ensures Advances(s, st, IdleStep(s, st, v), v)
  {
    var c := At(s, st.i);
    if Classify(s, st.i, v) == StartsNumber {
      assert Continues(Number, [], c, v);
    } else if Classify(s, st.i, v) == StartsName {
      assert Continues(Name, [], c, v);
    } else {
      assert Continues(Comment, [], c, v);
    }
  }

  /** An idle iteration that yields nothing: the end of input when handled, a blank, or an opening backtick. */
  lemma IdleQuietAdvances(s: string, st: State, v: Variant)
    requires Good(s, st) && st.i <= |s| && st.mode == Idle
    requires Classify(s, st.i, v) in {AtEnd, Blank, StartsBacktick}
    ensures Advances(s, st, IdleStep(s, st, v), v)
  {
  }

  /** An idle iteration at a line break yields the end of statement and moves to the next line. */
  lemma IdleBreakAdvances(s: string, st: State, v: Variant)
    requires Good(s, st) && st.i <= |s| && st.mode == Idle
    requires Classify(s, st.i, v) == Break
    ensures Advances(s, st, IdleStep(s, st, v), v)
  {
    SingleEosCount(IdleStep(s, st, v).1[0]);
  }

  /** An idle iteration that yields a one-character token: an operator, '/', a continuation mark, or an error. */
  lemma IdleEmitAdvances(s: string, st: State, v: Variant)
    requires Good(s, st) && st.i <= |s| && st.mode == Idle
    requires Classify(s, st.i, v) in {Operator, Slash, Continuation, Stray}
    ensures Advances(s, st, IdleStep(s, st, v), v)
  {
    var r := IdleStep(s, st, v);
    assert r.0 == st.(i := st.i + 1) && |r.1| == 1 && r.1[0].tag != "eos";
    SingleEosCount(r.1[0]);
    assert r.1 == [r.1[0]];
  }

  lemma SingleEosCount(t: Token)
    ensures EosCount([t]) == if t.tag == "eos" then 1 else 0
  {
    assert [t][1..] == [];
  }

  lemma WordStepAdvances(s: string, st: State, v: Variant)
    requires Good(s, st) && st.i <= |s| && st.mode != Idle
    ensures Advances(s, st, WordStep(s, st, v), v)
  {
  }

  /** The loop from a state is one iteration, with its tokens, followed by the loop from the next state. */
  lemma RunStep(s: string, st: State, v: Variant, next: State, out: seq<Token>)
    requires Good(s, st) && st.i <= |s| && Step(s, st, v) == (next, out)
    ensures Good(s, next) && 0 <= Measure(s, next, v) < Measure(s, st, v)
    ensures Run(s, st, v) == (Run(s, next, v).0, out + Run(s, next, v).1)
  {
    StepAdvances(s, st, v);
  }

  /** An iteration that yields nothing leaves the rest of the loop as it is from the next state. */
  lemma RunSkip(s: string, st: State, v: Variant, next: State)
    requires Good(s, st) && st.i <= |s| && Step(s, st, v) == (next, [])
    ensures Good(s, next) && Run(s, st, v) == Run(s, next, v)
  {
    RunStep(s, st, v, next, []);
    assert [] + Run(s, next, v).1 == Run(s, next, v).1;
  }

  /** Past the end, the loop has stopped. */
  lemma RunDone(s: string, st: State, v: Variant)
    requires Good(s, st) && st.i > |s|
    ensures Run(s, st, v) == (st, [])
  {
  }

  /** Every iteration keeps the loop state good and advances as `Advances` says. */
  lemma StepAdvances(s: string, st: State, v: Variant)
    requires Good(s, st) && st.i <= |s|
    ensures Advances(s, st, Step(s, st, v), v)
  {
    if st.mode == Idle {
      IdleStepAdvances(s, st, v);
    } else {
      WordStepAdvances(s, st, v);
    }
  }

  /** The rest of the loop from a state: the final state and every token yielded on the way. */
  function Run(s: string, st: State, v: Variant): (r: (State, seq<Token>))
    requires Good(s, st)
    ensures Good(s, r.0) && r.0.i > |s|
    decreases Measure(s, st, v)
  {
    if st.i > |s| then (st, [])
    else
      StepAdvances(s, st, v);
      var step := Step(s, st, v);
      var rest := Run(s, step.0, v);
      (rest.0, step.1 + rest.1)
  }

  /**
   * The rest of the loop yields tokens in (line, col) order, each between
   * the position where it starts and the one where it ends and in a column
   * from 1, and one end of statement for each line it advances.
   */
  lemma {:induction false} RunOrdered(s: string, st: State, v: Variant)
    requires Good(s, st)
    ensures PosLe(Pos(st), Pos(Run(s, st, v).0))
    ensures forall t :: t in Run(s, st, v).1 ==>
      PosLe(Pos(st), (t.line, t.col)) && PosLe((t.line, t.col), Pos(Run(s, st, v).0)) && t.col >= 1
    ensures Ordered(Run(s, st, v).1)
    ensures EosCount(Run(s, st, v).1) == Run(s, st, v).0.line - st.line
    decreases Measure(s, st, v)
  {
    if st.i <= |s| {
      StepAdvances(s, st, v);
      var next := Step(s, st, v).0;
      var out := Step(s, st, v).1;
      RunOrdered(s, next, v);
      var rest := Run(s, next, v).1;
      assert Run(s, st, v).1 == out + rest;
      OrderedConcat(out, rest, Pos(next));
      EosCountConcat(out, rest);
    }
  }

  /** Tokens come in (line, col) order. */
  predicate Ordered(ts: seq<Token>)
  {
    forall a, b :: 0 <= a < b < |ts| ==> PosLe((ts[a].line, ts[a].col), (ts[b].line, ts[b].col))
  }

  function EosCount(ts: seq<Token>): nat
  {
    if ts == [] then 0 else (if ts[0].tag == "eos" then 1 else 0) + EosCount(ts[1..])
  }

  lemma {:induction false} EosCountConcat(a: seq<Token>, b: seq<Token>)
    ensures EosCount(a + b) == EosCount(a) + EosCount(b)
  {
    if a == [] {
      assert a + b == b;
    } else {
      EosCountConcat(a[1..], b);
      assert (a + b)[1..] == a[1..] + b;
    }
  }

  lemma OrderedConcat(a: seq<Token>, b: seq<Token>, p: (int, int))
    requires Ordered(a) && Ordered(b)
    requires forall t :: t in a ==> PosLe((t.line, t.col), p)
    requires forall t :: t in b ==> PosLe(p, (t.line, t.col))
    ensures Ordered(a + b)
  {
    var ab := a + b;
    forall x, y | 0 <= x < y < |ab| ensures PosLe((ab[x].line, ab[x].col), (ab[y].line, ab[y].col)) {
      if x < |a| && y >= |a| {
        assert ab[x] in a && ab[y] in b;
      } else if x >= |a| {
        assert ab[x] == b[x - |a|] && ab[y] == b[y - |a|];
      }
    }
  }

  const Start: State := State(Idle, [], 1, -1, 0)

  /**
   * `_tokenise(source)`: the tokens of the stripped source followed by a
   * final end-of-statement token. The source must be a non-empty string.
   */
  function Lex(source: string, v: Variant): (r: Option<seq<Token>>)
    ensures r.None? <==> source == []
    ensures r.Some? ==> |r.value| >= 1 && r.value[|r.value| - 1].tag == "eos"
  {
    if source == [] then None else Some(Finish(Run(Strip(source), Start, v)))
  }

  /** The tokens of a finished loop and the final end-of-statement token at the loop's last position. */
  function Finish(run: (State, seq<Token>)): (ts: seq<Token>)
    ensures |ts| >= 1 && ts[|ts| - 1].tag == "eos"
  {
    run.1 + [Token("eos", "\n", run.0.line, run.0.i - run.0.iStart)]
  }

  /** The lexer's result from the loop's final state and tokens. */
  lemma LexOfRun(source: string, v: Variant, fin: State, ts: seq<Token>)
    requires source != [] && Run(Strip(source), Start, v) == (fin, ts)
    ensures Lex(source, v) == Some(ts + [Token("eos", "\n", fin.line, fin.i - fin.iStart)])
  {
  }

  /** Tokens carry a line and a column from 1, in (line, col) order, as `Token.__lt__` compares them. */
  lemma LexOrdered(source: string, v: Variant)
    requires source != []
    ensures Ordered(Lex(source, v).value)
    ensures forall t :: t in Lex(source, v).value ==> t.line >= 1 && t.col >= 1
  {
    RunOrdered(Strip(source), Start, v);
    FinishOrdered(Run(Strip(source), Start, v), Pos(Start));
  }

  /** The final end of statement comes after every token of an ordered run. */
  lemma FinishOrdered(run: (State, seq<Token>), first: (int, int))
    requires first.0 >= 1 && run.0.line >= 1 && Pos(run.0).1 >= 1
    requires Ordered(run.1)
    requires forall t :: t in run.1 ==>
      PosLe(first, (t.line, t.col)) && PosLe((t.line, t.col), Pos(run.0)) && t.col >= 1
    ensures Ordered(Finish(run))
    ensures forall t :: t in Finish(run) ==> t.line >= 1 && t.col >= 1
  {
    var fin := run.0;
    var last := Token("eos", "\n", fin.line, fin.i - fin.iStart);
    assert Finish(run) == run.1 + [last];
    forall t | t in run.1 ensures PosLe((t.line, t.col), (last.line, last.col)) {
      assert PosLe((t.line, t.col), Pos(fin));
    }
    OrderedConcat(run.1, [last], (last.line, last.col));
    forall t | t in run.1 + [last] ensures t.line >= 1 && t.col >= 1 {
      if t in run.1 {
        assert PosLe(first, (t.line, t.col));
      }
    }
  }

  /** A line break starts at j: a '\r', or a '\n' that does not complete a "\r\n". */
  predicate BreakAt(s: string, j: nat)
    requires j < |s|
  {
    s[j] == '\r' || (s[j] == '\n' && !(j > 0 && s[j - 1] == '\r'))
  }

  /** The number of line breaks from position j on. */
  function BreaksFrom(s: string, j: nat): nat
    decreases |s| - j
  {
    if j >= |s| then 0 else (if BreakAt(s, j) then 1 else 0) + BreaksFrom(s, j + 1)
  }

  /** The position does not sit between the two halves of a "\r\n". */
  predicate NotMidCrLf(s: string, st: State)
  {
    !(0 < st.i < |s| && s[st.i - 1] == '\r' && s[st.i] == '\n')
  }

  lemma IdleStepLines(s: string, st: State, v: Variant)
    requires Good(s, st) && st.i <= |s| && st.mode == Idle && NotMidCrLf(s, st)
    ensures NotMidCrLf(s, IdleStep(s, st, v).0)
    ensures IdleStep(s, st, v).0.line - st.line + BreaksFrom(s, IdleStep(s, st, v).0.i) == BreaksFrom(s, st.i)
  {
    var i := st.i;
    var r := IdleStep(s, st, v);
    match Classify(s, i, v)
    case Break => BreakLines(s, st, r.0);
    case StartsNumber =>
    case StartsName =>
    case StartsComment =>
    case AtEnd => assert r.0.i == |s| + 1;
    case Operator => ConsumeLines(s, st, r.0);
    case Blank => ConsumeLines(s, st, r.0);
    case StartsBacktick => ConsumeLines(s, st, r.0);
    case Slash => ConsumeLines(s, st, r.0);
    case Continuation => ConsumeLines(s, st, r.0);
    case Stray => ConsumeLines(s, st, r.0);
  }

  /** Moving past a character that is not a line break keeps the line and the breaks still ahead. */
  lemma ConsumeLines(s: string, st: State, next: State)
    requires 0 <= st.i <= |s| && next.i == st.i + 1 && next.line == st.line
    requires st.i < |s| ==> s[st.i] != '\r' && s[st.i] != '\n'
    ensures NotMidCrLf(s, next)
    ensures next.line - st.line + BreaksFrom(s, next.i) == BreaksFrom(s, st.i)
  {
    if st.i < |s| {
      assert !BreakAt(s, st.i);
    }
  }

  /** Moving past a line break, "\r\n" taken whole, advances the line by one. */
  lemma BreakLines(s: string, st: State, next: State)
    requires 0 <= st.i < |s| && (s[st.i] == '\r' || s[st.i] == '\n') && NotMidCrLf(s, st)
    requires next.line == st.line + 1
    requires next.i == if st.i + 1 < |s| && s[st.i] == '\r' && s[st.i + 1] == '\n' then st.i + 2 else st.i + 1
    ensures NotMidCrLf(s, next)
    ensures next.line - st.line + BreaksFrom(s, next.i) == BreaksFrom(s, st.i)
  {
    var i := st.i;
    assert BreakAt(s, i);
    if next.i == i + 2 {
      assert !BreakAt(s, i + 1);
      assert BreaksFrom(s, i + 1) == BreaksFrom(s, i + 2);
    }
  }

  lemma WordStepLines(s: string, st: State, v: Variant)
    requires Good(s, st) && st.i <= |s| && st.mode != Idle && NotMidCrLf(s, st)
    ensures NotMidCrLf(s, WordStep(s, st, v).0)
    ensures WordStep(s, st, v).0.line == st.line
    ensures BreaksFrom(s, WordStep(s, st, v).0.i) == BreaksFrom(s, st.i)
  {
    var i := st.i;
    if Continues(st.mode, st.word, At(s, i), v) {
      assert WordStep(s, st, v).0.i == i + 1;
      if i < |s| {
        ContinuesPastBreak(st.mode, st.word, s[i], v);
        assert !BreakAt(s, i);
      }
    } else {
      assert WordStep(s, st, v).0.i == i;
    }
  }

  /** No word takes a line-break character. */
  lemma ContinuesPastBreak(mode: Mode, word: string, c: char, v: Variant)
    requires Continues(mode, word, Some(c), v)
    ensures c != '\r' && c != '\n'
  {
  }

  /**
   * The loop advances the line once per line break: '\r', '\n' and "\r\n"
   * each end a line, wherever they occur.
   */
  lemma {:induction false} RunLines(s: string, st: State, v: Variant)
    requires Good(s, st) && NotMidCrLf(s, st)
    ensures Run(s, st, v).0.line == st.line + BreaksFrom(s, st.i)
    decreases Measure(s, st, v)
  {
    if st.i <= |s| {
      StepAdvances(s, st, v);
      if st.mode == Idle {
        IdleStepLines(s, st, v);
      } else {
        WordStepLines(s, st, v);
      }
      RunLines(s, Step(s, st, v).0, v);
    }
  }

  /** The final end of statement adds one to the count. */
  lemma FinishEos(run: (State, seq<Token>))
    ensures EosCount(Finish(run)) == EosCount(run.1) + 1
  {
    EosCountConcat(run.1, [Token("eos", "\n", run.0.line, run.0.i - run.0.iStart)]);
    SingleEosCount(Token("eos", "\n", run.0.line, run.0.i - run.0.iStart));
  }

  lemma LexEos(source: string, v: Variant)
    requires source != []
    ensures EosCount(Lex(source, v).value) == Run(Strip(source), Start, v).0.line
  {
    RunOrdered(Strip(source), Start, v);
    FinishEos(Run(Strip(source), Start, v));
  }

  /**
   * One statement per line: the source yields one end-of-statement token
   * per line break of the stripped source, and one for the last line.
   */
  lemma LexCountsLines(source: string, v: Variant)
    requires source != []
    ensures EosCount(Lex(source, v).value) == 1 + BreaksFrom(Strip(source), 0)
  {
    LexEos(source, v);
    RunLines(Strip(source), Start, v);
  }

  /**
   * `_tokenise` as a generator loop: runs the state machine one iteration at
   * a time and appends the final end-of-statement token.
   */
  method Tokenise(source: string, v: Variant) returns (tokens: seq<Token>)
    requires source != []
    ensures Some(tokens) == Lex(source, v)
  {
    var s := Strip(source);
    var st := Start;
    ghost var fin := Run(s, Start, v).0;
    ghost var all := Run(s, Start, v).1;
    tokens := [];
    assert tokens + Run(s, st, v).1 == all;
    while st.i <= |s|
      invariant Good(s, st)
      invariant Run(s, st, v).0 == fin && tokens + Run(s, st, v).1 == all
      decreases Measure(s, st, v)
    {
      var next := Step(s, st, v).0;
      var out := Step(s, st, v).1;
      RunStep(s, st, v, next, out);
      Slices.ConcatAssoc(tokens, out, Run(s, next, v).1);
      tokens := tokens + out;
      st := next;
    }
    RunDone(s, st, v);
    assert tokens + [] == tokens;
    LexOfRun(source, v, st, tokens);
    tokens := tokens + [Token("eos", "\n", st.line, st.i - st.iStart)];
  }

  // ---------------------------------------------------------------------
  // The end of input
  // ---------------------------------------------------------------------

  /**
   * As written, a number that ends the source is lost: at the end, the
   * empty string is "in" '.eE', so the number takes it and the loop stops
   * before the number is yielded. "1" yields only the final end of statement.
   */
  lemma TrailingNumberLostAsWritten()
    ensures Lex("1", AsWritten) == Some([Token("eos", "\n", 1, 3)])
  {
    var s := "1";
    var st0 := State(Number, [], 1, -1, 0);
    var st1 := State(Number, "1", 1, -1, 1);
    var st2 := State(Number, "1", 1, -1, 2);
    StripUnpadded(s);
    NumberLostSteps();
    RunSkip(s, Start, AsWritten, st0);
    RunSkip(s, st0, AsWritten, st1);
    RunSkip(s, st1, AsWritten, st2);
    LexOfRun(s, AsWritten, st2, []);
    Slices.Lists(Token("eos", "\n", 1, 3), Token("eos", "\n", 1, 3), Token("eos", "\n", 1, 3));
  }

  lemma NumberLostSteps()
    ensures Step("1", Start, AsWritten) == (State(Number, [], 1, -1, 0), [])
    ensures Step("1", State(Number, [], 1, -1, 0), AsWritten) == (State(Number, "1", 1, -1, 1), [])
    ensures Step("1", State(Number, "1", 1, -1, 1), AsWritten) == (State(Number, "1", 1, -1, 2), [])
    ensures Run("1", State(Number, "1", 1, -1, 2), AsWritten) == (State(Number, "1", 1, -1, 2), [])
  {
    assert [] + Text(Some('1')) == "1";
    assert "1" + Text(None) == "1";
  }

  /** As written, a name that ends the source is lost the same way: "a" yields only the end of statement. */
  lemma TrailingNameLostAsWritten()
    ensures Lex("a", AsWritten) == Some([Token("eos", "\n", 1, 3)])
  {
    var s := "a";
    var st0 := State(Name, [], 1, -1, 0);
    var st1 := State(Name, "a", 1, -1, 1);
    var st2 := State(Name, "a", 1, -1, 2);
    StripUnpadded(s);
    NameLostSteps();
    RunSkip(s, Start, AsWritten, st0);
    RunSkip(s, st0, AsWritten, st1);
    RunSkip(s, st1, AsWritten, st2);
    LexOfRun(s, AsWritten, st2, []);
    Slices.Lists(Token("eos", "\n", 1, 3), Token("eos", "\n", 1, 3), Token("eos", "\n", 1, 3));
  }

  lemma NameLostSteps()
    ensures Step("a", Start, AsWritten) == (State(Name, [], 1, -1, 0), [])
    ensures Step("a", State(Name, [], 1, -1, 0), AsWritten) == (State(Name, "a", 1, -1, 1), [])
    ensures Step("a", State(Name, "a", 1, -1, 1), AsWritten) == (State(Name, "a", 1, -1, 2), [])
    ensures Run("a", State(Name, "a", 1, -1, 2), AsWritten) == (State(Name, "a", 1, -1, 2), [])
  {
    assert [] + Text(Some('a')) == "a";
    assert "a" + Text(None) == "a";
  }

  /** As written, a source ending in an operator yields an extra token with an empty tag. */
  lemma StrayTokenAsWritten()
    ensures Lex("+", AsWritten) == Some([Token("+", "+", 1, 1), Token([], [], 1, 2), Token("eos", "\n", 1, 3)])
  {
    var s := "+";
    var st1 := State(Idle, [], 1, -1, 1);
    var st2 := State(Idle, [], 1, -1, 2);
    var plus := Token("+", "+", 1, 1);
    var stray := Token([], [], 1, 2);
    StripUnpadded(s);
    StraySteps();
    RunStep(s, Start, AsWritten, st1, [plus]);
    RunStep(s, st1, AsWritten, st2, [stray]);
    Slices.Lists(plus, stray, Token("eos", "\n", 1, 3));
    Slices.Lists(stray, stray, stray);
    assert Run(s, Start, AsWritten) == (st2, [plus, stray]);
    LexOfRun(s, AsWritten, st2, [plus, stray]);
  }

  lemma StraySteps()
    ensures Step("+", Start, AsWritten) == (State(Idle, [], 1, -1, 1), [Token("+", "+", 1, 1)])
    ensures Step("+", State(Idle, [], 1, -1, 1), AsWritten) == (State(Idle, [], 1, -1, 2), [Token([], [], 1, 2)])
    ensures Run("+", State(Idle, [], 1, -1, 2), AsWritten) == (State(Idle, [], 1, -1, 2), [])
  {
  }

  /** With the end handled, "1" yields its number token and then the end of the statement. */
  lemma TrailingNumberKept()
    ensures Lex("1", EndFixed) == Some([Token("number", "1", 1, 1), Token("eos", "\n", 1, 3)])
  {
    var s := "1";
    var st0 := State(Number, [], 1, -1, 0);
    var st1 := State(Number, "1", 1, -1, 1);
    var idle1 := State(Idle, [], 1, -1, 1);
    var st2 := State(Idle, [], 1, -1, 2);
    var t := Token("number", "1", 1, 1);
    StripUnpadded(s);
    NumberKeptSteps();
    RunSkip(s, Start, EndFixed, st0);
    RunSkip(s, st0, EndFixed, st1);
    RunStep(s, st1, EndFixed, idle1, [t]);
    RunSkip(s, idle1, EndFixed, st2);
    Slices.Lists(t, Token("eos", "\n", 1, 3), t);
    assert Run(s, Start, EndFixed) == (st2, [t]);
    LexOfRun(s, EndFixed, st2, [t]);
  }

  lemma NumberKeptSteps()
    ensures Step("1", Start, EndFixed) == (State(Number, [], 1, -1, 0), [])
    ensures Step("1", State(Number, [], 1, -1, 0), EndFixed) == (State(Number, "1", 1, -1, 1), [])
    ensures Step("1", State(Number, "1", 1, -1, 1), EndFixed) == (State(Idle, [], 1, -1, 1), [Token("number", "1", 1, 1)])
    ensures Step("1", State(Idle, [], 1, -1, 1), EndFixed) == (State(Idle, [], 1, -1, 2), [])
    ensures Run("1", State(Idle, [], 1, -1, 2), EndFixed) == (State(Idle, [], 1, -1, 2), [])
  {
    assert [] + Text(Some('1')) == "1";
  }

  /** With the end handled, "TRUE" is the constant it spells. */
  lemma TrailingConstantKept()
    ensures Lex("TRUE", EndFixed) == Some([Token("constant", "TRUE", 1, 1), Token("eos", "\n", 1, 6)])
  {
    var s := "TRUE";
    var t := Token("constant", "TRUE", 1, 1);
    var fin := State(Idle, [], 1, -1, 5);
    StripUnpadded(s);
    ConstantNameSteps();
    ConstantEndSteps();
    RunSkip(s, Start, EndFixed, State(Name, [], 1, -1, 0));
    RunSkip(s, State(Name, [], 1, -1, 0), EndFixed, State(Name, "T", 1, -1, 1));
    RunSkip(s, State(Name, "T", 1, -1, 1), EndFixed, State(Name, "TR", 1, -1, 2));
    RunSkip(s, State(Name, "TR", 1, -1, 2), EndFixed, State(Name, "TRU", 1, -1, 3));
    RunSkip(s, State(Name, "TRU", 1, -1, 3), EndFixed, State(Name, "TRUE", 1, -1, 4));
    RunStep(s, State(Name, "TRUE", 1, -1, 4), EndFixed, State(Idle, [], 1, -1, 4), [t]);
    RunSkip(s, State(Idle, [], 1, -1, 4), EndFixed, fin);
    Slices.Lists(t, Token("eos", "\n", 1, 6), t);
    assert Run(s, Start, EndFixed) == (fin, [t]);
    LexOfRun(s, EndFixed, fin, [t]);
  }

  lemma ConstantNameSteps()
    ensures Step("TRUE", Start, EndFixed) == (State(Name, [], 1, -1, 0), [])
    ensures Step("TRUE", State(Name, [], 1, -1, 0), EndFixed) == (State(Name, "T", 1, -1, 1), [])
    ensures Step("TRUE", State(Name, "T", 1, -1, 1), EndFixed) == (State(Name, "TR", 1, -1, 2), [])
    ensures Step("TRUE", State(Name, "TR", 1, -1, 2), EndFixed) == (State(Name, "TRU", 1, -1, 3), [])
    ensures Step("TRUE", State(Name, "TRU", 1, -1, 3), EndFixed) == (State(Name, "TRUE", 1, -1, 4), [])
  {
    assert [] + Text(Some('T')) == "T";
    assert "T" + Text(Some('R')) == "TR";
    assert "TR" + Text(Some('U')) == "TRU";
    assert "TRU" + Text(Some('E')) == "TRUE";
  }

  lemma ConstantEndSteps()
    ensures Step("TRUE", State(Name, "TRUE", 1, -1, 4), EndFixed)
      == (State(Idle, [], 1, -1, 4), [Token("constant", "TRUE", 1, 1)])
    ensures Step("TRUE", State(Idle, [], 1, -1, 4), EndFixed) == (State(Idle, [], 1, -1, 5), [])
    ensures Run("TRUE", State(Idle, [], 1, -1, 5), EndFixed) == (State(Idle, [], 1, -1, 5), [])
  {
    assert Upper("TRUE") == "TRUE";
  }

  /** A source that neither starts nor ends with whitespace is its own strip. */
  lemma StripUnpadded(s: string)
    requires s != [] && !IsSpace(s[0]) && !IsSpace(s[|s| - 1])
    ensures Strip(s) == s
  {
    assert StripLeft(s) == s;
  }

  /** With the end handled, only a pending word is emitted at the end: the last two steps. */
  lemma EndFixedEmitsPending(s: string, st: State)
    requires Good(s, st) && st.i == |s| && st.mode != Idle
    ensures Step(s, st, EndFixed).1 == [WordToken(st.mode, st.word, st.line, st.i - st.iStart - |st.word|)]
    ensures Step(s, Step(s, st, EndFixed).0, EndFixed).1 == []
  {
  }

  // ---------------------------------------------------------------------
  // Statements
  // ---------------------------------------------------------------------

  /**
   * The tokens that survive grouping: continuation marks are dropped, and
   * so is an end-of-statement that directly follows one.
   */
  function Kept(ts: seq<Token>, continuation: bool): seq<Token>
  {
    if ts == [] then []
    else if ts[0].tag == "eos" then (if continuation then [] else [ts[0]]) + Kept(ts[1..], false)
    else if ts[0].tag == "continue" then Kept(ts[1..], true)
    else [ts[0]] + Kept(ts[1..], false)
  }

  function Flatten(lines: seq<seq<Token>>): seq<Token>
  {
    if lines == [] then [] else lines[0] + Flatten(lines[1..])
  }

  lemma {:induction false} FlattenAppend(lines: seq<seq<Token>>, line: seq<Token>)
    ensures Flatten(lines + [line]) == Flatten(lines) + line
  {
    if lines != [] {
      FlattenAppend(lines[1..], line);
      assert (lines + [line])[1..] == lines[1..] + [line];
    }
  }

  /** What one token contributes to the kept stream, given whether a continuation mark came just before. */
  function KeptHead(t: Token, continuation: bool): seq<Token>
  {
    if t.tag == "eos" then (if continuation then [] else [t])
    else if t.tag == "continue" then []
    else [t]
  }

  lemma KeptUnfold(ts: seq<Token>, continuation: bool)
    requires ts != []
    ensures Kept(ts, continuation) == KeptHead(ts[0], continuation) + Kept(ts[1..], ts[0].tag == "continue")
  {
  }

  /** Every line closed so far is well shaped and ends with its end-of-statement. */
  predicate LinesShaped(lines: seq<seq<Token>>)
  {
    forall k :: 0 <= k < |lines| ==> LineShaped(lines[k]) && lines[k][|lines[k]| - 1].tag == "eos"
  }

  /** A yielded line is non-empty, free of continuation marks, and an end-of-statement can only be its last token. */

  predicate LineShaped(line: seq<Token>)
  {
    line != [] &&
    forall j :: 0 <= j < |line| ==> line[j].tag != "continue" && (line[j].tag == "eos" ==> j == |line| - 1)
  }

  /** A line still being gathered holds neither a continuation mark nor an end-of-statement. */
  predicate Open(line: seq<Token>)
  {
    forall j :: 0 <= j < |line| ==> line[j].tag != "continue" && line[j].tag != "eos"
  }

  /** One iteration of the grouping loop: the token joins the line, closes it, or marks a continuation. */
  method Gather(lines: seq<seq<Token>>, line: seq<Token>, continuation: bool, token: Token)
    returns (lines': seq<seq<Token>>, line': seq<Token>, continuation': bool)
    requires LinesShaped(lines) && Open(line)
    ensures LinesShaped(lines') && Open(line')
    ensures Flatten(lines') + line' == Flatten(lines) + line + KeptHead(token, continuation)
    ensures continuation' == (token.tag == "continue")
  {
    lines', line', continuation' := lines, line, false;
    if token.tag == "eos" {
      if !continuation {
        var closed := line + [token];
        assert LineShaped(closed);
        FlattenAppend(lines, closed);
        lines' := lines + [closed];
        line' := [];
        assert LinesShaped(lines') by {
          forall k | 0 <= k < |lines'| ensures LineShaped(lines'[k]) {
            if k < |lines| { assert lines'[k] == lines[k]; }
          }
        }
      }
    } else if token.tag == "continue" {
      continuation' := true;
    } else {
      line' := line + [token];
    }
  }

  /**
   * `tokenise` over a token stream: tokens gather into a line that is
   * yielded at each end-of-statement (which it keeps) unless a continuation
   * mark came just before; a trailing unfinished line is yielded too. The
   * lines hold exactly the kept tokens, none is empty, none holds a
   * continuation mark, an end-of-statement only ever closes a line, and
   * every line but the last is closed by one. Together these fix where
   * the kept stream is cut: right after each of its end-of-statements.
   */
  method Statements(tokens: seq<Token>) returns (lines: seq<seq<Token>>)
    ensures Flatten(lines) == Kept(tokens, false)
    ensures forall k :: 0 <= k < |lines| ==> lines[k] != []
    ensures forall k, j :: 0 <= k < |lines| && 0 <= j < |lines[k]| ==>
      lines[k][j].tag != "continue" && (lines[k][j].tag == "eos" ==> j == |lines[k]| - 1)
    ensures forall k :: 0 <= k < |lines| - 1 ==> lines[k][|lines[k]| - 1].tag == "eos"
  {
    lines := [];
    var line: seq<Token> := [];
    var continuation := false;
    var i := 0;
    while i < |tokens|
      invariant 0 <= i <= |tokens|
      invariant Flatten(lines) + line + Kept(tokens[i..], continuation) == Kept(tokens, false)
      invariant LinesShaped(lines) && Open(line)
    {
      var token := tokens[i];
      assert tokens[i..][1..] == tokens[i + 1..];
      KeptUnfold(tokens[i..], continuation);
      Slices.ConcatAssoc(Flatten(lines) + line, KeptHead(token, continuation), Kept(tokens[i + 1..], token.tag == "continue"));
      lines, line, continuation := Gather(lines, line, continuation, token);
      i := i + 1;
    }
    assert tokens[i..] == [];
    if line != [] {
      FlattenAppend(lines, line);
      assert LineShaped(line);
      var closed := lines;
      lines := lines + [line];
      forall k | 0 <= k < |lines|
        ensures LineShaped(lines[k]) && (k < |lines| - 1 ==> lines[k][|lines[k]| - 1].tag == "eos")
      {
        if k < |closed| { assert lines[k] == closed[k]; }
      }
    }
  }

  datatype SourceError = NoSource | EmptyFirstPart

  /**
   * The source text of `tokenise`: a list of lines is joined as is when its
   * first line ends in a line break, otherwise with '\n' between them.
   */
  function JoinLines(parts: seq<string>): (r: Result<string, SourceError>)
    ensures parts == [] ==> r == Err(NoSource)
    ensures parts != [] && parts[0] == [] ==> r == Err(EmptyFirstPart)
    ensures |parts| == 1 && parts[0] != [] ==> r == Ok(parts[0])
    ensures |parts| >= 2 && parts[0] != [] ==>
      r == Ok(Concat(parts, if parts[0][|parts[0]| - 1] in "\r\n" then "" else "\n"))
  {
    if parts == [] then Err(NoSource)
    else if parts[0] == [] then Err(EmptyFirstPart)
    else if parts[0][|parts[0]| - 1] in "\r\n" then Ok(Concat(parts, ""))
    else Ok(Concat(parts, "\n"))
  }

  /**
   * `sep.join(parts)`: the parts in order with one separator between each
   * two, so it starts with the first part and is as long as the parts plus
   * one separator fewer than there are parts (`ConcatAppend` splits it).
   */
  function Concat(parts: seq<string>, sep: string): (r: string)
    ensures parts == [] ==> r == []
    ensures parts != [] ==> |r| == TotalLength(parts) + (|parts| - 1) * |sep|
    ensures parts != [] ==> r[..|parts[0]|] == parts[0]
  {
    if parts == [] then [] else if |parts| == 1 then parts[0] else parts[0] + sep + Concat(parts[1..], sep)
  }

  /** The total length of the parts. */
  function TotalLength(parts: seq<string>): nat
  {
    if parts == [] then 0 else |parts[0]| + TotalLength(parts[1..])
  }

  /** Joining two non-empty lists of parts is joining each and putting one separator between. */
  lemma {:induction false} ConcatAppend(a: seq<string>, b: seq<string>, sep: string)
    requires a != [] && b != []
    ensures Concat(a + b, sep) == Concat(a, sep) + sep + Concat(b, sep)
  {
    var ab := a + b;
    assert |ab| >= 2 && ab[0] == a[0];
    if |a| == 1 {
      assert ab[1..] == b;
      assert Concat(ab, sep) == a[0] + sep + Concat(b, sep);
    } else {
      assert ab[1..] == a[1..] + b;
      ConcatAppend(a[1..], b, sep);
      var x, y := Concat(a[1..], sep), Concat(b, sep);
      assert Concat(ab, sep) == a[0] + sep + (x + sep + y);
      assert Concat(a, sep) == a[0] + sep + x;
      assert a[0] + sep + (x + sep + y) == a[0] + sep + x + sep + y;
    }
  }

  /** Lines without their own break get '\n' between them; lines that have one are joined as they are. */
  lemma JoinLinesExamples()
    ensures JoinLines(["a", "b"]) == Ok("a\nb")
    ensures JoinLines(["a\n", "b"]) == Ok("a\nb")
  {
    var p1, p2 := ["a", "b"], ["a\n", "b"];
    assert p1[1..] == ["b"] && p2[1..] == ["b"];
    assert p1[0][0] !in "\r\n" && p2[0][1] in "\r\n";
    assert Concat(p1, "\n") == "a" + "\n" + "b" == "a\nb";
    assert Concat(p2, "") == "a\n" + "" + "b" == "a\nb";
  }
}
