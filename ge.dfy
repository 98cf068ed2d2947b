/**
 * The grammatical-evolution mapper (esec/species/ge.py, class Grammar):
 * production strings are parsed into literals and rule references, and
 * an integer genome is expanded into program text through an explicit
 * work stack, choosing among several productions by codon modulo their
 * number, replaying the genome up to `wrap` extra times and giving up
 * when the stack grows past 500 entries.
 */
module GrammaticalEvolution {
  import opened Wrappers
  import Slices

  // ---------------------------------------------------------------------
  // Productions
  // ---------------------------------------------------------------------

  /** A part of a production: literal text, or a reference to a rule. */
  datatype Symbol = Lit(text: string) | Ref(name: string)

  /** The character loop's state: inside quotes or not, pending text, parts so far. */
  datatype Scan = Scan(literal: bool, text: string, parts: seq<Symbol>)

  const Fresh := Scan(false, "", [])

  /**
   * One character of a production string. Inside quotes every character
   * is kept until the closing quote, which ends a literal (without the
   * quote). Outside, a quote opens a literal, a space ends a pending rule
   * name, and anything else extends the pending name.
   */
  function ScanChar(st: Scan, c: char): Scan
  {
    if st.literal then
      if c == '"' then Scan(false, "", st.parts + [Lit(st.text)])
      else Scan(true, st.text + [c], st.parts)
    else if c == '"' then Scan(true, st.text, st.parts)
    else if c == ' ' then
      if st.text != [] then Scan(false, "", st.parts + [Ref(st.text)]) else st
    else Scan(false, st.text + [c], st.parts)
  }

  /** The state after scanning `s` from `st`. */
  function ScanFrom(st: Scan, s: string): Scan
    decreases |s|
  {
    if s == [] then st else ScanChar(ScanFrom(st, s[..|s| - 1]), s[|s| - 1])
  }

  /** A production string's parts: the scan, with pending text left at the end taken as a rule name. */
  function ParseRule(raw: string): seq<Symbol>
  {
    var st := ScanFrom(Fresh, raw);
    if st.text != [] then st.parts + [Ref(st.text)] else st.parts
  }

  /** The rules of a grammar, each key's production strings parsed. */
  function ParseGrammar(grammar: map<string, seq<string>>): map<string, seq<seq<Symbol>>>
  {
    map k | k in grammar :: seq(|grammar[k]|, i requires 0 <= i < |grammar[k]| => ParseRule(grammar[k][i]))
  }

  /** `Grammar.__init__`'s character loop over one production string. */
  method ParseRuleText(raw: string) returns (rule: seq<Symbol>)
    ensures rule == ParseRule(raw)
  {
    var literal := false;
    var text := "";
    rule := [];
    var i := 0;
    while i < |raw|
      invariant 0 <= i <= |raw|
      invariant ScanFrom(Fresh, raw[..i]) == Scan(literal, text, rule)
    {
      var c := raw[i];
      assert raw[..i + 1][..i] == raw[..i];
      if literal {
        text := text + [c];
        if c == '"' {
          literal := false;
          rule := rule + [Lit(text[..|text| - 1])];
          text := "";
        }
      } else {
        if c == '"' {
          literal := true;
        } else if c == ' ' {
          if text != [] {
            rule := rule + [Ref(text)];
            text := "";
          }
        } else {
          text := text + [c];
        }
      }
      i := i + 1;
    }
    assert raw[..i] == raw;
    if text != [] {
      rule := rule + [Ref(text)];
    }
  }

  /** `Grammar.__init__`: parses every production of every rule. */
  method ParseRules(grammar: map<string, seq<string>>) returns (rules: map<string, seq<seq<Symbol>>>)
    ensures rules == ParseGrammar(grammar)
  {
    rules := map[];
    var keys := grammar.Keys;
    while keys != {}
      invariant keys <= grammar.Keys
      invariant rules.Keys == grammar.Keys - keys
      invariant forall k :: k in rules ==> rules[k] == ParseGrammar(grammar)[k]
      decreases |keys|
    {
      var k :| k in keys;
      var raws := grammar[k];
      var parsed: seq<seq<Symbol>> := [];
      var j := 0;
      while j < |raws|
        invariant 0 <= j <= |raws|
        invariant |parsed| == j
        invariant forall n :: 0 <= n < j ==> parsed[n] == ParseRule(raws[n])
      {
        var rule := ParseRuleText(raws[j]);
        parsed := parsed + [rule];
        j := j + 1;
      }
      rules := rules[k := parsed];
      keys := keys - {k};
    }
  }

  // ---------------------------------------------------------------------
  // Writing productions back
  // ---------------------------------------------------------------------

  /** A rule name that reads back as itself: non-empty, no space and no quote. */
  predicate Name(n: string)
  {
    n != [] && ' ' !in n && '"' !in n
  }

  /** A production whose parts read back as themselves. */
  predicate WellFormed(rule: seq<Symbol>)
  {
    forall k :: 0 <= k < |rule| ==>
      match rule[k]
      case Ref(n) => Name(n)
      case Lit(t) => '"' !in t
  }

  /** How `Grammar.__str__` writes a part: a name, or quoted text, followed by a space. */
  function Show(sym: Symbol): string
  {
    match sym
    case Ref(n) => n + " "
    case Lit(t) => "\"" + t + "\" "
  }

  /** How `Grammar.__str__` writes a production. */
  function Unparse(rule: seq<Symbol>): string
  {
    if rule == [] then "" else Unparse(rule[..|rule| - 1]) + Show(rule[|rule| - 1])
  }

  lemma {:induction false} ScanAppend(st: Scan, a: string, b: string)
    ensures ScanFrom(st, a + b) == ScanFrom(ScanFrom(st, a), b)
    decreases |b|
  {
    if b == [] {
      assert a + b == a;
    } else {
      ScanAppend(st, a, b[..|b| - 1]);
      assert (a + b)[..|a + b| - 1] == a + b[..|b| - 1];
    }
  }

  /** Characters other than space and quote extend the pending name. */
  lemma {:induction false} ScanPlain(text: string, parts: seq<Symbol>, s: string)
    requires ' ' !in s && '"' !in s
    ensures ScanFrom(Scan(false, text, parts), s) == Scan(false, text + s, parts)
    decreases |s|
  {
    if s != [] {
      ScanPlain(text, parts, s[..|s| - 1]);
      assert text + s == (text + s[..|s| - 1]) + [s[|s| - 1]];
    } else {
      assert text + s == text;
    }
  }

  /** Inside quotes, characters other than a quote extend the literal. */
  lemma {:induction false} ScanQuoted(text: string, parts: seq<Symbol>, s: string)
    requires '"' !in s
    ensures ScanFrom(Scan(true, text, parts), s) == Scan(true, text + s, parts)
    decreases |s|
  {
    if s != [] {
      ScanQuoted(text, parts, s[..|s| - 1]);
      assert text + s == (text + s[..|s| - 1]) + [s[|s| - 1]];
    } else {
      assert text + s == text;
    }
  }

  /** Reading one written part adds exactly that part. */
  lemma ScanShow(parts: seq<Symbol>, sym: Symbol)
    requires WellFormed([sym])
    ensures ScanFrom(Scan(false, "", parts), Show(sym)) == Scan(false, "", parts + [sym])
  {
    var st := Scan(false, "", parts);
    assert [sym][0] == sym;
    match sym
    case Ref(n) =>
      assert Name(n);
      ScanAppend(st, n, " ");
      ScanPlain("", parts, n);
      assert "" + n == n;
      assert ScanFrom(Scan(false, n, parts), " ") == ScanChar(Scan(false, n, parts), ' ');
    case Lit(t) =>
      ScanAppend(st, "\"", t + "\" ");
      assert ScanFrom(st, "\"") == ScanChar(st, '"');
      ScanAppend(Scan(true, "", parts), t, "\" ");
      ScanQuoted("", parts, t);
      assert "" + t == t;
      assert "\" " == "\"" + " ";
      ScanAppend(Scan(true, t, parts), "\"", " ");
      assert ScanFrom(Scan(true, t, parts), "\"") == ScanChar(Scan(true, t, parts), '"');
      var after := Scan(false, "", parts + [Lit(t)]);
      assert ScanFrom(after, " ") == ScanChar(after, ' ');
      assert "\"" + t + "\" " == "\"" + (t + "\" ");
  }

  lemma {:induction false} ScanUnparse(rule: seq<Symbol>)
    requires WellFormed(rule)
    ensures ScanFrom(Fresh, Unparse(rule)) == Scan(false, "", rule)
    decreases |rule|
  {
    if rule == [] {
    } else {
      var init := rule[..|rule| - 1];
      var last := rule[|rule| - 1];
      assert WellFormed(init) by {
        forall k | 0 <= k < |init| ensures init[k] == rule[k] { }
      }
      assert WellFormed([last]) by { assert [last][0] == rule[|rule| - 1]; }
      ScanUnparse(init);
      ScanAppend(Fresh, Unparse(init), Show(last));
      ScanShow(init, last);
      Slices.FrontLast(rule);
    }
  }

  /** Parsing what `__str__` writes for a production gives the production back. */
  lemma ParseUnparse(rule: seq<Symbol>)
    requires WellFormed(rule)
    ensures ParseRule(Unparse(rule)) == rule
  {
    ScanUnparse(rule);
  }

  /**
   * A final bare word needs no trailing space: it becomes a rule
   * reference too; and a lone quoted text is a literal without its quotes.
   */
  lemma ParseLastWord(rule: seq<Symbol>, n: string, t: string)
    requires WellFormed(rule) && Name(n) && '"' !in t
    ensures ParseRule(Unparse(rule) + n) == rule + [Ref(n)]
    ensures ParseRule("\"" + t + "\"") == [Lit(t)]
  {
    ScanUnparse(rule);
    ScanAppend(Fresh, Unparse(rule), n);
    ScanPlain("", rule, n);
    assert "" + n == n;
    ScanAppend(Fresh, "\"", t + "\"");
    assert ScanFrom(Fresh, "\"") == ScanChar(Fresh, '"');
    ScanAppend(Scan(true, "", []), t, "\"");
    ScanQuoted("", [], t);
    assert "" + t == t;
    assert ScanFrom(Scan(true, t, []), "\"") == ScanChar(Scan(true, t, []), '"');
    assert "\"" + t + "\"" == "\"" + (t + "\"");
    assert [] + [Lit(t)] == [Lit(t)];
  }

  // ---------------------------------------------------------------------
  // Expansion
  // ---------------------------------------------------------------------

  /** A piece of generated program text: literal text, or the terminal a codon selects. */
  datatype Piece = Text(s: string) | Terminal(codon: int)

  /** The expander's state: work stack (top at the end), codons read, effective size, indent and output. */
  datatype Machine = Machine(stack: seq<Symbol>, used: nat, eff: nat, indent: int, out: seq<Piece>)

  /** How an expansion ends. */
  datatype Halt =
    | Finished(out: seq<Piece>, eff: nat)   // the program and its effective size
    | NoCodons(eff: nat)                   // (None, eff_size): the genome ran out
    | TooLarge(eff: nat)                   // (None, eff_size): the stack passed 500 entries
    | Undefined(name: string)              // KeyError: a rule name the grammar lacks
    | NoProductions(name: string)          // ZeroDivisionError: a rule with no productions

  datatype Next = Continue(m: Machine) | Stop(h: Halt)

  const StackLimit := 500

  /** The number of codons the genome supplies when replayed `wrap` extra times. */
  function Supply(genome: seq<int>, wrap: nat): nat
  {
    |genome| * (wrap + 1)
  }

  /** The codon read after `used` others: the genome replayed from its start, while the supply lasts. */
  function Codon(genome: seq<int>, wrap: nat, used: nat): Option<int>
  {
    if used < Supply(genome, wrap) then Some(genome[used % |genome|]) else None
  }

  function Reverse(s: seq<Symbol>): (r: seq<Symbol>)
    ensures |r| == |s|
    ensures forall k :: 0 <= k < |s| ==> r[k] == s[|s| - 1 - k]
  {
    if s == [] then [] else Reverse(s[1..]) + [s[0]]
  }

  function Spaces(n: int): string
  {
    if n <= 0 then "" else Spaces(n - 1) + " "
  }

  /** One pass of `eval`'s loop: the stack check, then the popped symbol's effect. */
  function Step(g: map<string, seq<seq<Symbol>>>, genome: seq<int>, wrap: nat, m: Machine): Next
    requires m.stack != []
  {
    if |m.stack| > StackLimit then Stop(TooLarge(m.eff))
    else
      var rest := m.stack[..|m.stack| - 1];
      match m.stack[|m.stack| - 1]
      case Lit(t) => Continue(m.(stack := rest, out := m.out + [Text(t)]))
      case Ref(name) =>
        if name == "TERMINAL" then
          match Codon(genome, wrap, m.used)
          case None => Stop(NoCodons(m.eff + 1))
          case Some(c) => Continue(m.(stack := rest, used := m.used + 1, eff := m.eff + 1, out := m.out + [Terminal(c)]))
        else if name == "NEWLINE" then Continue(m.(stack := rest, out := m.out + [Text("\n")]))
        else if name == "INDENT" then Continue(m.(stack := rest, out := m.out + [Text(Spaces(m.indent))]))
        else if name == "INC_INDENT" then Continue(m.(stack := rest, indent := m.indent + 4))
        else if name == "DEC_INDENT" then Continue(m.(stack := rest, indent := m.indent - 4))
        else if name !in g then Stop(Undefined(name))
        else if |g[name]| == 1 then Continue(m.(stack := rest + Reverse(g[name][0])))
        else
          match Codon(genome, wrap, m.used)
          case None => Stop(NoCodons(m.eff + 1))
          case Some(c) =>
            if |g[name]| == 0 then Stop(NoProductions(name))
            else Continue(m.(stack := rest + Reverse(g[name][c % |g[name]|]), used := m.used + 1, eff := m.eff + 1))
  }

  /**
   * `eval`'s loop run for at most `fuel` passes; None when the passes run
   * out first (the source's loop has no such bound).
   */
  function Run(g: map<string, seq<seq<Symbol>>>, genome: seq<int>, wrap: nat, m: Machine, fuel: nat): Option<Halt>
    decreases fuel
  {
    if m.stack == [] then Some(Finished(m.out, m.eff))
    else if fuel == 0 then None
    else match Step(g, genome, wrap, m)
      case Stop(h) => Some(h)
      case Continue(m') => Run(g, genome, wrap, m', fuel - 1)
  }

  /** The machine `eval` starts from: the start rule `*` on the stack. */
  const Start := Machine([Ref("*")], 0, 0, 0, [])

  class Grammar {
    /** The parsed rules, by name. */
    const rules: map<string, seq<seq<Symbol>>>

    /** `Grammar.__init__`. */
    constructor (grammar: map<string, seq<string>>)
      ensures rules == ParseGrammar(grammar)
    {
      var parsed := ParseRules(grammar);
      rules := parsed;
    }

    /**
     * `Grammar.eval`: expands the start rule with the genome's codons. The
     * loop is cut after `fuel` passes.
     */
    method Eval(genome: seq<int>, wrap: nat, fuel: nat) returns (r: Option<Halt>)
      ensures r == Run(rules, genome, wrap, Start, fuel)
    {
      var m := Start;
      var steps := 0;
      while m.stack != []
        invariant steps <= fuel
        invariant Run(rules, genome, wrap, Start, fuel) == Run(rules, genome, wrap, m, fuel - steps)
        decreases fuel - steps
      {
        if steps == fuel {
          return None;
        }
        var next := Expand(genome, wrap, m);
        match next
        case Stop(h) =>
          return Some(h);
        case Continue(m') =>
          m := m';
        steps := steps + 1;
      }
      r := Some(Finished(m.out, m.eff));
    }

    /** One pass of `eval`'s loop body. */
    method Expand(genome: seq<int>, wrap: nat, m: Machine) returns (next: Next)
      requires m.stack != []
      ensures next == Step(rules, genome, wrap, m)
    {
      if |m.stack| > StackLimit {
        return Stop(TooLarge(m.eff));
      }
      var rule := m.stack[|m.stack| - 1];
      var stack := m.stack[..|m.stack| - 1];
      match rule
      case Lit(t) =>
        next := Continue(m.(stack := stack, out := m.out + [Text(t)]));
      case Ref(name) =>
        if name == "TERMINAL" {
          var codon := Codon(genome, wrap, m.used);
          if codon.None? {
            return Stop(NoCodons(m.eff + 1));
          }
          next := Continue(m.(stack := stack, used := m.used + 1, eff := m.eff + 1, out := m.out + [Terminal(codon.value)]));
        } else if name == "NEWLINE" {
          next := Continue(m.(stack := stack, out := m.out + [Text("\n")]));
        } else if name == "INDENT" {
          next := Continue(m.(stack := stack, out := m.out + [Text(Spaces(m.indent))]));
        } else if name == "INC_INDENT" {
          next := Continue(m.(stack := stack, indent := m.indent + 4));
        } else if name == "DEC_INDENT" {
          next := Continue(m.(stack := stack, indent := m.indent - 4));
        } else if name !in rules {
          next := Stop(Undefined(name));
        } else {
          var choices := rules[name];
          if |choices| == 1 {
            next := Continue(m.(stack := stack + Reverse(choices[0])));
          } else {
            var codon := Codon(genome, wrap, m.used);
            if codon.None? {
              return Stop(NoCodons(m.eff + 1));
            }
            if |choices| == 0 {
              return Stop(NoProductions(name));
            }
            var pick := codon.value % |choices|;
            next := Continue(m.(stack := stack + Reverse(choices[pick]), used := m.used + 1, eff := m.eff + 1));
          }
        }
    }
  }

  // ---------------------------------------------------------------------
  // Properties of the expansion
  // ---------------------------------------------------------------------

  predicate Special(name: string)
  {
    name in {"TERMINAL", "NEWLINE", "INDENT", "INC_INDENT", "DEC_INDENT"}
  }

  /** A rule with a single production expands into it without reading a codon. */
  lemma SingleProduction(g: map<string, seq<seq<Symbol>>>, genome: seq<int>, wrap: nat, m: Machine, name: string)
    requires m.stack != [] && |m.stack| <= StackLimit && m.stack[|m.stack| - 1] == Ref(name)
    requires !Special(name) && name in g && |g[name]| == 1
    ensures Step(g, genome, wrap, m).Continue?
    ensures var m' := Step(g, genome, wrap, m).m;
      m'.used == m.used && m'.eff == m.eff && m'.out == m.out &&
      m'.stack == m.stack[..|m.stack| - 1] + Reverse(g[name][0])
  {
  }

  /**
   * A rule with several productions reads one codon, counts it in the
   * effective size and expands production `codon % count`; without a
   * codon left the expansion ends as (None, eff_size).
   */
  lemma SeveralProductions(g: map<string, seq<seq<Symbol>>>, genome: seq<int>, wrap: nat, m: Machine, name: string)
    requires m.stack != [] && |m.stack| <= StackLimit && m.stack[|m.stack| - 1] == Ref(name)
    requires !Special(name) && name in g && |g[name]| > 1
    ensures m.used < Supply(genome, wrap) ==>
      var c := genome[m.used % |genome|];
      Step(g, genome, wrap, m) == Continue(m.(stack := m.stack[..|m.stack| - 1] + Reverse(g[name][c % |g[name]|]),
                                              used := m.used + 1, eff := m.eff + 1))
    ensures m.used >= Supply(genome, wrap) ==> Step(g, genome, wrap, m) == Stop(NoCodons(m.eff + 1))
  {
  }

  /** TERMINAL reads one codon, counts it, and emits the terminal that codon selects. */
  lemma TerminalReadsOneCodon(g: map<string, seq<seq<Symbol>>>, genome: seq<int>, wrap: nat, m: Machine)
    requires m.stack != [] && |m.stack| <= StackLimit && m.stack[|m.stack| - 1] == Ref("TERMINAL")
    requires m.used < Supply(genome, wrap)
    ensures Step(g, genome, wrap, m) ==
      Continue(m.(stack := m.stack[..|m.stack| - 1], used := m.used + 1, eff := m.eff + 1,
                  out := m.out + [Terminal(genome[m.used % |genome|])]))
  {
  }

  /** A stack of more than 500 entries ends the expansion as (None, eff_size), whatever is on top. */
  lemma StackOverflowAborts(g: map<string, seq<seq<Symbol>>>, genome: seq<int>, wrap: nat, m: Machine, fuel: nat)
    requires |m.stack| > StackLimit && fuel > 0
    ensures Run(g, genome, wrap, m, fuel) == Some(TooLarge(m.eff))
  {
  }

  /** Codons read and effective size agree, and no more codons are read than the replayed genome supplies. */
  predicate Counted(genome: seq<int>, wrap: nat, m: Machine)
  {
    m.eff == m.used && m.used <= Supply(genome, wrap)
  }

  lemma StepCounted(g: map<string, seq<seq<Symbol>>>, genome: seq<int>, wrap: nat, m: Machine)
    requires m.stack != [] && Counted(genome, wrap, m)
    ensures match Step(g, genome, wrap, m)
      case Continue(m') => Counted(genome, wrap, m')
      case Stop(h) => h.NoCodons? ==> h.eff == Supply(genome, wrap) + 1
  {
  }

  /**
   * The genome is read at most wrap+1 times over: a finished or aborted
   * expansion has used no more codons than that, and running out of
   * codons reports one more than the whole supply (the failed read is
   * counted before it fails).
   */
  lemma {:induction false} CodonBudget(g: map<string, seq<seq<Symbol>>>, genome: seq<int>, wrap: nat, m: Machine, fuel: nat)
    requires Counted(genome, wrap, m)
    ensures match Run(g, genome, wrap, m, fuel)
      case Some(Finished(_, e)) => e <= Supply(genome, wrap)
      case Some(TooLarge(e)) => e <= Supply(genome, wrap)
      case Some(NoCodons(e)) => e == Supply(genome, wrap) + 1
      case _ => true
    decreases fuel
  {
    if m.stack != [] && fuel > 0 {
      StepCounted(g, genome, wrap, m);
      match Step(g, genome, wrap, m)
      case Stop(h) =>
      case Continue(m') => CodonBudget(g, genome, wrap, m', fuel - 1);
    }
  }

  predicate AllLiterals(s: seq<Symbol>)
  {
    forall k :: 0 <= k < |s| ==> s[k].Lit?
  }

  function Texts(s: seq<Symbol>): (r: seq<Piece>)
    requires AllLiterals(s)
    ensures |r| == |s|
    ensures forall k :: 0 <= k < |s| ==> r[k] == Text(s[k].text)
  {
    if s == [] then [] else [Text(s[0].text)] + Texts(s[1..])
  }

  /** A literal on top of the stack is appended to the output. */
  lemma RunLiteral(g: map<string, seq<seq<Symbol>>>, genome: seq<int>, wrap: nat, m: Machine, below: seq<Symbol>, lit: Symbol, fuel: nat)
    requires m.stack == below + [lit] && |m.stack| <= StackLimit && lit.Lit?
    ensures Run(g, genome, wrap, m, fuel + 1) ==
      Run(g, genome, wrap, m.(stack := below, out := m.out + [Text(lit.text)]), fuel)
  {
    Slices.Snoc(below, lit);
  }

  /**
   * Productions are pushed reversed, so the leftmost part is expanded
   * first: literals pushed for a production come out in the order
   * written.
   */
  lemma {:induction false} LiteralsInOrder(g: map<string, seq<seq<Symbol>>>, genome: seq<int>, wrap: nat,
                                           m: Machine, below: seq<Symbol>, lits: seq<Symbol>, fuel: nat)
    requires AllLiterals(lits) && m.stack == below + Reverse(lits) && |m.stack| <= StackLimit
    ensures Run(g, genome, wrap, m, fuel + |lits|) == Run(g, genome, wrap, m.(stack := below, out := m.out + Texts(lits)), fuel)
    decreases |lits|
  {
    if lits == [] {
      assert m.stack == below;
      assert m.out + Texts(lits) == m.out;
      assert m.(stack := below, out := m.out + Texts(lits)) == m;
    } else {
      var rest := lits[1..];
      assert AllLiterals(rest) by {
        forall k | 0 <= k < |rest| ensures rest[k].Lit? { assert rest[k] == lits[k + 1]; }
      }
      var m1 := m.(stack := below + Reverse(rest), out := m.out + [Text(lits[0].text)]);
      LiteralStep(g, genome, wrap, m, below, lits, fuel);
      LiteralsInOrder(g, genome, wrap, m1, below, rest, fuel);
      EmitFirst(m, below, lits);
    }
  }

  /** Emitting the first literal and then the rest emits them all. */
  lemma EmitFirst(m: Machine, below: seq<Symbol>, lits: seq<Symbol>)
    requires lits != [] && AllLiterals(lits) && AllLiterals(lits[1..])
    ensures var m1 := m.(stack := below + Reverse(lits[1..]), out := m.out + [Text(lits[0].text)]);
      m1.(stack := below, out := m1.out + Texts(lits[1..])) == m.(stack := below, out := m.out + Texts(lits))
  {
    var rest := lits[1..];
    assert Texts(lits) == [Text(lits[0].text)] + Texts(rest);
    assert (m.out + [Text(lits[0].text)]) + Texts(rest) == m.out + ([Text(lits[0].text)] + Texts(rest));
  }

  /** The first literal of a pushed run of literals is emitted in one step. */
  lemma LiteralStep(g: map<string, seq<seq<Symbol>>>, genome: seq<int>, wrap: nat,
                    m: Machine, below: seq<Symbol>, lits: seq<Symbol>, fuel: nat)
    requires lits != [] && AllLiterals(lits) && m.stack == below + Reverse(lits) && |m.stack| <= StackLimit
    ensures Run(g, genome, wrap, m, fuel + |lits|)
         == Run(g, genome, wrap, m.(stack := below + Reverse(lits[1..]), out := m.out + [Text(lits[0].text)]), fuel + |lits[1..]|)
  {
    var rest := lits[1..];
    assert Reverse(lits) == Reverse(rest) + [lits[0]];
    Slices.ConcatAssoc(below, Reverse(rest), [lits[0]]);
    RunLiteral(g, genome, wrap, m, below + Reverse(rest), lits[0], fuel + |rest|);
  }

}
