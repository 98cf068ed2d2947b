/**
 * The console monitor (esec/monitors/consolemonitor.py): the termination
 * test and its end codes, the per-generation reset of local statistics,
 * the elapsed-time column and the parsing of report descriptions into
 * header, format and value columns.
 */
module ConsoleMonitor {
  import opened Wrappers
  import Fitnesses
  import ConfigDicts
  import CharLexer
  import Slices

  // ---------------------------------------------------------------------
  // Statistics and limits
  // ---------------------------------------------------------------------

  /** The reason a run stopped, as stored in `end_code`. */
  datatype EndCode = Exception | GenLimit | FitLimit | StableLimit | UniqueLimit

  /**
   * A value in the statistics dictionary: a count, the best individual
   * so far (only its fitness matters here), or anything else (the group
   * set, the block table, ...).
   */
  datatype Stat = Num(n: int) | Best(fitness: Fitnesses.Fitness) | Other

  /** The configured limits; a missing (or None) limit is `None`. */
  datatype Limits = Limits(
    generations: Option<int>,
    fitness: Option<Fitnesses.Fitness>,
    stable: Option<int>,
    unique: Option<int>)

  /** A counter in `stats` that has reached a configured lower bound. */
  predicate AtLeast(stats: map<string, Stat>, key: string, limit: Option<int>)
  {
    limit.Some? && key in stats && stats[key].Num? && stats[key].n >= limit.value
  }

  /** The condition guarding each end code in `should_terminate`. */
  predicate Triggered(code: EndCode, stopNow: bool, stats: map<string, Stat>, limits: Limits)
  {
    match code
    case Exception => stopNow
    case GenLimit => AtLeast(stats, "generations", limits.generations)
    case FitLimit =>
      limits.fitness.Some? && "global_max" in stats && stats["global_max"].Best? &&
      Fitnesses.Ge(stats["global_max"].fitness, limits.fitness.value)
    case StableLimit => AtLeast(stats, "stable_count", limits.stable)
    case UniqueLimit =>
      limits.unique.Some? && "local_unique" in stats && stats["local_unique"].Num? &&
      stats["local_unique"].n <= limits.unique.value
  }

  /** The order in which the end codes are checked. */
  const Order: seq<EndCode> := [Exception, GenLimit, FitLimit, StableLimit, UniqueLimit]

  /** The first code of `codes` whose condition holds, if any. */
  function FirstTriggered(codes: seq<EndCode>, stopNow: bool, stats: map<string, Stat>, limits: Limits): (r: Option<EndCode>)
    ensures r.Some? ==> r.value in codes
  {
    if codes == [] then None
    else if Triggered(codes[0], stopNow, stats, limits) then Some(codes[0])
    else FirstTriggered(codes[1..], stopNow, stats, limits)
  }

  /** The end code a `should_terminate` call sets when none was set before. */
  function Verdict(stopNow: bool, stats: map<string, Stat>, limits: Limits): Option<EndCode>
  {
    FirstTriggered(Order, stopNow, stats, limits)
  }

  /**
   * Scanning a list of distinct codes finds nothing exactly when no
   * condition holds, and finds the code at `k` exactly when that code's
   * condition holds and none before it does.
   */
  lemma {:induction false} FirstTriggeredMeans(codes: seq<EndCode>, stopNow: bool, stats: map<string, Stat>, limits: Limits, k: nat)
    requires forall i, j :: 0 <= i < j < |codes| ==> codes[i] != codes[j]
    requires k < |codes|
    ensures FirstTriggered(codes, stopNow, stats, limits) == Some(codes[k]) <==>
      Triggered(codes[k], stopNow, stats, limits) &&
      forall j :: 0 <= j < k ==> !Triggered(codes[j], stopNow, stats, limits)
  {
    if k > 0 {
      if !Triggered(codes[0], stopNow, stats, limits) {
        FirstTriggeredMeans(codes[1..], stopNow, stats, limits, k - 1);
        assert codes[1..][k - 1] == codes[k];
        assert forall j :: 0 <= j < k ==> codes[j] == (if j == 0 then codes[0] else codes[1..][j - 1]);
      } else {
        assert codes[0] != codes[k];
      }
    }
  }

  /** Scanning finds nothing exactly when no condition in the list holds. */
  lemma {:induction false} FirstTriggeredNone(codes: seq<EndCode>, stopNow: bool, stats: map<string, Stat>, limits: Limits)
    ensures FirstTriggered(codes, stopNow, stats, limits) == None <==>
      forall i :: 0 <= i < |codes| ==> !Triggered(codes[i], stopNow, stats, limits)
  {
    if codes != [] {
      FirstTriggeredNone(codes[1..], stopNow, stats, limits);
      assert forall i :: 1 <= i < |codes| ==> codes[i] == codes[1..][i - 1];
    }
  }

  /**
   * The tests run in the order exception, generations, fitness, stable,
   * unique: the code at position `k` of that order is chosen exactly when
   * its condition holds and no earlier one does.
   */
  lemma CheckOrder(stopNow: bool, stats: map<string, Stat>, limits: Limits, k: nat)
    requires k < |Order|
    ensures Verdict(stopNow, stats, limits) == Some(Order[k]) <==>
      Triggered(Order[k], stopNow, stats, limits) &&
      forall j :: 0 <= j < k ==> !Triggered(Order[j], stopNow, stats, limits)
  {
    FirstTriggeredMeans(Order, stopNow, stats, limits, k);
  }

  /** No end code is chosen exactly when no limit has been reached and no exception occurred. */
  lemma NoVerdict(stopNow: bool, stats: map<string, Stat>, limits: Limits)
    ensures Verdict(stopNow, stats, limits) == None <==>
      forall code: EndCode :: !Triggered(code, stopNow, stats, limits)
  {
    FirstTriggeredNone(Order, stopNow, stats, limits);
    forall code: EndCode
      ensures !Triggered(code, stopNow, stats, limits) <== forall i :: 0 <= i < |Order| ==> !Triggered(Order[i], stopNow, stats, limits)
    {
      match code
      case Exception => assert Order[0] == code;
      case GenLimit => assert Order[1] == code;
      case FitLimit => assert Order[2] == code;
      case StableLimit => assert Order[3] == code;
      case UniqueLimit => assert Order[4] == code;
    }
  }

  // ---------------------------------------------------------------------
  // Local statistics
  // ---------------------------------------------------------------------

  /** Keys beginning with `local_` hold per-generation statistics. */
  predicate IsLocal(key: string)
  {
    |key| >= 6 && key[..6] == "local_"
  }

  /** A statistics dictionary without its `local_` entries. */
  function WithoutLocal(m: map<string, Stat>): map<string, Stat>
  {
    map k | k in m && !IsLocal(k) :: m[k]
  }

  /** The counters `on_pre_breed` increments. */
  function Bumped(stats: map<string, Stat>): map<string, Stat>
    requires "generations" in stats && stats["generations"].Num?
    requires "stable_count" in stats && stats["stable_count"].Num?
  {
    stats["generations" := Num(stats["generations"].n + 1)]
         ["stable_count" := Num(stats["stable_count"].n + 1)]
  }

  /**
   * After `on_pre_breed` the two counters are one larger, no `local_` key
   * is left, and every other key keeps its value.
   */
  lemma BreedStats(stats: map<string, Stat>)
    requires "generations" in stats && stats["generations"].Num?
    requires "stable_count" in stats && stats["stable_count"].Num?
    ensures var r := WithoutLocal(Bumped(stats));
      && "generations" in r && r["generations"] == Num(stats["generations"].n + 1)
      && "stable_count" in r && r["stable_count"] == Num(stats["stable_count"].n + 1)
      && (forall k :: k in r ==> !IsLocal(k) && k in stats)
      && (forall k :: k in stats && !IsLocal(k) && k != "generations" && k != "stable_count" ==>
            k in r && r[k] == stats[k])
  {
    assert !IsLocal("generations") by { assert "generations"[..6][0] != "local_"[0]; }
    assert !IsLocal("stable_count") by { assert "stable_count"[..6][1] != "local_"[1]; }
  }

  /** Dropping the local entries twice is the same as dropping them once. */
  lemma WithoutLocalIdempotent(m: map<string, Stat>)
    ensures WithoutLocal(WithoutLocal(m)) == WithoutLocal(m)
  {
  }

  /** The per-generation reset of a statistics dictionary, one key at a time. */
  method DropLocal(m: map<string, Stat>) returns (r: map<string, Stat>)
    ensures r == WithoutLocal(m)
  {
    r := m;
    var keys := set k | k in m && IsLocal(k);
    while keys != {}
      invariant keys <= r.Keys
      invariant forall k :: k in keys ==> IsLocal(k)
      invariant forall k :: k in r <==> k in m && (!IsLocal(k) || k in keys)
      invariant forall k :: k in r ==> r[k] == m[k]
      decreases |keys|
    {
      var k :| k in keys;
      r := r - {k};
      keys := keys - {k};
    }
    assert r.Keys == WithoutLocal(m).Keys;
  }

  /** The per-generation reset of each listed group's statistics. */
  method DropGroupLocals(names: set<string>, groups: map<string, map<string, Stat>>) returns (r: map<string, map<string, Stat>>)
    requires names <= groups.Keys
    ensures r.Keys == groups.Keys
    ensures forall g :: g in r ==> r[g] == (if g in names then WithoutLocal(groups[g]) else groups[g])
  {
    r := groups;
    var todo := names;
    while todo != {}
      invariant todo <= names
      invariant r.Keys == groups.Keys
      invariant forall g :: g in r ==>
        r[g] == (if g in names && g !in todo then WithoutLocal(groups[g]) else groups[g])
      decreases |todo|
    {
      var g :| g in todo;
      var inner := DropLocal(r[g]);
      r := r[g := inner];
      todo := todo - {g};
    }
  }

  // ---------------------------------------------------------------------
  // Elapsed time
  // ---------------------------------------------------------------------

  /** Hours, minutes, seconds and milliseconds, as `_time` returns them. */
  datatype Clock = Clock(hours: int, minutes: int, seconds: int, millis: int)

  /** The milliseconds a clock reading stands for. */
  function Millis(c: Clock): int
  {
    ((c.hours * 60 + c.minutes) * 60 + c.seconds) * 1000 + c.millis
  }

  predicate Normal(c: Clock)
  {
    0 <= c.minutes < 60 && 0 <= c.seconds < 60 && 0 <= c.millis < 1000
  }

  /**
   * `_time`: splits the elapsed milliseconds (read from the process clock
   * in the source, a parameter here) with floor division. The parts are
   * in range and recombine to the elapsed time.
   */
  function Time(elapsed: int): (r: Clock)
    ensures Normal(r)
    ensures Millis(r) == elapsed
  {
    var seconds := elapsed / 1000;
    var minutes := seconds / 60;
    var hours := minutes / 60;
    Clock(hours, minutes - hours * 60, seconds - minutes * 60, elapsed - seconds * 1000)
  }

  /** A normalised clock reading is the only one for its milliseconds. */
  lemma TimeInverse(c: Clock)
    requires Normal(c)
    ensures Time(Millis(c)) == c
  {
    var m := c.hours * 60 + c.minutes;
    var s := m * 60 + c.seconds;
    assert (s * 1000 + c.millis) / 1000 == s;
    assert s / 60 == m;
    assert m / 60 == c.hours;
  }

  // ---------------------------------------------------------------------
  // Report descriptions
  // ---------------------------------------------------------------------

  /** One report column: header text, format specifier and the value it shows. */
  datatype Column = Column(hdr: string, fmt: string, target: string)

  /**
   * A value in a format table: another report string, a column tuple, or
   * None.
   */
  datatype Descriptor = Alias(text: string) | Entry(column: Column) | Blank

  datatype ReportError = UnknownReport(name: string) | TooDeep

  /** Python truth: an empty string and None are false, a column tuple is true. */
  predicate Truthy(d: Descriptor)
  {
    match d
    case Alias(t) => t != []
    case Entry(_) => true
    case Blank => false
  }

  /** `cfg.formats.get(cmd) or format.get(cmd)`. */
  function Lookup(overrides: map<string, Descriptor>, builtin: map<string, Descriptor>, cmd: string): Descriptor
  {
    var first := if cmd in overrides then overrides[cmd] else Blank;
    if Truthy(first) then first
    else if cmd in builtin then builtin[cmd] else Blank
  }

  function StripAll(parts: seq<string>): (r: seq<string>)
    ensures |r| == |parts|
    ensures forall i :: 0 <= i < |parts| ==> r[i] == CharLexer.Strip(parts[i])
  {
    if parts == [] then [] else [CharLexer.Strip(parts[0])] + StripAll(parts[1..])
  }

  /** The names in a report string: split on `+`, each part stripped. */
  function Parts(report: string): seq<string>
  {
    StripAll(ConfigDicts.SplitOn(report, '+'))
  }

  /** Appends the columns of a later part after those already gathered. */
  function Then(first: Result<seq<Column>, ReportError>, rest: Result<seq<Column>, ReportError>): Result<seq<Column>, ReportError>
  {
    match first
    case Err(e) => Err(e)
    case Ok(cs) =>
      match rest
      case Err(e) => Err(e)
      case Ok(more) => Ok(cs + more)
  }

  /**
   * `_parse_report`: the columns a report string describes. A string
   * descriptor is parsed in turn; `fuel` bounds that nesting, which the
   * source leaves to the interpreter's recursion limit.
   */
  function Report(overrides: map<string, Descriptor>, builtin: map<string, Descriptor>, report: string, fuel: nat): Result<seq<Column>, ReportError>
    decreases fuel, 2, 0
  {
    Commands(overrides, builtin, Parts(report), fuel)
  }

  function Commands(overrides: map<string, Descriptor>, builtin: map<string, Descriptor>, cmds: seq<string>, fuel: nat): Result<seq<Column>, ReportError>
    decreases fuel, 1, |cmds|
  {
    if cmds == [] then Ok([])
    else Then(Command(overrides, builtin, cmds[0], fuel), Commands(overrides, builtin, cmds[1..], fuel))
  }

  /** The columns of one name: an alias expands, a tuple is a column, None adds nothing, a missing name is an error. */
  function Command(overrides: map<string, Descriptor>, builtin: map<string, Descriptor>, cmd: string, fuel: nat): Result<seq<Column>, ReportError>
    decreases fuel, 0, 0
  {
    match Lookup(overrides, builtin, cmd)
    case Alias(t) => if fuel == 0 then Err(TooDeep) else Report(overrides, builtin, t, fuel - 1)
    case Entry(c) => Ok([c])
    case Blank => if cmd !in builtin && cmd !in overrides then Err(UnknownReport(cmd)) else Ok([])
  }

  lemma ThenOk(cols: seq<Column>, here: Result<seq<Column>, ReportError>, rest: Result<seq<Column>, ReportError>)
    ensures Then(Ok(cols), Then(here, rest)) ==
      (if here.Err? then here else Then(Ok(cols + here.value), rest))
  {
    if here.Ok? && rest.Ok? {
      assert cols + (here.value + rest.value) == (cols + here.value) + rest.value;
    }
  }

  lemma CommandsStep(overrides: map<string, Descriptor>, builtin: map<string, Descriptor>, cmds: seq<string>, i: nat, fuel: nat)
    requires i < |cmds|
    ensures Commands(overrides, builtin, cmds[i..], fuel) ==
      Then(Command(overrides, builtin, cmds[i], fuel), Commands(overrides, builtin, cmds[i + 1..], fuel))
  {
    assert cmds[i..][1..] == cmds[i + 1..];
  }

  /** Before the first name, nothing is gathered and every name is still to come. */
  lemma ReportStart(overrides: map<string, Descriptor>, builtin: map<string, Descriptor>, report: string, fuel: nat)
    ensures Report(overrides, builtin, report, fuel) == Then(Ok([]), Commands(overrides, builtin, Parts(report)[0..], fuel))
  {
    var all := Commands(overrides, builtin, Parts(report), fuel);
    assert Parts(report)[0..] == Parts(report);
    if all.Ok? {
      assert [] + all.value == all.value;
    }
  }

  /** One name of the walk: its failure is the report's, or its columns join those gathered. */
  lemma ReportStep(overrides: map<string, Descriptor>, builtin: map<string, Descriptor>, report: string,
                   cmds: seq<string>, i: nat, cols: seq<Column>, here: Result<seq<Column>, ReportError>, fuel: nat)
    requires i < |cmds| && here == Command(overrides, builtin, cmds[i], fuel)
    requires Report(overrides, builtin, report, fuel) == Then(Ok(cols), Commands(overrides, builtin, cmds[i..], fuel))
    ensures here.Err? ==> Report(overrides, builtin, report, fuel) == Err(here.error)
    ensures here.Ok? ==> Report(overrides, builtin, report, fuel) == Then(Ok(cols + here.value), Commands(overrides, builtin, cmds[i + 1..], fuel))
  {
    CommandsStep(overrides, builtin, cmds, i, fuel);
    ThenOk(cols, here, Commands(overrides, builtin, cmds[i + 1..], fuel));
  }

  /** A column some format table holds. */
  predicate Known(overrides: map<string, Descriptor>, builtin: map<string, Descriptor>, c: Column)
  {
    Entry(c) in overrides.Values || Entry(c) in builtin.Values
  }

  predicate AllKnown(overrides: map<string, Descriptor>, builtin: map<string, Descriptor>, r: Result<seq<Column>, ReportError>)
  {
    r.Ok? ==> forall i :: 0 <= i < |r.value| ==> Known(overrides, builtin, r.value[i])
  }

  /** Every column a parsed report shows comes from one of the two format tables. */
  lemma {:induction false} ReportSound(overrides: map<string, Descriptor>, builtin: map<string, Descriptor>, report: string, fuel: nat)
    ensures AllKnown(overrides, builtin, Report(overrides, builtin, report, fuel))
    decreases fuel, 2, 0
  {
    CommandsSound(overrides, builtin, Parts(report), fuel);
  }

  lemma {:induction false} CommandsSound(overrides: map<string, Descriptor>, builtin: map<string, Descriptor>, cmds: seq<string>, fuel: nat)
    ensures AllKnown(overrides, builtin, Commands(overrides, builtin, cmds, fuel))
    decreases fuel, 1, |cmds|
  {
    if cmds != [] {
      CommandSound(overrides, builtin, cmds[0], fuel);
      CommandsSound(overrides, builtin, cmds[1..], fuel);
    }
  }

  lemma {:induction false} CommandSound(overrides: map<string, Descriptor>, builtin: map<string, Descriptor>, cmd: string, fuel: nat)
    ensures AllKnown(overrides, builtin, Command(overrides, builtin, cmd, fuel))
    decreases fuel, 0, 0
  {
    match Lookup(overrides, builtin, cmd)
    case Alias(t) =>
      if fuel > 0 {
        ReportSound(overrides, builtin, t, fuel - 1);
      }
    case Entry(c) =>
      var first := if cmd in overrides then overrides[cmd] else Blank;
      if Truthy(first) {
        assert overrides[cmd] == Entry(c);
      } else {
        assert builtin[cmd] == Entry(c);
      }
    case Blank =>
  }

  /** A name in neither table makes the whole list fail. */
  lemma {:induction false} UnknownCommandFails(overrides: map<string, Descriptor>, builtin: map<string, Descriptor>, cmds: seq<string>, fuel: nat, k: nat)
    requires k < |cmds| && cmds[k] !in overrides && cmds[k] !in builtin
    ensures Commands(overrides, builtin, cmds, fuel).Err?
  {
    if k > 0 && Command(overrides, builtin, cmds[0], fuel).Ok? {
      UnknownCommandFails(overrides, builtin, cmds[1..], fuel, k - 1);
    }
  }

  /** A report naming an unknown column is rejected (the source raises ValueError). */
  lemma UnknownReportFails(overrides: map<string, Descriptor>, builtin: map<string, Descriptor>, report: string, fuel: nat, k: nat)
    requires k < |Parts(report)|
    requires Parts(report)[k] !in overrides && Parts(report)[k] !in builtin
    ensures Report(overrides, builtin, report, fuel).Err?
  {
    UnknownCommandFails(overrides, builtin, Parts(report), fuel, k);
  }

  /** A report that is a single name of a string descriptor parses as that string. */
  lemma AliasExpands(overrides: map<string, Descriptor>, builtin: map<string, Descriptor>, name: string, text: string, fuel: nat)
    requires Lookup(overrides, builtin, name) == Alias(text)
    requires '+' !in name && CharLexer.Strip(name) == name
    ensures Report(overrides, builtin, name, fuel + 1) == Report(overrides, builtin, text, fuel)
  {
    SplitWithout(name, '+');
    assert Parts(name) == [name];
    var inner := Report(overrides, builtin, text, fuel);
    assert Command(overrides, builtin, name, fuel + 1) == inner;
    assert Commands(overrides, builtin, [name][1..], fuel + 1) == Ok([]);
    if inner.Ok? {
      assert inner.value + [] == inner.value;
    }
  }

  lemma {:induction false} SplitWithout(s: string, sep: char)
    requires sep !in s
    ensures ConfigDicts.SplitOn(s, sep) == [s]
  {
    if s != [] {
      SplitWithout(s[1..], sep);
      assert [s[0]] + s[1..] == s;
    }
  }

  /** Splitting at a separator splits the parts. */
  lemma {:induction false} SplitAppend(a: string, b: string, sep: char)
    ensures ConfigDicts.SplitOn(a + [sep] + b, sep) == ConfigDicts.SplitOn(a, sep) + ConfigDicts.SplitOn(b, sep)
  {
    if a == [] {
      assert a + [sep] + b == [sep] + b;
      assert ([sep] + b)[1..] == b;
    } else {
      SplitAppend(a[1..], b, sep);
      Slices.ConcatAssoc(a, [sep], b);
      Slices.ConsTail(a, [sep] + b);
      Slices.ConcatAssoc(a[1..], [sep], b);
      var front := ConfigDicts.SplitOn(a[1..], sep);
      var back := ConfigDicts.SplitOn(b, sep);
      if a[0] == sep {
        Slices.ConcatAssoc([[]], front, back);
      } else {
        Slices.ConsTail(front, back);
        Slices.ConcatAssoc([[a[0]] + front[0]], front[1..], back);
      }
    }
  }

  lemma {:induction false} CommandsAppend(overrides: map<string, Descriptor>, builtin: map<string, Descriptor>, xs: seq<string>, ys: seq<string>, fuel: nat)
    ensures Commands(overrides, builtin, xs + ys, fuel) ==
      Then(Commands(overrides, builtin, xs, fuel), Commands(overrides, builtin, ys, fuel))
  {
    if xs == [] {
      assert xs + ys == ys;
      var r := Commands(overrides, builtin, ys, fuel);
      if r.Ok? {
        assert [] + r.value == r.value;
      }
    } else {
      CommandsAppend(overrides, builtin, xs[1..], ys, fuel);
      assert (xs + ys)[1..] == xs[1..] + ys;
      assert (xs + ys)[0] == xs[0];
      var a := Command(overrides, builtin, xs[0], fuel);
      var b := Commands(overrides, builtin, xs[1..], fuel);
      var c := Commands(overrides, builtin, ys, fuel);
      if a.Ok? && b.Ok? && c.Ok? {
        assert a.value + (b.value + c.value) == (a.value + b.value) + c.value;
      }
    }
  }

  lemma {:induction false} StripAllAppend(xs: seq<string>, ys: seq<string>)
    ensures StripAll(xs + ys) == StripAll(xs) + StripAll(ys)
  {
    if xs == [] {
      assert xs + ys == ys;
    } else {
      StripAllAppend(xs[1..], ys);
      Slices.ConsTail(xs, ys);
      Slices.ConcatAssoc([CharLexer.Strip(xs[0])], StripAll(xs[1..]), StripAll(ys));
    }
  }

  /**
   * The columns of `a+b` are those of `a` followed by those of `b`; the
   * first failure wins.
   */
  lemma ReportAppend(overrides: map<string, Descriptor>, builtin: map<string, Descriptor>, a: string, b: string, fuel: nat)
    ensures Report(overrides, builtin, a + "+" + b, fuel) ==
      Then(Report(overrides, builtin, a, fuel), Report(overrides, builtin, b, fuel))
  {
    SplitAppend(a, b, '+');
    var sa := ConfigDicts.SplitOn(a, '+');
    var sb := ConfigDicts.SplitOn(b, '+');
    StripAllAppend(sa, sb);
    CommandsAppend(overrides, builtin, StripAll(sa), StripAll(sb), fuel);
  }

  // ---------------------------------------------------------------------
  // The monitor
  // ---------------------------------------------------------------------

  class Monitor {
    /** `end_code`: None until a termination test or exception sets it. */
    var endCode: Option<EndCode>
    /** `stop_now`, set by `on_exception`. */
    var stopNow: bool
    /** The scalar entries of `_stats`. */
    var stats: map<string, Stat>
    /** `_stats['groups']`: the groups whose statistics are kept. */
    var groupNames: set<string>
    /** `_stats[group]` for each group. */
    var groupStats: map<string, map<string, Stat>>
    const limits: Limits
    /** `cfg.formats`, consulted first. */
    const overrides: map<string, Descriptor>
    /** The built-in `format` table. */
    const formats: map<string, Descriptor>

    /** The statistics the termination test and the per-generation reset rely on. */
    predicate Valid()
      reads this
    {
      && "generations" in stats && stats["generations"].Num?
      && "stable_count" in stats && stats["stable_count"].Num?
      && ("global_max" in stats ==> stats["global_max"].Best?)
      && ("local_unique" in stats ==> stats["local_unique"].Num?)
      && groupNames <= groupStats.Keys
    }

    /** The statistics `on_pre_reset` starts from. */
    static function InitialStats(): map<string, Stat>
    {
      map["generations" := Num(0), "births" := Num(0), "stable_count" := Num(0),
          "global_evals" := Num(0), "local_evals" := Num(0),
          "groups" := Other, "blocks" := Other]
    }

    /** A monitor after construction and `on_pre_reset`. */
    constructor (limits: Limits, overrides: map<string, Descriptor>, formats: map<string, Descriptor>, primary: string)
      ensures Valid()
      ensures this.limits == limits && this.overrides == overrides && this.formats == formats
      ensures endCode == None && !stopNow
      ensures stats == InitialStats() && groupNames == {}
      ensures groupStats == map[primary := map["global_max" := Best(Fitnesses.Empty)]]
    {
      this.limits := limits;
      this.overrides := overrides;
      this.formats := formats;
      endCode := None;
      stopNow := false;
      stats := InitialStats();
      groupNames := {};
      groupStats := map[primary := map["global_max" := Best(Fitnesses.Empty)]];
    }

    /**
     * `_parse_report`: walks the names of a report, gathering the columns
     * of each in turn; the first failure is raised.
     */
    method ParseReport(report: string, fuel: nat) returns (r: Result<seq<Column>, ReportError>)
      ensures r == Report(overrides, formats, report, fuel)
      decreases fuel, 1
    {
      var cmds := Parts(report);
      var cols: seq<Column> := [];
      var i := 0;
      ReportStart(overrides, formats, report, fuel);
      while i < |cmds|
        invariant 0 <= i <= |cmds|
        invariant Report(overrides, formats, report, fuel) == Then(Ok(cols), Commands(overrides, formats, cmds[i..], fuel))
        decreases |cmds| - i
      {
        var here := ParseCommand(cmds[i], fuel);
        ReportStep(overrides, formats, report, cmds, i, cols, here, fuel);
        if here.Err? {
          return Err(here.error);
        }
        cols := cols + here.value;
        i := i + 1;
      }
      assert cmds[i..] == [];
      assert cols + [] == cols;
      r := Ok(cols);
    }

    /**
     * One name of a report: a string descriptor is parsed recursively, a
     * column tuple gives its column, None gives nothing, and a name in
     * neither table is an error.
     */
    method ParseCommand(cmd: string, fuel: nat) returns (r: Result<seq<Column>, ReportError>)
      ensures r == Command(overrides, formats, cmd, fuel)
      decreases fuel, 0
    {
      var value := Lookup(overrides, formats, cmd);
      match value
      case Alias(t) =>
        if fuel == 0 {
          return Err(TooDeep);
        }
        r := ParseReport(t, fuel - 1);
      case Entry(c) =>
        r := Ok([c]);
      case Blank =>
        if cmd !in formats && cmd !in overrides {
          return Err(UnknownReport(cmd));
        }
        r := Ok([]);
    }

    /** `on_pre_reset`: fresh counters, no groups, no end code. */
    method OnPreReset(primary: string)
      modifies this
      ensures Valid()
      ensures endCode == None && !stopNow
      ensures stats == InitialStats() && groupNames == {}
      ensures groupStats == map[primary := map["global_max" := Best(Fitnesses.Empty)]]
    {
      stats := InitialStats();
      groupNames := {};
      groupStats := map[primary := map["global_max" := Best(Fitnesses.Empty)]];
      stopNow := false;
      endCode := None;
    }

    /** `on_exception`: stop at the next termination test. */
    method OnException()
      modifies this
      ensures stopNow && endCode == Some(Exception)
      ensures stats == old(stats) && groupNames == old(groupNames) && groupStats == old(groupStats)
    {
      stopNow := true;
      endCode := Some(Exception);
    }

    /**
     * `should_terminate`: an end code once set is kept and the answer
     * stays true; otherwise the first condition that holds, in the order
     * exception, generations, fitness, stable, unique, sets the code.
     */
    method ShouldTerminate() returns (done: bool)
      requires Valid()
      modifies this
      ensures old(endCode).Some? ==> endCode == old(endCode)
      ensures old(endCode).None? ==> endCode == Verdict(stopNow, stats, limits)
      ensures done <==> endCode.Some?
      ensures stopNow == old(stopNow) && stats == old(stats)
      ensures groupNames == old(groupNames) && groupStats == old(groupStats)
    {
      if endCode.Some? {
        return true;
      }
      if stopNow {
        endCode := Some(Exception);
        CheckOrder(stopNow, stats, limits, 0);
      } else if limits.generations.Some? && "generations" in stats &&
                stats["generations"].n >= limits.generations.value {
        endCode := Some(GenLimit);
        CheckOrder(stopNow, stats, limits, 1);
      } else if limits.fitness.Some? && "global_max" in stats &&
                Fitnesses.Ge(stats["global_max"].fitness, limits.fitness.value) {
        endCode := Some(FitLimit);
        CheckOrder(stopNow, stats, limits, 2);
      } else if limits.stable.Some? && "stable_count" in stats &&
                stats["stable_count"].n >= limits.stable.value {
        endCode := Some(StableLimit);
        CheckOrder(stopNow, stats, limits, 3);
      } else if limits.unique.Some? && "local_unique" in stats &&
                stats["local_unique"].n <= limits.unique.value {
        endCode := Some(UniqueLimit);
        CheckOrder(stopNow, stats, limits, 4);
      } else {
        NoVerdict(stopNow, stats, limits);
      }
      done := endCode.Some?;
    }

    /**
     * `on_pre_breed`: counts the generation, counts it towards the stable
     * run, and drops every `local_` statistic, top-level and per group.
     */
    method OnPreBreed()
      requires Valid()
      modifies this
      ensures Valid()
      ensures stats == WithoutLocal(Bumped(old(stats)))
      ensures groupNames == old(groupNames) && groupStats.Keys == old(groupStats).Keys
      ensures forall g :: g in groupStats ==>
        groupStats[g] == (if g in groupNames then WithoutLocal(old(groupStats)[g]) else old(groupStats)[g])
      ensures endCode == old(endCode) && stopNow == old(stopNow)
    {
      BreedStats(stats);
      var dropped := DropLocal(Bumped(stats));
      stats := dropped;
      var groups := DropGroupLocals(groupNames, groupStats);
      groupStats := groups;
    }
  }

  /** Right after `on_pre_breed` no unique count is present, so the unique limit cannot fire. */
  lemma BreedClearsUnique(stats: map<string, Stat>, stopNow: bool, limits: Limits)
    requires "generations" in stats && stats["generations"].Num?
    requires "stable_count" in stats && stats["stable_count"].Num?
    ensures !Triggered(UniqueLimit, stopNow, WithoutLocal(Bumped(stats)), limits)
  {
    assert IsLocal("local_unique");
  }
}
