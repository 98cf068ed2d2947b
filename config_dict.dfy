/**
 * The nested configuration dictionary (esec/utils/configdict.py): reads
 * that default to None, overlaying, `+` and `+=`, dotted-name access and
 * validation against a syntax description.
 */
module ConfigDicts {
  import opened Wrappers
  import opened PyValues
  import opened Utils

  // ---------------------------------------------------------------------
  // Dotted names
  // ---------------------------------------------------------------------

  /** `s.split(sep)`: the parts between separators, at least one (possibly empty) part. */
  function SplitOn(s: string, sep: char): (r: seq<string>)
    ensures |r| >= 1
    ensures forall i :: 0 <= i < |r| ==> sep !in r[i]
  {
    if s == [] then [[]]
    else
      var rest := SplitOn(s[1..], sep);
      if s[0] == sep then [[]] + rest else [[s[0]] + rest[0]] + rest[1..]
  }

  /** `sep.join(parts)`. */
  function JoinWith(parts: seq<string>, sep: char): string
    requires |parts| >= 1
  {
    if |parts| == 1 then parts[0] else parts[0] + [sep] + JoinWith(parts[1..], sep)
  }

  /** Splitting then joining gives the name back. */
  lemma {:induction false} SplitJoin(s: string, sep: char)
    ensures JoinWith(SplitOn(s, sep), sep) == s
  {
    if s != [] {
      SplitJoin(s[1..], sep);
      var rest := SplitOn(s[1..], sep);
      if s[0] == sep {
        assert [s[0]] + s[1..] == s;
      } else if |rest| == 1 {
        assert [s[0]] + rest[0] == s;
      } else {
        assert ([[s[0]] + rest[0]] + rest[1..])[1..] == rest[1..];
        assert [s[0]] + (rest[0] + [sep] + JoinWith(rest[1..], sep)) == s;
      }
    }
  }

  datatype PathError = NotADict

  /**
   * `set_by_name` on the item map: walks the dotted parts, creating an empty
   * dictionary where a part reads as None, and stores the value under the
   * last part. A part holding something other than a dictionary cannot be
   * indexed (TypeError).
   */
  function SetPath(items: map<string, Value>, bits: seq<string>, value: Value): (r: Result<map<string, Value>, PathError>)
    requires |bits| >= 1
    ensures r.Ok? ==> r.value.Keys == items.Keys + {bits[0]}
    ensures r.Ok? ==> forall k :: k in items && k != bits[0] ==> r.value[k] == items[k]
    decreases |bits|
  {
    if |bits| == 1 then Ok(items[bits[0] := value])
    else
      var current := Lookup(items, bits[0]);
      var inner := if current == PyNone then map[] else if current.Dict? then current.entries else map[];
      if current != PyNone && !current.Dict? then Err(NotADict)
      else
        match SetPath(inner, bits[1..], value)
        case Err(e) => Err(e)
        case Ok(sub) => Ok(items[bits[0] := Dict(sub)])
  }

  /**
   * `get_by_name` on the item map: reads part by part, answering None as soon
   * as a part reads as None; indexing a value other than a dictionary is a
   * TypeError.
   */
  function GetPath(items: map<string, Value>, bits: seq<string>): Result<Value, PathError>
    requires |bits| >= 1
    decreases |bits|
  {
    var current := Lookup(items, bits[0]);
    if |bits| == 1 || current == PyNone then Ok(current)
    else if current.Dict? then GetPath(current.entries, bits[1..])
    else Err(NotADict)
  }

  /** Reading a name back after setting it gives the stored value. */
  lemma {:induction false} GetAfterSet(items: map<string, Value>, bits: seq<string>, value: Value)
    requires |bits| >= 1 && SetPath(items, bits, value).Ok?
    ensures GetPath(SetPath(items, bits, value).value, bits) == Ok(value)
    decreases |bits|
  {
    if |bits| > 1 {
      var current := Lookup(items, bits[0]);
      var inner := if current == PyNone then map[] else current.entries;
      GetAfterSet(inner, bits[1..], value);
    }
  }

  /** Every proper prefix of the set name now reads as a dictionary: intermediate dictionaries exist. */
  lemma {:induction false} SetCreatesPath(items: map<string, Value>, bits: seq<string>, value: Value, j: nat)
    requires |bits| >= 1 && SetPath(items, bits, value).Ok?
    requires 1 <= j < |bits|
    ensures GetPath(SetPath(items, bits, value).value, bits[..j]).Ok?
    ensures GetPath(SetPath(items, bits, value).value, bits[..j]).value.Dict?
    decreases |bits|
  {
    var current := Lookup(items, bits[0]);
    var inner := if current == PyNone then map[] else current.entries;
    if j > 1 {
      SetCreatesPath(inner, bits[1..], value, j - 1);
      assert bits[..j][1..] == bits[1..][..j - 1];
    }
  }

  /**
   * Setting fails exactly when some proper prefix of the name reads as a
   * value that is neither None nor a dictionary.
   */
  lemma {:induction false} SetFailsOnlyOnLeaf(items: map<string, Value>, bits: seq<string>, value: Value)
    requires |bits| >= 1
    ensures SetPath(items, bits, value).Err? <==>
      exists j :: 1 <= j < |bits| && GetPath(items, bits[..j]).Ok? &&
        GetPath(items, bits[..j]).value != PyNone && !GetPath(items, bits[..j]).value.Dict?
    decreases |bits|
  {
    if |bits| > 1 {
      var current := Lookup(items, bits[0]);
      assert GetPath(items, bits[..1]) == Ok(current);
      if current == PyNone {
        NothingBelowNone(items, bits, value);
      } else if current.Dict? {
        SetFailsOnlyOnLeaf(current.entries, bits[1..], value);
        forall j | 1 < j < |bits|
          ensures GetPath(items, bits[..j]) == GetPath(current.entries, bits[1..][..j - 1])
        {
          assert bits[..j][1..] == bits[1..][..j - 1];
        }
        if SetPath(items, bits, value).Err? {
          var j' :| 1 <= j' < |bits[1..]| && GetPath(current.entries, bits[1..][..j']).Ok? &&
            GetPath(current.entries, bits[1..][..j']).value != PyNone &&
            !GetPath(current.entries, bits[1..][..j']).value.Dict?;
          assert GetPath(items, bits[..j' + 1]) == GetPath(current.entries, bits[1..][..j']);
        } else {
          forall j | 1 <= j < |bits| && GetPath(items, bits[..j]).Ok? && GetPath(items, bits[..j]).value != PyNone
            ensures GetPath(items, bits[..j]).value.Dict?
          {
            if j > 1 {
              assert GetPath(items, bits[..j]) == GetPath(current.entries, bits[1..][..j - 1]);
            }
          }
        }
      }
    }
  }

  /** Below a part that reads as None every longer prefix reads as None, and setting succeeds. */
  lemma NothingBelowNone(items: map<string, Value>, bits: seq<string>, value: Value)
    requires |bits| > 1 && Lookup(items, bits[0]) == PyNone
    ensures SetPath(items, bits, value).Ok?
    ensures forall j :: 1 <= j < |bits| ==> GetPath(items, bits[..j]) == Ok(PyNone)
  {
    SetIntoEmpty(bits[1..], value);
    forall j | 1 <= j < |bits| ensures GetPath(items, bits[..j]) == Ok(PyNone) {
      assert bits[..j][0] == bits[0];
    }
  }

  /** Setting a name into an empty dictionary always succeeds. */
  lemma {:induction false} SetIntoEmpty(bits: seq<string>, value: Value)
    requires |bits| >= 1
    ensures SetPath(map[], bits, value).Ok?
    decreases |bits|
  {
    if |bits| > 1 {
      SetIntoEmpty(bits[1..], value);
    }
  }

  // ---------------------------------------------------------------------
  // Validation
  // ---------------------------------------------------------------------

  /** The Python types a syntax entry can name. */
  datatype PyType = NoneType | BoolType | IntType | StrType | ListType | DictType

  /** `isinstance(value, t)`; a bool is also an int. */
  predicate IsInstance(v: Value, t: PyType)
  {
    match t
    case NoneType => v.PyNone?
    case BoolType => v.Bool?
    case IntType => v.Int? || v.Bool?
    case StrType => v.Str?
    case ListType => v.List?
    case DictType => v.Dict?
  }

  /** `==` between values: True and False also equal 1 and 0. */
  predicate PyEquals(a: Value, b: Value)
  {
    match (a, b)
    case (Bool(x), Int(i)) => (if x then 1 else 0) == i
    case (Int(i), Bool(x)) => (if x then 1 else 0) == i
    case _ => a == b
  }

  /**
   * What a syntax entry asks of its value: anything ('*'), a nested syntax
   * (a dict), one of a tuple of keywords, one of a list of types (a None in
   * the list stands for NoneType), or a single type.
   */
  datatype Syntax =
    | AnyValue
    | Nested(fields: seq<(string, Syntax)>)
    | Keywords(words: seq<Value>)
    | OneOf(types: seq<PyType>)
    | TypeOf(t: PyType)

  datatype CfgError = MissingKey(key: string) | NotAKeyword(key: string) | WrongType(key: string)

  /**
   * Exceptions that abort validation: an empty syntax key (`key[-1]`), a
   * nested syntax against None (`isinstance` with a dict), or against a
   * value that is not a dictionary (no `validate`).
   */
  datatype Abort = EmptySyntaxKey | NestedAgainstNone | NestedAgainstLeaf

  /** The errors found and the keys not named by the syntax (with their scope). */
  datatype Report = Report(errors: seq<CfgError>, unrecognised: set<string>)

  predicate Optional(key: string)
  {
    key != [] && key[|key| - 1] == '?'
  }

  function Stripped(key: string): string
  {
    if Optional(key) then key[..|key| - 1] else key
  }

  /** The error a leaf syntax entry reports for a present value, if any. */
  function LeafCheck(value: Value, syn: Syntax, scopekey: string): (r: seq<CfgError>)
    requires !syn.Nested?
    ensures |r| <= 1
  {
    match syn
    case AnyValue => []
    case Keywords(words) =>
      if exists w :: w in words && PyEquals(value, w) then [] else [NotAKeyword(scopekey)]
    case OneOf(types) =>
      if exists t :: t in types && IsInstance(value, t) then [] else [WrongType(scopekey)]
    case TypeOf(t) =>
      if IsInstance(value, t) then [] else [WrongType(scopekey)]
  }

  /**
   * `validate` from syntax entry i on, with `allkeys` the keys not yet
   * claimed by an earlier entry. Each entry strips a trailing '?'; an
   * absent required key is an error and an absent optional one is skipped;
   * a present one is claimed and checked, nested syntaxes recursively with
   * the scope extended by the key and a dot. The keys left unclaimed at the
   * end are unrecognised.
   */
  function ValidateFrom(d: map<string, Value>, syn: Syntax, i: nat, allkeys: set<string>, scope: string): (r: Result<Report, Abort>)
    requires syn.Nested? && i <= |syn.fields|
    decreases syn, |syn.fields| - i
  {
    if i == |syn.fields| then Ok(Report([], set k | k in allkeys :: scope + k))
    else
      var (key, valuetype) := syn.fields[i];
      if key == [] then Err(EmptySyntaxKey)
      else
        var name := Stripped(key);
        var scopekey := scope + name;
        if name !in allkeys then
          match ValidateFrom(d, syn, i + 1, allkeys, scope)
          case Err(a) => Err(a)
          case Ok(rest) =>
            Ok(Report((if Optional(key) then [] else [MissingKey(scopekey)]) + rest.errors, rest.unrecognised))
        else
          var value := Lookup(d, name);
          var here: Result<Report, Abort> :=
            if !valuetype.Nested? then Ok(Report(LeafCheck(value, valuetype, scopekey), {}))
            else if value == PyNone then Err(NestedAgainstNone)
            else if !value.Dict? then Err(NestedAgainstLeaf)
            else ValidateFrom(value.entries, valuetype, 0, value.entries.Keys, scopekey + ".");
          match here
          case Err(a) => Err(a)
          case Ok(h) =>
            match ValidateFrom(d, syn, i + 1, allkeys - {name}, scope)
            case Err(a) => Err(a)
            case Ok(rest) => Ok(Report(h.errors + rest.errors, h.unrecognised + rest.unrecognised))
  }

  /** `validate(syntax, scope)` on a whole dictionary. */
  function Validate(d: map<string, Value>, syn: Syntax, scope: string): Result<Report, Abort>
    requires syn.Nested?
  {
    ValidateFrom(d, syn, 0, d.Keys, scope)
  }

  /** The stripped names of syntax entries i and on. */
  function NamesFrom(fields: seq<(string, Syntax)>, i: nat): set<string>
    requires i <= |fields|
    decreases |fields| - i
  {
    if i == |fields| then {} else {Stripped(fields[i].0)} + NamesFrom(fields, i + 1)
  }

  /** No nested syntax, no empty key, and no name named twice. */
  predicate FlatDistinct(fields: seq<(string, Syntax)>)
  {
    (forall i :: 0 <= i < |fields| ==> fields[i].0 != [] && !fields[i].1.Nested?) &&
    (forall i, j :: 0 <= i < j < |fields| ==> Stripped(fields[i].0) != Stripped(fields[j].0))
  }

  /** A flat syntax without empty keys never aborts validation. */
  lemma {:induction false} ValidateFlatOk(d: map<string, Value>, fields: seq<(string, Syntax)>, i: nat, allkeys: set<string>, scope: string)
    requires i <= |fields| && FlatDistinct(fields)
    ensures ValidateFrom(d, Nested(fields), i, allkeys, scope).Ok?
    decreases |fields| - i
  {
    if i < |fields| {
      var name := Stripped(fields[i].0);
      ValidateFlatOk(d, fields, i + 1, allkeys, scope);
      ValidateFlatOk(d, fields, i + 1, allkeys - {name}, scope);
    }
  }

  /**
   * For a flat syntax with distinct names, validation does not abort; a
   * required key that is absent is reported missing; an absent optional
   * key produces no error; and the unrecognised keys are exactly the
   * unclaimed keys that no entry names.
   */
  lemma ValidateFlat(d: map<string, Value>, fields: seq<(string, Syntax)>, i: nat, allkeys: set<string>, scope: string)
    requires i <= |fields| && FlatDistinct(fields)
    ensures ValidateFrom(d, Nested(fields), i, allkeys, scope).Ok?
    ensures var rep := ValidateFrom(d, Nested(fields), i, allkeys, scope).value;
      rep.unrecognised == (set k | k in allkeys && k !in NamesFrom(fields, i) :: scope + k) &&
      (forall j :: i <= j < |fields| && Stripped(fields[j].0) !in allkeys ==>
        (!Optional(fields[j].0) <==> MissingKey(scope + Stripped(fields[j].0)) in rep.errors))
  {
    FlatUnrecognised(d, fields, i, allkeys, scope);
    FlatMissing(d, fields, i, allkeys, scope);
  }

  /** The unrecognised keys of a flat validation are the unclaimed keys no entry names. */
  lemma {:induction false} FlatUnrecognised(d: map<string, Value>, fields: seq<(string, Syntax)>, i: nat, allkeys: set<string>, scope: string)
    requires i <= |fields| && FlatDistinct(fields)
    ensures ValidateFrom(d, Nested(fields), i, allkeys, scope).Ok?
    ensures ValidateFrom(d, Nested(fields), i, allkeys, scope).value.unrecognised
      == (set k | k in allkeys && k !in NamesFrom(fields, i) :: scope + k)
    decreases |fields| - i
  {
    ValidateFlatOk(d, fields, i, allkeys, scope);
    var syn := Nested(fields);
    if i < |fields| {
      var name := Stripped(fields[i].0);
      var rest := if name in allkeys then allkeys - {name} else allkeys;
      FlatUnrecognised(d, fields, i + 1, rest, scope);
      ValidateFlatOk(d, fields, i + 1, rest, scope);
      assert ValidateFrom(d, syn, i, allkeys, scope).value.unrecognised
        == ValidateFrom(d, syn, i + 1, rest, scope).value.unrecognised;
      assert NamesFrom(fields, i) == {name} + NamesFrom(fields, i + 1);
      assert forall k :: (k in allkeys && k !in NamesFrom(fields, i)) <==> (k in rest && k !in NamesFrom(fields, i + 1));
    }
  }

  /** In a flat validation, an absent key is reported missing exactly when it is not optional. */
  lemma {:induction false} FlatMissing(d: map<string, Value>, fields: seq<(string, Syntax)>, i: nat, allkeys: set<string>, scope: string)
    requires i <= |fields| && FlatDistinct(fields)
    ensures ValidateFrom(d, Nested(fields), i, allkeys, scope).Ok?
    ensures forall j :: i <= j < |fields| && Stripped(fields[j].0) !in allkeys ==>
      (!Optional(fields[j].0) <==> MissingKey(scope + Stripped(fields[j].0)) in ValidateFrom(d, Nested(fields), i, allkeys, scope).value.errors)
    decreases |fields| - i
  {
    ValidateFlatOk(d, fields, i, allkeys, scope);
    var syn := Nested(fields);
    if i < |fields| {
      var key := fields[i].0;
      var name := Stripped(key);
      var rest := if name in allkeys then allkeys - {name} else allkeys;
      FlatMissing(d, fields, i + 1, rest, scope);
      ValidateFlatOk(d, fields, i + 1, rest, scope);
      var r := ValidateFrom(d, syn, i + 1, rest, scope).value;
      var rep := ValidateFrom(d, syn, i, allkeys, scope).value;
      if name in allkeys {
        assert rep.errors == LeafCheck(Lookup(d, name), fields[i].1, scope + name) + r.errors;
      } else {
        assert rep.errors == (if Optional(key) then [] else [MissingKey(scope + name)]) + r.errors;
      }
      forall j | i <= j < |fields| && Stripped(fields[j].0) !in allkeys
        ensures !Optional(fields[j].0) <==> MissingKey(scope + Stripped(fields[j].0)) in rep.errors
      {
        if j == i {
          MissingNotReported(d, fields, i + 1, rest, scope, name);
        } else {
          PrefixCancel(scope, name, Stripped(fields[j].0));
        }
      }
    }
  }

  lemma PrefixCancel(scope: string, a: string, b: string)
    requires a != b
    ensures scope + a != scope + b
  {
    assert (scope + a)[|scope|..] == a && (scope + b)[|scope|..] == b;
  }

  /** Errors after entry i never report a name that none of them names as missing. */
  lemma {:induction false} MissingNotReported(d: map<string, Value>, fields: seq<(string, Syntax)>, i: nat, allkeys: set<string>, scope: string, name: string)
    requires i <= |fields| && FlatDistinct(fields)
    requires forall j :: i <= j < |fields| ==> Stripped(fields[j].0) != name
    ensures ValidateFrom(d, Nested(fields), i, allkeys, scope).Ok?
    ensures MissingKey(scope + name) !in ValidateFrom(d, Nested(fields), i, allkeys, scope).value.errors
    decreases |fields| - i
  {
    ValidateFlatOk(d, fields, i, allkeys, scope);
    if i < |fields| {
      var n := Stripped(fields[i].0);
      var rest := if n in allkeys then allkeys - {n} else allkeys;
      MissingNotReported(d, fields, i + 1, rest, scope, name);
      PrefixCancel(scope, n, name);
    }
  }

  /** A missing key is reported with its scope: 'y' is required and absent, 'x' is not named. */
  lemma ValidateExample()
    ensures Validate(map["a" := Int(123), "x" := Int(1)],
      Nested([("a", TypeOf(IntType)), ("y", TypeOf(IntType)), ("z?", TypeOf(IntType))]), "")
      == Ok(Report([MissingKey("y")], {"x"}))
  {
    var d := map["a" := Int(123), "x" := Int(1)];
    var syn := Nested([("a", TypeOf(IntType)), ("y", TypeOf(IntType)), ("z?", TypeOf(IntType))]);
    ValidateExampleRest();
    assert Stripped("a") == "a";
    assert d.Keys - {"a"} == {"x"};
    assert LeafCheck(Int(123), TypeOf(IntType), "a") == [];
    assert ValidateFrom(d, syn, 0, d.Keys, "").value.unrecognised == {"x"};
    assert ValidateFrom(d, syn, 0, d.Keys, "").value.errors == [MissingKey("y")];
  }

  /** The example after 'a' is claimed: 'y' is missing, 'z?' is optional, and 'x' is left over. */
  lemma ValidateExampleRest()
    ensures ValidateFrom(map["a" := Int(123), "x" := Int(1)],
      Nested([("a", TypeOf(IntType)), ("y", TypeOf(IntType)), ("z?", TypeOf(IntType))]), 1, {"x"}, "").Ok?
    ensures ValidateFrom(map["a" := Int(123), "x" := Int(1)],
      Nested([("a", TypeOf(IntType)), ("y", TypeOf(IntType)), ("z?", TypeOf(IntType))]), 1, {"x"}, "").value
      == Report([MissingKey("y")], {"x"})
  {
    var d := map["a" := Int(123), "x" := Int(1)];
    var syn := Nested([("a", TypeOf(IntType)), ("y", TypeOf(IntType)), ("z?", TypeOf(IntType))]);
    assert Stripped("y") == "y" && Stripped("z?") == "z";
    assert (set k | k in {"x"} :: "" + k) == {"x"} by {
      assert "" + "x" == "x";
    }
    assert ValidateFrom(d, syn, 3, {"x"}, "").Ok?;
    assert ValidateFrom(d, syn, 3, {"x"}, "").value.errors == [];
    assert ValidateFrom(d, syn, 3, {"x"}, "").value.unrecognised == {"x"};
    assert Optional("z?") && "z" !in {"x"};
    assert ValidateFrom(d, syn, 2, {"x"}, "").value.unrecognised == {"x"};
    assert ValidateFrom(d, syn, 2, {"x"}, "").value.errors == [];
    assert "y" !in {"x"} && !Optional("y") && "" + "y" == "y";
    assert ValidateFrom(d, syn, 1, {"x"}, "").value.unrecognised == {"x"};
    assert ValidateFrom(d, syn, 1, {"x"}, "").value.errors == [MissingKey("y")];
  }

  // ---------------------------------------------------------------------
  // The ConfigDict class
  // ---------------------------------------------------------------------

  /**
   * A configuration dictionary. Nested dictionaries are held as values: the
   * copies Python makes of nested ConfigDicts on construction and overlay
   * mean no two dictionaries share one, so value semantics match.
   */
  class ConfigDict {
    var items: map<string, Value>

    /** Built from a dictionary (nested dictionaries become ConfigDicts). */
    constructor(data: map<string, Value>)
      ensures items == data
    {
      items := data;
    }

    /** `cfg[key]`: a missing key reads as None. */
    function Get(key: string): (v: Value)
      reads this
      ensures key in items ==> v == items[key]
      ensures key !in items ==> v == PyNone
    {
      Lookup(items, key)
    }

    /**
     * `overlay(other)`: each of other's leaves replaces the value under its
     * key; where both hold a dictionary, the nested one is overlaid in turn.
     * Keys absent from `other` keep their value.
     */
    method Overlay(other: map<string, Value>)
      modifies this
      ensures items == DictMerge(old(items), Some(other))
    {
      var base := items;
      var merged := items;
      var keys := other.Keys;
      MergeNothing(base);
      while keys != {}
        invariant keys <= other.Keys
        invariant merged == DictMerge(base, Some(Without(other, keys)))
        decreases |keys|
      {
        var k :| k in keys;
        var value := other[k];
        WithoutStep(other, keys, k);
        OverlayStep(base, Without(other, keys), merged, k, value);
        merged := merged[k := Overlaid(Lookup(merged, k), value)];
        keys := keys - {k};
      }
      assert Without(other, {}) == other;
      items := merged;
    }

    /** `self + other`: a new dictionary holding the overlay; `self` is not modified. */
    method Add(other: map<string, Value>) returns (r: ConfigDict)
      ensures fresh(r)
      ensures r.items == DictMerge(items, Some(other))
    {
      r := new ConfigDict(items);
      r.Overlay(other);
    }

    /** `self += other`: overlays in place and returns self. */
    method AddInPlace(other: map<string, Value>) returns (r: ConfigDict)
      modifies this
      ensures r == this
      ensures items == DictMerge(old(items), Some(other))
    {
      Overlay(other);
      r := this;
    }

    /** `set_by_name(name, value)`; a TypeError leaves the dictionary unchanged. */
    method SetByName(name: string, value: Value) returns (r: Result<(), PathError>)
      modifies this
      ensures var s := SetPath(old(items), SplitOn(name, '.'), value);
        (s.Ok? ==> r.Ok? && items == s.value) && (s.Err? ==> r.Err? && items == old(items))
    {
      match SetPath(items, SplitOn(name, '.'), value)
      case Ok(m) =>
        items := m;
        r := Ok(());
      case Err(e) =>
        r := Err(e);
    }

    /** `get_by_name(name)`. */
    function GetByName(name: string): (r: Result<Value, PathError>)
      reads this
      ensures SplitOn(name, '.') == [name] ==> r == Ok(Get(name))
    {
      GetPath(items, SplitOn(name, '.'))
    }
  }

  /** The value an overlay stores: a dictionary over a dictionary is merged, anything else replaces. */
  function Overlaid(current: Value, value: Value): Value
  {
    if value.Dict? && current.Dict? then Dict(DictMerge(current.entries, Some(value.entries))) else value
  }

  /** One key of the overlay loop, stated on the merged maps. */
  lemma OverlayStep(base: map<string, Value>, done: map<string, Value>, items: map<string, Value>, k: string, value: Value)
    requires k !in done && items == DictMerge(base, Some(done))
    ensures items[k := Overlaid(Lookup(items, k), value)] == DictMerge(base, Some(done[k := value]))
  {
    var m1 := DictMerge(base, Some(done[k := value]));
    var m0 := DictMerge(base, Some(done));
    var cur := Lookup(m0, k);
    assert cur == Lookup(base, k);
    var expected := m0[k := Overlaid(cur, value)];
    assert m1.Keys == expected.Keys;
    forall key | key in m1 ensures m1[key] == expected[key] {
      if key != k {
        assert BothDicts(base, done[k := value], key) == BothDicts(base, done, key);
      }
    }
  }

  lemma MergeNothing(base: map<string, Value>)
    ensures DictMerge(base, Some(map[])) == base
  {
  }

  /** The entries of `other` whose keys are not in `keys`: those already overlaid. */
  function Without(other: map<string, Value>, keys: set<string>): map<string, Value>
  {
    map k | k in other && k !in keys :: other[k]
  }

  lemma WithoutStep(other: map<string, Value>, keys: set<string>, k: string)
    requires k in keys && k in other
    ensures Without(other, keys - {k}) == Without(other, keys)[k := other[k]]
  {
  }

  /** `a + b` equals `a` after `a += b`, and `a + b` leaves `a` as it was. */
  method AddMatchesAddInPlace(a: ConfigDict, b: map<string, Value>) returns (sum: ConfigDict)
    modifies a
    ensures sum.items == a.items
    ensures sum.items == DictMerge(old(a.items), Some(b))
  {
    sum := a.Add(b);
    assert a.items == old(a.items);
    var same := a.AddInPlace(b);
  }
}

/**
 * `cfg_strict_test` (esec/utils/__init__.py), kept beside the configuration
 * dictionary it reads.
 */
module StrictTest {
  import opened Wrappers
  import opened PyValues
  import opened ConfigDicts

  /** Why the test failed: a strict value differs, or a name cannot be read. */
  datatype StrictError = MustEqual(key: string) | Unreadable(key: string)

  /** The strict entry is met: its value is '*' or equals the configured one. */
  predicate Meets(items: map<string, Value>, key: string, value: Value)
  {
    var got := GetPath(items, SplitOn(key, '.'));
    got.Ok? && (value == Str("*") || PyEquals(got.value, value))
  }

  /**
   * The first strict entry, in iteration order, that is not met, reported
   * as a ValueError for a differing value or the TypeError of `get_by_name`.
   */
  function FirstViolation(items: map<string, Value>, strict: seq<(string, Value)>): (r: Option<StrictError>)
    ensures r.None? <==> forall i :: 0 <= i < |strict| ==> Meets(items, strict[i].0, strict[i].1)
  {
    if strict == [] then None
    else
      var (key, value) := strict[0];
      var got := GetPath(items, SplitOn(key, '.'));
      if got.Err? then Some(Unreadable(key))
      else if value != Str("*") && !PyEquals(got.value, value) then Some(MustEqual(key))
      else
        var rest := FirstViolation(items, strict[1..]);
        assert rest.None? <==> forall i :: 1 <= i < |strict| ==> Meets(items, strict[i].0, strict[i].1) by {
          forall i | 1 <= i < |strict| ensures strict[1..][i - 1] == strict[i] { }
        }
        rest
  }

  /** Entry i is not met and every entry before it is. */
  predicate FirstUnmet(items: map<string, Value>, strict: seq<(string, Value)>, i: nat)
    requires i < |strict|
  {
    !Meets(items, strict[i].0, strict[i].1) && forall j :: 0 <= j < i ==> Meets(items, strict[j].0, strict[j].1)
  }

  /** A reported violation names an entry that is not met, and every entry before it is met. */
  lemma {:induction false} FirstViolationIsFirst(items: map<string, Value>, strict: seq<(string, Value)>)
    requires FirstViolation(items, strict).Some?
    ensures exists i :: 0 <= i < |strict| && strict[i].0 == FirstViolation(items, strict).value.key && FirstUnmet(items, strict, i)
  {
    var (key, value) := strict[0];
    var got := GetPath(items, SplitOn(key, '.'));
    if !(got.Err? || (value != Str("*") && !PyEquals(got.value, value))) {
      FirstViolationIsFirst(items, strict[1..]);
      var i :| 0 <= i < |strict[1..]| && strict[1..][i].0 == FirstViolation(items, strict[1..]).value.key &&
        FirstUnmet(items, strict[1..], i);
      assert forall j :: 0 <= j < i + 1 ==> Meets(items, strict[j].0, strict[j].1) by {
        forall j | 0 <= j < i + 1 ensures Meets(items, strict[j].0, strict[j].1) {
          if j > 0 {
            assert strict[j] == strict[1..][j - 1];
          }
        }
      }
      assert strict[i + 1] == strict[1..][i];
    }
  }

  /** `cfg_strict_test(cfg, strict)`: checks each strict entry in turn and raises at the first violation. */
  method CfgStrictTest(cfg: ConfigDict, strict: seq<(string, Value)>) returns (r: Option<StrictError>)
    ensures r == FirstViolation(cfg.items, strict)
  {
    var i := 0;
    while i < |strict|
      invariant 0 <= i <= |strict|
      invariant FirstViolation(cfg.items, strict) == FirstViolation(cfg.items, strict[i..])
    {
      var (key, value) := strict[i];
      var got := cfg.GetByName(key);
      if got.Err? {
        return Some(Unreadable(key));
      }
      if value != Str("*") && !PyEquals(got.value, value) {
        return Some(MustEqual(key));
      }
      assert strict[i..][1..] == strict[i + 1..];
      i := i + 1;
    }
    return None;
  }
}
