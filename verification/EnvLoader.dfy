/** Loading a `.env` file into the process environment: the direct loader and the staged backend loader. */
module EnvLoader {
  import opened Collections
  import opened Text

  const SETTINGS_KEY := "DJANGO_SETTINGS_MODULE"
  const TEST_SETTINGS := "config.settings.test"

  datatype Reason = MissingSeparator | InvalidKey

  /** A rejected line; the value never appears in it. */
  datatype EnvError = EnvError(line: nat, reason: Reason)

  // ---------------------------------------------------------------- one line

  predicate StartsKey(c: char) {
    'A' <= c <= 'Z' || 'a' <= c <= 'z' || c == '_'
  }

  predicate ContinuesKey(c: char) {
    StartsKey(c) || '0' <= c <= '9'
  }

  /** `^[A-Za-z_][A-Za-z0-9_]*$`, matched in full. */
  predicate IsKey(key: string) {
    key != "" && StartsKey(key[0]) && forall i :: 0 <= i < |key| ==> ContinuesKey(key[i])
  }

  /** Strips, then removes one pair of equal quotes around the value. */
  function ParseValue(raw: string): string {
    var value := Strip(raw);
    if |value| >= 2 && value[0] == value[|value| - 1] && (value[0] == '\'' || value[0] == '"') then
      value[1..|value| - 1]
    else value
  }

  /** The position of the first `=`, or the length when there is none. */
  function Separator(s: string): (n: nat)
    ensures n <= |s|
    ensures n < |s| ==> s[n] == '='
    ensures forall i :: 0 <= i < n ==> s[i] != '='
  {
    if s == "" || s[0] == '=' then 0 else 1 + Separator(s[1..])
  }

  datatype Line = Ignored | Bad(reason: Reason) | Assigns(key: string, value: string)

  function ParseLine(raw: string): Line {
    var line := Strip(raw);
    if line == "" || line[0] == '#' then Ignored
    else
      var n := Separator(line);
      if n == |line| then Bad(MissingSeparator)
      else
        var key := Strip(line[..n]);
        if !IsKey(key) then Bad(InvalidKey) else Assigns(key, ParseValue(line[n + 1..]))
  }

  // ---------------------------------------------------------------- the direct loader

  /** A mutable mapping that remembers insertion order. */
  class Environ {
    var values: map<string, string>
    var order: seq<string>

    ghost predicate Valid()
      reads this
    {
      NoDuplicates(order) && ToSet(order) == values.Keys
    }

    constructor ()
      ensures Valid() && values == map[] && order == []
    {
      values := map[];
      order := [];
    }

    method Set(key: string, value: string)
      requires Valid() && key !in values
      modifies this
      ensures Valid() && values == old(values)[key := value] && order == old(order) + [key]
    {
      assert key !in ToSet(order);
      values := values[key := value];
      order := order + [key];
      ToSetConcat(old(order), [key]);
    }
  }

  /** Where loading stands after some lines: the mapping, the keys loaded, and the line that ended it. */
  datatype Progress = Progress(env: map<string, string>, keys: set<string>, error: Option<EnvError>)

  function Load(lines: seq<string>, env: map<string, string>): Progress {
    if lines == [] then Progress(env, {}, None)
    else LoadNext(Load(lines[..|lines| - 1], env), lines[|lines| - 1], |lines|)
  }

  function LoadNext(before: Progress, raw: string, number: nat): Progress {
    if before.error.Some? then before
    else
      match ParseLine(raw)
      case Ignored => before
      case Bad(reason) => before.(error := Some(EnvError(number, reason)))
      case Assigns(key, value) =>
        if value != "" && key !in before.env then
          Progress(before.env[key := value], before.keys + {key}, None)
        else before
  }

  lemma LoadStep(lines: seq<string>, env: map<string, string>, i: nat)
    requires i < |lines|
    ensures Load(lines[..0], env) == Progress(env, {}, None)
    ensures Load(lines[..i + 1], env) == LoadNext(Load(lines[..i], env), lines[i], i + 1)
  {
    assert lines[..i + 1][..i] == lines[..i];
  }

  lemma {:induction false} ErrorIsFinal(lines: seq<string>, env: map<string, string>, i: nat)
    requires i <= |lines| && Load(lines[..i], env).error.Some?
    ensures Load(lines, env) == Load(lines[..i], env)
    decreases |lines| - i
  {
    if i < |lines| {
      LoadStep(lines, env, i);
      ErrorIsFinal(lines, env, i + 1);
    } else {
      assert lines[..i] == lines;
    }
  }

  method LoadEnvLines(lines: seq<string>, target: Environ) returns (r: Result<set<string>, EnvError>)
    requires target.Valid()
    modifies target
    ensures target.Valid() && target.values == Load(lines, old(target.values)).env
    ensures r == var end := Load(lines, old(target.values));
                 if end.error.Some? then Failure(end.error.value) else Success(end.keys)
  {
    hide Load, ParseLine;
    ghost var env := target.values;
    var loaded: set<string> := {};
    NothingLoaded(lines, env);
    for i := 0 to |lines|
      invariant target.Valid()
      invariant Load(lines[..i], env) == Progress(target.values, loaded, None)
    {
      LoadStep(lines, env, i);
      match ParseLine(lines[i]) {
        case Ignored =>
          continue;
        case Bad(reason) =>
          ErrorIsFinal(lines, env, i + 1);
          return Failure(EnvError(i + 1, reason));
        case Assigns(key, value) =>
          if value != "" && key !in target.values {
            target.Set(key, value);
            loaded := loaded + {key};
          }
      }
    }
    assert lines[..|lines|] == lines;
    r := Success(loaded);
  }

  lemma NothingLoaded(lines: seq<string>, env: map<string, string>)
    ensures Load(lines[..0], env) == Progress(env, {}, None)
  {
  }

  // ---------------------------------------------------------------- the staged loader

  /** Python's `a or b` on optional strings: the first that is not empty, otherwise the second. */
  function Or(a: Option<string>, b: Option<string>): Option<string> {
    if a.Some? && a.value != "" then a else b
  }

  function Lookup(env: map<string, string>, key: string): Option<string> {
    if key in env then Some(env[key]) else None
  }

  predicate SelectsTest(settings: Option<string>) {
    settings == Some(TEST_SETTINGS)
  }

  /** What the staged loader leaves and returns. */
  function Stage(lines: seq<string>, settings: Option<string>, env: map<string, string>)
    : (map<string, string>, Result<set<string>, EnvError>)
  {
    var explicit := Or(settings, Lookup(env, SETTINGS_KEY));
    var file := Load(lines, map[]);
    if SelectsTest(explicit) then (env, Success({}))
    else if file.error.Some? then (env, Failure(file.error.value))
    else if SelectsTest(Or(explicit, Lookup(file.env, SETTINGS_KEY))) then
      if SETTINGS_KEY !in env && Lookup(file.env, SETTINGS_KEY) == Some(TEST_SETTINGS) then
        (env[SETTINGS_KEY := TEST_SETTINGS], Success({SETTINGS_KEY}))
      else (env, Success({}))
    else (file.env + env, Success(file.env.Keys - env.Keys))
  }

  method LoadBackendEnvLines(lines: seq<string>, settings: Option<string>, target: Environ)
    returns (r: Result<set<string>, EnvError>)
    requires target.Valid()
    modifies target
    ensures target.Valid()
    ensures (target.values, r) == Stage(lines, settings, old(target.values))
  {
    hide Load;
    ghost var env := target.values;
    var explicit := Or(settings, Lookup(target.values, SETTINGS_KEY));
    if SelectsTest(explicit) {
      return Success({});
    }
    var file := new Environ();
    var loading := LoadEnvLines(lines, file);
    if loading.Failure? {
      return Failure(loading.error);
    }
    var effective := Or(explicit, Lookup(file.values, SETTINGS_KEY));
    if SelectsTest(effective) {
      if SETTINGS_KEY !in target.values && Lookup(file.values, SETTINGS_KEY) == Some(TEST_SETTINGS) {
        target.Set(SETTINGS_KEY, TEST_SETTINGS);
        return Success({SETTINGS_KEY});
      }
      return Success({});
    }
    FileValuesAreNotEmpty(lines);
    var loaded := Merge(file, target);
    r := Success(loaded);
  }

  /** Copies what the target lacks, in file order. */
  method Merge(file: Environ, target: Environ) returns (loaded: set<string>)
    requires file.Valid() && target.Valid() && file != target
    requires forall key :: key in file.values ==> file.values[key] != ""
    modifies target
    ensures target.Valid() && target.values == file.values + old(target.values)
    ensures loaded == file.values.Keys - old(target.values.Keys)
  {
    var source, order := file.values, file.order;
    ghost var env := target.values;
    loaded := {};
    for i := 0 to |order|
      invariant target.Valid()
      invariant forall key :: key in loaded <==> key in order[..i] && key !in env
      invariant forall key :: key in target.values <==> key in env || key in order[..i]
      invariant forall key :: key in target.values ==>
                  if key in env then target.values[key] == env[key]
                  else key in source && target.values[key] == source[key]
    {
      var key := order[i];
      assert key in ToSet(order);
      assert order[..i + 1] == order[..i] + [key];
      assert forall j :: 0 <= j < i ==> order[..i][j] != key;
      assert key !in order[..i];
      if source[key] != "" && key !in target.values {
        target.Set(key, source[key]);
        loaded := loaded + {key};
      }
    }
    assert order[..|order|] == order;
    assert forall key :: key in source <==> key in order by {
      assert forall key :: key in source.Keys <==> key in ToSet(order);
    }
  }

  // ---------------------------------------------------------------- loading from a file

  /** The value of the first line that gives the key a nonempty one. */
  function FirstValue(lines: seq<string>, key: string): Option<string> {
    if lines == [] then None
    else
      var earlier := FirstValue(lines[..|lines| - 1], key);
      if earlier.Some? then earlier
      else
        match ParseLine(lines[|lines| - 1])
        case Assigns(k, value) => if k == key && value != "" then Some(value) else None
        case _ => None
  }

  predicate WellFormed(lines: seq<string>) {
    forall i :: 0 <= i < |lines| ==> !ParseLine(lines[i]).Bad?
  }

  /** Loading fails exactly at the first malformed line, whatever the mapping holds. */
  lemma {:induction false} ErrorIsFirstBadLine(lines: seq<string>, env: map<string, string>)
    ensures Load(lines, env).error.None? <==> WellFormed(lines)
    ensures Load(lines, env).error.Some? ==>
              var n := Load(lines, env).error.value.line;
              && 1 <= n <= |lines| && WellFormed(lines[..n - 1])
              && ParseLine(lines[n - 1]) == Bad(Load(lines, env).error.value.reason)
  {
    hide ParseLine;
    if lines != [] {
      var n := |lines| - 1;
      ErrorIsFirstBadLine(lines[..n], env);
      if Load(lines[..n], env).error.Some? {
        var k := Load(lines[..n], env).error.value.line;
        assert lines[..n][k - 1] == lines[k - 1];
        assert lines[..n][..k - 1] == lines[..k - 1];
      } else {
        assert forall i :: 0 <= i < n ==> lines[..n][i] == lines[i];
      }
    }
  }

  /** A well-formed file gives every key its first nonempty value and leaves existing keys alone. */
  lemma {:induction false} FirstNonemptyValueWins(lines: seq<string>, env: map<string, string>, key: string)
    requires WellFormed(lines)
    ensures Lookup(Load(lines, env).env, key) == if key in env then Some(env[key]) else FirstValue(lines, key)
    ensures key in Load(lines, env).keys <==> key !in env && FirstValue(lines, key).Some?
  {
    hide ParseLine;
    ErrorIsFirstBadLine(lines, env);
    if lines != [] {
      var n := |lines| - 1;
      assert forall i :: 0 <= i < n ==> lines[..n][i] == lines[i];
      FirstNonemptyValueWins(lines[..n], env, key);
      ErrorIsFirstBadLine(lines[..n], env);
      if ParseLine(lines[n]).Assigns? {
        FirstNonemptyValueWins(lines[..n], env, ParseLine(lines[n]).key);
      }
    }
  }

  lemma {:induction false} FileValuesAreNotEmpty(lines: seq<string>)
    ensures forall key :: key in Load(lines, map[]).env ==> Load(lines, map[]).env[key] != ""
  {
    hide ParseLine;
    if lines != [] {
      FileValuesAreNotEmpty(lines[..|lines| - 1]);
    }
  }

  /** On well-formed lines loading directly is merging the file's own values under the existing ones. */
  lemma DirectIsMerge(lines: seq<string>, env: map<string, string>)
    requires WellFormed(lines)
    ensures Load(lines, env).env == Load(lines, map[]).env + env
    ensures Load(lines, env).keys == Load(lines, map[]).env.Keys - env.Keys
  {
    var direct, file := Load(lines, env), Load(lines, map[]);
    forall key
      ensures Lookup(direct.env, key) == Lookup(file.env + env, key)
      ensures key in direct.keys <==> key in file.env.Keys - env.Keys
    {
      FirstNonemptyValueWins(lines, env, key);
      FirstNonemptyValueWins(lines, map[], key);
    }
    hide Load;
    SameLookups(direct.env, file.env + env);
  }

  lemma SameLookups(a: map<string, string>, b: map<string, string>)
    requires forall key :: Lookup(a, key) == Lookup(b, key)
    ensures a == b
  {
    forall key
      ensures key in a <==> key in b
      ensures key in a ==> a[key] == b[key]
    {
      assert Lookup(a, key) == Lookup(b, key);
    }
  }

  // ---------------------------------------------------------------- staged against direct

  /** The settings that end up deciding, whether or not the file is read. */
  function Effective(lines: seq<string>, settings: Option<string>, env: map<string, string>): Option<string> {
    Or(Or(settings, Lookup(env, SETTINGS_KEY)), FirstValue(lines, SETTINGS_KEY))
  }

  /** Without test settings, staging a well-formed file ends where the direct loader does. */
  lemma StagedRefinesDirect(lines: seq<string>, settings: Option<string>, env: map<string, string>)
    requires WellFormed(lines) && !SelectsTest(Effective(lines, settings, env))
    ensures Stage(lines, settings, env) == (Load(lines, env).env, Success(Load(lines, env).keys))
  {
    DirectIsMerge(lines, env);
    ErrorIsFirstBadLine(lines, map[]);
    FirstNonemptyValueWins(lines, map[], SETTINGS_KEY);
    hide Load, FirstValue;
  }

  /** A malformed line stops both loaders with the same error, but only the staged one leaves the target alone. */
  lemma MalformedFileIsAtomicWhenStaged(lines: seq<string>, settings: Option<string>, env: map<string, string>)
    requires !WellFormed(lines) && !SelectsTest(Or(settings, Lookup(env, SETTINGS_KEY)))
    ensures Load(lines, env).error.Some?
    ensures Stage(lines, settings, env) == (env, Failure(Load(lines, env).error.value))
  {
    ErrorIsFirstBadLine(lines, env);
    ErrorIgnoresTheMapping(lines, env, map[]);
    hide Load, WellFormed;
  }

  /** Where loading fails does not depend on the mapping. */
  lemma {:induction false} ErrorIgnoresTheMapping(lines: seq<string>, env: map<string, string>,
                                                  other: map<string, string>)
    ensures Load(lines, env).error == Load(lines, other).error
  {
    hide ParseLine;
    if lines != [] {
      ErrorIgnoresTheMapping(lines[..|lines| - 1], env, other);
    }
  }

  /**
   * The direct loader has by then written exactly what the lines before the malformed one load, so it leaves the
   * target alone exactly when every key those lines give a value is already there.
   */
  lemma DirectLoaderKeepsThePrefix(lines: seq<string>, env: map<string, string>)
    requires !WellFormed(lines)
    ensures Load(lines, env).error.Some?
    ensures var n := Load(lines, env).error.value.line;
            && 1 <= n <= |lines|
            && Load(lines, env).env == Load(lines[..n - 1], map[]).env + env
            && (Load(lines, env).env == env <==>
                forall key :: FirstValue(lines[..n - 1], key).Some? ==> key in env)
  {
    hide ParseLine, Load, WellFormed, FirstValue;
    ErrorIsFirstBadLine(lines, env);
    var n := Load(lines, env).error.value.line;
    var prefix := lines[..n - 1];
    ErrorIsFirstBadLine(prefix, env);
    LoadStep(lines, env, n - 1);
    ErrorIsFinal(lines, env, n);
    BadLineChangesNothing(Load(prefix, env), lines[n - 1], n);
    DirectIsMerge(prefix, env);
    UnchangedIffAllPresent(prefix, env);
  }

  lemma BadLineChangesNothing(before: Progress, raw: string, number: nat)
    requires ParseLine(raw).Bad?
    ensures LoadNext(before, raw, number).env == before.env
  {
    hide ParseLine;
  }

  lemma UnchangedIffAllPresent(lines: seq<string>, env: map<string, string>)
    requires WellFormed(lines)
    ensures Load(lines, map[]).env + env == env <==> forall key :: FirstValue(lines, key).Some? ==> key in env
  {
    hide Load, WellFormed, FirstValue;
    var file := Load(lines, map[]).env;
    forall key
      ensures key in file <==> FirstValue(lines, key).Some?
    {
      FirstNonemptyValueWins(lines, map[], key);
    }
    if file + env == env {
      assert forall key :: key in file ==> key in file + env;
    }
  }

  /** So a file whose second line is malformed leaves a key behind when loaded directly. */
  lemma DirectLoaderMayWriteBeforeFailing()
    ensures Load(["A=1", "B"], map[])
         == Progress(map["A" := "1"], {"A"}, Some(EnvError(2, MissingSeparator)))
  {
    var lines := ["A=1", "B"];
    AssignmentIsParsed();
    BareWordIsMalformed();
    hide ParseLine;
    LoadStep(lines, map[], 0);
    LoadStep(lines, map[], 1);
    assert lines[..2] == lines;
  }

  lemma AssignmentIsParsed()
    ensures ParseLine("A=1") == Assigns("A", "1")
  {
    var line := "A=1";
    assert Strip(line) == line && Strip("1") == "1";
    assert line[1..] == "=1" && Separator(line[1..]) == 0;
    assert line[..1] == "A" && Strip("A") == "A" && line[2..] == "1";
  }

  lemma BareWordIsMalformed()
    ensures ParseLine("B") == Bad(MissingSeparator)
  {
    assert Strip("B") == "B";
    assert "B"[1..] == "";
  }

  /** Loading the same well-formed file again changes nothing and loads nothing. */
  lemma SecondCallLoadsNothing(lines: seq<string>, env: map<string, string>)
    requires WellFormed(lines)
    ensures var once := Load(lines, env).env;
            Load(lines, once).env == once && Load(lines, once).keys == {}
  {
    DirectIsMerge(lines, env);
    DirectIsMerge(lines, Load(lines, env).env);
    hide Load;
  }

  /** Under test settings nothing but the settings key is ever set, and only when the file itself selects the tests. */
  lemma TestSettingsLoadNothingElse(lines: seq<string>, settings: Option<string>, env: map<string, string>)
    requires WellFormed(lines) || SelectsTest(Or(settings, Lookup(env, SETTINGS_KEY)))
    requires SelectsTest(Effective(lines, settings, env))
    ensures var (after, r) := Stage(lines, settings, env);
            if SETTINGS_KEY !in env && !SelectsTest(settings) then
              after == env[SETTINGS_KEY := TEST_SETTINGS] && r == Success({SETTINGS_KEY})
            else after == env && r == Success({})
  {
    if WellFormed(lines) {
      ErrorIsFirstBadLine(lines, map[]);
      FirstNonemptyValueWins(lines, map[], SETTINGS_KEY);
    }
    hide Load, FirstValue, WellFormed;
  }
}
