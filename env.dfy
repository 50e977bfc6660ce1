/** The `.env` loader at the top of app.py: every `KEY=VALUE` line of the
    file is applied to the process environment with `setdefault`, so a
    variable already set, or set by an earlier line, is never replaced. A
    new variable the environment refuses (an empty name, or a NUL character
    in the name or the value) raises, which ends the loop and
    the import of app.py. */
module EnvLoader {
  import opened Wrappers
  import opened TextUtil

  type Env = map<string, string>

  /** The assignment one line of the file makes: none for a blank line, a
      `#` comment or a line without `=`; otherwise the stripped text before
      the first `=` and the stripped text after it. */
  function ParseLine(line: string): (r: Option<(string, string)>)
    ensures r.Some? <==> Strip(line) != [] && Strip(line)[0] != '#' && '=' in Strip(line)
  {
    var s := Strip(line);
    if s == [] || s[0] == '#' || '=' !in s then None
    else
      var (k, v) := Partition(s, '=');
      Some((Strip(k), Strip(v)))
  }

  /** An assignment splits the stripped line at its first `=`: the key is
      the stripped text before it, the value the stripped text after it. */
  lemma ParseLineSplitsAtFirstEquals(line: string)
    requires ParseLine(line).Some?
    ensures var s := Strip(line);
            var i := CharIndex(s, '=');
            && i < |s| && s[i] == '=' && '=' !in s[..i]
            && ParseLine(line).value == (Strip(s[..i]), Strip(s[i + 1..]))
  {
    var s := Strip(line);
    var i := CharIndex(s, '=');
    var (k, v) := Partition(s, '=');
    assert s[..i] == k && s[i + 1..] == v;
  }

  /** What `putenv` accepts: a non-empty name without `=` or NUL, and a
      value without NUL. Anything else raises. */
  predicate Settable(key: string, value: string) {
    key != [] && '=' !in key && '\0' !in key && '\0' !in value
  }

  /** The environment after some lines, and whether the last of them raised
      (after which no further line is read). */
  datatype Loaded = Loaded(vars: Env, raised: bool)

  /** `os.environ.setdefault(key, value)`: a present key is left alone; an
      absent one is set when the environment accepts it, and raises (with
      nothing changed) otherwise. */
  function SetDefaultOutcome(env: Env, key: string, value: string): Loaded {
    if key in env then Loaded(env, false)
    else if Settable(key, value) then Loaded(env[key := value], false)
    else Loaded(env, true)
  }

  /** One line applied to the environment. */
  function Apply(env: Env, line: string): Loaded {
    match ParseLine(line)
    case None => Loaded(env, false)
    case Some((k, v)) => SetDefaultOutcome(env, k, v)
  }

  /** One more line read from `st`: nothing once a line has raised. */
  function Step(st: Loaded, line: string): Loaded {
    if st.raised then st else Apply(st.vars, line)
  }

  /** The state after reading the lines from `st`, first to last. */
  function LoadFrom(st: Loaded, lines: seq<string>): Loaded {
    if lines == [] then st
    else Step(LoadFrom(st, lines[..|lines| - 1]), lines[|lines| - 1])
  }

  /** The state after reading a whole file into `env`. */
  function Load(env: Env, lines: seq<string>): Loaded {
    LoadFrom(Loaded(env, false), lines)
  }

  /** The keys the lines assign. */
  function AssignedKeys(lines: seq<string>): set<string> {
    if lines == [] then {}
    else
      var before := AssignedKeys(lines[..|lines| - 1]);
      match ParseLine(lines[|lines| - 1])
      case None => before
      case Some((k, _)) => before + {k}
  }

  // ---------------------------------------------------------------------------
  // Properties
  // ---------------------------------------------------------------------------

  /** `setdefault` raises exactly for an absent key the environment refuses,
      and otherwise leaves the environment with the key present. */
  lemma SetDefaultRaisesIff(env: Env, key: string, value: string)
    ensures SetDefaultOutcome(env, key, value).raised <==> key !in env && !Settable(key, value)
    ensures !SetDefaultOutcome(env, key, value).raised ==>
              key in SetDefaultOutcome(env, key, value).vars
              && SetDefaultOutcome(env, key, value).vars[key] == (if key in env then env[key] else value)
    ensures SetDefaultOutcome(env, key, value).raised ==> SetDefaultOutcome(env, key, value).vars == env
    ensures !SetDefaultOutcome(env, key, value).raised ==> SetDefaultOutcome(env, key, value).vars.Keys == env.Keys + {key}
  {
  }

  /** A variable set before the file is read keeps its value, whether or not
      a line raises. */
  lemma {:induction false} LoadKeepsExisting(st: Loaded, lines: seq<string>)
    ensures forall k :: k in st.vars ==> k in LoadFrom(st, lines).vars && LoadFrom(st, lines).vars[k] == st.vars[k]
    decreases |lines|
  {
    if lines != [] {
      var pre := lines[..|lines| - 1];
      LoadKeepsExisting(st, pre);
      StepKeepsExisting(LoadFrom(st, pre), lines[|lines| - 1]);
    }
  }

  /** One line leaves every variable already set as it was. */
  lemma StepKeepsExisting(st: Loaded, line: string)
    ensures forall k :: k in st.vars ==> k in Step(st, line).vars && Step(st, line).vars[k] == st.vars[k]
  {
    if !st.raised {
      match ParseLine(line)
      case None =>
      case Some((key, v)) =>
        assert Step(st, line) == SetDefaultOutcome(st.vars, key, v);
        SetDefaultKeepsExisting(st.vars, key, v);
    }
  }

  /** `setdefault` leaves every variable already set as it was. */
  lemma SetDefaultKeepsExisting(env: Env, key: string, value: string)
    ensures var out := SetDefaultOutcome(env, key, value).vars;
            forall k :: k in env ==> k in out && out[k] == env[k]
  {
  }

  /** A file read to its end adds exactly the keys it assigns; one that
      raised adds some of them and nothing else. */
  lemma {:induction false} LoadKeys(env: Env, lines: seq<string>)
    ensures Load(env, lines).vars.Keys <= env.Keys + AssignedKeys(lines)
    ensures !Load(env, lines).raised ==> Load(env, lines).vars.Keys == env.Keys + AssignedKeys(lines)
    decreases |lines|
  {
    if lines != [] {
      var pre := lines[..|lines| - 1];
      var last := lines[|lines| - 1];
      LoadKeys(env, pre);
      var st := Load(env, pre);
      assert Load(env, lines) == Step(st, last);
      StepKeys(st, last);
      assert AssignedKeys(lines) == AssignedKeys(pre) + LineKeys(last);
    }
  }

  /** The key a line assigns, if any. */
  function LineKeys(line: string): (ks: set<string>)
    ensures ks == {} <==> ParseLine(line).None?
  {
    match ParseLine(line)
    case None => {}
    case Some((k, _)) => {k}
  }

  /** One line adds at most the key it assigns, and exactly that key when it
      is read and does not raise. */
  lemma StepKeys(st: Loaded, line: string)
    ensures Step(st, line).vars.Keys <= st.vars.Keys + LineKeys(line)
    ensures !Step(st, line).raised ==> Step(st, line).vars.Keys == st.vars.Keys + LineKeys(line)
  {
    if !st.raised {
      match ParseLine(line)
      case None =>
      case Some((k, v)) => SetDefaultRaisesIff(st.vars, k, v);
    }
  }

  /** Once a line has raised, later lines change nothing. */
  lemma {:induction false} RaisedStops(st: Loaded, lines: seq<string>)
    requires st.raised
    ensures LoadFrom(st, lines) == st
    decreases |lines|
  {
    if lines != [] {
      RaisedStops(st, lines[..|lines| - 1]);
    }
  }

  /** Reading two pieces of a file is reading the first, then the second. */
  lemma {:induction false} LoadAppend(st: Loaded, a: seq<string>, b: seq<string>)
    ensures LoadFrom(st, a + b) == LoadFrom(LoadFrom(st, a), b)
    decreases |b|
  {
    if b == [] {
      assert a + b == a;
    } else {
      assert (a + b)[..|a + b| - 1] == a + b[..|b| - 1];
      assert (a + b)[|a + b| - 1] == b[|b| - 1];
      LoadAppend(st, a, b[..|b| - 1]);
    }
  }

  /** A line assigning a key the environment does not have yet, and refuses,
      raises: the file's load ends there, with the environment the earlier
      lines left. */
  lemma RefusedLineRaises(env: Env, lines: seq<string>, i: nat)
    requires i < |lines| && ParseLine(lines[i]).Some?
    requires !Load(env, lines[..i]).raised
    requires ParseLine(lines[i]).value.0 !in Load(env, lines[..i]).vars
    requires !Settable(ParseLine(lines[i]).value.0, ParseLine(lines[i]).value.1)
    ensures Load(env, lines) == Loaded(Load(env, lines[..i]).vars, true)
  {
    LoadSnoc(Loaded(env, false), lines, i);
    RaisedStops(Load(env, lines[..i + 1]), lines[i + 1..]);
    SplitAt(lines, i + 1);
    LoadAppend(Loaded(env, false), lines[..i + 1], lines[i + 1..]);
  }

  /** A line `=VALUE` has an empty name, which the environment never holds
      or accepts: a file holding one always raises. */
  lemma EmptyNameRaises(env: Env, lines: seq<string>, i: nat)
    requires "" !in env
    requires i < |lines| && ParseLine(lines[i]).Some? && ParseLine(lines[i]).value.0 == ""
    ensures Load(env, lines).raised
  {
    if Load(env, lines[..i]).raised {
      SplitAt(lines, i);
      LoadAppend(Loaded(env, false), lines[..i], lines[i..]);
      RaisedStops(Load(env, lines[..i]), lines[i..]);
    } else {
      EmptyNameNeverSet(Loaded(env, false), lines[..i]);
      RefusedLineRaises(env, lines, i);
    }
  }

  /** The empty name is never set. */
  lemma {:induction false} EmptyNameNeverSet(st: Loaded, lines: seq<string>)
    requires "" !in st.vars
    ensures "" !in LoadFrom(st, lines).vars
    decreases |lines|
  {
    if lines != [] {
      EmptyNameNeverSet(st, lines[..|lines| - 1]);
    }
  }

  /** For a key the environment does not have, the first line assigning it
      gives its value, unless a line up to it raised: later lines with the
      same key are ignored. */
  lemma EarliestLineWins(env: Env, lines: seq<string>, i: nat)
    requires i < |lines| && ParseLine(lines[i]).Some? && ParseLine(lines[i]).value.0 !in env
    requires forall j :: 0 <= j < i && ParseLine(lines[j]).Some? ==> ParseLine(lines[j]).value.0 != ParseLine(lines[i]).value.0
    ensures var (k, v) := ParseLine(lines[i]).value;
            !Load(env, lines[..i + 1]).raised ==> k in Load(env, lines).vars && Load(env, lines).vars[k] == v
  {
    var (k, v) := ParseLine(lines[i]).value;
    if !Load(env, lines[..i + 1]).raised {
      FirstAssignmentSets(env, lines, i);
      LoadKeepsExisting(Load(env, lines[..i + 1]), lines[i + 1..]);
      SplitAt(lines, i + 1);
      LoadAppend(Loaded(env, false), lines[..i + 1], lines[i + 1..]);
    }
  }

  lemma FirstAssignmentSets(env: Env, lines: seq<string>, i: nat)
    requires i < |lines| && ParseLine(lines[i]).Some? && ParseLine(lines[i]).value.0 !in env
    requires forall j :: 0 <= j < i && ParseLine(lines[j]).Some? ==> ParseLine(lines[j]).value.0 != ParseLine(lines[i]).value.0
    requires !Load(env, lines[..i + 1]).raised
    ensures var (k, v) := ParseLine(lines[i]).value;
            k in Load(env, lines[..i + 1]).vars && Load(env, lines[..i + 1]).vars[k] == v
  {
    var (k, v) := ParseLine(lines[i]).value;
    NotAssignedBefore(lines[..i], k, lines, i);
    LoadKeys(env, lines[..i]);
    LoadSnoc(Loaded(env, false), lines, i);
  }

  lemma SplitAt<T>(s: seq<T>, i: nat)
    requires i <= |s|
    ensures s == s[..i] + s[i..]
  {
  }

  lemma LoadSnoc(st: Loaded, lines: seq<string>, i: nat)
    requires i < |lines|
    ensures LoadFrom(st, lines[..i + 1]) == Step(LoadFrom(st, lines[..i]), lines[i])
  {
    assert lines[..i + 1][..i] == lines[..i];
  }

  lemma {:induction false} NotAssignedBefore(prefix: seq<string>, k: string, lines: seq<string>, i: nat)
    requires i <= |lines| && prefix == lines[..i]
    requires forall j :: 0 <= j < i && ParseLine(lines[j]).Some? ==> ParseLine(lines[j]).value.0 != k
    ensures k !in AssignedKeys(prefix)
    decreases i
  {
    if i > 0 {
      assert lines[..i][..i - 1] == lines[..i - 1];
      NotAssignedBefore(lines[..i - 1], k, lines, i - 1);
    }
  }

  /** A blank line, a comment or a line without `=` has no effect wherever
      it stands. */
  lemma IgnoredLineHasNoEffect(env: Env, a: seq<string>, line: string, b: seq<string>)
    requires ParseLine(line).None?
    ensures Load(env, a + [line] + b) == Load(env, a + b)
  {
    var st := Loaded(env, false);
    LoadAppend(st, a + [line], b);
    LoadAppend(st, a, b);
    assert (a + [line])[..|a + [line]| - 1] == a;
  }

  /** A line `KEY=VALUE` (with no `=` in the key and nothing to strip around
      the line) sets the stripped key to the stripped value. */
  lemma ParseAssignment(k: string, v: string)
    requires '=' !in k && k != [] && !IsSpace(k[0]) && k[0] != '#'
    requires v == [] || !IsSpace(v[|v| - 1])
    ensures ParseLine(k + "=" + v) == Some((Strip(k), Strip(v)))
  {
    var s := k + "=" + v;
    assert s[0] == k[0] && s[|s| - 1] == if v == [] then '=' else v[|v| - 1];
    StripOfTrimmed(s);
    assert s[|k|] == '=';
    PartitionAtFirst(k, '=', v);
    assert Partition(s, '=') == (k, v);
  }

  // ---------------------------------------------------------------------------
  // The process environment
  // ---------------------------------------------------------------------------

  /** `os.environ`. */
  class Environ {
    var vars: Env

    constructor (initial: Env)
      ensures vars == initial
    {
      vars := initial;
    }

    /** `raised` is the exception of `putenv`, raised before anything
        is stored. */
    method SetDefault(key: string, value: string) returns (raised: bool)
      modifies this
      ensures Loaded(vars, raised) == SetDefaultOutcome(old(vars), key, value)
    {
      raised := false;
      if key !in vars {
        if !Settable(key, value) {
          raised := true;
          return;
        }
        vars := vars[key := value];
      }
    }
  }

  /** The body of the loop for one line of the file. */
  method ApplyLine(environ: Environ, line: string) returns (raised: bool)
    modifies environ
    ensures Loaded(environ.vars, raised) == Apply(old(environ.vars), line)
  {
    var s := Strip(line);
    if s != [] && s[0] != '#' && '=' in s {
      var (k, v) := Partition(s, '=');
      assert ParseLine(line) == Some((Strip(k), Strip(v)));
      raised := environ.SetDefault(Strip(k), Strip(v));
    } else {
      assert ParseLine(line) == None;
      raised := false;
    }
  }

  /** Lines 11-17 of app.py: `file` is the text of `.env` split into lines,
      or `None` when the file does not exist; `raised` is the exception
      that escapes the loop. */
  method LoadDotEnv(environ: Environ, file: Option<seq<string>>) returns (raised: bool)
    modifies environ
    ensures file.None? ==> environ.vars == old(environ.vars) && !raised
    ensures file.Some? ==> Loaded(environ.vars, raised) == Load(old(environ.vars), file.value)
  {
    raised := false;
    if file.None? {
      return;
    }
    var lines := file.value;
    var start := Loaded(environ.vars, false);
    var i := 0;
    while i < |lines|
      invariant 0 <= i <= |lines|
      invariant Loaded(environ.vars, false) == LoadFrom(start, lines[..i])
    {
      LoadSnoc(start, lines, i);
      raised := ApplyLine(environ, lines[i]);
      if raised {
        RaisedStops(LoadFrom(start, lines[..i + 1]), lines[i + 1..]);
        SplitAt(lines, i + 1);
        LoadAppend(start, lines[..i + 1], lines[i + 1..]);
        return;
      }
      i := i + 1;
    }
    assert lines[..i] == lines;
  }
}
