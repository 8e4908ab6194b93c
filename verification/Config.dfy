/**
 Configuration loading and reloading (config/config.go).

 Files are what a read and JSON decoding made of them (`FileState`); the duration syntax and the table
 of default timeouts are parameters (`Rules`), of which only that every default parses is assumed.
 */
module Config {
  import opened Wrappers

  datatype Settings = Settings(logLevel: string, timeouts: map<string, string>, disabled: seq<string>)

  /** A decoded file; a missing field is the zero value, a missing or null collection is None. */
  datatype Document = Document(logLevel: string, timeouts: Option<map<string, string>>, disabled: Option<seq<string>>)

  datatype FileState = Missing | Unreadable | NotJson | Decoded(doc: Document)

  datatype Failure = NotExist | ReadError | DecodeError | InvalidLevel | InvalidTimeout

  /** time.ParseDuration in nanoseconds, and the default timeouts. */
  datatype Rules = Rules(parseDuration: string -> Option<int>, defaultTimeouts: map<string, string>) {
    ghost predicate Valid() {
      forall name :: name in defaultTimeouts ==> parseDuration(defaultTimeouts[name]).Some?
    }
  }

  const THIRTY_SECONDS := 30_000_000_000

  function Default(rules: Rules): Settings {
    Settings("info", rules.defaultTimeouts, [])
  }

  predicate LevelOk(level: string) {
    level in ["debug", "info", "warn", "error"]
  }

  predicate TimeoutsOk(rules: Rules, timeouts: map<string, string>) {
    forall name :: name in timeouts ==> rules.parseDuration(timeouts[name]).Some?
  }

  /** What validate accepts. */
  predicate Accepted(rules: Rules, c: Settings) {
    LevelOk(c.logLevel) && TimeoutsOk(rules, c.timeouts)
  }

  function Normalize(doc: Document): Settings {
    Settings(
      if doc.logLevel == "" then "info" else doc.logLevel,
      match doc.timeouts case Some(t) => t case None => map[],
      match doc.disabled case Some(d) => d case None => [])
  }

  /** A log level that a document may give, or leave out. */
  ghost predicate LevelGiven(doc: Document) {
    || doc.logLevel == "" || doc.logLevel == "debug" || doc.logLevel == "info" || doc.logLevel == "warn"
    || doc.logLevel == "error"
  }

  /** Every timeout that a document gives can be parsed. */
  ghost predicate TimeoutsGiven(rules: Rules, doc: Document) {
    doc.timeouts.Some? ==> forall name :: name in doc.timeouts.value ==>
                             rules.parseDuration(doc.timeouts.value[name]).Some?
  }

  function LoadFile(rules: Rules, file: FileState): (r: Result<Settings, Failure>)
    ensures r.Ok? ==> Accepted(rules, r.value)
    ensures r.Ok? <==> file.Decoded? && LevelGiven(file.doc) && TimeoutsGiven(rules, file.doc)
    ensures r == Err(NotExist) <==> file.Missing?
    ensures r == Err(ReadError) <==> file.Unreadable?
    ensures r == Err(DecodeError) <==> file.NotJson?
    ensures r == Err(InvalidLevel) <==> file.Decoded? && !LevelGiven(file.doc)
  {
    match file
    case Missing => Err(NotExist)
    case Unreadable => Err(ReadError)
    case NotJson => Err(DecodeError)
    case Decoded(doc) =>
      var cfg := Normalize(doc);
      if !LevelOk(cfg.logLevel) then Err(InvalidLevel)
      else if !TimeoutsOk(rules, cfg.timeouts) then Err(InvalidTimeout)
      else Ok(cfg)
  }

  // ---------------------------------------------------------------- the package variables

  /** The stored configuration, None before the first store, and the remembered path. */
  datatype State = State(current: Option<Settings>, filePath: string)

  const INITIAL := State(None, "")

  datatype Operation =
    | Load(path: string, files: string -> FileState)
    | Reload(files: string -> FileState)

  /** The state after one operation, and its error. */
  function Apply(rules: Rules, s: State, op: Operation): (State, Option<Failure>) {
    match op
    case Load(path, files) =>
      if path == "" then (s.(current := Some(Default(rules))), None)
      else
        (match LoadFile(rules, files(path))
         case Ok(cfg) => (State(Some(cfg), path), None)
         case Err(NotExist) => (State(Some(Default(rules)), path), None)
         case Err(e) => (s.(filePath := path), Some(e)))
    case Reload(files) =>
      if s.filePath == "" then (s, None)
      else
        match LoadFile(rules, files(s.filePath))
        case Ok(cfg) => (s.(current := Some(cfg)), None)
        case Err(e) => (s, Some(e))
  }

  /** What readers see. */
  function Get(rules: Rules, s: State): Settings {
    match s.current
    case Some(c) => c
    case None => Default(rules)
  }

  function ToolTimeout(rules: Rules, s: State, name: string, fallback: int): int {
    var own := Duration(rules, Get(rules, s).timeouts, name);
    var standard := Duration(rules, rules.defaultTimeouts, name);
    if own.Some? then own.value
    else if fallback > 0 then fallback
    else if standard.Some? then standard.value
    else THIRTY_SECONDS
  }

  /** The entry for `name`, if there is one and it parses. */
  function Duration(rules: Rules, timeouts: map<string, string>, name: string): Option<int> {
    if name in timeouts then rules.parseDuration(timeouts[name]) else None
  }

  predicate IsDisabled(rules: Rules, s: State, name: string) {
    name in Get(rules, s).disabled
  }

  /** The package variables `current` and `filePath`, and the functions that write them. */
  class Store {
    var current: Option<Settings>
    var filePath: string

    ghost function Value(): State
      reads this
    {
      State(current, filePath)
    }

    constructor ()
      ensures Value() == INITIAL
    {
      current, filePath := None, "";
    }

    method LoadAtPath(rules: Rules, path: string, files: string -> FileState) returns (failure: Option<Failure>)
      modifies this
      ensures (Value(), failure) == Apply(rules, old(Value()), Load(path, files))
    {
      if path == "" {
        current := Some(Default(rules));
        return None;
      }
      filePath := path;
      var cfg := LoadFile(rules, files(path));
      if cfg.Err? {
        if cfg.error == NotExist {
          current := Some(Default(rules));
          return None;
        }
        return Some(cfg.error);
      }
      current := Some(cfg.value);
      failure := None;
    }

    method ReloadFile(rules: Rules, files: string -> FileState) returns (failure: Option<Failure>)
      modifies this
      ensures (Value(), failure) == Apply(rules, old(Value()), Reload(files))
    {
      if filePath == "" {
        return None;
      }
      var cfg := LoadFile(rules, files(filePath));
      if cfg.Err? {
        return Some(cfg.error);
      }
      current := Some(cfg.value);
      failure := None;
    }
  }

  // ---------------------------------------------------------------- runs

  function After(rules: Rules, ops: seq<Operation>): State {
    if ops == [] then INITIAL else Apply(rules, After(rules, ops[..|ops| - 1]), ops[|ops| - 1]).0
  }

  /** After any operations on any file contents, what readers see is acceptable. */
  lemma {:induction false} VisibleIsAccepted(rules: Rules, ops: seq<Operation>)
    requires rules.Valid()
    ensures Accepted(rules, Get(rules, After(rules, ops)))
  {
    if ops != [] {
      VisibleIsAccepted(rules, ops[..|ops| - 1]);
    }
  }

  /** What a host without a configuration shows: nothing is disabled, and the default timeouts apply. */
  ghost predicate ShowsDefaults(rules: Rules, s: State) {
    && Get(rules, s).logLevel == "info"
    && (forall name :: !IsDisabled(rules, s, name))
    && forall name, fallback: int ::
         ToolTimeout(rules, s, name, fallback)
         == if name in rules.defaultTimeouts && rules.parseDuration(rules.defaultTimeouts[name]).Some?
            then rules.parseDuration(rules.defaultTimeouts[name]).value
            else if fallback > 0 then fallback
            else 30_000_000_000
  }

  /** Before any operation, and after a load without a path or of a missing file, the defaults are visible. */
  lemma DefaultsWithoutFile(rules: Rules, ops: seq<Operation>)
    requires ops == [] || (var last := ops[|ops| - 1];
                           last.Load? && (last.path == "" || last.files(last.path).Missing?))
    ensures ShowsDefaults(rules, After(rules, ops))
  {
    var s := After(rules, ops);
    assert Get(rules, s).timeouts == rules.defaultTimeouts;
  }

  /** An operation fails exactly if it has a file to read and cannot use it; a load may miss its file. */
  lemma FailsIff(rules: Rules, s: State, op: Operation)
    ensures var failure := Apply(rules, s, op).1;
            var path := if op.Load? then op.path else s.filePath;
            if path == "" || (op.Load? && op.files(path).Missing?) then failure == None
            else failure == match LoadFile(rules, op.files(path)) case Ok(_) => None case Err(e) => Some(e)
  {
  }

  /** A failed operation changes nothing readers see; one that succeeds shows the file, or the defaults. */
  lemma OperationEffect(rules: Rules, s: State, op: Operation)
    ensures var (t, failure) := Apply(rules, s, op);
            var path := if op.Load? then op.path else s.filePath;
            && (failure.Some? ==> t.current == s.current && Get(rules, t) == Get(rules, s))
            && (failure.None? && path != "" && op.files(path).Decoded? ==>
                  LoadFile(rules, op.files(path)) == Ok(Get(rules, t)))
            && (failure.None? && path != "" && !op.files(path).Decoded? ==>
                  op.Load? && op.files(path).Missing? && ShowsDefaults(rules, t))
            && (path == "" && op.Load? ==> failure.None? && ShowsDefaults(rules, t))
            && (path == "" && op.Reload? ==> failure.None? && t == s)
  {
    var (t, failure) := Apply(rules, s, op);
    if t.current == Some(Default(rules)) {
      assert Get(rules, t).timeouts == rules.defaultTimeouts;
    }
  }

  /**
   What a decoded file says governs every reader after the operation that read it: its log level or "info"
   applies, exactly the names it lists are disabled, and its timeouts are laid over the default table, which
   a positive fallback replaces.
   */
  lemma DocumentGoverns(rules: Rules, s: State, op: Operation, doc: Document, name: string, fallback: int)
    requires rules.Valid()
    requires var path := if op.Load? then op.path else s.filePath; path != "" && op.files(path) == Decoded(doc)
    requires Apply(rules, s, op).1.None?
    ensures var t := Apply(rules, s, op).0;
            var overlay := (if fallback > 0 then map[] else rules.defaultTimeouts)
                           + if doc.timeouts.Some? then doc.timeouts.value else map[];
            && Get(rules, t).logLevel == (if doc.logLevel == "" then "info" else doc.logLevel)
            && (IsDisabled(rules, t, name) <==> doc.disabled.Some? && name in doc.disabled.value)
            && (if name in overlay
                then Some(ToolTimeout(rules, t, name, fallback)) == rules.parseDuration(overlay[name])
                else ToolTimeout(rules, t, name, fallback) == if fallback > 0 then fallback else 30_000_000_000)
  {
  }

  /** The path that a reload reads: that of the last load with a path, even if that load failed. */
  function LastPath(ops: seq<Operation>): string {
    if ops == [] then ""
    else
      var last := ops[|ops| - 1];
      if last.Load? && last.path != "" then last.path else LastPath(ops[..|ops| - 1])
  }

  lemma {:induction false} ReloadReadsLastPath(rules: Rules, ops: seq<Operation>)
    ensures After(rules, ops).filePath == LastPath(ops)
  {
    if ops != [] {
      ReloadReadsLastPath(rules, ops[..|ops| - 1]);
    }
  }

  /**
   In every reachable state a timeout without a fallback is that of the overrides laid over the default
   table, else thirty seconds: an entry that exists always parses.  A positive fallback replaces the
   default table, but not the overrides.
   */
  lemma {:induction false} TimeoutIsOverlay(rules: Rules, ops: seq<Operation>, name: string, fallback: int)
    requires rules.Valid()
    ensures var s := After(rules, ops);
            var overlay := (if fallback > 0 then map[] else rules.defaultTimeouts) + Get(rules, s).timeouts;
            if name in overlay then Some(ToolTimeout(rules, s, name, fallback)) == rules.parseDuration(overlay[name])
            else ToolTimeout(rules, s, name, fallback) == if fallback > 0 then fallback else 30_000_000_000
  {
    VisibleIsAccepted(rules, ops);
  }

  /** A failed reload leaves no trace: what follows behaves as if it had never been attempted. */
  lemma {:induction false} FailedReloadLeavesNoTrace(rules: Rules, a: seq<Operation>, op: Operation, b: seq<Operation>)
    requires op.Reload? && Apply(rules, After(rules, a), op).1.Some?
    ensures After(rules, a + [op] + b) == After(rules, a + b)
  {
    if b == [] {
      assert a + [op] + b == a + [op] && a + b == a;
      assert (a + [op])[..|a|] == a;
    } else {
      var n := |b| - 1;
      FailedReloadLeavesNoTrace(rules, a, op, b[..n]);
      assert (a + [op] + b)[..|a + [op] + b| - 1] == a + [op] + b[..n];
      assert (a + b)[..|a + b| - 1] == a + b[..n];
    }
  }

  /** The state after further operations. */
  function Resume(rules: Rules, s: State, ops: seq<Operation>): State
    decreases |ops|
  {
    if ops == [] then s else Resume(rules, Apply(rules, s, ops[0]).0, ops[1..])
  }

  lemma {:induction false} AfterResume(rules: Rules, a: seq<Operation>, b: seq<Operation>)
    ensures After(rules, a + b) == Resume(rules, After(rules, a), b)
    decreases |b|
  {
    if b == [] {
      assert a + b == a;
    } else {
      assert a + b == a + [b[0]] + b[1..];
      assert (a + [b[0]])[..|a|] == a;
      AfterResume(rules, a + [b[0]], b[1..]);
    }
  }

  /** Up to the next load with a path, every reload finds the same at both paths. */
  ghost predicate SameReads(ops: seq<Operation>, p: string, q: string) {
    ops == []
    || (if ops[0].Load? then ops[0].path != "" || SameReads(ops[1..], p, q)
        else p != "" && q != "" && ops[0].files(p) == ops[0].files(q) && SameReads(ops[1..], p, q))
  }

  lemma {:induction false} PathMatters(rules: Rules, s: State, t: State, ops: seq<Operation>)
    requires s.current == t.current && SameReads(ops, s.filePath, t.filePath)
    ensures Get(rules, Resume(rules, s, ops)) == Get(rules, Resume(rules, t, ops))
    decreases |ops|
  {
    if ops != [] {
      var s', t' := Apply(rules, s, ops[0]).0, Apply(rules, t, ops[0]).0;
      if s' != t' {
        PathMatters(rules, s', t', ops[1..]);
      }
    }
  }

  /**
   A failed load changes nothing that follows except the path that reloads read: the run goes on as if only
   that path had been set, and readers see what they would see without the load, as long as reloads find
   the same at the old and the new path until the next load with a path.
   */
  lemma FailedLoadOnlyMovesPath(rules: Rules, a: seq<Operation>, op: Operation, b: seq<Operation>)
    requires op.Load? && Apply(rules, After(rules, a), op).1.Some?
    ensures After(rules, a + [op] + b) == Resume(rules, After(rules, a).(filePath := op.path), b)
    ensures SameReads(b, After(rules, a).filePath, op.path)
            ==> Get(rules, After(rules, a + [op] + b)) == Get(rules, After(rules, a + b))
  {
    assert (a + [op])[..|a|] == a;
    AfterResume(rules, a + [op], b);
    AfterResume(rules, a, b);
    if SameReads(b, After(rules, a).filePath, op.path) {
      PathMatters(rules, After(rules, a), After(rules, a).(filePath := op.path), b);
    }
  }
}
