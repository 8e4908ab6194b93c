/**
 The "disabled" policy under concurrent reloads (tools/handler.go, tools/util.go:89-102,
 tools/system.go:118-178, tools/storage.go:592-727, tools/resources.go:223-271, main.go:66-77).

 Tool calls, resource reads and aggregates run while the SIGHUP goroutine replaces the
 configuration.  Every read of the configuration, every collector run and every reload is one step,
 interleaved arbitrarily.  The machine numbers the configurations that were ever visible.
 */
module Policy {
  import opened Wrappers
  import opened Config

  /**
   A call gates its own name first; if that collector runs, it gates `parts` one by one: the nine parts
   of the system snapshot, the five of the health check, none for any other tool.  Tool calls read their
   timeout before, resource reads use a fixed one.
   */
  datatype Call = Call(name: string, parts: seq<string>, readsTimeout: bool)

  /** The name that gate `k` of a call asks for. */
  function GateName(c: Call, k: nat): string
    requires k <= |c.parts|
  {
    if k == 0 then c.name else c.parts[k - 1]
  }

  /** What a gate did, and the configuration it looked at. */
  datatype Event = Ran(version: nat) | Refused(version: nat)

  datatype Pc = AtTimeout | AtGate | Collecting(version: nat) | Done

  /** A call in progress: event `k` of the log belongs to gate `k`. */
  datatype Thread = Thread(call: Call, pc: Pc, started: nat, timeout: Option<nat>, log: seq<Event>)

  datatype System = System(store: Config.State, history: seq<Settings>, threads: seq<Thread>)

  function Current(s: System): nat
    requires s.history != []
  {
    |s.history| - 1
  }

  ghost predicate Init(rules: Rules, s: System) {
    s.history == [Get(rules, s.store)] && s.threads == []
  }

  /** SIGHUP: the file is read again; a failed reload keeps the configuration. */
  ghost predicate ReloadStep(rules: Rules, s: System, t: System, files: string -> FileState) {
    var (store, failure) := Apply(rules, s.store, Reload(files));
    t == s.(store := store, history := if failure.None? then s.history + [Get(rules, store)] else s.history)
  }

  /** A request arrives. */
  ghost predicate StartStep(s: System, t: System, c: Call) {
    && s.history != []
    && t == s.(threads := s.threads + [Thread(c, if c.readsTimeout then AtTimeout else AtGate, Current(s), None, [])])
  }

  /** Where a call continues after the event that ends a gate. */
  function Next(th: Thread, e: Event): Thread {
    var log := th.log + [e];
    th.(log := log, pc := if (|log| == 1 && e.Refused?) || |log| > |th.call.parts| then Done else AtGate)
  }

  /** One step of a call: its timeout lookup, the check of a gate, or the collector behind it. */
  ghost predicate Moves(s: System, th: Thread, next: Thread)
    requires s.history != []
  {
    match th.pc
    case AtTimeout => next == th.(pc := AtGate, timeout := Some(Current(s)))
    case AtGate =>
      && |th.log| <= |th.call.parts|
      && next == if GateName(th.call, |th.log|) in s.history[Current(s)].disabled
                 then Next(th, Refused(Current(s)))
                 else th.(pc := Collecting(Current(s)))
    case Collecting(v) => next == Next(th, Ran(v))
    case Done => false
  }

  ghost predicate CallStep(s: System, t: System, i: nat) {
    && s.history != [] && i < |s.threads|
    && exists next :: Moves(s, s.threads[i], next) && t == s.(threads := s.threads[i := next])
  }

  ghost predicate Step(rules: Rules, s: System, t: System) {
    || (exists files :: ReloadStep(rules, s, t, files))
    || (exists c :: StartStep(s, t, c))
    || (exists i: nat :: CallStep(s, t, i))
  }

  ghost predicate Run(rules: Rules, states: seq<System>) {
    && states != [] && Init(rules, states[0])
    && forall k :: 0 < k < |states| ==> Step(rules, states[k - 1], states[k])
  }

  // ---------------------------------------------------------------- invariant

  ghost predicate EventOk(s: System, th: Thread, k: nat)
    requires k < |th.log| <= |th.call.parts| + 1
  {
    var e := th.log[k];
    && th.started <= e.version < |s.history|
    && (e.Refused? <==> GateName(th.call, k) in s.history[e.version].disabled)
  }

  ghost predicate ThreadOk(s: System, th: Thread) {
    && s.history != []
    && th.started < |s.history| && |th.log| <= |th.call.parts| + 1
    && (forall k :: 0 <= k < |th.log| ==> EventOk(s, th, k))
    && (forall j, k :: 0 <= j < k < |th.log| ==> th.log[j].version <= th.log[k].version)
    && (th.timeout.Some? ==> th.started <= th.timeout.value < |s.history|
                             && forall k :: 0 <= k < |th.log| ==> th.timeout.value <= th.log[k].version)
    && (th.timeout.Some? <==> th.call.readsTimeout && th.pc != AtTimeout)
    && (th.log != [] && th.log[0].Refused? ==> |th.log| == 1)
    && match th.pc
       case AtTimeout => th.log == [] && th.call.readsTimeout
       case AtGate => |th.log| <= |th.call.parts| && (th.log != [] ==> th.log[0].Ran?)
       case Collecting(v) =>
         && |th.log| <= |th.call.parts| && (th.log != [] ==> th.log[0].Ran?)
         && th.started <= v < |s.history| && GateName(th.call, |th.log|) !in s.history[v].disabled
         && (forall k :: 0 <= k < |th.log| ==> th.log[k].version <= v)
         && (th.timeout.Some? ==> th.timeout.value <= v)
       case Done => th.log != [] && (|th.log| == |th.call.parts| + 1 || th.log[0].Refused?)
  }

  ghost predicate Inv(rules: Rules, s: System) {
    && s.history != [] && s.history[|s.history| - 1] == Get(rules, s.store)
    && forall i :: 0 <= i < |s.threads| ==> ThreadOk(s, s.threads[i])
  }

  /** A configuration that is added to the history changes nothing about earlier steps. */
  lemma ThreadKept(s: System, t: System, th: Thread)
    requires ThreadOk(s, th) && s.history <= t.history
    ensures ThreadOk(t, th)
  {
    forall k | 0 <= k < |th.log| ensures EventOk(t, th, k) {
      assert EventOk(s, th, k);
    }
  }

  lemma ThreadMoves(s: System, th: Thread, next: Thread)
    requires s.history != [] && ThreadOk(s, th) && Moves(s, th, next)
    ensures ThreadOk(s, next)
  {
    forall k: nat | k < |next.log| ensures EventOk(s, next, k) {
      if k < |th.log| {
        assert EventOk(s, th, k);
      }
    }
    forall k: nat | k < |th.log| ensures th.log[k].version <= Current(s) {
      assert EventOk(s, th, k);
    }
  }

  lemma StepInv(rules: Rules, s: System, t: System)
    requires Inv(rules, s) && Step(rules, s, t)
    ensures Inv(rules, t) && s.history <= t.history
  {
    if files :| ReloadStep(rules, s, t, files) {
      forall i | 0 <= i < |t.threads| ensures ThreadOk(t, t.threads[i]) {
        ThreadKept(s, t, s.threads[i]);
      }
    } else if c :| StartStep(s, t, c) {
      forall i | 0 <= i < |t.threads| ensures ThreadOk(t, t.threads[i]) {
        if i < |s.threads| {
          ThreadKept(s, t, s.threads[i]);
        }
      }
    } else {
      var i: nat :| CallStep(s, t, i);
      var next :| Moves(s, s.threads[i], next) && t == s.(threads := s.threads[i := next]);
      ThreadMoves(s, s.threads[i], next);
      ThreadKept(s, t, next);
      forall j | 0 <= j < |t.threads| ensures ThreadOk(t, t.threads[j]) {
        if j != i {
          ThreadKept(s, t, s.threads[j]);
        }
      }
    }
  }

  lemma {:induction false} RunInv(rules: Rules, states: seq<System>, k: nat)
    requires Run(rules, states) && k < |states|
    ensures Inv(rules, states[k])
  {
    if k > 0 {
      RunInv(rules, states, k - 1);
      StepInv(rules, states[k - 1], states[k]);
    }
  }

  // ---------------------------------------------------------------- theorems

  /** Gate `k` of a call ran its collector. */
  ghost predicate Collected(th: Thread, k: nat) {
    k < |th.log| && th.log[k].Ran?
  }

  /**
   In every interleaving a collector runs only behind a check of its name against a configuration that
   was current after the call arrived and does not disable it; the configurations seen by successive
   gates are never older than the ones before, nor older than the one that set the call's timeout.
   */
  lemma CollectedWasEnabled(rules: Rules, states: seq<System>, n: nat, i: nat, k: nat)
    requires Run(rules, states) && n < |states| && i < |states[n].threads| && Collected(states[n].threads[i], k)
    ensures var s := states[n]; var th := s.threads[i]; var v := th.log[k].version;
            && k <= |th.call.parts| && th.started <= v < |s.history|
            && GateName(th.call, k) !in s.history[v].disabled
            && (forall j :: 0 <= j < k ==> th.log[j].version <= v)
            && (th.call.readsTimeout ==> th.timeout.Some? && th.timeout.value <= v)
  {
    RunInv(rules, states, n);
    var s := states[n];
    assert ThreadOk(s, s.threads[i]);
    assert EventOk(s, s.threads[i], k);
  }

  /** A call keeps its request and counts configurations from the one that was current when it arrived. */
  lemma {:induction false} ArrivedUnder(rules: Rules, states: seq<System>, n: nat, i: nat) returns (m: nat)
    requires Run(rules, states) && n < |states| && i < |states[n].threads|
    ensures m < n && |states[m].threads| == i < |states[m + 1].threads|
    ensures states[m + 1].threads[i].call == states[n].threads[i].call
    ensures states[n].threads[i].started + 1 == |states[m].history| == |states[m + 1].history|
  {
    var s, t := states[n - 1], states[n];
    if i < |s.threads| {
      m := ArrivedUnder(rules, states, n - 1, i);
    } else {
      m := n - 1;
      var c :| StartStep(s, t, c);
    }
  }

  /** A name disabled in every configuration since the call arrived is never collected by that call. */
  lemma DisabledThroughout(rules: Rules, states: seq<System>, n: nat, i: nat, k: nat)
    requires Run(rules, states) && n < |states| && i < |states[n].threads|
    requires k <= |states[n].threads[i].call.parts|
    requires forall v :: states[n].threads[i].started <= v < |states[n].history| ==>
               GateName(states[n].threads[i].call, k) in states[n].history[v].disabled
    ensures !Collected(states[n].threads[i], k)
  {
    if Collected(states[n].threads[i], k) {
      CollectedWasEnabled(rules, states, n, i, k);
    }
  }

  /** A finished call has run every part that was enabled throughout, if its own name was. */
  lemma EnabledThroughout(rules: Rules, states: seq<System>, n: nat, i: nat, k: nat)
    requires Run(rules, states) && n < |states| && i < |states[n].threads| && states[n].threads[i].pc.Done?
    requires k <= |states[n].threads[i].call.parts|
    requires forall v :: states[n].threads[i].started <= v < |states[n].history| ==>
               && states[n].threads[i].call.name !in states[n].history[v].disabled
               && GateName(states[n].threads[i].call, k) !in states[n].history[v].disabled
    ensures Collected(states[n].threads[i], k)
  {
    RunInv(rules, states, n);
    var s := states[n];
    var th := s.threads[i];
    assert ThreadOk(s, th);
    assert EventOk(s, th, 0);
    assert |th.log| == |th.call.parts| + 1;
    assert EventOk(s, th, k);
  }

  /**
   A finished call has one event per gate, or just the refusal of its own name; each event matches the
   configuration it saw.
   */
  lemma OneEventPerGate(rules: Rules, states: seq<System>, n: nat, i: nat)
    requires Run(rules, states) && n < |states| && i < |states[n].threads| && states[n].threads[i].pc.Done?
    ensures var s := states[n]; var th := s.threads[i];
            && |th.log| == (if th.log != [] && th.log[0].Refused? then 1 else |th.call.parts| + 1)
            && forall k :: 0 <= k < |th.log| ==>
                 th.started <= th.log[k].version < |s.history|
                 && (th.log[k].Refused? <==> GateName(th.call, k) in s.history[th.log[k].version].disabled)
  {
    RunInv(rules, states, n);
    var s := states[n];
    var th := s.threads[i];
    assert ThreadOk(s, th);
    forall k | 0 <= k < |th.log|
      ensures th.started <= th.log[k].version < |s.history|
      ensures th.log[k].Refused? <==> GateName(th.call, k) in s.history[th.log[k].version].disabled
    {
      assert EventOk(s, th, k);
    }
  }

  /** Every configuration that was ever visible is one that validation accepts. */
  lemma {:induction false} HistoryAccepted(rules: Rules, states: seq<System>, n: nat, v: nat)
    requires rules.Valid() && Run(rules, states) && n < |states| && v < |states[n].history|
    requires Accepted(rules, Get(rules, states[0].store))
    ensures Accepted(rules, states[n].history[v])
  {
    if n > 0 {
      RunInv(rules, states, n - 1);
      StepInv(rules, states[n - 1], states[n]);
      if v < |states[n - 1].history| {
        HistoryAccepted(rules, states, n - 1, v);
      } else {
        var files :| ReloadStep(rules, states[n - 1], states[n], files);
        HistoryAccepted(rules, states, n - 1, |states[n - 1].history| - 1);
      }
    }
  }
}
