/**
 Aggregate tools across a reload (tools/system.go:118-178, tools/storage.go:592-712).

 An aggregate checks the configuration once per part, so a reload in between may show.  This module says
 when the decisions of a call are those of one configuration.
 */
module Aggregates {
  import opened Wrappers
  import opened Config
  import opened Policy

  const SNAPSHOT := Call(
    "get_system_snapshot",
    [ "get_system_info", "get_cpu_info", "get_cpu_temperature", "get_memory_info", "get_disk_info",
      "get_network_info", "get_load_average", "get_process_info", "get_docker_info" ],
    true)

  const HEALTH_CHECK := Call(
    "get_system_health_check",
    ["get_memory_info", "get_disk_info", "get_cpu_info", "get_load_average", "get_systemd_units"],
    true)

  predicate Refuses(c: Call, cfg: Settings, k: nat)
    requires k <= |c.parts|
  {
    GateName(c, k) in cfg.disabled
  }

  /** Configuration `v` alone explains everything the call did. */
  ghost predicate ExplainedBy(s: System, th: Thread, v: nat)
    requires v < |s.history|
  {
    forall k :: 0 <= k < |th.log| && k <= |th.call.parts|
      ==> (th.log[k].Refused? <==> Refuses(th.call, s.history[v], k))
  }

  /** Some configuration that was visible since the call started explains it. */
  ghost predicate Explained(s: System, th: Thread) {
    exists v: nat :: th.started <= v < |s.history| && ExplainedBy(s, th, v)
  }

  ghost predicate Finished(rules: Rules, states: seq<System>, n: nat, i: nat) {
    Run(rules, states) && n < |states| && i < |states[n].threads| && states[n].threads[i].pc.Done?
  }

  /**
   However many reloads a call overlaps, it is explained if the configurations visible since it started
   agree on all of its gates other than at most one.
   */
  lemma ExplainedIfOneGateChanges(rules: Rules, states: seq<System>, n: nat, i: nat, k0: nat)
    requires Finished(rules, states, n, i)
    requires var s := states[n]; var th := s.threads[i];
             forall v, w, k :: th.started <= v < |s.history| && th.started <= w < |s.history|
                               && 0 <= k <= |th.call.parts| && k != k0
                               ==> (Refuses(th.call, s.history[v], k) <==> Refuses(th.call, s.history[w], k))
    ensures Explained(states[n], states[n].threads[i])
  {
    OneEventPerGate(rules, states, n, i);
    var s := states[n];
    var th := s.threads[i];
    var v := th.log[if k0 < |th.log| then k0 else 0].version;
    assert ExplainedBy(s, th, v);
  }

  /** A call during which no reload succeeded is explained by the configuration it started with. */
  lemma StableCallExplained(rules: Rules, states: seq<System>, n: nat, i: nat)
    requires Finished(rules, states, n, i)
    requires |states[n].history| == states[n].threads[i].started + 1
    ensures ExplainedBy(states[n], states[n].threads[i], states[n].threads[i].started)
  {
    OneEventPerGate(rules, states, n, i);
  }

  // ---------------------------------------------------------------- driving one call

  /** Event `k` of a log is what a check against configuration `v` gives. */
  ghost predicate EventUnder(c: Call, cfg: Settings, v: nat, e: Event, k: nat)
    requires k <= |c.parts|
  {
    e == if Refuses(c, cfg, k) then Refused(v) else Ran(v)
  }

  /** The run ends with one call, waiting at a gate or done, and its log is as given. */
  ghost predicate EndsWith(states: seq<System>, store: Config.State, history: seq<Settings>, c: Call, log: seq<Event>) {
    && states != []
    && var s := states[|states| - 1];
       && s.store == store && s.history == history && |s.threads| == 1
       && var th := s.threads[0];
          && th.call == c && th.log == log && th.started == 0
          && th.pc == if |log| > |c.parts| then Done else AtGate
  }

  lemma Extend(rules: Rules, states: seq<System>, t: System)
    requires Run(rules, states) && Step(rules, states[|states| - 1], t)
    ensures Run(rules, states + [t])
  {
  }

  /** The only call of a run moves on. */
  lemma OneMove(rules: Rules, states: seq<System>, next: Thread) returns (t: System)
    requires Run(rules, states)
    requires var s := states[|states| - 1]; s.history != [] && |s.threads| == 1 && Moves(s, s.threads[0], next)
    ensures t == states[|states| - 1].(threads := [next]) && Run(rules, states + [t])
  {
    var s := states[|states| - 1];
    t := s.(threads := [next]);
    assert [next] == s.threads[0 := next];
    assert CallStep(s, t, 0);
    Extend(rules, states, t);
  }

  /** Gate `|log|` is checked against the current configuration, and its collector runs if it is enabled. */
  lemma PassGate(rules: Rules, states: seq<System>, store: Config.State, history: seq<Settings>,
                 c: Call, log: seq<Event>)
    returns (longer: seq<System>, e: Event)
    requires Run(rules, states) && EndsWith(states, store, history, c, log)
    requires history != [] && |log| <= |c.parts|
    requires log == [] ==> !Refuses(c, history[|history| - 1], 0)
    ensures EventUnder(c, history[|history| - 1], |history| - 1, e, |log|)
    ensures Run(rules, longer) && EndsWith(longer, store, history, c, log + [e])
  {
    var s, v := states[|states| - 1], |history| - 1;
    var th := s.threads[0];
    if Refuses(c, history[v], |log|) {
      e := Refused(v);
      var t := OneMove(rules, states, Next(th, e));
      longer := states + [t];
    } else {
      e := Ran(v);
      var collecting := th.(pc := Collecting(v));
      var t := OneMove(rules, states, collecting);
      var u := OneMove(rules, states + [t], Next(collecting, e));
      longer := states + [t] + [u];
    }
  }

  /** Gates up to `g` are passed under the current configuration. */
  lemma {:induction false} PassGates(rules: Rules, states: seq<System>, store: Config.State, history: seq<Settings>,
                                     c: Call, log: seq<Event>, g: nat)
    returns (longer: seq<System>, all: seq<Event>)
    requires Run(rules, states) && EndsWith(states, store, history, c, log)
    requires history != [] && |log| <= g <= |c.parts| + 1
    requires log == [] ==> !Refuses(c, history[|history| - 1], 0)
    ensures Run(rules, longer) && EndsWith(longer, store, history, c, all)
    ensures |all| == g && log <= all
    ensures forall k :: |log| <= k < g ==> EventUnder(c, history[|history| - 1], |history| - 1, all[k], k)
    decreases g - |log|
  {
    if |log| == g {
      longer, all := states, log;
    } else {
      var next, e := PassGate(rules, states, store, history, c, log);
      longer, all := PassGates(rules, next, store, history, c, log + [e], g);
      assert all[|log|] == e;
    }
  }

  /** The call arrives under configuration `a` and stands before its first gate. */
  lemma Arrive(rules: Rules, a: Settings, c: Call) returns (states: seq<System>)
    ensures Run(rules, states) && EndsWith(states, Config.State(Some(a), "config.json"), [a], c, [])
  {
    var store := Config.State(Some(a), "config.json");
    var s0 := System(store, [a], []);
    var th := Thread(c, if c.readsTimeout then AtTimeout else AtGate, 0, None, []);
    var s1 := s0.(threads := [th]);
    assert StartStep(s0, s1, c);
    Extend(rules, [s0], s1);
    states := [s0] + [s1];
    if c.readsTimeout {
      var s2 := OneMove(rules, states, th.(pc := AtGate, timeout := Some(0)));
      states := states + [s2];
    }
  }

  /** The configuration file now holds `b`, and SIGHUP arrives. */
  lemma Overtake(rules: Rules, states: seq<System>, a: Settings, b: Settings, c: Call, log: seq<Event>)
    returns (longer: seq<System>)
    requires Run(rules, states) && EndsWith(states, Config.State(Some(a), "config.json"), [a], c, log)
    requires Accepted(rules, b)
    ensures Run(rules, longer) && EndsWith(longer, Config.State(Some(b), "config.json"), [a, b], c, log)
  {
    var s := states[|states| - 1];
    var files := (path: string) => Decoded(Document(b.logLevel, Some(b.timeouts), Some(b.disabled)));
    assert LoadFile(rules, files("config.json")) == Ok(b);
    var t := s.(store := Config.State(Some(b), "config.json"), history := [a, b]);
    assert ReloadStep(rules, s, t, files);
    Extend(rules, states, t);
    longer := states + [t];
  }

  // ---------------------------------------------------------------- one reload

  ghost predicate Differs(c: Call, a: Settings, b: Settings, k: nat)
    requires k <= |c.parts|
  {
    Refuses(c, a, k) != Refuses(c, b, k)
  }

  /** The two configurations differ on at most one gate of the call. */
  ghost predicate AtMostOneDiffers(c: Call, a: Settings, b: Settings) {
    forall j: nat, k: nat :: j < k <= |c.parts| && Differs(c, a, b, j) ==> !Differs(c, a, b, k)
  }

  /** A finished run of `c` that started under `a` and saw at most a reload of `b`. */
  ghost predicate OneReload(rules: Rules, states: seq<System>, n: nat, i: nat, c: Call, a: Settings, b: Settings) {
    && Finished(rules, states, n, i)
    && var s := states[n]; var th := s.threads[i];
       && th.call == c && th.started <= |s.history|
       && (s.history[th.started..] == [a] || s.history[th.started..] == [a, b])
  }

  lemma OnlyGate(c: Call, a: Settings, b: Settings, k0: nat)
    requires AtMostOneDiffers(c, a, b) && k0 <= |c.parts|
    requires Differs(c, a, b, k0) || forall k: nat :: k <= |c.parts| ==> !Differs(c, a, b, k)
    ensures forall k: nat :: k <= |c.parts| && k != k0 ==> !Differs(c, a, b, k)
  {
  }

  lemma OneReloadExplained(rules: Rules, states: seq<System>, n: nat, i: nat, c: Call, a: Settings, b: Settings)
    requires OneReload(rules, states, n, i, c, a, b)
    requires Refuses(c, a, 0) || AtMostOneDiffers(c, a, b)
    ensures Explained(states[n], states[n].threads[i])
  {
    var s := states[n];
    var th := s.threads[i];
    var h := s.history[th.started..];
    if AtMostOneDiffers(c, a, b) {
      var k0: nat := 0;
      if k: nat :| k <= |c.parts| && Differs(c, a, b, k) {
        k0 := k;
      }
      OnlyGate(c, a, b, k0);
      forall v, w, k | th.started <= v < |s.history| && th.started <= w < |s.history| && 0 <= k <= |c.parts| && k != k0
        ensures Refuses(c, s.history[v], k) <==> Refuses(c, s.history[w], k)
      {
        assert s.history[v] == h[v - th.started] && s.history[w] == h[w - th.started];
        assert !Differs(c, a, b, k);
      }
      ExplainedIfOneGateChanges(rules, states, n, i, k0);
    } else {
      OneEventPerGate(rules, states, n, i);
      CollectedInOrder(rules, states, n, i);
      assert forall v :: th.started <= v < |s.history| ==> s.history[v] == h[v - th.started];
      assert ExplainedBy(s, th, th.log[0].version);
    }
  }

  /** Later gates never see an older configuration. */
  lemma CollectedInOrder(rules: Rules, states: seq<System>, n: nat, i: nat)
    requires Finished(rules, states, n, i)
    ensures var log := states[n].threads[i].log; forall j, k :: 0 <= j < k < |log| ==> log[j].version <= log[k].version
  {
    RunInv(rules, states, n);
    assert ThreadOk(states[n], states[n].threads[i]);
  }

  /** Gates up to `j` are passed under `a`, the others under `b`: no configuration explains that. */
  lemma MixedRun(rules: Rules, c: Call, a: Settings, b: Settings, j: nat, k: nat) returns (states: seq<System>)
    requires Accepted(rules, b) && !Refuses(c, a, 0)
    requires j < k <= |c.parts| && Differs(c, a, b, j) && Differs(c, a, b, k)
    ensures states != [] && OneReload(rules, states, |states| - 1, 0, c, a, b)
    ensures |states[|states| - 1].threads[0].log| == |c.parts| + 1
    ensures !Explained(states[|states| - 1], states[|states| - 1].threads[0])
  {
    var store, stored := Config.State(Some(a), "config.json"), Config.State(Some(b), "config.json");
    states := Arrive(rules, a, c);
    var first, all;
    states, first := PassGates(rules, states, store, [a], c, [], j + 1);
    states := Overtake(rules, states, a, b, c, first);
    states, all := PassGates(rules, states, stored, [a, b], c, first, |c.parts| + 1);
    var s := states[|states| - 1];
    var th := s.threads[0];
    assert all[j] == first[j];
    assert EventUnder(c, a, 0, all[j], j) && EventUnder(c, b, 1, all[k], k);
    assert !ExplainedBy(s, th, 0) && !ExplainedBy(s, th, 1);
  }

  /**
   Whether a call that a reload overtakes is always explained by one configuration can be told before the
   reload: exactly if the old configuration disables the call itself, or the old and the new one differ on
   at most one of its gates.
   */
  lemma ExplainedIff(rules: Rules, c: Call, a: Settings, b: Settings)
    requires Accepted(rules, b)
    ensures (forall states: seq<System>, n: nat, i: nat :: OneReload(rules, states, n, i, c, a, b)
               ==> Explained(states[n], states[n].threads[i]))
            <==> Refuses(c, a, 0) || AtMostOneDiffers(c, a, b)
  {
    if Refuses(c, a, 0) || AtMostOneDiffers(c, a, b) {
      forall states: seq<System>, n: nat, i: nat | OneReload(rules, states, n, i, c, a, b)
        ensures Explained(states[n], states[n].threads[i])
      {
        OneReloadExplained(rules, states, n, i, c, a, b);
      }
    } else {
      var j: nat, k: nat :| j < k <= |c.parts| && Differs(c, a, b, j) && Differs(c, a, b, k);
      var states := MixedRun(rules, c, a, b, j, k);
      assert OneReload(rules, states, |states| - 1, 0, c, a, b);
    }
  }

  lemma HealthCheckDiffers(a: Settings, b: Settings)
    requires a.disabled == [] && b.disabled == ["get_memory_info", "get_disk_info"]
    ensures Differs(HEALTH_CHECK, a, b, 1) && Differs(HEALTH_CHECK, a, b, 2) && !Refuses(HEALTH_CHECK, a, 0)
  {
    assert GateName(HEALTH_CHECK, 1) == b.disabled[0] && GateName(HEALTH_CHECK, 2) == b.disabled[1];
  }

  /**
   The health check, while memory and disk are being disabled: it may report the memory and refuse the
   disk, as neither configuration would.
   */
  lemma HealthCheckMayMix(rules: Rules, a: Settings, b: Settings) returns (states: seq<System>)
    requires a.disabled == [] && b.disabled == ["get_memory_info", "get_disk_info"] && Accepted(rules, b)
    ensures states != [] && OneReload(rules, states, |states| - 1, 0, HEALTH_CHECK, a, b)
    ensures |states[|states| - 1].threads[0].log| == |HEALTH_CHECK.parts| + 1
    ensures !Explained(states[|states| - 1], states[|states| - 1].threads[0])
  {
    HealthCheckDiffers(a, b);
    states := MixedRun(rules, HEALTH_CHECK, a, b, 1, 2);
  }

  /** Disabling a single collector never shows as a mixture in the snapshot, whatever was disabled before. */
  lemma SnapshotSurvivesOneName(rules: Rules, a: Settings, b: Settings, name: string,
                                states: seq<System>, n: nat, i: nat)
    requires Accepted(rules, b) && b.disabled == a.disabled + [name]
    requires OneReload(rules, states, n, i, SNAPSHOT, a, b)
    ensures Explained(states[n], states[n].threads[i])
  {
    forall j: nat, k: nat | j < k <= |SNAPSHOT.parts| && Differs(SNAPSHOT, a, b, j)
      ensures !Differs(SNAPSHOT, a, b, k)
    {
      assert GateName(SNAPSHOT, j) == name;
      NamesDistinct(SNAPSHOT, j, k);
    }
    OneReloadExplained(rules, states, n, i, SNAPSHOT, a, b);
  }

  /** The gates of the snapshot ask for ten different names. */
  lemma NamesDistinct(c: Call, j: nat, k: nat)
    requires c == SNAPSHOT && j < k <= |c.parts|
    ensures GateName(c, j) != GateName(c, k)
  {
  }
}
