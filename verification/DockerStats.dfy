/**
 Fan-out and fan-in of container statistics (tools/docker.go:570-661).

 One goroutine per target gathers the statistics of its container and sends the result on a
 channel whose capacity is the number of targets; the caller receives once per target.  The
 goroutines and the receiver are modelled as interleaved steps.  What each gather call returns
 is an arbitrary input (`outcomes`), as is the payload `S` of one statistics entry.
 */
module DockerStats {
  import opened Wrappers
  import opened Sequences

  const SHORT_ID_LEN := 12

  function ShortId(id: string): (r: string)
    ensures r <= id && |r| == if |id| > 12 then 12 else |id|
  {
    if |id| > SHORT_ID_LEN then id[..SHORT_ID_LEN] else id
  }

  /** One listed container: its ID and its names, the first of which is used. */
  datatype Container = Container(id: string, names: seq<string>)

  datatype Target = Target(id: string, name: string)

  datatype Stat<S> = Stat(id: string, payload: S)

  /** What GatherContainerStats returned: the entries of its output, or an error text. */
  type Outcome<S> = Result<seq<Stat<S>>, string>

  datatype Message<S> = Message(id: string, name: string, result: Result<S, string>)

  /** A row of the answer: the payload, or the error text. */
  datatype Row<S> = Row(id: string, name: string, result: Result<S, string>)

  // ---------------------------------------------------------------- selecting targets

  function TrimSlash(s: string): string {
    if s != "" && s[0] == '/' then s[1..] else s
  }

  function NameOf(c: Container): string {
    if c.names == [] then "" else TrimSlash(c.names[0])
  }

  /** An empty request selects every container. */
  predicate Wanted(c: Container, requested: seq<string>) {
    requested == [] || c.id in requested || ShortId(c.id) in requested || NameOf(c) in requested
  }

  function Targets(running: seq<Container>, requested: seq<string>): seq<Target> {
    FlatMap((c: Container) => if Wanted(c, requested) then [Target(c.id, NameOf(c))] else [], running)
  }

  /** The display name of a container: its first name without one leading slash, or nothing. */
  ghost predicate Displays(c: Container, name: string) {
    if c.names == [] then name == ""
    else if "/" <= c.names[0] then c.names[0] == "/" + name
    else c.names[0] == name
  }

  /** A request names a container by its id, the first twelve characters of it, or its display name. */
  ghost predicate Asks(requested: seq<string>, c: Container, name: string) {
    || requested == [] || c.id in requested || name in requested
    || (|c.id| > 12 && c.id[..12] in requested)
  }

  /** The targets are the containers at the positions `idx`: each of those that are asked for, once and in order. */
  ghost predicate PickedAt(targets: seq<Target>, running: seq<Container>, requested: seq<string>, idx: seq<nat>) {
    && Increasing(idx, |running|) && |idx| == |targets|
    && (forall k :: 0 <= k < |idx| ==>
          targets[k].id == running[idx[k]].id && Displays(running[idx[k]], targets[k].name))
    && forall i: nat, name :: i < |running| && Displays(running[i], name) ==>
         (i in idx <==> Asks(requested, running[i], name))
  }

  ghost predicate Picked(targets: seq<Target>, running: seq<Container>, requested: seq<string>) {
    exists idx :: PickedAt(targets, running, requested, idx)
  }

  lemma NameDisplayed(c: Container, name: string)
    ensures Displays(c, name) <==> name == NameOf(c)
  {
    if c.names != [] && "/" <= c.names[0] {
      assert c.names[0] == "/" + c.names[0][1..];
      assert ("/" + name)[1..] == name;
    }
  }

  lemma TargetsPicked(running: seq<Container>, requested: seq<string>)
    ensures Picked(Targets(running, requested), running, requested)
  {
    var f := (c: Container) => if Wanted(c, requested) then [Target(c.id, NameOf(c))] else [];
    var idx := FlatMapPicks(f, running);
    var targets := Targets(running, requested);
    forall k | 0 <= k < |idx|
      ensures targets[k].id == running[idx[k]].id && Displays(running[idx[k]], targets[k].name)
    {
      assert f(running[idx[k]]) == [targets[k]];
      NameDisplayed(running[idx[k]], targets[k].name);
    }
    forall i: nat, name | i < |running| && Displays(running[i], name)
      ensures i in idx <==> Asks(requested, running[i], name)
    {
      NameDisplayed(running[i], name);
    }
    assert PickedAt(targets, running, requested, idx);
  }

  /** A target stands for a running container that was asked for, and each of those has one. */
  lemma TargetsExact(running: seq<Container>, requested: seq<string>, targets: seq<Target>, t: Target)
    requires Picked(targets, running, requested)
    ensures t in targets
            <==> exists c :: c in running && c.id == t.id && Displays(c, t.name) && Asks(requested, c, t.name)
  {
    var idx :| PickedAt(targets, running, requested, idx);
    if t in targets {
      var k :| 0 <= k < |targets| && targets[k] == t;
      assert running[idx[k]] in running && idx[k] in idx;
    }
    if c :| c in running && c.id == t.id && Displays(c, t.name) && Asks(requested, c, t.name) {
      var i: nat :| i < |running| && running[i] == c;
      assert i in idx;
      var k :| 0 <= k < |idx| && idx[k] == i;
      NameDisplayed(c, t.name);
      NameDisplayed(c, targets[k].name);
      assert targets[k] == t;
    }
  }

  method SelectTargets(running: seq<Container>, requested: seq<string>) returns (targets: seq<Target>)
    ensures targets == Targets(running, requested)
    ensures Picked(targets, running, requested)
  {
    var filterSet: set<string> := {};
    for i := 0 to |requested|
      invariant filterSet == set f | f in requested[..i]
    {
      filterSet := filterSet + {requested[i]};
      assert requested[..i + 1] == requested[..i] + [requested[i]];
    }
    assert requested[..|requested|] == requested;
    assert filterSet == {} <==> requested == [] by {
      if requested != [] {
        assert requested[0] in filterSet;
      }
    }
    targets := [];
    for i := 0 to |running|
      invariant targets == Targets(running[..i], requested)
    {
      assert running[..i + 1][..i] == running[..i];
      var c := running[i];
      var name := "";
      if |c.names| > 0 {
        name := TrimSlash(c.names[0]);
      }
      if !(|filterSet| > 0 && c.id !in filterSet && ShortId(c.id) !in filterSet && name !in filterSet) {
        targets := targets + [Target(c.id, name)];
      }
    }
    assert running[..|running|] == running;
    TargetsPicked(running, requested);
  }

  // ---------------------------------------------------------------- one gather call

  /** What the container API did for one statistics request. */
  datatype Reply<S> =
    | NoClient(error: string)
    | StatsFailed(error: string)
    | Undecodable(error: string)
    | Stats(payload: S)

  /** GatherContainerStats: on success its output holds exactly one entry; a failed call reports its error. */
  function GatherContainerStats<S>(id: string, reply: Reply<S>): (o: Outcome<S>)
    ensures o.Ok? <==> reply.Stats?
    ensures o.Ok? ==> |o.value| == 1 && o.value[0].id == ShortId(id) && o.value[0].payload == reply.payload
    ensures o.Err? ==> o.error == reply.error
  {
    match reply
    case Stats(payload) => Ok([Stat(ShortId(id), payload)])
    case _ => Err(reply.error)
  }

  // ---------------------------------------------------------------- the machine

  /** A goroutine is gathering, holds a message to send, or has returned. */
  datatype Worker<S> = Gathering | Sending(message: Message<S>) | Returned

  datatype State<S> = State(workers: seq<Worker<S>>, buffer: seq<Message<S>>, received: seq<Message<S>>)

  /** The fixed part of a run. */
  datatype Job<S> = Job(targets: seq<Target>, outcomes: seq<Outcome<S>>) {
    ghost predicate Valid() {
      |targets| == |outcomes|
    }
  }

  /** What goroutine `i` sends, if it sends at all: a success without entries sends nothing. */
  function MessageOf<S>(job: Job<S>, i: nat): Option<Message<S>>
    requires i < |job.targets| == |job.outcomes|
  {
    var t := job.targets[i];
    match job.outcomes[i]
    case Err(e) => Some(Message(t.id, t.name, Err(e)))
    case Ok(entries) => if |entries| > 0 then Some(Message(t.id, t.name, Ok(entries[0].payload))) else None
  }

  /** Goroutine `i` will never send. */
  predicate Silent<S>(job: Job<S>, i: nat)
    requires i < |job.targets| == |job.outcomes|
  {
    MessageOf(job, i).None?
  }

  /** No gather call succeeds without an entry. */
  ghost predicate AllSend<S>(job: Job<S>)
    requires job.Valid()
  {
    forall i :: 0 <= i < |job.targets| ==> !Silent(job, i)
  }

  ghost function Init<S>(job: Job<S>): State<S> {
    State(seq(|job.targets|, _ => Gathering), [], [])
  }

  /** The gather call of goroutine `i` returns. */
  ghost predicate GatherStep<S>(job: Job<S>, s: State<S>, t: State<S>, i: nat)
    requires job.Valid()
  {
    && i < |s.workers| == |job.targets| && s.workers[i].Gathering?
    && t == s.(workers := s.workers[i := match MessageOf(job, i) case Some(m) => Sending(m) case None => Returned])
  }

  /** Goroutine `i` sends; the send blocks while the buffer holds |targets| messages. */
  ghost predicate SendStep<S>(job: Job<S>, s: State<S>, t: State<S>, i: nat)
  {
    && i < |s.workers| && s.workers[i].Sending? && |s.buffer| < |job.targets|
    && t == s.(workers := s.workers[i := Returned], buffer := s.buffer + [s.workers[i].message])
  }

  /** The receive loop, which runs once per target, takes the oldest message; it blocks on an empty buffer. */
  ghost predicate ReceiveStep<S>(job: Job<S>, s: State<S>, t: State<S>)
  {
    && |s.received| < |job.targets| && s.buffer != []
    && t == s.(buffer := s.buffer[1..], received := s.received + [s.buffer[0]])
  }

  ghost predicate Step<S>(job: Job<S>, s: State<S>, t: State<S>)
    requires job.Valid()
  {
    || (exists i: nat :: GatherStep(job, s, t, i))
    || (exists i: nat :: SendStep(job, s, t, i))
    || ReceiveStep(job, s, t)
  }

  /** A run: any interleaving, from the start. */
  ghost predicate Run<S>(job: Job<S>, states: seq<State<S>>)
    requires job.Valid()
  {
    && states != [] && states[0] == Init(job)
    && forall k :: 0 < k < |states| ==> Step(job, states[k - 1], states[k])
  }

  /** Nobody can move. */
  ghost predicate Stuck<S(!new)>(job: Job<S>, s: State<S>)
    requires job.Valid()
  {
    forall t :: !Step(job, s, t)
  }

  /** The receive loop has run once per target. */
  ghost predicate Finished<S>(job: Job<S>, s: State<S>) {
    |s.received| == |job.targets|
  }

  // ---------------------------------------------------------------- the receive loop

  function RowOf<S>(m: Message<S>): Row<S> {
    Row(ShortId(m.id), m.name, m.result)
  }

  function ErrorsOf<S>(m: Message<S>): seq<string> {
    if m.result.Err? then [m.name + " (" + ShortId(m.id) + "): " + m.result.error] else []
  }

  function Rows<S>(ms: seq<Message<S>>): seq<Row<S>> {
    FlatMap((m: Message<S>) => [RowOf(m)], ms)
  }

  function Errors<S>(ms: seq<Message<S>>): seq<string> {
    FlatMap((m: Message<S>) => ErrorsOf(m), ms)
  }

  /** One error text per failed message, in order, with name, short id and error. */
  ghost predicate TextsAt<S>(ms: seq<Message<S>>, texts: seq<string>, failed: seq<nat>) {
    && Increasing(failed, |ms|) && |failed| == |texts|
    && (forall i: nat :: i < |ms| ==> (i in failed <==> ms[i].result.Err?))
    && forall k :: 0 <= k < |failed| ==>
         var m := ms[failed[k]];
         m.result.Err? && texts[k] == m.name + " (" + ShortId(m.id) + "): " + m.result.error
  }

  lemma ErrorTexts<S>(ms: seq<Message<S>>) returns (failed: seq<nat>)
    ensures TextsAt(ms, Errors(ms), failed)
  {
    failed := FlatMapPicks((m: Message<S>) => ErrorsOf(m), ms);
    forall k | 0 <= k < |failed|
      ensures var m := ms[failed[k]];
              m.result.Err? && Errors(ms)[k] == m.name + " (" + ShortId(m.id) + "): " + m.result.error
    {
      assert ErrorsOf(ms[failed[k]]) == [Errors(ms)[k]];
    }
  }

  lemma {:induction false} RowAt<S>(ms: seq<Message<S>>, i: nat)
    ensures |Rows(ms)| == |ms|
    ensures i < |ms| ==> Rows(ms)[i] == Row(ShortId(ms[i].id), ms[i].name, ms[i].result)
  {
    if ms != [] {
      RowAt(ms[..|ms| - 1], i);
    }
  }

  /** The counted loop over the results, in the order in which they arrive. */
  method Collect<S>(arrivals: seq<Message<S>>) returns (entries: seq<Row<S>>, errs: seq<string>)
    ensures entries == Rows(arrivals) && errs == Errors(arrivals)
    ensures |entries| == |arrivals|
    ensures forall i :: 0 <= i < |arrivals| ==>
              entries[i] == Row(ShortId(arrivals[i].id), arrivals[i].name, arrivals[i].result)
    ensures exists failed :: TextsAt(arrivals, errs, failed)
  {
    entries, errs := [], [];
    for i := 0 to |arrivals|
      invariant entries == Rows(arrivals[..i]) && errs == Errors(arrivals[..i])
    {
      assert arrivals[..i + 1][..i] == arrivals[..i];
      var r := arrivals[i];
      var sid := ShortId(r.id);
      if r.result.Err? {
        errs := errs + [r.name + " (" + sid + "): " + r.result.error];
      }
      entries := entries + [Row(sid, r.name, r.result)];
    }
    assert arrivals[..|arrivals|] == arrivals;
    forall i: nat | i <= |arrivals| ensures |entries| == |arrivals| && (i < |arrivals| ==>
      entries[i] == Row(ShortId(arrivals[i].id), arrivals[i].name, arrivals[i].result)) {
      RowAt(arrivals, i);
    }
    ghost var failed := ErrorTexts(arrivals);
  }

  // ---------------------------------------------------------------- invariant

  /** Goroutines among the first `k` that have not returned. */
  ghost function Open<S>(workers: seq<Worker<S>>, k: nat): nat
    requires k <= |workers|
  {
    if k == 0 then 0 else Open(workers, k - 1) + if workers[k - 1].Returned? then 0 else 1
  }

  /** Goroutines among the first `k` that have returned without sending. */
  ghost function Quiet<S>(job: Job<S>, workers: seq<Worker<S>>, k: nat): nat
    requires job.Valid() && k <= |workers| == |job.targets|
  {
    if k == 0 then 0
    else Quiet(job, workers, k - 1) + if workers[k - 1].Returned? && Silent(job, k - 1) then 1 else 0
  }

  /** The messages that the first `k` goroutines have sent. */
  ghost function Sent<S>(job: Job<S>, workers: seq<Worker<S>>, k: nat): multiset<Message<S>>
    requires job.Valid() && k <= |workers| == |job.targets|
  {
    if k == 0 then multiset{} else Sent(job, workers, k - 1) + SentBy(job, workers[k - 1], k - 1)
  }

  /** The message that goroutine `i` has sent, if it has. */
  ghost function SentBy<S>(job: Job<S>, worker: Worker<S>, i: nat): multiset<Message<S>>
    requires job.Valid() && i < |job.targets|
  {
    if worker.Returned? && !Silent(job, i) then multiset{MessageOf(job, i).value} else multiset{}
  }

  ghost predicate Inv<S>(job: Job<S>, s: State<S>) {
    && job.Valid() && |s.workers| == |job.targets|
    && (forall i :: 0 <= i < |s.workers| && s.workers[i].Sending? ==> MessageOf(job, i) == Some(s.workers[i].message))
    && multiset(s.received) + multiset(s.buffer) == Sent(job, s.workers, |s.workers|)
  }

  lemma {:induction false} Accounting<S>(job: Job<S>, workers: seq<Worker<S>>, k: nat)
    requires job.Valid() && k <= |workers| == |job.targets|
    ensures |Sent(job, workers, k)| + Open(workers, k) + Quiet(job, workers, k) == k
  {
    if k > 0 {
      Accounting(job, workers, k - 1);
    }
  }

  lemma {:induction false} SentFrame<S>(job: Job<S>, workers: seq<Worker<S>>, i: nat, w: Worker<S>, k: nat)
    requires job.Valid() && k <= |workers| == |job.targets| && i < |workers| && !workers[i].Returned?
    ensures Sent(job, workers[i := w], k) == Sent(job, workers, k) + if i < k then SentBy(job, w, i) else multiset{}
  {
    if k > 0 {
      SentFrame(job, workers, i, w, k - 1);
      if i == k - 1 {
        assert SentBy(job, workers[i], i) == multiset{};
      } else {
        assert workers[i := w][k - 1] == workers[k - 1];
      }
    }
  }

  lemma InitInv<S>(job: Job<S>)
    requires job.Valid()
    ensures Inv(job, Init(job))
  {
    AllGathering(job, |job.targets|);
  }

  lemma {:induction false} AllGathering<S>(job: Job<S>, k: nat)
    requires job.Valid() && k <= |job.targets|
    ensures Sent(job, Init(job).workers, k) == multiset{}
  {
    if k > 0 {
      AllGathering(job, k - 1);
    }
  }

  lemma GatherInv<S>(job: Job<S>, s: State<S>, t: State<S>, i: nat)
    requires Inv(job, s) && GatherStep(job, s, t, i)
    ensures Inv(job, t)
  {
    SentFrame(job, s.workers, i, t.workers[i], |s.workers|);
  }

  lemma SendInv<S>(job: Job<S>, s: State<S>, t: State<S>, i: nat)
    requires Inv(job, s) && SendStep(job, s, t, i)
    ensures Inv(job, t)
  {
    SentFrame(job, s.workers, i, Returned, |s.workers|);
    assert multiset(t.buffer) == multiset(s.buffer) + multiset{s.workers[i].message};
  }

  lemma ReceiveInv<S>(job: Job<S>, s: State<S>, t: State<S>)
    requires Inv(job, s) && ReceiveStep(job, s, t)
    ensures Inv(job, t)
  {
    assert s.buffer == [s.buffer[0]] + t.buffer;
    assert multiset(s.buffer) == multiset{s.buffer[0]} + multiset(t.buffer);
  }

  lemma StepInv<S>(job: Job<S>, s: State<S>, t: State<S>)
    requires Inv(job, s) && Step(job, s, t)
    ensures Inv(job, t)
  {
    if i: nat :| GatherStep(job, s, t, i) {
      GatherInv(job, s, t, i);
    } else if i: nat :| SendStep(job, s, t, i) {
      SendInv(job, s, t, i);
    } else {
      ReceiveInv(job, s, t);
    }
  }

  lemma {:induction false} RunInv<S>(job: Job<S>, states: seq<State<S>>, k: nat)
    requires job.Valid() && Run(job, states) && k < |states|
    ensures Inv(job, states[k])
  {
    if k == 0 {
      InitInv(job);
    } else {
      RunInv(job, states, k - 1);
      StepInv(job, states[k - 1], states[k]);
    }
  }

  // ---------------------------------------------------------------- theorems

  /** In every reachable state each target is received, buffered, still running, or finished without sending. */
  lemma Conservation<S>(job: Job<S>, states: seq<State<S>>, k: nat)
    requires job.Valid() && Run(job, states) && k < |states|
    ensures var s := states[k];
            && |s.workers| == |job.targets|
            && |s.received| + |s.buffer| + Open(s.workers, |s.workers|) + Quiet(job, s.workers, |s.workers|)
               == |job.targets|
  {
    var s := states[k];
    RunInv(job, states, k);
    Accounting(job, s.workers, |s.workers|);
    assert |multiset(s.received) + multiset(s.buffer)| == |s.received| + |s.buffer|;
  }

  lemma {:induction false} OpenPositive<S>(workers: seq<Worker<S>>, i: nat, k: nat)
    requires i < k <= |workers| && !workers[i].Returned?
    ensures Open(workers, k) > 0
  {
    if i < k - 1 {
      OpenPositive(workers, i, k - 1);
    }
  }

  /** A goroutine with a message to send can always send it. */
  lemma NoSendBlocks<S>(job: Job<S>, states: seq<State<S>>, k: nat, i: nat)
    requires job.Valid() && Run(job, states) && k < |states|
    requires i < |states[k].workers| && states[k].workers[i].Sending?
    ensures exists t :: SendStep(job, states[k], t, i)
  {
    var s := states[k];
    Conservation(job, states, k);
    OpenPositive(s.workers, i, |s.workers|);
    assert SendStep(job, s, s.(workers := s.workers[i := Returned], buffer := s.buffer + [s.workers[i].message]), i);
  }

  /** How many of the first `k` targets are silent. */
  ghost function Silents<S>(job: Job<S>, k: nat): nat
    requires job.Valid() && k <= |job.targets|
  {
    if k == 0 then 0 else Silents(job, k - 1) + if Silent(job, k - 1) then 1 else 0
  }

  lemma {:induction false} AllReturned<S>(job: Job<S>, workers: seq<Worker<S>>, k: nat)
    requires job.Valid() && k <= |workers| == |job.targets| && forall i :: 0 <= i < |workers| ==> workers[i].Returned?
    ensures Open(workers, k) == 0 && Quiet(job, workers, k) == Silents(job, k)
  {
    if k > 0 {
      AllReturned(job, workers, k - 1);
    }
  }

  lemma {:induction false} NoSilents<S>(job: Job<S>, k: nat)
    requires job.Valid() && k <= |job.targets|
    ensures Silents(job, k) == 0 <==> forall i :: 0 <= i < k ==> !Silent(job, i)
  {
    if k > 0 {
      NoSilents(job, k - 1);
    }
  }

  lemma StuckReturned<S(!new)>(job: Job<S>, states: seq<State<S>>, k: nat)
    requires job.Valid() && Run(job, states) && k < |states| && Stuck(job, states[k])
    ensures |states[k].workers| == |job.targets|
    ensures forall i :: 0 <= i < |states[k].workers| ==> states[k].workers[i].Returned?
    ensures states[k].buffer == []
  {
    var s := states[k];
    RunInv(job, states, k);
    forall i: nat | i < |s.workers| ensures s.workers[i].Returned? {
      if s.workers[i].Gathering? {
        var w := match MessageOf(job, i) case Some(m) => Sending(m) case None => Returned;
        var t := s.(workers := s.workers[i := w]);
        assert GatherStep(job, s, t, i);
        assert Step(job, s, t);
      } else if s.workers[i].Sending? {
        NoSendBlocks(job, states, k, i);
        var t :| SendStep(job, s, t, i);
        assert Step(job, s, t);
      }
    }
    Conservation(job, states, k);
    if s.buffer != [] {
      var t := s.(buffer := s.buffer[1..], received := s.received + [s.buffer[0]]);
      assert ReceiveStep(job, s, t);
      assert Step(job, s, t);
    }
  }

  /**
   When nobody can move, every message has been received; so the receive loop is done exactly when
   every gather call failed or returned an entry, and hangs otherwise.
   */
  lemma StuckReceived<S(!new)>(job: Job<S>, states: seq<State<S>>, k: nat)
    requires job.Valid() && Run(job, states) && k < |states| && Stuck(job, states[k])
    ensures |states[k].received| == |job.targets| - Silents(job, |job.targets|)
    ensures Finished(job, states[k]) <==> AllSend(job)
  {
    StuckReturned(job, states, k);
    Conservation(job, states, k);
    AllReturned(job, states[k].workers, |job.targets|);
    NoSilents(job, |job.targets|);
  }

  // the channel

  /** What was received and what is buffered, in order: every step leaves it or appends one message. */
  function Arrivals<S>(s: State<S>): seq<Message<S>> {
    s.received + s.buffer
  }

  lemma StepArrives<S>(job: Job<S>, s: State<S>, t: State<S>)
    requires job.Valid() && Step(job, s, t)
    ensures Arrivals(s) <= Arrivals(t) && s.received <= t.received
    ensures (exists i :: SendStep(job, s, t, i)) ==>
              exists i: nat :: i < |s.workers| && s.workers[i].Sending? && t.workers[i].Returned?
                               && Arrivals(t) == Arrivals(s) + [s.workers[i].message]
  {
    if i: nat :| GatherStep(job, s, t, i) {
      assert Arrivals(t) == Arrivals(s);
    } else if i: nat :| SendStep(job, s, t, i) {
      assert Arrivals(t) == Arrivals(s) + [s.workers[i].message];
    } else {
      assert Arrivals(t) == Arrivals(s) by {
        assert s.buffer == [s.buffer[0]] + s.buffer[1..];
      }
    }
  }

  /** Messages are received in the order in which they were sent: none overtakes another, none is taken back. */
  lemma {:induction false} ReceivedInOrder<S>(job: Job<S>, states: seq<State<S>>, j: nat, k: nat)
    requires job.Valid() && Run(job, states) && j <= k < |states|
    ensures Arrivals(states[j]) <= Arrivals(states[k]) && states[j].received <= states[k].received
    decreases k - j
  {
    if j < k {
      StepArrives(job, states[k - 1], states[k]);
      ReceivedInOrder(job, states, j, k - 1);
    }
  }

  // every run ends

  ghost function WorkOf<S>(workers: seq<Worker<S>>, k: nat): nat
    requires k <= |workers|
  {
    if k == 0 then 0
    else WorkOf(workers, k - 1) + match workers[k - 1] case Gathering => 3 case Sending(_) => 2 case Returned => 0
  }

  ghost function Work<S>(s: State<S>): nat {
    WorkOf(s.workers, |s.workers|) + |s.buffer|
  }

  lemma {:induction false} WorkFrame<S>(workers: seq<Worker<S>>, i: nat, w: Worker<S>, k: nat)
    requires i < |workers| && k <= |workers|
    ensures WorkOf(workers[i := w], k) - WorkOf(workers, k)
            == if i < k then WorkOf([w], 1) - WorkOf([workers[i]], 1) else 0
  {
    if k > 0 {
      WorkFrame(workers, i, w, k - 1);
    }
  }

  lemma StepWorks<S>(job: Job<S>, s: State<S>, t: State<S>)
    requires job.Valid() && Step(job, s, t)
    ensures Work(t) < Work(s)
  {
    if i: nat :| GatherStep(job, s, t, i) {
      WorkFrame(s.workers, i, t.workers[i], |s.workers|);
    } else if i: nat :| SendStep(job, s, t, i) {
      WorkFrame(s.workers, i, Returned, |s.workers|);
    }
  }

  lemma {:induction false} InitWork<S>(job: Job<S>, k: nat)
    requires k <= |job.targets|
    ensures WorkOf(Init(job).workers, k) == 3 * k
  {
    if k > 0 {
      InitWork(job, k - 1);
    }
  }

  lemma {:induction false} RunWork<S>(job: Job<S>, states: seq<State<S>>, k: nat)
    requires job.Valid() && Run(job, states) && k < |states|
    ensures Work(states[k]) + k <= 3 * |job.targets|
  {
    if k == 0 {
      InitWork(job, |job.targets|);
    } else {
      RunWork(job, states, k - 1);
      StepWorks(job, states[k - 1], states[k]);
    }
  }

  /** No interleaving has more than three steps per target. */
  lemma RunsEnd<S>(job: Job<S>, states: seq<State<S>>)
    requires job.Valid() && Run(job, states)
    ensures |states| <= 3 * |job.targets| + 1
  {
    RunWork(job, states, |states| - 1);
  }

  /** Every run can be continued until nobody can move. */
  lemma {:induction false} RunsComplete<S(!new)>(job: Job<S>, states: seq<State<S>>) returns (full: seq<State<S>>)
    requires job.Valid() && Run(job, states)
    ensures Run(job, full) && states <= full && Stuck(job, full[|full| - 1])
    decreases Work(states[|states| - 1])
  {
    var last := states[|states| - 1];
    if Stuck(job, last) {
      full := states;
    } else {
      var t :| Step(job, last, t);
      StepWorks(job, last, t);
      full := RunsComplete(job, states + [t]);
    }
  }

  // the answer

  /** The row of each target, in target order. */
  ghost function Expected<S>(job: Job<S>, k: nat): seq<Message<S>>
    requires job.Valid() && k <= |job.targets| && AllSend(job)
  {
    if k == 0 then [] else assert !Silent(job, k - 1); Expected(job, k - 1) + [MessageOf(job, k - 1).value]
  }

  lemma {:induction false} SentExpected<S>(job: Job<S>, workers: seq<Worker<S>>, k: nat)
    requires job.Valid() && k <= |workers| == |job.targets| && forall i :: 0 <= i < |workers| ==> workers[i].Returned?
    requires AllSend(job)
    ensures Sent(job, workers, k) == multiset(Expected(job, k))
  {
    if k > 0 {
      SentExpected(job, workers, k - 1);
    }
  }

  /** The row of target `i`: its short id and name, and its payload or error. */
  ghost predicate RowFor<S>(job: Job<S>, i: nat, row: Row<S>)
    requires job.Valid() && i < |job.targets|
  {
    && row.id == ShortId(job.targets[i].id) && row.name == job.targets[i].name
    && match job.outcomes[i]
       case Err(e) => row.result == Err(e)
       case Ok(entries) => entries != [] && row.result == Ok(entries[0].payload)
  }

  lemma MessageRow<S>(job: Job<S>, i: nat)
    requires job.Valid() && i < |job.targets| && !Silent(job, i)
    ensures RowFor(job, i, RowOf(MessageOf(job, i).value))
  {
  }

  lemma {:induction false} ExpectedRows<S>(job: Job<S>, k: nat)
    requires job.Valid() && k <= |job.targets| && AllSend(job)
    ensures |Rows(Expected(job, k))| == k
    ensures forall i :: 0 <= i < k ==> RowFor(job, i, Rows(Expected(job, k))[i])
  {
    if k > 0 {
      ExpectedRows(job, k - 1);
      assert !Silent(job, k - 1);
      MessageRow(job, k - 1);
      var m, before := MessageOf(job, k - 1).value, Expected(job, k - 1);
      FlatMapLast((x: Message<S>) => [RowOf(x)], before, m);
      assert Rows(Expected(job, k)) == Rows(before) + [RowOf(m)];
    }
  }

  lemma {:induction false} ExpectedAt<S>(job: Job<S>, k: nat, i: nat)
    requires job.Valid() && i < k <= |job.targets| && AllSend(job)
    ensures |Expected(job, k)| == k && !Silent(job, i) && Expected(job, k)[i] == MessageOf(job, i).value
  {
    if i < k - 1 {
      ExpectedAt(job, k - 1, i);
    } else if k > 1 {
      ExpectedAt(job, k - 1, 0);
    }
  }

  /** One text per failed target, in target order, with its name, short id and error. */
  ghost predicate FailuresAt<S>(job: Job<S>, texts: seq<string>, failed: seq<nat>)
    requires job.Valid()
  {
    && Increasing(failed, |job.targets|) && |failed| == |texts|
    && (forall i: nat :: i < |job.targets| ==> (i in failed <==> job.outcomes[i].Err?))
    && forall k :: 0 <= k < |failed| ==>
         var t, o := job.targets[failed[k]], job.outcomes[failed[k]];
         o.Err? && texts[k] == t.name + " (" + ShortId(t.id) + "): " + o.error
  }

  lemma ExpectedErrors<S>(job: Job<S>) returns (failed: seq<nat>)
    requires job.Valid() && AllSend(job)
    ensures FailuresAt(job, Errors(Expected(job, |job.targets|)), failed)
  {
    var n := |job.targets|;
    var ms := Expected(job, n);
    failed := ErrorTexts(ms);
    forall i: nat | i < n
      ensures |ms| == n && ms[i].id == job.targets[i].id && ms[i].name == job.targets[i].name
      ensures ms[i].result.Err? <==> job.outcomes[i].Err?
      ensures ms[i].result.Err? ==> ms[i].result.error == job.outcomes[i].error
    {
      ExpectedAt(job, n, i);
    }
  }

  lemma {:induction false} NoneOpen<S>(workers: seq<Worker<S>>, k: nat)
    requires k <= |workers| && Open(workers, k) == 0
    ensures forall i :: 0 <= i < k ==> workers[i].Returned?
  {
    if k > 0 {
      NoneOpen(workers, k - 1);
    }
  }

  /** Once the receive loop is done no goroutine is left and nothing is buffered. */
  lemma FinishedIsStuck<S(!new)>(job: Job<S>, states: seq<State<S>>, k: nat)
    requires job.Valid() && Run(job, states) && k < |states| && Finished(job, states[k])
    ensures Stuck(job, states[k]) && AllSend(job)
  {
    var s := states[k];
    Conservation(job, states, k);
    NoneOpen(s.workers, |s.workers|);
    StuckReceived(job, states, k);
  }

  /**
   Whenever the receive loop is done, whatever the interleaving, the answer holds one row per target: a
   permutation of the rows that describe the targets in order.  Its errors are a permutation of the texts in
   target order that give name, short id and error of each failed target.
   */
  lemma AnswerIsPermutation<S(!new)>(job: Job<S>, states: seq<State<S>>, k: nat)
    requires job.Valid() && Run(job, states) && k < |states| && Finished(job, states[k])
    ensures AllSend(job)
    ensures var n := |job.targets|; var rows := Rows(Expected(job, n));
            && multiset(Rows(states[k].received)) == multiset(rows)
            && |rows| == n && (forall i :: 0 <= i < n ==> RowFor(job, i, rows[i]))
            && exists texts, failed ::
                 FailuresAt(job, texts, failed) && multiset(Errors(states[k].received)) == multiset(texts)
  {
    var s, n := states[k], |job.targets|;
    FinishedIsStuck(job, states, k);
    RunInv(job, states, k);
    StuckReturned(job, states, k);
    SentExpected(job, s.workers, n);
    assert multiset(s.received) == multiset(Expected(job, n));
    FlatMapPermuted((m: Message<S>) => [RowOf(m)], s.received, Expected(job, n));
    FlatMapPermuted((m: Message<S>) => ErrorsOf(m), s.received, Expected(job, n));
    ExpectedRows(job, n);
    var failed := ExpectedErrors(job);
    assert FailuresAt(job, Errors(Expected(job, n)), failed);
  }

  /** With GatherContainerStats as the gather call, nobody can move exactly when the receive loop is done. */
  lemma StatsNeverHang<S(!new)>(job: Job<S>, replies: seq<Reply<S>>, states: seq<State<S>>, k: nat)
    requires job.Valid() && |replies| == |job.targets|
    requires forall i :: 0 <= i < |job.targets| ==>
               job.outcomes[i] == GatherContainerStats(job.targets[i].id, replies[i])
    requires Run(job, states) && k < |states|
    ensures Stuck(job, states[k]) <==> Finished(job, states[k])
  {
    if Finished(job, states[k]) {
      FinishedIsStuck(job, states, k);
    } else if Stuck(job, states[k]) {
      forall i: nat | i < |job.targets| ensures !Silent(job, i) {
        assert job.outcomes[i] == GatherContainerStats(job.targets[i].id, replies[i]);
      }
      StuckReceived(job, states, k);
    }
  }
}
