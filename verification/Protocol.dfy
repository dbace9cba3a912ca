/** Three producers, one consumer: action bodies under the per-service lock, discovery events and poll sweeps
    feed one FIFO channel; the updater applies the messages one at a time. Every interleaving of any number of
    threads, services and sweeps is a run of this machine. */
module Protocol {
  import opened Schema
  import opened Text
  import opened Messages
  import opened Scripts
  import RowFacts
  import LS = LockService

  /** One body run. `script` is everything it will try to send: a body reads the store once, at its snapshot, so its
      sends depend on nothing that happens to the store later and may be fixed at that moment. `tried` counts the sends
      so far, `delivered` holds those that were not dropped. */
  datatype BodyRun = BodyRun(thread: LS.Tid, svc: string, snap: Option<Container>, script: seq<Msg>, tried: nat,
                             delivered: seq<Msg>)

  datatype Stage = Begun | Polling | Ended

  /** One poll sweep: the rows it snapshotted, and how far it is. */
  datatype SweepRun = SweepRun(rows: map<string, Container>, stage: Stage)

  datatype Consumer = Running | Draining | Returned

  datatype Producer = Thread(t: LS.Tid) | Sweep(id: int) | Discovery

  datatype Sending = Sending(who: Producer, msg: Msg)

  /** `queue` is the channel and `log` what the consumer has applied. `sent` is written by the producers alone, and
      `finished` keeps the bodies that have unlocked, oldest first. */
  datatype Sys = Sys(
    lock: LS.Lock,
    bodies: map<LS.Tid, BodyRun>,
    finished: seq<BodyRun>,
    init: State,
    state: State,
    sent: seq<Sending>,
    queue: seq<Msg>,
    log: seq<Msg>,
    sweeps: map<int, SweepRun>,
    consumer: Consumer,
    cancelled: bool,
    lost: set<string>)

  datatype Event =
    | LockStep(t: LS.Tid, a: LS.Step)
    | Snapshot(t: LS.Tid, script: seq<Msg>)
    | Send(t: LS.Tid)
    | Drop(t: LS.Tid)
    | Discover(m: Msg)
    | SweepBegin(id: int, at: Instant, dropped: bool)
    | SweepSnapshot(id: int)
    | Poll(id: int, key: string, m: Msg)
    | SweepFinish(id: int, at: Instant, dropped: bool)
    | Cancel
    | SeeCancelled
    | Consume
    | Return

  /** What a sweep may send for row `c` of its snapshot; the service name comes out of the row itself. */
  predicate PollMessage(c: Container, m: Msg) {
    || (c.pinned && c.notes != NOTE_PINNED_OPT_OUT && m == PinnedNote(c.service))
    || (!c.pinned && !c.stopped && c.image != ""
        && (|| (m == TagMismatchNote(c.service) && c.notes != NOTE_TAG_MISMATCH)
            || (m.PollResolved? && m.svc == c.service)
            || (m.FetchErrorNote? && m.svc == c.service)))
  }

  /** What a docker event may send: an upsert of any labelled container, or a stop or removal of a known row. */
  predicate EventMessage(s: State, m: Msg) {
    (m.Upsert? && m.svc != "") || ((m.MarkStopped? || m.RemoveContainer?) && m.svc in s.containers)
  }

  function Enqueue(s: Sys, who: Producer, m: Msg): Sys {
    s.(queue := s.queue + [m], sent := s.sent + [Sending(who, m)])
  }

  predicate Finished(s: Sys, t: LS.Tid) {
    t in s.bodies && s.bodies[t].tried == |s.bodies[t].script|
  }

  predicate MidBody(s: Sys, t: LS.Tid) {
    t in s.bodies && s.bodies[t].tried < |s.bodies[t].script|
  }

  function NextSend(s: Sys, t: LS.Tid): Msg
    requires MidBody(s, t)
  {
    s.bodies[t].script[s.bodies[t].tried]
  }

  /** Thread `t` has tried its next send, and `got` of it arrived. */
  function TriedOne(s: Sys, t: LS.Tid, got: seq<Msg>): Sys
    requires MidBody(s, t)
  {
    var b := s.bodies[t];
    s.(bodies := s.bodies[t := b.(tried := b.tried + 1, delivered := b.delivered + got)])
  }

  ghost predicate InStage(s: Sys, id: int, stage: Stage) {
    id in s.sweeps && s.sweeps[id].stage == stage
  }

  ghost predicate Next(s: Sys, e: Event, s': Sys) {
    match e
    case LockStep(t, a) =>
      LS.Next(s.lock, t, a, s'.lock)
      && (a == LS.Unlock ==> Finished(s, t))
      && s' == if a == LS.Unlock
               then s.(lock := s'.lock, bodies := s.bodies - {t}, finished := s.finished + [s.bodies[t]])
               else s.(lock := s'.lock)
    case Snapshot(t, script) =>
      var pc := LS.PcOf(s.lock, t);
      pc.Body? && t !in s.bodies
      && var snap := if pc.svc in s.state.containers then Some(s.state.containers[pc.svc]) else None;
         BodyScript(pc.svc, snap, script)
         && s' == s.(bodies := s.bodies[t := BodyRun(t, pc.svc, snap, script, 0, [])])
    case Send(t) => MidBody(s, t) && s' == Enqueue(TriedOne(s, t, [NextSend(s, t)]), Thread(t), NextSend(s, t))
    case Drop(t) => MidBody(s, t) && s' == TriedOne(s, t, []).(lost := s.lost + {s.bodies[t].svc})
    case Discover(m) => EventMessage(s.state, m) && s' == Enqueue(s, Discovery, m)
    case SweepBegin(id, at, dropped) =>
      id !in s.sweeps
      && var begun := s.(sweeps := s.sweeps[id := SweepRun(map[], Begun)]);
         s' == if dropped then begun else Enqueue(begun, Sweep(id), SweepStart(at))
    case SweepSnapshot(id) =>
      InStage(s, id, Begun) && s' == s.(sweeps := s.sweeps[id := SweepRun(s.state.containers, Polling)])
    case Poll(id, key, m) =>
      InStage(s, id, Polling) && key in s.sweeps[id].rows && PollMessage(s.sweeps[id].rows[key], m)
      && s' == Enqueue(s, Sweep(id), m)
    case SweepFinish(id, at, dropped) =>
      InStage(s, id, Polling)
      && var ended := s.(sweeps := s.sweeps[id := s.sweeps[id].(stage := Ended)]);
         s' == if dropped then ended else Enqueue(ended, Sweep(id), SweepEnd(at))
    case Cancel => s' == s.(cancelled := true)
    case SeeCancelled => s.cancelled && s.consumer == Running && s' == s.(consumer := Draining)
    case Consume =>
      s.consumer != Returned && s.queue != []
      && s' == s.(queue := s.queue[1..], log := s.log + [s.queue[0]], state := Apply(s.queue[0], s.state))
    case Return => s.consumer == Draining && s.queue == [] && s' == s.(consumer := Returned)
  }

  /** Every row sits under its own service name. */
  ghost predicate Keyed(rows: map<string, Container>) {
    forall k :: k in rows ==> rows[k].service == k
  }

  ghost predicate Init(s: Sys) {
    && LS.Init(s.lock)
    && s.bodies == map[] && s.finished == [] && s.sent == [] && s.queue == [] && s.log == [] && s.sweeps == map[]
    && s.consumer == Running && s.lost == {}
    && s.state == s.init && Keyed(s.init.containers)
  }

  // ---------------------------------------------------------------- what was sent

  function Msgs(sent: seq<Sending>): seq<Msg> {
    seq(|sent|, i requires 0 <= i < |sent| => sent[i].msg)
  }

  /** Everything the producers have sent so far, in the order it went into the channel. */
  function Sent(s: Sys): seq<Msg> {
    Msgs(s.sent)
  }

  /** What one producer sent, in that order. */
  function By(sent: seq<Sending>, who: Producer): seq<Msg> {
    if sent == [] then []
    else By(sent[..|sent| - 1], who) + (if sent[|sent| - 1].who == who then [sent[|sent| - 1].msg] else [])
  }

  lemma BySnoc(sent: seq<Sending>, x: Sending, who: Producer)
    ensures By(sent + [x], who) == By(sent, who) + (if x.who == who then [x.msg] else [])
  {
    assert (sent + [x])[..|sent|] == sent;
  }

  /** The delivered messages of the runs that `keep` picks, run after run. */
  function Delivered(runs: seq<BodyRun>, keep: BodyRun -> bool): seq<Msg> {
    if runs == [] then []
    else
      var last := runs[|runs| - 1];
      Delivered(runs[..|runs| - 1], keep) + (if keep(last) then last.delivered else [])
  }

  lemma DeliveredSnoc(runs: seq<BodyRun>, b: BodyRun, keep: BodyRun -> bool)
    ensures Delivered(runs + [b], keep) == Delivered(runs, keep) + (if keep(b) then b.delivered else [])
  {
    assert (runs + [b])[..|runs|] == runs;
  }

  function Serves(svc: string): BodyRun -> bool {
    (b: BodyRun) => b.svc == svc
  }

  function RunBy(t: LS.Tid): BodyRun -> bool {
    (b: BodyRun) => b.thread == t
  }

  /** `part` is `whole` with some members left out, in the same order. */
  predicate PartOf(part: seq<Msg>, whole: seq<Msg>) {
    if whole == [] then part == []
    else
      var init := whole[..|whole| - 1];
      PartOf(part, init)
      || (part != [] && part[|part| - 1] == whole[|whole| - 1] && PartOf(part[..|part| - 1], init))
  }

  // ---------------------------------------------------------------- invariants

  ghost predicate BodyOk(s: Sys, t: LS.Tid)
    requires t in s.bodies
  {
    var b := s.bodies[t];
    var pc := LS.PcOf(s.lock, t);
    pc.Body? && pc.svc == b.svc && b.thread == t && (b.script != [] ==> b.svc in s.state.containers)
  }

  ghost predicate BodiesInv(s: Sys) {
    LS.Inv(s.lock) && forall t :: t in s.bodies ==> BodyOk(s, t)
  }

  /** A run follows its script, and has delivered all it tried unless its service lost a send. */
  ghost predicate RunOk(b: BodyRun, lost: set<string>) {
    BodyScript(b.svc, b.snap, b.script) && b.tried <= |b.script|
    && PartOf(b.delivered, b.script[..b.tried])
    && (b.svc !in lost ==> b.delivered == b.script[..b.tried])
  }

  ghost predicate RunsInv(s: Sys) {
    && (forall t :: t in s.bodies ==> RunOk(s.bodies[t], s.lost))
    && (forall b :: b in s.finished ==> RunOk(b, s.lost) && b.tried == |b.script|)
  }

  ghost predicate RowsInv(s: Sys) {
    && s.state == ApplyAll(s.init, s.log)
    && Keyed(s.state.containers)
    && FindsRows(s.init, s.log)
    && (forall m :: m in s.queue && NeedsRow(m) ==> m.svc in s.state.containers)
    && (forall id :: id in s.sweeps ==> SweepRowsOk(s, s.sweeps[id]))
  }

  ghost predicate SweepRowsOk(s: Sys, run: SweepRun) {
    run.rows.Keys <= s.state.containers.Keys && Keyed(run.rows)
  }

  ghost predicate Vacant(s: Sys, svc: string) {
    forall t :: t in s.bodies ==> s.bodies[t].svc != svc
  }

  /** The action traffic of a service is what its finished bodies delivered, one after the other, followed by what the
      body under way has delivered. */
  ghost predicate TrafficInv(s: Sys) {
    && (forall t :: t in s.bodies ==>
          ActionsOf(Sent(s), s.bodies[t].svc) == Delivered(s.finished, Serves(s.bodies[t].svc)) + s.bodies[t].delivered)
    && (forall svc :: Vacant(s, svc) ==> ActionsOf(Sent(s), svc) == Delivered(s.finished, Serves(svc)))
  }

  function UnderWay(s: Sys, t: LS.Tid): seq<Msg> {
    if t in s.bodies then s.bodies[t].delivered else []
  }

  /** What a thread sent is what its bodies delivered, and a sweep's marks enclose its polls. */
  ghost predicate OrderInv(s: Sys) {
    (forall t :: ThreadOrdered(s, t)) && (forall id :: SweepOrdered(By(s.sent, Sweep(id)), StageOf(s, id)))
  }

  ghost predicate ThreadOrdered(s: Sys, t: LS.Tid) {
    By(s.sent, Thread(t)) == Delivered(s.finished, RunBy(t)) + UnderWay(s, t)
  }

  function StageOf(s: Sys, id: int): Option<Stage> {
    if id in s.sweeps then Some(s.sweeps[id].stage) else None
  }

  /** A sweep's messages so far: nothing before it began, its start mark first, its end mark last and only once ended. */
  ghost predicate SweepOrdered(ms: seq<Msg>, stage: Option<Stage>) {
    && (stage.None? ==> ms == [])
    && (stage == Some(Begun) ==> |ms| <= 1)
    && (forall i :: 0 <= i < |ms| && ms[i].SweepStart? ==> i == 0)
    && (forall i :: 0 <= i < |ms| && ms[i].SweepEnd? ==> i == |ms| - 1 && stage == Some(Ended))
  }

  ghost predicate FifoInv(s: Sys) {
    s.log + s.queue == Sent(s)
  }

  ghost predicate Inv(s: Sys) {
    BodiesInv(s) && RunsInv(s) && RowsInv(s) && TrafficInv(s) && OrderInv(s) && FifoInv(s)
  }

  // ---------------------------------------------------------------- footprints

  /** At most one message was sent between `s` and `s'`. */
  ghost predicate SentAtMost(s: Sys, s': Sys, ok: Sending -> bool) {
    s'.sent == s.sent || (|s'.sent| == |s.sent| + 1 && s'.sent[..|s.sent|] == s.sent && ok(s'.sent[|s.sent|]))
  }

  predicate IsBodyEvent(e: Event) {
    e.LockStep? || e.Snapshot? || e.Send? || e.Drop?
  }

  predicate IsSweepEvent(e: Event) {
    e.SweepBegin? || e.SweepSnapshot? || e.Poll? || e.SweepFinish?
  }

  /** What the other producers and the consumer leave alone. */
  ghost predicate SparesBodies(s: Sys, s': Sys) {
    s'.bodies == s.bodies && s'.finished == s.finished && s'.lost == s.lost
    && SentAtMost(s, s', (x: Sending) => !x.who.Thread? && !IsAction(x.msg))
  }

  lemma OthersSpareBodies(s: Sys, e: Event, s': Sys)
    requires Next(s, e, s') && !IsBodyEvent(e)
    ensures SparesBodies(s, s')
  {
  }

  ghost predicate SparesSweeps(s: Sys, s': Sys) {
    s'.sweeps == s.sweeps && SentAtMost(s, s', (x: Sending) => !x.who.Sweep?)
  }

  lemma OthersSpareSweeps(s: Sys, e: Event, s': Sys)
    requires Next(s, e, s') && !IsSweepEvent(e)
    ensures SparesSweeps(s, s')
  {
  }

  // ---------------------------------------------------------------- threads and their runs

  lemma RowsOnlyGrow(s: Sys, e: Event, s': Sys)
    requires Next(s, e, s')
    ensures s.state.containers.Keys <= s'.state.containers.Keys
  {
  }

  lemma BodyStays(s: Sys, s': Sys, u: LS.Tid)
    requires u in s.bodies && BodyOk(s, u)
    requires LS.PcOf(s'.lock, u) == LS.PcOf(s.lock, u)
    requires u in s'.bodies && s'.bodies[u].svc == s.bodies[u].svc && s'.bodies[u].thread == s.bodies[u].thread
    requires s'.bodies[u].script == s.bodies[u].script
    requires s.state.containers.Keys <= s'.state.containers.Keys
    ensures BodyOk(s', u)
  {
  }

  lemma BodiesKeptByLockStep(s: Sys, t: LS.Tid, a: LS.Step, s': Sys)
    requires BodiesInv(s) && Next(s, LockStep(t, a), s')
    ensures BodiesInv(s')
  {
    LS.InvKept(s.lock, t, a, s'.lock);
    forall u | u in s'.bodies ensures BodyOk(s', u) {
      LS.StepIsLocal(s.lock, t, a, s'.lock, u);
      BodyStays(s, s', u);
    }
  }

  lemma BodiesKept(s: Sys, e: Event, s': Sys)
    requires BodiesInv(s) && Next(s, e, s')
    ensures BodiesInv(s')
  {
    if e.LockStep? {
      BodiesKeptByLockStep(s, e.t, e.a, s');
    } else {
      RowsOnlyGrow(s, e, s');
      forall u | u in s'.bodies ensures BodyOk(s', u) {
        if u in s.bodies { BodyStays(s, s', u); }
      }
    }
  }

  lemma RunTried(b: BodyRun, lost: set<string>, got: seq<Msg>, lost': set<string>)
    requires RunOk(b, lost) && b.tried < |b.script| && lost <= lost'
    requires got == [b.script[b.tried]] || (got == [] && b.svc in lost')
    ensures RunOk(b.(tried := b.tried + 1, delivered := b.delivered + got), lost')
  {
    var whole, m := b.script[..b.tried + 1], b.script[b.tried];
    assert whole[..|whole| - 1] == b.script[..b.tried] && whole == b.script[..b.tried] + [m];
    if got == [m] {
      var part := b.delivered + got;
      assert part[..|part| - 1] == b.delivered;
    } else {
      assert b.delivered + got == b.delivered;
    }
  }

  lemma RunsKeptByBody(s: Sys, e: Event, s': Sys)
    requires RunsInv(s) && Next(s, e, s') && IsBodyEvent(e)
    ensures RunsInv(s')
  {
    match e
    case LockStep(t, a) =>
      if a == LS.Unlock {
        assert forall b :: b in s'.finished ==> b in s.finished || b == s.bodies[t];
      }
    case Snapshot(t, script) => assert script[..0] == [];
    case Send(t) => RunTried(s.bodies[t], s.lost, [NextSend(s, t)], s'.lost);
    case Drop(t) => RunTried(s.bodies[t], s.lost, [], s'.lost);
  }

  lemma RunsSpared(s: Sys, s': Sys)
    requires RunsInv(s) && SparesBodies(s, s')
    ensures RunsInv(s')
  {
  }

  lemma RunsKept(s: Sys, e: Event, s': Sys)
    requires RunsInv(s) && Next(s, e, s')
    ensures RunsInv(s')
  {
    if IsBodyEvent(e) {
      RunsKeptByBody(s, e, s');
    } else {
      OthersSpareBodies(s, e, s');
      RunsSpared(s, s');
    }
  }

  /** A body's next message is one of its service's actions, and its row is there. */
  lemma NextSendNeedsItsRow(s: Sys, t: LS.Tid)
    requires BodiesInv(s) && RunsInv(s) && MidBody(s, t)
    ensures Concerns(NextSend(s, t), s.bodies[t].svc) && NeedsRow(NextSend(s, t))
    ensures NextSend(s, t).svc in s.state.containers
  {
    assert BodyOk(s, t) && RunOk(s.bodies[t], s.lost);
    ScriptIsBlock(s.bodies[t].svc, s.bodies[t].snap, s.bodies[t].script);
  }

  // ---------------------------------------------------------------- rows

  lemma KeyedByOne(m: Msg, s: State)
    requires Keyed(s.containers)
    requires NeedsRow(m) ==> m.svc in s.containers
    ensures Keyed(Apply(m, s).containers)
  {
    forall k | k in Apply(m, s).containers ensures Apply(m, s).containers[k].service == k {
      RowAfterApply(m, s, k);
      if !IsSweep(m) { ServiceAfter(m, Row(s, k)); }
    }
  }

  lemma RowsKeptByConsume(s: Sys, s': Sys)
    requires RowsInv(s) && Next(s, Consume, s')
    ensures RowsInv(s')
  {
    var m := s.queue[0];
    assert m in s.queue;
    RowsOnlyGrow(s, Consume, s');
    KeyedByOne(m, s.state);
    FindsRowsSnoc(s.init, s.log, m);
    assert (s.log + [m])[..|s.log|] == s.log;
    assert forall id :: id in s'.sweeps ==> SweepRowsOk(s, s'.sweeps[id]);
  }

  lemma RowsKeptByEnqueue(s: Sys, who: Producer, m: Msg)
    requires RowsInv(s) && (NeedsRow(m) ==> m.svc in s.state.containers)
    ensures RowsInv(Enqueue(s, who, m))
  {
    assert forall id :: id in s.sweeps ==> SweepRowsOk(s, s.sweeps[id]);
  }

  lemma RowsKeptBySweep(s: Sys, id: int, run: SweepRun)
    requires RowsInv(s) && SweepRowsOk(s, run)
    ensures RowsInv(s.(sweeps := s.sweeps[id := run]))
  {
    var s' := s.(sweeps := s.sweeps[id := run]);
    forall i | i in s'.sweeps ensures SweepRowsOk(s', s'.sweeps[i]) {
      assert i in s.sweeps ==> SweepRowsOk(s, s.sweeps[i]);
    }
  }

  /** The rows part depends on these fields only. */
  lemma RowsSame(s: Sys, s': Sys)
    requires RowsInv(s) && s'.state == s.state && s'.init == s.init && s'.log == s.log
    requires s'.queue == s.queue && s'.sweeps == s.sweeps
    ensures RowsInv(s')
  {
    assert forall id :: id in s.sweeps ==> SweepRowsOk(s, s.sweeps[id]);
  }

  lemma RowsKept(s: Sys, e: Event, s': Sys)
    requires BodiesInv(s) && RunsInv(s) && RowsInv(s) && Next(s, e, s')
    ensures RowsInv(s')
  {
    match e
    case Send(t) =>
      NextSendNeedsItsRow(s, t);
      var tried := TriedOne(s, t, [NextSend(s, t)]);
      RowsSame(s, tried);
      RowsKeptByEnqueue(tried, Thread(t), NextSend(s, t));
    case Discover(m) => RowsKeptByEnqueue(s, Discovery, m);
    case SweepBegin(id, at, dropped) =>
      RowsKeptBySweep(s, id, SweepRun(map[], Begun));
      RowsKeptByEnqueue(s.(sweeps := s.sweeps[id := SweepRun(map[], Begun)]), Sweep(id), SweepStart(at));
    case SweepSnapshot(id) => RowsKeptBySweep(s, id, SweepRun(s.state.containers, Polling));
    case Poll(id, key, m) =>
      assert SweepRowsOk(s, s.sweeps[id]);
      RowsKeptByEnqueue(s, Sweep(id), m);
    case SweepFinish(id, at, dropped) =>
      assert SweepRowsOk(s, s.sweeps[id]);
      RowsKeptBySweep(s, id, s.sweeps[id].(stage := Ended));
      RowsKeptByEnqueue(s.(sweeps := s.sweeps[id := s.sweeps[id].(stage := Ended)]), Sweep(id), SweepEnd(at));
    case Consume => RowsKeptByConsume(s, s');
    case _ => RowsSame(s, s');
  }

  // ---------------------------------------------------------------- traffic

  lemma TrafficSpared(s: Sys, s': Sys)
    requires TrafficInv(s) && SparesBodies(s, s')
    ensures TrafficInv(s')
  {
    if s'.sent != s.sent {
      var m := s'.sent[|s.sent|].msg;
      assert Sent(s') == Sent(s) + [m];
      forall svc: string ensures ActionsOf(Sent(s'), svc) == ActionsOf(Sent(s), svc) {
        ActionsOfSnoc(Sent(s), m, svc);
      }
    }
    forall svc | Vacant(s', svc) ensures Vacant(s, svc) {}
  }

  /** Every body but that of `t` is of another service. */
  ghost predicate Alone(s: Sys, t: LS.Tid, svc: string) {
    forall u :: u in s.bodies && u != t ==> s.bodies[u].svc != svc
  }

  lemma LockMakesAlone(s: Sys, t: LS.Tid)
    requires BodiesInv(s) && LS.PcOf(s.lock, t).Body?
    ensures Alone(s, t, LS.PcOf(s.lock, t).svc)
  {
    forall u | u in s.bodies && u != t ensures s.bodies[u].svc != LS.PcOf(s.lock, t).svc {
      assert BodyOk(s, u);
      LS.OneBodyPerService(s.lock, t, u);
    }
  }

  /** Bodies keep their service while they last. */
  lemma VacantBefore(s: Sys, s': Sys, v: string)
    requires Vacant(s', v)
    requires forall u :: u in s.bodies ==> u in s'.bodies && s'.bodies[u].svc == s.bodies[u].svc
    ensures Vacant(s, v)
  {
    forall u | u in s.bodies ensures s.bodies[u].svc != v { assert s'.bodies[u].svc != v; }
  }

  lemma TrafficKeptBySend(s: Sys, t: LS.Tid, m: Msg, s': Sys)
    requires TrafficInv(s) && t in s.bodies && Alone(s, t, s.bodies[t].svc) && Concerns(m, s.bodies[t].svc)
    requires s'.sent == s.sent + [Sending(Thread(t), m)] && s'.finished == s.finished
    requires t in s'.bodies && s'.bodies == s.bodies[t := s'.bodies[t]]
    requires s'.bodies[t].svc == s.bodies[t].svc && s'.bodies[t].delivered == s.bodies[t].delivered + [m]
    ensures TrafficInv(s')
  {
    assert Sent(s') == Sent(s) + [m];
    forall u | u in s'.bodies
      ensures ActionsOf(Sent(s'), s'.bodies[u].svc)
              == Delivered(s'.finished, Serves(s'.bodies[u].svc)) + s'.bodies[u].delivered
    {
      ActionsOfSnoc(Sent(s), m, s'.bodies[u].svc);
      if u == t {
        Reassociate(Delivered(s.finished, Serves(s.bodies[t].svc)), s.bodies[t].delivered, [m]);
      }
    }
    forall v | Vacant(s', v) ensures ActionsOf(Sent(s'), v) == Delivered(s'.finished, Serves(v)) {
      ActionsOfSnoc(Sent(s), m, v);
      VacantBefore(s, s', v);
      assert s'.bodies[t].svc != v;
    }
  }

  lemma TrafficKeptByDrop(s: Sys, t: LS.Tid, s': Sys)
    requires TrafficInv(s) && t in s.bodies && s'.sent == s.sent && s'.finished == s.finished
    requires t in s'.bodies && s'.bodies == s.bodies[t := s'.bodies[t]]
    requires s'.bodies[t].svc == s.bodies[t].svc && s'.bodies[t].delivered == s.bodies[t].delivered
    ensures TrafficInv(s')
  {
    forall v | Vacant(s', v) ensures Vacant(s, v) { VacantBefore(s, s', v); }
  }

  lemma TrafficKeptByUnlock(s: Sys, t: LS.Tid, s': Sys)
    requires TrafficInv(s) && t in s.bodies && Alone(s, t, s.bodies[t].svc)
    requires s'.sent == s.sent && s'.bodies == s.bodies - {t} && s'.finished == s.finished + [s.bodies[t]]
    ensures TrafficInv(s')
  {
    forall u | u in s'.bodies
      ensures ActionsOf(Sent(s'), s'.bodies[u].svc)
              == Delivered(s'.finished, Serves(s'.bodies[u].svc)) + s'.bodies[u].delivered
    {
      DeliveredSnoc(s.finished, s.bodies[t], Serves(s'.bodies[u].svc));
    }
    forall v | Vacant(s', v) ensures ActionsOf(Sent(s'), v) == Delivered(s'.finished, Serves(v)) {
      DeliveredSnoc(s.finished, s.bodies[t], Serves(v));
      if v != s.bodies[t].svc {
        forall u | u in s.bodies ensures s.bodies[u].svc != v {
          if u != t { assert s'.bodies[u].svc != v; }
        }
        assert Vacant(s, v);
      }
    }
  }

  lemma TrafficKeptBySnapshot(s: Sys, t: LS.Tid, b: BodyRun, s': Sys)
    requires TrafficInv(s) && t !in s.bodies && Alone(s, t, b.svc) && b.delivered == []
    requires s'.sent == s.sent && s'.finished == s.finished && s'.bodies == s.bodies[t := b]
    ensures TrafficInv(s')
  {
    assert Vacant(s, b.svc);
    forall v | Vacant(s', v) ensures Vacant(s, v) { VacantBefore(s, s', v); }
  }

  lemma TrafficKeptByBody(s: Sys, e: Event, s': Sys)
    requires BodiesInv(s) && RunsInv(s) && TrafficInv(s) && Next(s, e, s') && IsBodyEvent(e)
    ensures TrafficInv(s')
  {
    match e
    case LockStep(t, a) =>
      if a == LS.Unlock {
        assert BodyOk(s, t);
        LockMakesAlone(s, t);
        TrafficKeptByUnlock(s, t, s');
      } else {
        TrafficSpared(s, s');
      }
    case Snapshot(t, script) =>
      LockMakesAlone(s, t);
      TrafficKeptBySnapshot(s, t, s'.bodies[t], s');
    case Send(t) =>
      NextSendNeedsItsRow(s, t);
      assert BodyOk(s, t);
      LockMakesAlone(s, t);
      TrafficKeptBySend(s, t, NextSend(s, t), s');
    case Drop(t) => TrafficKeptByDrop(s, t, s');
  }

  lemma TrafficKept(s: Sys, e: Event, s': Sys)
    requires BodiesInv(s) && RunsInv(s) && TrafficInv(s) && Next(s, e, s')
    ensures TrafficInv(s')
  {
    if IsBodyEvent(e) {
      TrafficKeptByBody(s, e, s');
    } else {
      OthersSpareBodies(s, e, s');
      TrafficSpared(s, s');
    }
  }

  // ---------------------------------------------------------------- order

  lemma ThreadsSpared(s: Sys, s': Sys, u: LS.Tid)
    requires ThreadOrdered(s, u) && s'.finished == s.finished && UnderWay(s', u) == UnderWay(s, u)
    requires SentAtMost(s, s', (x: Sending) => !x.who.Thread?)
    ensures ThreadOrdered(s', u)
  {
    if s'.sent != s.sent {
      assert s'.sent == s.sent + [s'.sent[|s.sent|]];
      BySnoc(s.sent, s'.sent[|s.sent|], Thread(u));
    }
  }

  lemma ThreadsKeptBySend(s: Sys, t: LS.Tid, m: Msg, s': Sys, u: LS.Tid)
    requires ThreadOrdered(s, u) && t in s.bodies && s'.finished == s.finished
    requires s'.sent == s.sent + [Sending(Thread(t), m)]
    requires t in s'.bodies && s'.bodies == s.bodies[t := s'.bodies[t]]
    requires s'.bodies[t].delivered == s.bodies[t].delivered + [m]
    ensures ThreadOrdered(s', u)
  {
    BySnoc(s.sent, Sending(Thread(t), m), Thread(u));
    if u == t {
      Reassociate(Delivered(s.finished, RunBy(u)), s.bodies[t].delivered, [m]);
    }
  }

  lemma ThreadsKeptByUnlock(s: Sys, t: LS.Tid, s': Sys, u: LS.Tid)
    requires ThreadOrdered(s, u) && t in s.bodies && s.bodies[t].thread == t
    requires s'.sent == s.sent && s'.bodies == s.bodies - {t} && s'.finished == s.finished + [s.bodies[t]]
    ensures ThreadOrdered(s', u)
  {
    DeliveredSnoc(s.finished, s.bodies[t], RunBy(u));
  }

  lemma ThreadsKeptByBody(s: Sys, e: Event, s': Sys, u: LS.Tid)
    requires BodiesInv(s) && ThreadOrdered(s, u) && Next(s, e, s') && IsBodyEvent(e)
    ensures ThreadOrdered(s', u)
  {
    match e
    case Send(t) => ThreadsKeptBySend(s, t, NextSend(s, t), s', u);
    case LockStep(t, a) =>
      if a == LS.Unlock {
        assert BodyOk(s, t);
        ThreadsKeptByUnlock(s, t, s', u);
      } else {
        ThreadsSpared(s, s', u);
      }
    case _ => ThreadsSpared(s, s', u);
  }

  lemma ThreadsKept(s: Sys, e: Event, s': Sys, u: LS.Tid)
    requires BodiesInv(s) && ThreadOrdered(s, u) && Next(s, e, s')
    ensures ThreadOrdered(s', u)
  {
    if IsBodyEvent(e) {
      ThreadsKeptByBody(s, e, s', u);
    } else {
      OthersSpareBodies(s, e, s');
      ThreadsSpared(s, s', u);
    }
  }

  /** A sweep's own message arrives at a stage that fits it. */
  lemma SweepExtends(ms: seq<Msg>, stage: Option<Stage>, m: Msg, stage': Stage)
    requires SweepOrdered(ms, stage)
    requires || (m.SweepStart? && stage.None? && stage' == Begun)
             || (!IsSweep(m) && stage == Some(Polling) && stage' == Polling)
             || (m.SweepEnd? && stage == Some(Polling) && stage' == Ended)
    ensures SweepOrdered(ms + [m], Some(stage'))
  {
  }

  /** The messages of sweep `id` after a step by producer `who`. */
  lemma SweepsByEnqueue(s: Sys, who: Producer, m: Msg, id: int)
    ensures By(s.sent + [Sending(who, m)], Sweep(id)) == By(s.sent, Sweep(id)) + (if who == Sweep(id) then [m] else [])
  {
    BySnoc(s.sent, Sending(who, m), Sweep(id));
  }

  lemma SweepsKeptByBegin(s: Sys, k: int, at: Instant, dropped: bool, s': Sys, id: int)
    requires Next(s, SweepBegin(k, at, dropped), s') && SweepOrdered(By(s.sent, Sweep(id)), StageOf(s, id))
    ensures SweepOrdered(By(s'.sent, Sweep(id)), StageOf(s', id))
  {
    SweepsByEnqueue(s, Sweep(k), SweepStart(at), id);
    if k == id { SweepExtends(By(s.sent, Sweep(id)), StageOf(s, id), SweepStart(at), Begun); }
  }

  lemma SweepsKeptBySnapshot(s: Sys, k: int, s': Sys, id: int)
    requires Next(s, SweepSnapshot(k), s') && SweepOrdered(By(s.sent, Sweep(id)), StageOf(s, id))
    ensures SweepOrdered(By(s'.sent, Sweep(id)), StageOf(s', id))
  {
  }

  lemma SweepsKeptByPoll(s: Sys, k: int, key: string, m: Msg, s': Sys, id: int)
    requires Next(s, Poll(k, key, m), s') && SweepOrdered(By(s.sent, Sweep(id)), StageOf(s, id))
    ensures SweepOrdered(By(s'.sent, Sweep(id)), StageOf(s', id))
  {
    SweepsByEnqueue(s, Sweep(k), m, id);
    if k == id { SweepExtends(By(s.sent, Sweep(id)), StageOf(s, id), m, Polling); }
  }

  lemma SweepsKeptByFinish(s: Sys, k: int, at: Instant, dropped: bool, s': Sys, id: int)
    requires Next(s, SweepFinish(k, at, dropped), s') && SweepOrdered(By(s.sent, Sweep(id)), StageOf(s, id))
    ensures SweepOrdered(By(s'.sent, Sweep(id)), StageOf(s', id))
  {
    SweepsByEnqueue(s, Sweep(k), SweepEnd(at), id);
    if k == id { SweepExtends(By(s.sent, Sweep(id)), StageOf(s, id), SweepEnd(at), Ended); }
  }

  lemma SweepsSpared(s: Sys, s': Sys, id: int)
    requires SparesSweeps(s, s') && SweepOrdered(By(s.sent, Sweep(id)), StageOf(s, id))
    ensures SweepOrdered(By(s'.sent, Sweep(id)), StageOf(s', id))
  {
    if s'.sent != s.sent {
      assert s'.sent == s.sent + [s'.sent[|s.sent|]];
      BySnoc(s.sent, s'.sent[|s.sent|], Sweep(id));
    }
  }

  lemma SweepsKept(s: Sys, e: Event, s': Sys, id: int)
    requires Next(s, e, s') && SweepOrdered(By(s.sent, Sweep(id)), StageOf(s, id))
    ensures SweepOrdered(By(s'.sent, Sweep(id)), StageOf(s', id))
  {
    match e
    case SweepBegin(k, at, dropped) => SweepsKeptByBegin(s, k, at, dropped, s', id);
    case SweepSnapshot(k) => SweepsKeptBySnapshot(s, k, s', id);
    case Poll(k, key, m) => SweepsKeptByPoll(s, k, key, m, s', id);
    case SweepFinish(k, at, dropped) => SweepsKeptByFinish(s, k, at, dropped, s', id);
    case _ =>
      OthersSpareSweeps(s, e, s');
      SweepsSpared(s, s', id);
  }

  lemma OrderKept(s: Sys, e: Event, s': Sys)
    requires BodiesInv(s) && OrderInv(s) && Next(s, e, s')
    ensures OrderInv(s')
  {
    forall u ensures ThreadOrdered(s', u) {
      ThreadsKept(s, e, s', u);
    }
    forall id ensures SweepOrdered(By(s'.sent, Sweep(id)), StageOf(s', id)) {
      SweepsKept(s, e, s', id);
    }
  }

  lemma FifoKept(s: Sys, e: Event, s': Sys)
    requires FifoInv(s) && Next(s, e, s')
    ensures FifoInv(s')
  {
    if s'.sent != s.sent {
      var x := s'.sent[|s.sent|];
      assert Sent(s') == Sent(s) + [x.msg];
      Reassociate(s.log, s.queue, [x.msg]);
    } else if e.Consume? {
      assert s.queue == [s.queue[0]] + s.queue[1..];
      Reassociate(s.log, [s.queue[0]], s.queue[1..]);
    }
  }

  lemma InvKept(s: Sys, e: Event, s': Sys)
    requires Inv(s) && Next(s, e, s')
    ensures Inv(s')
  {
    BodiesKept(s, e, s');
    RunsKept(s, e, s');
    RowsKept(s, e, s');
    TrafficKept(s, e, s');
    OrderKept(s, e, s');
    FifoKept(s, e, s');
  }

  // ---------------------------------------------------------------- whole runs

  ghost predicate AnyStep(s: Sys, s': Sys) {
    exists e :: Next(s, e, s')
  }

  ghost predicate Run(ss: seq<Sys>) {
    |ss| > 0 && Init(ss[0]) && forall i :: 0 <= i < |ss| - 1 ==> AnyStep(ss[i], ss[i + 1])
  }

  lemma InvKeptByAny(s: Sys, s': Sys)
    requires Inv(s) && AnyStep(s, s')
    ensures Inv(s') && s'.init == s.init
  {
    var e :| Next(s, e, s');
    InvKept(s, e, s');
  }

  lemma InitInv(s: Sys)
    requires Init(s)
    ensures Inv(s)
  {
    assert LS.Bodies(s.lock) == {} && LS.Leaving(s.lock) == {};
    assert Sent(s) == [];
  }

  lemma {:induction false} RunInv(ss: seq<Sys>, i: nat)
    requires Run(ss) && i < |ss|
    ensures Inv(ss[i]) && ss[i].init == ss[0].init
  {
    if i == 0 {
      InitInv(ss[0]);
    } else {
      RunInv(ss, i - 1);
      assert AnyStep(ss[i - 1], ss[i - 1 + 1]);
      InvKeptByAny(ss[i - 1], ss[i]);
    }
  }

  /** What only ever grows along a run. */
  ghost predicate Grows(s: Sys, s': Sys) {
    && s.log <= s'.log && s.sent <= s'.sent && s.finished <= s'.finished && s.lost <= s'.lost
    && s.state.containers.Keys <= s'.state.containers.Keys
    && (s.consumer == Returned ==> s'.consumer == Returned && s'.log == s.log)
  }

  lemma StepGrows(s: Sys, e: Event, s': Sys)
    requires Next(s, e, s')
    ensures Grows(s, s')
  {
    RowsOnlyGrow(s, e, s');
  }

  lemma AnyStepGrows(s: Sys, s': Sys)
    requires AnyStep(s, s')
    ensures Grows(s, s')
  {
    var e :| Next(s, e, s');
    StepGrows(s, e, s');
  }

  lemma {:induction false} RunGrows(ss: seq<Sys>, i: nat, j: nat)
    requires Run(ss) && i <= j < |ss|
    ensures Grows(ss[i], ss[j])
    decreases j
  {
    if i < j {
      RunGrows(ss, i, j - 1);
      assert AnyStep(ss[j - 1], ss[j - 1 + 1]);
      AnyStepGrows(ss[j - 1], ss[j]);
    }
  }

  /** What the rows part of the invariant says, on its own. */
  lemma RunRows(ss: seq<Sys>, i: nat)
    requires Run(ss) && i < |ss|
    ensures ss[i].state == ApplyAll(ss[0].init, ss[i].log) && FindsRows(ss[0].init, ss[i].log)
    ensures Keyed(ss[i].state.containers)
  {
    RunInv(ss, i);
  }

  // ---------------------------------------------------------------- main results

  /** The nonempty scripts of the runs of a service, in order. */
  function ScriptsOf(runs: seq<BodyRun>, svc: string): seq<seq<Msg>> {
    if runs == [] then []
    else
      var last := runs[|runs| - 1];
      ScriptsOf(runs[..|runs| - 1], svc) + (if last.svc == svc && last.script != [] then [last.script] else [])
  }

  lemma {:induction false} LosslessRunsDeliverScripts(runs: seq<BodyRun>, svc: string, lost: set<string>)
    requires svc !in lost && forall b :: b in runs ==> RunOk(b, lost) && b.tried == |b.script|
    ensures Delivered(runs, Serves(svc)) == Flatten(ScriptsOf(runs, svc))
    ensures forall x :: x in ScriptsOf(runs, svc) ==> IsBlock(x) && Scan(Outside, x, svc) == Outside
  {
    if runs != [] {
      var init, last := runs[..|runs| - 1], runs[|runs| - 1];
      assert last in runs && forall b :: b in init ==> b in runs;
      LosslessRunsDeliverScripts(init, svc, lost);
      assert last.script[..|last.script|] == last.script;
      assert last.delivered == last.script || last.svc != svc;
      if last.svc == svc && last.script != [] {
        assert ScriptsOf(runs, svc)[..|ScriptsOf(init, svc)|] == ScriptsOf(init, svc);
        ScriptShape(svc, last.snap, last.script);
        ScriptIsBlock(svc, last.snap, last.script);
      } else {
        assert ScriptsOf(runs, svc) == ScriptsOf(init, svc);
        assert Delivered(runs, Serves(svc)) == Delivered(init, Serves(svc));
      }
    }
  }

  lemma {:induction false} FlattenScans(bs: seq<seq<Msg>>, svc: string)
    requires forall b :: b in bs ==> Scan(Outside, b, svc) == Outside
    ensures Scan(Outside, Flatten(bs), svc) == Outside
  {
    if bs != [] {
      FlattenScans(bs[..|bs| - 1], svc);
      ScanConcat(Outside, Flatten(bs[..|bs| - 1]), bs[|bs| - 1], svc);
    }
  }

  /** The part a body of `svc` has sent of its script; nothing if there is no such body. */
  ghost predicate SentPart(s: Sys, svc: string, part: seq<Msg>) {
    if Vacant(s, svc) then part == []
    else exists t :: t in s.bodies && s.bodies[t].svc == svc && s.bodies[t].tried <= |s.bodies[t].script|
                     && part == s.bodies[t].script[..s.bodies[t].tried]
  }

  lemma TrafficOf(s: Sys, svc: string) returns (part: seq<Msg>)
    requires Inv(s) && svc !in s.lost
    ensures ActionsOf(Sent(s), svc) == Flatten(ScriptsOf(s.finished, svc)) + part
    ensures forall b :: b in ScriptsOf(s.finished, svc) ==> IsBlock(b) && Scan(Outside, b, svc) == Outside
    ensures SentPart(s, svc, part) && Scan(Outside, part, svc) != Broken
  {
    LosslessRunsDeliverScripts(s.finished, svc, s.lost);
    if Vacant(s, svc) {
      return [];
    }
    var t :| t in s.bodies && s.bodies[t].svc == svc;
    assert RunOk(s.bodies[t], s.lost);
    PartOfScript(svc, s.bodies[t].snap, s.bodies[t].script, s.bodies[t].tried);
    return s.bodies[t].script[..s.bodies[t].tried];
  }

  /** One block per action: the action traffic of a service that lost no send is the scripts of its finished bodies, in
      the order they held the lock, each a whole block, followed by the part that the body under way has sent. */
  lemma TrafficIsScripts(ss: seq<Sys>, i: nat, svc: string) returns (part: seq<Msg>)
    requires Run(ss) && i < |ss| && svc !in ss[i].lost
    ensures ActionsOf(Sent(ss[i]), svc) == Flatten(ScriptsOf(ss[i].finished, svc)) + part
    ensures forall b :: b in ScriptsOf(ss[i].finished, svc) ==> IsBlock(b)
    ensures SentPart(ss[i], svc, part)
  {
    RunInv(ss, i);
    part := TrafficOf(ss[i], svc);
  }

  /** With dropped sends too, the traffic is what the bodies delivered, body after body, each in the order of its script
      with some messages missing. */
  lemma TrafficIsDelivered(ss: seq<Sys>, i: nat, svc: string)
    requires Run(ss) && i < |ss|
    ensures Vacant(ss[i], svc) ==> ActionsOf(Sent(ss[i]), svc) == Delivered(ss[i].finished, Serves(svc))
    ensures forall t :: t in ss[i].bodies && ss[i].bodies[t].svc == svc ==>
              ActionsOf(Sent(ss[i]), svc) == Delivered(ss[i].finished, Serves(svc)) + ss[i].bodies[t].delivered
              && PartOf(ss[i].bodies[t].delivered, ss[i].bodies[t].script)
    ensures forall b :: b in ss[i].finished ==> PartOf(b.delivered, b.script)
  {
    RunInv(ss, i);
    forall b | b in ss[i].finished ensures PartOf(b.delivered, b.script) {
      assert RunOk(b, ss[i].lost) && b.script[..b.tried] == b.script;
    }
    forall t | t in ss[i].bodies ensures PartOf(ss[i].bodies[t].delivered, ss[i].bodies[t].script) {
      var b := ss[i].bodies[t];
      assert RunOk(b, ss[i].lost);
      PartOfPrefix(b.delivered, b.script, b.tried);
    }
  }

  lemma {:induction false} PartOfPrefix(part: seq<Msg>, whole: seq<Msg>, n: nat)
    requires n <= |whole| && PartOf(part, whole[..n])
    ensures PartOf(part, whole)
  {
    if n == |whole| {
      assert whole[..n] == whole;
    } else {
      assert whole[..|whole| - 1][..n] == whole[..n];
      PartOfPrefix(part, whole[..|whole| - 1], n);
    }
  }

  /** In terms of the grammar: finished blocks with at most the last one unfinished, and an unfinished one only while
      some thread is inside that body. */
  lemma TrafficIsBlocks(ss: seq<Sys>, i: nat, svc: string) returns (bs: seq<seq<Msg>>, open: seq<Msg>)
    requires Run(ss) && i < |ss| && svc !in ss[i].lost
    ensures BlocksThenOpen(ActionsOf(Sent(ss[i]), svc), bs, open, Scan(Outside, Sent(ss[i]), svc))
    ensures Vacant(ss[i], svc) ==> open == []
  {
    RunInv(ss, i);
    PhaseOf(ss[i], svc);
    bs, open := AcceptedIsBlocks(Sent(ss[i]), svc);
  }

  /** The phase of a lossless service is never broken, and is outside a block while no body of it runs. */
  lemma PhaseOf(s: Sys, svc: string)
    requires Inv(s) && svc !in s.lost
    ensures Scan(Outside, Sent(s), svc) != Broken
    ensures Vacant(s, svc) ==> Scan(Outside, Sent(s), svc) == Outside
  {
    var part := TrafficOf(s, svc);
    var bs := ScriptsOf(s.finished, svc);
    ScanActions(Sent(s), svc);
    FlattenScans(bs, svc);
    ScanConcat(Outside, Flatten(bs), part, svc);
  }

  lemma PartOfScript(svc: string, snap: Option<Container>, script: seq<Msg>, n: nat)
    requires BodyScript(svc, snap, script) && n <= |script|
    ensures Scan(Outside, script[..n], svc) != Broken
  {
    ScriptIsBlock(svc, snap, script);
    assert script == script[..n] + script[n..];
    ScanConcat(Outside, script[..n], script[n..], svc);
    BrokenStays(script[n..], svc);
  }

  lemma {:induction false} BrokenStays(ms: seq<Msg>, svc: string)
    ensures Scan(Broken, ms, svc) == Broken
  {
    if ms != [] {
      BrokenStays(ms[..|ms| - 1], svc);
    }
  }

  /** The spinner converges: once the queue is drained and nobody holds the service's mutex, the row of a service that
      lost no send is idle if and only if it was idle at boot or an action of it has run since. So from an idle start it
      is always idle then, and a spinner found at boot goes away with the first action. */
  lemma SpinnerSettles(ss: seq<Sys>, i: nat, svc: string)
    requires Run(ss) && i < |ss| && svc !in ss[i].lost
    requires ss[i].queue == []
    requires forall t :: LS.HoldsMutex(LS.PcOf(ss[i].lock, t)) ==> LS.PcOf(ss[i].lock, t).svc != svc
    ensures Idle(ss[i].state, svc) <==> Idle(ss[0].init, svc) || AnyTurn(ss[i].log, svc)
  {
    var s := ss[i];
    RunInv(ss, i);
    forall t | t in s.bodies ensures s.bodies[t].svc != svc {
      assert BodyOk(s, t);
      assert LS.HoldsMutex(LS.PcOf(s.lock, t));
    }
    assert s.log == Sent(s);
    PhaseOf(s, svc);
    UnfinishedIsOpen(s.log, svc);
    IdleExact(s.init, s.log, svc);
  }

  /** At every moment of every run, also one with dropped sends, ActionInFlight shows the last applied Start that has no
      Result after it, or what it showed at boot if no action of the service has had its turn. */
  lemma SpinnerShowsTraffic(ss: seq<Sys>, i: nat, svc: string)
    requires Run(ss) && i < |ss|
    ensures Row(ss[i].state, svc).actionInFlight
            == if AnyTurn(ss[i].log, svc) then SpinnerOf(Unfinished(ss[i].log, svc))
               else Row(ss[0].init, svc).actionInFlight
    ensures Idle(ss[i].state, svc)
            <==> Unfinished(ss[i].log, svc).None? && (Idle(ss[0].init, svc) || AnyTurn(ss[i].log, svc))
  {
    RunInv(ss, i);
    SpinnerExact(ss[i].init, ss[i].log, svc);
    IdleExact(ss[i].init, ss[i].log, svc);
  }

  /** Rows are never deleted, and each keeps the service name of its key, even though the poller addresses its
      messages by the name inside a possibly stale snapshot row. */
  lemma RowsKeepTheirKeys(ss: seq<Sys>, i: nat, j: nat)
    requires Run(ss) && i <= j < |ss|
    ensures ss[i].state.containers.Keys <= ss[j].state.containers.Keys
    ensures Keyed(ss[j].state.containers)
  {
    RunGrows(ss, i, j);
    RunRows(ss, j);
  }

  /** Whatever else runs in between, the rollback target changes only when a swap of that service is applied. */
  lemma PreviousStableBetween(ss: seq<Sys>, i: nat, j: nat, svc: string)
    requires Run(ss) && i <= j < |ss| && svc in ss[i].state.containers
    requires ss[i].log <= ss[j].log // always so, by RunGrows; needed to name the messages in between
    requires forall m :: m in ss[j].log[|ss[i].log|..] ==> !IsSwap(m, svc)
    ensures svc in ss[j].state.containers
    ensures SamePrevious(ss[i].state.containers[svc], ss[j].state.containers[svc])
  {
    RunRows(ss, i);
    RunRows(ss, j);
    var rest := ss[j].log[|ss[i].log|..];
    assert ss[j].log == ss[i].log + rest;
    ApplyAllConcat(ss[0].init, ss[i].log, rest);
    PreviousOnlyBySwap(ss[i].state, rest, svc);
  }

  /** Once an Update's swap from a known digest to a different one has been applied, the old digest is on record
      until the next swap of the service, whatever verify said and whatever events and polls interleave. */
  lemma UpdateKeepsRollbackTarget(ss: seq<Sys>, i: nat, k: nat, svc: string, snap: Container, pulled: string, at: Instant)
    requires Run(ss) && i < |ss| && k < |ss[i].log|
    requires ss[i].log[k] == UpdateSwapOf(svc, snap, pulled, at)
    requires snap.currentDigest != "" && snap.currentDigest != pulled
    requires forall m :: m in ss[i].log[k + 1..] ==> !IsSwap(m, svc)
    ensures svc in ss[i].state.containers
    ensures var c := ss[i].state.containers[svc];
            c.previousDigest == snap.currentDigest && c.previousDigestAt == at
            && c.previousDigestBuiltAt == snap.currentDigestAt
  {
    RunRows(ss, i);
    var log := ss[i].log;
    assert NeedsRow(log[k]);
    assert log == log[..k] + [log[k]] + log[k + 1..];
    OldDigestStaysRecorded(ss[0].init, log[..k], svc, snap, pulled, at, log[k + 1..]);
  }

  /** When an Update's swap leaves the digest that was running on record, over every run: if and only if that digest was
      known and differs from the pulled one, or was on record already, or was unknown with nothing recorded in its place. */
  lemma UpdateRecordsRunningIff(ss: seq<Sys>, i: nat, k: nat, svc: string, snap: Container, pulled: string, at: Instant)
    requires Run(ss) && i < |ss| && k < |ss[i].log|
    requires ss[i].log[k] == UpdateSwapOf(svc, snap, pulled, at)
    requires forall m :: m in ss[i].log[k + 1..] ==> !IsSwap(m, svc)
    ensures svc in ss[i].state.containers
    ensures ss[i].state.containers[svc].previousDigest == snap.currentDigest
            <==> RecordsRunning(snap, Row(ApplyAll(ss[0].init, ss[i].log[..k]), svc), pulled)
  {
    RunRows(ss, i);
    var log := ss[i].log;
    assert NeedsRow(log[k]);
    assert log == log[..k] + [log[k]] + log[k + 1..];
    SwapRecordsRunningIff(ss[0].init, log[..k], svc, snap, pulled, at, log[k + 1..]);
  }

  /** What is known of a swap in the log of a run: its row was there when it was applied, and is there now. */
  lemma SwapFindsRow(ss: seq<Sys>, i: nat, k: nat, svc: string)
    requires Run(ss) && i < |ss| && k < |ss[i].log| && IsSwap(ss[i].log[k], svc)
    ensures svc in ApplyAll(ss[0].init, ss[i].log[..k]).containers && svc in ss[i].state.containers
    ensures ss[i].state == ApplyAll(ss[0].init, ss[i].log[..k] + [ss[i].log[k]] + ss[i].log[k + 1..])
  {
    RunRows(ss, i);
    var log := ss[i].log;
    assert NeedsRow(log[k]);
    assert log == log[..k] + [log[k]] + log[k + 1..] && log == log[..k] + log[k..];
    ApplyAllConcat(ss[0].init, log[..k], log[k..]);
    RowsSurvive(ApplyAll(ss[0].init, log[..k]), log[k..]);
  }

  /** After a Rollback's swap from a known digest to any other target, stored or found in the cache, the way back is on
      record, with the swap time and the build time of what was running, until the next swap of the service. */
  lemma RollbackKeepsWayBack(ss: seq<Sys>, i: nat, k: nat, svc: string, snap: Container, target: string, at: Instant)
    requires Run(ss) && i < |ss| && k < |ss[i].log|
    requires ss[i].log[k] == RollbackSwapOf(svc, snap, target, at)
    requires snap.currentDigest != "" && snap.currentDigest != target
    requires forall m :: m in ss[i].log[k + 1..] ==> !IsSwap(m, svc)
    ensures svc in ss[i].state.containers
    ensures var c := ss[i].state.containers[svc];
            c.previousDigest == snap.currentDigest && c.previousDigestAt == at
            && c.previousDigestBuiltAt == snap.currentDigestAt
  {
    SwapFindsRow(ss, i, k, svc);
    RowFacts.RollbackRecords(ss[0].init, ss[i].log[..k], svc, snap, target, at, ss[i].log[k + 1..]);
  }

  /** And the target is the running digest until the next swap or upsert. */
  lemma RollbackRunsTarget(ss: seq<Sys>, i: nat, k: nat, svc: string, snap: Container, target: string, at: Instant)
    requires Run(ss) && i < |ss| && k < |ss[i].log|
    requires ss[i].log[k] == RollbackSwapOf(svc, snap, target, at)
    requires forall m :: m in ss[i].log[k + 1..] ==> !RowFacts.SetsCurrent(m, svc)
    ensures svc in ss[i].state.containers && ss[i].state.containers[svc].currentDigest == target
  {
    SwapFindsRow(ss, i, k, svc);
    RowFacts.RollbackMovesToTarget(ss[0].init, ss[i].log[..k], svc, snap, target, at, ss[i].log[k + 1..]);
  }

  /** Likewise after an Update's swap it is the pulled one. */
  lemma UpdateRunsPulled(ss: seq<Sys>, i: nat, k: nat, svc: string, snap: Container, pulled: string, at: Instant)
    requires Run(ss) && i < |ss| && k < |ss[i].log|
    requires ss[i].log[k] == UpdateSwapOf(svc, snap, pulled, at)
    requires forall m :: m in ss[i].log[k + 1..] ==> !RowFacts.SetsCurrent(m, svc)
    ensures svc in ss[i].state.containers && ss[i].state.containers[svc].currentDigest == pulled
  {
    SwapFindsRow(ss, i, k, svc);
    RowFacts.UpdateMovesToPulled(ss[0].init, ss[i].log[..k], svc, snap, pulled, at, ss[i].log[k + 1..]);
  }

  /** At every moment of every run the available digest is the one the last applied poll or ForcePull result brought. */
  lemma AvailableIsLastBrought(ss: seq<Sys>, i: nat, k: nat, svc: string)
    requires Run(ss) && i < |ss| && k < |ss[i].log| && RowFacts.Brings(ss[i].log[k], svc)
    requires forall m :: m in ss[i].log[k + 1..] ==> !RowFacts.Brings(m, svc)
    ensures Row(ss[i].state, svc).availableDigest == ss[i].log[k].digest
  {
    RunRows(ss, i);
    var log := ss[i].log;
    assert NeedsRow(log[k]);
    assert log == log[..k] + [log[k]] + log[k + 1..];
    RowFacts.AvailableIsLastBrought(ss[0].init, log[..k], log[k], log[k + 1..], svc);
  }

  /** FIFO, exactly once: the applied messages followed by the buffered ones are what the producers sent, in order; the
      record of what was sent only grows at its end; and the document is what the applied part of it makes. */
  lemma FifoExactlyOnce(ss: seq<Sys>, i: nat, j: nat)
    requires Run(ss) && i <= j < |ss|
    ensures ss[j].log + ss[j].queue == Sent(ss[j])
    ensures ss[i].sent <= ss[j].sent && ss[i].log <= ss[j].log
    ensures ss[j].state == ApplyAll(ss[0].init, Sent(ss[j])[..|ss[j].log|])
  {
    RunGrows(ss, i, j);
    RunInv(ss, j);
    assert (ss[j].log + ss[j].queue)[..|ss[j].log|] == ss[j].log;
  }

  /** Each producer's messages keep its own order: a thread's are what its bodies delivered, body after body in script
      order; a sweep's start mark comes before its polls and its end mark after them. */
  lemma ProducersKeepOrder(ss: seq<Sys>, i: nat, t: LS.Tid, id: int)
    requires Run(ss) && i < |ss|
    ensures By(ss[i].sent, Thread(t)) == Delivered(ss[i].finished, RunBy(t)) + UnderWay(ss[i], t)
    ensures SweepOrdered(By(ss[i].sent, Sweep(id)), StageOf(ss[i], id))
  {
    RunInv(ss, i);
    assert ThreadOrdered(ss[i], t);
  }

  lemma {:induction false} ByPrefix(sent: seq<Sending>, n: nat, who: Producer)
    requires n <= |sent|
    ensures By(sent[..n], who) <= By(sent, who)
  {
    if n < |sent| {
      assert sent[..|sent| - 1][..n] == sent[..n];
      ByPrefix(sent[..|sent| - 1], n, who);
    } else {
      assert sent[..n] == sent;
    }
  }

  /** And so the consumer applies them in that order: what it has applied of a producer's messages is a prefix of them. */
  lemma AppliedInProducerOrder(ss: seq<Sys>, i: nat, who: Producer)
    requires Run(ss) && i < |ss|
    ensures |ss[i].log| <= |ss[i].sent| && ss[i].log == Msgs(ss[i].sent[..|ss[i].log|])
    ensures By(ss[i].sent[..|ss[i].log|], who) <= By(ss[i].sent, who)
  {
    RunInv(ss, i);
    var n := |ss[i].log|;
    assert |Sent(ss[i])| == |ss[i].sent| && (ss[i].log + ss[i].queue)[..n] == ss[i].log;
    assert Msgs(ss[i].sent[..n]) == Sent(ss[i])[..n];
    ByPrefix(ss[i].sent, n, who);
  }

  lemma RunFifo(ss: seq<Sys>, i: nat)
    requires Run(ss) && i < |ss|
    ensures ss[i].log + ss[i].queue == Sent(ss[i])
  {
    RunInv(ss, i);
  }

  /** The updater returns only when everything sent until then has been applied, and nothing is applied after that. */
  lemma ReturnsDrained(ss: seq<Sys>, i: nat, j: nat)
    requires Run(ss) && 0 < i <= j < |ss| && ss[i - 1].consumer != Returned && ss[i].consumer == Returned
    ensures ss[i].cancelled && ss[i].queue == [] && ss[j].log == Sent(ss[i])
  {
    assert AnyStep(ss[i - 1], ss[i - 1 + 1]);
    DrainingMeansCancelled(ss, i - 1);
    ReturnStep(ss[i - 1], ss[i]);
    RunFifo(ss, i);
    RunGrows(ss, i, j);
    assert ss[i].log + [] == ss[i].log;
  }

  lemma ReturnStep(s: Sys, s': Sys)
    requires AnyStep(s, s') && s.consumer != Returned && s'.consumer == Returned
    ensures s.consumer == Draining && s'.queue == [] && s'.cancelled == s.cancelled
  {
  }

  lemma CancelStep(s: Sys, s': Sys)
    requires AnyStep(s, s') && (s.consumer != Running ==> s.cancelled)
    ensures s'.consumer != Running ==> s'.cancelled
  {
  }

  lemma {:induction false} DrainingMeansCancelled(ss: seq<Sys>, i: nat)
    requires Run(ss) && i < |ss|
    ensures ss[i].consumer != Running ==> ss[i].cancelled
  {
    if i > 0 {
      DrainingMeansCancelled(ss, i - 1);
      assert AnyStep(ss[i - 1], ss[i - 1 + 1]);
      CancelStep(ss[i - 1], ss[i]);
    }
  }

  // ---------------------------------------------------------------- who gets polled

  /** A sweep may say `m` about a row of its snapshot: the opt-out note of a pinned row that does not carry it yet, and
      anything else only of a row that is neither pinned nor stopped and names an image. */
  ghost predicate SaysOf(c: Container, m: Msg) {
    !IsSweep(m) && m.svc == c.service
    && if m.PinnedNote? then c.pinned && c.notes != "pinned: opt-out"
       else !c.pinned && !c.stopped && c.image != "" && (m.PollResolved? || m.FetchErrorNote? || m.TagMismatchNote?)
  }

  ghost predicate SaidRightly(s: Sys, x: Sending) {
    x.who.Sweep? && !IsSweep(x.msg) ==>
      x.who.id in s.sweeps && s.sweeps[x.who.id].stage != Begun
      && exists key :: key in s.sweeps[x.who.id].rows && SaysOf(s.sweeps[x.who.id].rows[key], x.msg)
  }

  /** A sweep keeps its snapshot once it has one. */
  lemma SnapshotStays(s: Sys, e: Event, s': Sys, id: int)
    requires Next(s, e, s') && id in s.sweeps && s.sweeps[id].stage != Begun
    ensures id in s'.sweeps && s'.sweeps[id].stage != Begun && s'.sweeps[id].rows == s.sweeps[id].rows
  {
    if !IsSweepEvent(e) {
      OthersSpareSweeps(s, e, s');
    }
  }

  lemma SaidRightlyStays(s: Sys, e: Event, s': Sys, x: Sending)
    requires Next(s, e, s') && SaidRightly(s, x)
    ensures SaidRightly(s', x)
  {
    if x.who.Sweep? && !IsSweep(x.msg) {
      SnapshotStays(s, e, s', x.who.id);
      var key :| key in s.sweeps[x.who.id].rows && SaysOf(s.sweeps[x.who.id].rows[key], x.msg);
      assert key in s'.sweeps[x.who.id].rows;
    }
  }

  lemma NewSaidRightly(s: Sys, e: Event, s': Sys)
    requires Next(s, e, s') && s'.sent != s.sent
    ensures |s'.sent| == |s.sent| + 1 && s'.sent[..|s.sent|] == s.sent && SaidRightly(s', s'.sent[|s.sent|])
  {
    if e.Poll? {
      assert SaysOf(s.sweeps[e.id].rows[e.key], e.m);
      assert e.key in s'.sweeps[e.id].rows;
    }
  }

  /** Over every run, whatever a sweep sent was about a row that its snapshot showed eligible for it, whatever became of
      that row since. */
  lemma {:induction false} SweepsSpeakOfEligibleRows(ss: seq<Sys>, i: nat)
    requires Run(ss) && i < |ss|
    ensures forall x :: x in ss[i].sent ==> SaidRightly(ss[i], x)
  {
    if i > 0 {
      SweepsSpeakOfEligibleRows(ss, i - 1);
      assert AnyStep(ss[i - 1], ss[i - 1 + 1]);
      SpeakingKept(ss[i - 1], ss[i]);
    }
  }

  lemma SpeakingKept(s: Sys, s': Sys)
    requires AnyStep(s, s') && forall x :: x in s.sent ==> SaidRightly(s, x)
    ensures forall x :: x in s'.sent ==> SaidRightly(s', x)
  {
    var e :| Next(s, e, s');
    if s'.sent != s.sent {
      NewSaidRightly(s, e, s');
      assert s'.sent == s.sent + [s'.sent[|s.sent|]];
    }
    forall x | x in s'.sent ensures SaidRightly(s', x) {
      if x in s.sent { SaidRightlyStays(s, e, s', x); }
    }
  }

  // ---------------------------------------------------------------- a run into an action

  lemma {:induction false} KeyedByAll(init: State, log: seq<Msg>)
    requires Keyed(init.containers) && FindsRows(init, log)
    ensures Keyed(ApplyAll(init, log).containers)
  {
    if log != [] {
      var n := |log| - 1;
      FindsRowsPrefix(init, log, n);
      KeyedByAll(init, log[..n]);
      KeyedByOne(log[n], ApplyAll(init, log[..n]));
    }
  }

  function Fresh(init: State, lock: LS.Lock): Sys {
    Sys(lock, map[], [], init, init, [], [], [], map[], Running, false, {})
  }

  /** Every keyed document starts a run. */
  lemma CanStart(init: State) returns (s: Sys)
    requires Keyed(init.containers)
    ensures Init(s) && s.init == init && Run([s])
  {
    s := Fresh(init, LS.Lock({}, None, map[], 0, map[], 0, map[]));
  }

  lemma RunSnoc(ss: seq<Sys>, e: Event, s': Sys)
    requires Run(ss) && Next(ss[|ss| - 1], e, s')
    ensures Run(ss + [s'])
  {
    var all := ss + [s'];
    forall i | 0 <= i < |all| - 1 ensures AnyStep(all[i], all[i + 1]) {
      if i < |ss| - 1 {
        assert AnyStep(ss[i], ss[i + 1]);
      }
    }
  }

  /** A thread alone can enter the body of any service. */
  lemma CanEnter(init: State, svc: string) returns (ss: seq<Sys>)
    requires Keyed(init.containers)
    ensures Run(ss) && ss[0].init == init
    ensures var s := ss[|ss| - 1]; s == Fresh(init, s.lock) && LS.PcOf(s.lock, 0) == LS.Body(svc, 0)
  {
    var locks, steps := LS.EnterBody(svc);
    ss := seq(|locks|, i requires 0 <= i < |locks| => Fresh(init, locks[i]));
    forall i | 0 <= i < |ss| - 1 ensures AnyStep(ss[i], ss[i + 1]) {
      assert Next(ss[i], LockStep(0, steps[i]), ss[i + 1]);
    }
  }

  /** And get as far as its Start being applied: the shortest run that leaves an action unfinished. */
  lemma CanLeaveUnfinished(init: State, svc: string) returns (ss: seq<Sys>)
    requires Keyed(init.containers) && svc in init.containers
    ensures Run(ss) && ss[0].init == init
    ensures ss[|ss| - 1].log == [ActionStart(svc, Updating)]
  {
    ss := CanEnter(init, svc);
    var s := ss[|ss| - 1];
    var row := init.containers[svc];
    var start := ActionStart(svc, Updating);
    var script := [start, ActionFailed(svc, "pull", "")];
    var run := BodyRun(0, svc, Some(row), script, 0, []);
    var s1 := s.(bodies := map[0 := run]);
    assert s.bodies[0 := run] == map[0 := run];
    assert BodyScript(svc, Some(row), script);
    assert Next(s, Snapshot(0, script), s1);
    RunSnoc(ss, Snapshot(0, script), s1);
    var s2 := Enqueue(TriedOne(s1, 0, [start]), Thread(0), start);
    assert Next(s1, Send(0), s2);
    RunSnoc(ss + [s1], Send(0), s2);
    var s3 := s2.(queue := s2.queue[1..], log := s2.log + [s2.queue[0]], state := Apply(s2.queue[0], s2.state));
    assert Next(s2, Consume, s3);
    RunSnoc(ss + [s1] + [s2], Consume, s3);
    ss := ss + [s1] + [s2] + [s3];
  }
}
