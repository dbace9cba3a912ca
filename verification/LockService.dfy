/** The per-service try-lock, one atomic step per lock operation, map access and counter update, for any
    number of threads and services. */
module LockService {
  import opened Text

  type Tid = int
  type Mid = int

  /** Where a thread stands inside `lockService` and the unlock closure it returns. */
  datatype Pc =
    | Idle
    | WantRead(svc: string)
    | Reading(svc: string)
    | ReadDone(svc: string, found: Option<Mid>)
    | WantWrite(svc: string)
    | Writing(svc: string)
    | Rechecked(svc: string, found: Option<Mid>)
    | Installed(svc: string, m: Mid)
    | Trying(svc: string, m: Mid)
    | Acquired(svc: string, m: Mid)
    | Body(svc: string, m: Mid)
    | Released(svc: string, m: Mid)

  datatype Lock = Lock(
    readers: set<Tid>,
    writer: Option<Tid>,
    locks: map<string, Mid>,
    nextMid: Mid,
    held: map<Mid, Tid>,
    inFlight: int,
    pcs: map<Tid, Pc>)

  function PcOf(s: Lock, t: Tid): Pc {
    if t in s.pcs then s.pcs[t] else Idle
  }

  function At(s: Lock, t: Tid, pc: Pc): Lock {
    s.(pcs := s.pcs[t := pc])
  }

  datatype Step =
    | Call(svc: string)
    | RLock | ReadMap | RUnlock
    | WLock | Recheck | Install | WUnlock
    | TryLockOk | TryLockBusy | CountUp
    | Unlock | CountDown

  function Find(locks: map<string, Mid>, svc: string): Option<Mid> {
    if svc in locks then Some(locks[svc]) else None
  }

  ghost predicate Next(s: Lock, t: Tid, a: Step, s': Lock) {
    var pc := PcOf(s, t);
    match a
    case Call(svc) => pc.Idle? && s' == At(s, t, WantRead(svc))
    case RLock => pc.WantRead? && s.writer.None? && s' == At(s, t, Reading(pc.svc)).(readers := s.readers + {t})
    case ReadMap => pc.Reading? && s' == At(s, t, ReadDone(pc.svc, Find(s.locks, pc.svc)))
    case RUnlock =>
      pc.ReadDone?
      && s' == At(s, t, if pc.found.Some? then Trying(pc.svc, pc.found.value) else WantWrite(pc.svc))
               .(readers := s.readers - {t})
    case WLock =>
      pc.WantWrite? && s.writer.None? && s.readers == {} && s' == At(s, t, Writing(pc.svc)).(writer := Some(t))
    case Recheck => pc.Writing? && s' == At(s, t, Rechecked(pc.svc, Find(s.locks, pc.svc)))
    case Install =>
      pc.Rechecked?
      && (if pc.found.Some?
          then s' == At(s, t, Installed(pc.svc, pc.found.value))
          else s' == At(s, t, Installed(pc.svc, s.nextMid)).(locks := s.locks[pc.svc := s.nextMid], nextMid := s.nextMid + 1))
    case WUnlock => pc.Installed? && s' == At(s, t, Trying(pc.svc, pc.m)).(writer := None)
    case TryLockOk =>
      pc.Trying? && pc.m !in s.held && s' == At(s, t, Acquired(pc.svc, pc.m)).(held := s.held[pc.m := t])
    case TryLockBusy => pc.Trying? && pc.m in s.held && s' == At(s, t, Idle)
    case CountUp => pc.Acquired? && s' == At(s, t, Body(pc.svc, pc.m)).(inFlight := s.inFlight + 1)
    case Unlock =>
      pc.Body? && pc.m in s.held && s' == At(s, t, Released(pc.svc, pc.m)).(held := s.held - {pc.m})
    case CountDown => pc.Released? && s' == At(s, t, Idle).(inFlight := s.inFlight - 1)
  }

  ghost predicate Init(s: Lock) {
    s == Lock({}, None, map[], 0, map[], 0, map[])
  }

  // ---------------------------------------------------------------- the invariant

  ghost function Where(pcs: map<Tid, Pc>, p: Pc -> bool): set<Tid> {
    set t | t in pcs && p(pcs[t])
  }

  ghost function Bodies(s: Lock): set<Tid> {
    Where(s.pcs, (pc: Pc) => pc.Body?)
  }

  ghost function Leaving(s: Lock): set<Tid> {
    Where(s.pcs, (pc: Pc) => pc.Released?)
  }

  predicate InReadLock(pc: Pc) {
    pc.Reading? || pc.ReadDone?
  }

  predicate InWriteLock(pc: Pc) {
    pc.Writing? || pc.Rechecked? || pc.Installed?
  }

  predicate HoldsMutex(pc: Pc) {
    pc.Acquired? || pc.Body?
  }

  ghost predicate OuterLockInv(s: Lock) {
    && (forall t :: t in s.readers <==> InReadLock(PcOf(s, t)))
    && (forall t :: InWriteLock(PcOf(s, t)) <==> s.writer == Some(t))
    && (s.writer.Some? ==> s.readers == {})
  }

  /** What thread state `pc` may rely on about the map: once seen, an entry stays. */
  ghost predicate KnowsEntry(s: Lock, pc: Pc) {
    && (pc.Installed? || pc.Trying? || pc.Acquired? || pc.Body? || pc.Released? ==>
          Find(s.locks, pc.svc) == Some(pc.m))
    && ((pc.ReadDone? || pc.Rechecked?) && pc.found.Some? ==> Find(s.locks, pc.svc) == pc.found)
    && (pc.Rechecked? && pc.found.None? ==> pc.svc !in s.locks)
  }

  ghost predicate MapInv(s: Lock) {
    && (forall svc :: svc in s.locks ==> s.locks[svc] < s.nextMid)
    && (forall a, b :: a in s.locks && b in s.locks && s.locks[a] == s.locks[b] ==> a == b)
    && (forall t :: KnowsEntry(s, PcOf(s, t)))
  }

  ghost predicate HeldInv(s: Lock) {
    && (forall t :: HoldsMutex(PcOf(s, t)) ==> PcOf(s, t).m in s.held && s.held[PcOf(s, t).m] == t)
    && (forall m :: m in s.held ==> HoldsMutex(PcOf(s, s.held[m])) && PcOf(s, s.held[m]).m == m)
  }

  ghost predicate CountInv(s: Lock) {
    s.inFlight == |Bodies(s)| + |Leaving(s)|
  }

  ghost predicate Inv(s: Lock) {
    OuterLockInv(s) && MapInv(s) && HeldInv(s) && CountInv(s)
  }

  lemma OuterLockKept(s: Lock, t: Tid, a: Step, s': Lock)
    requires OuterLockInv(s) && Next(s, t, a, s')
    ensures OuterLockInv(s')
  {
    forall u ensures PcOf(s', u) == if u == t then PcOf(s', t) else PcOf(s, u) {}
  }

  /** The map changes in one way only: the writer adds an entry that was not there. */
  lemma LocksGrow(s: Lock, t: Tid, a: Step, s': Lock)
    requires Next(s, t, a, s') && KnowsEntry(s, PcOf(s, t))
    ensures s'.locks == s.locks
            || (InWriteLock(PcOf(s, t)) && PcOf(s, t).svc !in s.locks && s'.locks == s.locks[PcOf(s, t).svc := s.nextMid])
  {
  }

  lemma EntryStaysKnownByOthers(s: Lock, t: Tid, a: Step, s': Lock, u: Tid)
    requires OuterLockInv(s) && Next(s, t, a, s') && u != t
    requires KnowsEntry(s, PcOf(s, u)) && KnowsEntry(s, PcOf(s, t))
    ensures KnowsEntry(s', PcOf(s', u))
  {
    LocksGrow(s, t, a, s');
    StepIsLocal(s, t, a, s', u);
    assert InWriteLock(PcOf(s, u)) <==> s.writer == Some(u);
    assert InWriteLock(PcOf(s, t)) <==> s.writer == Some(t);
    EntryKnownInMore(s, s', PcOf(s, u));
  }

  /** More entries do no harm, except to a writer that found none. */
  lemma EntryKnownInMore(s: Lock, s': Lock, pc: Pc)
    requires KnowsEntry(s, pc)
    requires forall svc :: svc in s.locks ==> svc in s'.locks && s'.locks[svc] == s.locks[svc]
    requires pc.Rechecked? ==> s'.locks == s.locks
    ensures KnowsEntry(s', pc)
  {
  }

  lemma EntryStaysKnown(s: Lock, t: Tid, a: Step, s': Lock, u: Tid)
    requires OuterLockInv(s) && Next(s, t, a, s')
    requires KnowsEntry(s, PcOf(s, u)) && KnowsEntry(s, PcOf(s, t))
    ensures KnowsEntry(s', PcOf(s', u))
  {
    if u != t {
      EntryStaysKnownByOthers(s, t, a, s', u);
    }
  }

  lemma MapKept(s: Lock, t: Tid, a: Step, s': Lock)
    requires OuterLockInv(s) && MapInv(s) && Next(s, t, a, s')
    ensures MapInv(s')
  {
    forall u ensures KnowsEntry(s', PcOf(s', u)) {
      EntryStaysKnown(s, t, a, s', u);
    }
  }

  lemma HeldKept(s: Lock, t: Tid, a: Step, s': Lock)
    requires HeldInv(s) && Next(s, t, a, s')
    ensures HeldInv(s')
  {
    forall u ensures PcOf(s', u) == if u == t then PcOf(s', t) else PcOf(s, u) {}
  }

  function One(b: bool): int {
    if b then 1 else 0
  }

  lemma SizeWithout(ts: set<Tid>, t: Tid)
    ensures |ts| == |ts - {t}| + One(t in ts)
  {
    assert ts == if t in ts then (ts - {t}) + {t} else ts - {t};
  }

  lemma WhereAfterMove(pcs: map<Tid, Pc>, t: Tid, pc: Pc, p: Pc -> bool)
    ensures |Where(pcs[t := pc], p)| == |Where(pcs, p)| - One(t in pcs && p(pcs[t])) + One(p(pc))
  {
    var before, after := Where(pcs, p), Where(pcs[t := pc], p);
    assert after - {t} == before - {t};
    SizeWithout(before, t);
    SizeWithout(after, t);
  }

  lemma CountKept(s: Lock, t: Tid, a: Step, s': Lock)
    requires CountInv(s) && Next(s, t, a, s')
    ensures CountInv(s')
  {
    var pc := PcOf(s', t);
    assert s'.pcs == s.pcs[t := pc];
    WhereAfterMove(s.pcs, t, pc, (pc: Pc) => pc.Body?);
    WhereAfterMove(s.pcs, t, pc, (pc: Pc) => pc.Released?);
  }

  lemma InvKept(s: Lock, t: Tid, a: Step, s': Lock)
    requires Inv(s) && Next(s, t, a, s')
    ensures Inv(s')
  {
    OuterLockKept(s, t, a, s');
    MapKept(s, t, a, s');
    HeldKept(s, t, a, s');
    CountKept(s, t, a, s');
  }

  // ---------------------------------------------------------------- whole runs

  ghost predicate AnyStep(s: Lock, s': Lock) {
    exists t, a :: Next(s, t, a, s')
  }

  ghost predicate Run(ss: seq<Lock>) {
    |ss| > 0 && Init(ss[0]) && forall i :: 0 <= i < |ss| - 1 ==> AnyStep(ss[i], ss[i + 1])
  }

  lemma {:induction false} RunInv(ss: seq<Lock>, i: nat)
    requires Run(ss) && i < |ss|
    ensures Inv(ss[i])
  {
    if i > 0 {
      RunInv(ss, i - 1);
      assert AnyStep(ss[i - 1], ss[i - 1 + 1]);
      var t, a :| Next(ss[i - 1], t, a, ss[i]);
      InvKept(ss[i - 1], t, a, ss[i]);
    } else {
      assert Bodies(ss[0]) == {} && Leaving(ss[0]) == {};
    }
  }

  lemma EntryKept(s: Lock, t: Tid, a: Step, s': Lock, svc: string)
    requires MapInv(s) && Next(s, t, a, s') && svc in s.locks
    ensures svc in s'.locks && s'.locks[svc] == s.locks[svc]
  {
    assert KnowsEntry(s, PcOf(s, t));
  }

  /** A service's map entry is written once and never replaced or dropped. */
  lemma {:induction false} EntryIsForever(ss: seq<Lock>, i: nat, j: nat, svc: string)
    requires Run(ss) && i <= j < |ss| && svc in ss[i].locks
    ensures svc in ss[j].locks && ss[j].locks[svc] == ss[i].locks[svc]
    decreases j
  {
    if i < j {
      EntryIsForever(ss, i, j - 1, svc);
      RunInv(ss, j - 1);
      assert AnyStep(ss[j - 1], ss[j - 1 + 1]);
      var t, a :| Next(ss[j - 1], t, a, ss[j]);
      EntryKept(ss[j - 1], t, a, ss[j], svc);
    }
  }

  /** A step moves only its own thread, and the only way out of a body is the unlock closure. */
  lemma StepIsLocal(s: Lock, t: Tid, a: Step, s': Lock, u: Tid)
    requires Next(s, t, a, s')
    ensures u != t ==> PcOf(s', u) == PcOf(s, u)
    ensures PcOf(s, t).Body? ==> a == Unlock
  {
  }

  lemma OneBodyPerService(s: Lock, t: Tid, u: Tid)
    requires Inv(s) && t != u
    requires PcOf(s, t).Body? && PcOf(s, u).Body?
    ensures PcOf(s, t).svc != PcOf(s, u).svc
  {
    assert KnowsEntry(s, PcOf(s, t)) && KnowsEntry(s, PcOf(s, u));
  }

  predicate TriesOrHolds(pc: Pc) {
    pc.Trying? || pc.Acquired? || pc.Body?
  }

  /** Every thread that gets as far as a try-lock of a service tries the one mutex that the map gives for it, and at most
      one thread holds that mutex or is inside the service's action body. */
  lemma MutualExclusion(ss: seq<Lock>, i: nat, t: Tid, u: Tid)
    requires Run(ss) && i < |ss|
    requires TriesOrHolds(PcOf(ss[i], t)) && TriesOrHolds(PcOf(ss[i], u))
    requires PcOf(ss[i], u).svc == PcOf(ss[i], t).svc
    ensures Find(ss[i].locks, PcOf(ss[i], t).svc) == Some(PcOf(ss[i], t).m)
    ensures PcOf(ss[i], u).m == PcOf(ss[i], t).m
    ensures HoldsMutex(PcOf(ss[i], t)) && HoldsMutex(PcOf(ss[i], u)) ==> u == t
  {
    RunInv(ss, i);
    assert KnowsEntry(ss[i], PcOf(ss[i], t)) && KnowsEntry(ss[i], PcOf(ss[i], u));
  }

  /** ErrServiceBusy is never spurious: a failed try-lock means that another thread holds the mutex of that very
      service, so different services never delay each other. */
  lemma BusyIsReal(ss: seq<Lock>, i: nat, t: Tid, s': Lock)
    requires Run(ss) && i < |ss| && Next(ss[i], t, TryLockBusy, s')
    ensures exists u :: u != t && HoldsMutex(PcOf(ss[i], u)) && PcOf(ss[i], u).svc == PcOf(ss[i], t).svc
  {
    RunInv(ss, i);
    var s := ss[i];
    var u := s.held[PcOf(s, t).m];
    assert KnowsEntry(s, PcOf(s, t)) && KnowsEntry(s, PcOf(s, u));
    assert u != t && HoldsMutex(PcOf(s, u)) && PcOf(s, u).svc == PcOf(s, t).svc;
  }

  predicate InLockCode(pc: Pc) {
    !pc.Idle? && !pc.Body?
  }

  /** The counter never goes negative, never undercounts the running bodies, overcounts exactly by the threads
      between Unlock and the decrement, and equals the number of held mutexes while nobody is inside
      `lockService` or an unlock closure. */
  lemma CounterIsExact(ss: seq<Lock>, i: nat)
    requires Run(ss) && i < |ss|
    ensures 0 <= |Bodies(ss[i])| <= ss[i].inFlight
    ensures ss[i].inFlight - |Bodies(ss[i])| == |Leaving(ss[i])|
    ensures (forall t :: !InLockCode(PcOf(ss[i], t))) ==> ss[i].inFlight == |ss[i].held|
  {
    RunInv(ss, i);
    var s := ss[i];
    if forall t :: !InLockCode(PcOf(s, t)) {
      forall t ensures t !in Leaving(s) { assert !InLockCode(PcOf(s, t)); }
      assert Leaving(s) == {};
      forall m | m in s.held ensures s.held[m] in Bodies(s) { assert !InLockCode(PcOf(s, s.held[m])); }
      forall t | t in Bodies(s) ensures s.pcs[t].m in s.held && s.held[s.pcs[t].m] == t {
        assert HoldsMutex(PcOf(s, t));
      }
      assert s.held.Values == Bodies(s);
      forall m, n | m in s.held && n in s.held && s.held[m] == s.held[n] ensures m == n {
        assert PcOf(s, s.held[m]).m == m;
      }
      SameSize(s.held, Bodies(s));
    }
  }

  /** An injective map has as many entries as values. */
  lemma {:induction false} SameSize<K, V>(held: map<K, V>, ts: set<V>)
    requires held.Values == ts
    requires forall m, n :: m in held && n in held && held[m] == held[n] ==> m == n
    ensures |held| == |ts|
    decreases |held|
  {
    if held.Keys != {} {
      var m :| m in held;
      var rest := held - {m};
      assert held.Keys == rest.Keys + {m};
      forall t ensures t in rest.Values <==> t in ts - {held[m]} {
        if t in ts - {held[m]} {
          var n :| n in held && held[n] == t;
          assert rest[n] == t;
        }
      }
      assert rest.Values == ts - {held[m]};
      SameSize(rest, ts - {held[m]});
    }
  }

  // ---------------------------------------------------------------- a run into a body

  /** Thread 0 goes from the initial state through `ss` by `steps`, without unlocking. */
  ghost predicate Path(ss: seq<Lock>, steps: seq<Step>) {
    |ss| == |steps| + 1 && Init(ss[0])
    && forall i :: 0 <= i < |steps| ==> Next(ss[i], 0, steps[i], ss[i + 1]) && steps[i] != Unlock
  }

  lemma PathSnoc(ss: seq<Lock>, steps: seq<Step>, a: Step, s': Lock)
    requires Path(ss, steps) && Next(ss[|ss| - 1], 0, a, s') && a != Unlock
    ensures Path(ss + [s'], steps + [a])
  {
  }

  /** On its own it finds no mutex for the service and goes for the write lock. */
  lemma ReachWriteLock(svc: string) returns (ss: seq<Lock>, steps: seq<Step>)
    ensures Path(ss, steps) && ss[|ss| - 1] == Lock({}, None, map[], 0, map[], 0, map[0 := WantWrite(svc)])
  {
    var s0 := Lock({}, None, map[], 0, map[], 0, map[]);
    ss, steps := [s0], [];
    var s1 := s0.(pcs := map[0 := WantRead(svc)]);
    PathSnoc(ss, steps, Call(svc), s1);
    ss, steps := ss + [s1], steps + [Call(svc)];
    var s2 := s1.(pcs := map[0 := Reading(svc)], readers := {0});
    PathSnoc(ss, steps, RLock, s2);
    ss, steps := ss + [s2], steps + [RLock];
    var s3 := s2.(pcs := map[0 := ReadDone(svc, None)]);
    PathSnoc(ss, steps, ReadMap, s3);
    ss, steps := ss + [s3], steps + [ReadMap];
    var s4 := s3.(pcs := map[0 := WantWrite(svc)], readers := {});
    PathSnoc(ss, steps, RUnlock, s4);
    ss, steps := ss + [s4], steps + [RUnlock];
  }

  /** It creates the mutex. */
  lemma ReachTryLock(svc: string) returns (ss: seq<Lock>, steps: seq<Step>)
    ensures Path(ss, steps) && ss[|ss| - 1] == Lock({}, None, map[svc := 0], 1, map[], 0, map[0 := Trying(svc, 0)])
  {
    ss, steps := ReachWriteLock(svc);
    var s4 := ss[|ss| - 1];
    var s5 := s4.(pcs := map[0 := Writing(svc)], writer := Some(0));
    PathSnoc(ss, steps, WLock, s5);
    ss, steps := ss + [s5], steps + [WLock];
    var s6 := s5.(pcs := map[0 := Rechecked(svc, None)]);
    PathSnoc(ss, steps, Recheck, s6);
    ss, steps := ss + [s6], steps + [Recheck];
    var s7 := s6.(pcs := map[0 := Installed(svc, 0)], locks := map[svc := 0], nextMid := 1);
    PathSnoc(ss, steps, Install, s7);
    ss, steps := ss + [s7], steps + [Install];
    var s8 := s7.(pcs := map[0 := Trying(svc, 0)], writer := None);
    PathSnoc(ss, steps, WUnlock, s8);
    ss, steps := ss + [s8], steps + [WUnlock];
  }

  /** And it enters the body. */
  lemma EnterBody(svc: string) returns (ss: seq<Lock>, steps: seq<Step>)
    ensures Path(ss, steps) && PcOf(ss[|ss| - 1], 0) == Body(svc, 0)
  {
    ss, steps := ReachTryLock(svc);
    var s8 := ss[|ss| - 1];
    var s9 := s8.(pcs := map[0 := Acquired(svc, 0)], held := map[0 := 0]);
    PathSnoc(ss, steps, TryLockOk, s9);
    ss, steps := ss + [s9], steps + [TryLockOk];
    var s10 := s9.(pcs := map[0 := Body(svc, 0)], inFlight := 1);
    PathSnoc(ss, steps, CountUp, s10);
    ss, steps := ss + [s10], steps + [CountUp];
  }
}
