/** The post-recreate verify loop, against any sequence of observations. */
module Verify {
  import opened Schema
  import opened Text

  datatype Health = NoHealth | Starting | Healthy | Unhealthy

  /** What one container inspection answers. */
  datatype Inspection =
    | Canceled
    | Failed
    | NoState
    | Answer(running: bool, restartCount: int, health: Health)

  /** What the loop sees in one round: is the context done, how long ago did it start, what would an inspection say. */
  datatype Tick = Tick(done: bool, elapsed: int, insp: Inspection)

  datatype Verdict = Verified | VerifyFailed | VerifyCanceled

  datatype Settings = Settings(baseline: int, optIn: bool, window: int, healthWindow: int, tick: int)

  const DEFAULT_WINDOW: int := 15 * SECOND
  const DEFAULT_HEALTH_WINDOW: int := 60 * SECOND

  function Window(s: Settings): (r: int)
    ensures r > 0
  {
    if s.window <= 0 then DEFAULT_WINDOW else s.window
  }

  function HealthWindow(s: Settings): (r: int)
    ensures r > 0
  {
    if s.healthWindow <= 0 then DEFAULT_HEALTH_WINDOW else s.healthWindow
  }

  /** The time the loop gives itself: the window of its mode and three ticks. */
  function Allowance(s: Settings): int {
    (if s.optIn then HealthWindow(s) else Window(s)) + 3 * s.tick
  }

  predicate Late(s: Settings, t: Tick) {
    t.elapsed > Allowance(s)
  }

  /** How many good inspections in a row the loop asks for. */
  function Target(s: Settings): (r: nat)
    requires s.tick > 0
    ensures r >= 1
  {
    if Window(s) / s.tick < 1 then 1 else Window(s) / s.tick
  }

  /** A tick decides at once, or counts as one good inspection. */
  function Decision(s: Settings, t: Tick): Option<Verdict> {
    if t.done then Some(VerifyCanceled)
    else if Late(s, t) then Some(if s.optIn then Verified else VerifyFailed)
    else match t.insp
      case Canceled => Some(VerifyCanceled)
      case Failed => Some(VerifyFailed)
      case NoState => Some(VerifyFailed)
      case Answer(running, restarts, health) =>
        if !running || restarts > s.baseline then Some(VerifyFailed)
        else if s.optIn && health == Unhealthy then Some(VerifyFailed)
        else if s.optIn && health == Healthy then Some(Verified)
        else None
  }

  /** The container was up, not restarted beyond the baseline, and not reported unhealthy when that matters. */
  predicate Good(s: Settings, i: Inspection) {
    i.Answer? && i.running && i.restartCount <= s.baseline && !(s.optIn && i.health == Unhealthy)
  }

  /** The simple reading: the first decisive tick among the first `Target` ones decides; if none is decisive,
      the container is verified. `n` is the number of ticks consulted. */
  ghost predicate FirstDecisive(s: Settings, obs: nat -> Tick, n: nat, v: Verdict)
    requires s.tick > 0
  {
    1 <= n <= Target(s)
    && (forall i: nat :: i < n - 1 ==> Decision(s, obs(i)).None?)
    && (Decision(s, obs(n - 1)) == Some(v) || (Decision(s, obs(n - 1)).None? && n == Target(s) && v == Verified))
  }

  /** verifyAfterRecreate. `ticks` counts the rounds, `inspections` the inspections it made. */
  method VerifyAfterRecreate(s: Settings, obs: nat -> Tick) returns (v: Verdict, ticks: nat, inspections: nat)
    requires s.tick > 0
    ensures FirstDecisive(s, obs, ticks, v)
    ensures inspections == if obs(ticks - 1).done || Late(s, obs(ticks - 1)) then ticks - 1 else ticks
  {
    var deadline := Window(s) + 3 * s.tick;
    if s.optIn {
      deadline := HealthWindow(s) + 3 * s.tick;
    }
    var target := Target(s);
    var consecutive := 0;
    var sawHealthDeclared := false;
    ticks, inspections := 0, 0;
    while true
      invariant 0 <= consecutive < target
      invariant ticks == inspections == consecutive
      invariant !sawHealthDeclared
      invariant forall i: nat :: i < ticks ==> Decision(s, obs(i)).None?
      decreases target - consecutive
    {
      var t := obs(ticks);
      ticks := ticks + 1;
      if t.done {
        return VerifyCanceled, ticks, inspections;
      }
      if t.elapsed > deadline {
        if s.optIn && !sawHealthDeclared {
          return Verified, ticks, inspections;
        }
        return VerifyFailed, ticks, inspections;
      }
      inspections := inspections + 1;
      if t.insp.Canceled? {
        return VerifyCanceled, ticks, inspections;
      }
      if t.insp.Failed? || t.insp.NoState? || !t.insp.running {
        return VerifyFailed, ticks, inspections;
      }
      if t.insp.restartCount > s.baseline {
        return VerifyFailed, ticks, inspections;
      }
      if s.optIn && t.insp.health == Unhealthy {
        sawHealthDeclared := true;
        return VerifyFailed, ticks, inspections;
      }
      if s.optIn && t.insp.health == Healthy {
        sawHealthDeclared := true;
        return Verified, ticks, inspections;
      }
      consecutive := consecutive + 1;
      if consecutive >= target {
        return Verified, ticks, inspections;
      }
    }
  }

  predicate ByHealthOrDeadline(s: Settings, t: Tick) {
    Late(s, t) || (t.insp.Answer? && t.insp.health == Healthy)
  }

  /** Success means that every inspection made was good, and comes about in three ways only: enough good
      inspections, a healthy answer under opt-in, or the deadline under opt-in. */
  lemma WhatSuccessMeans(s: Settings, obs: nat -> Tick, n: nat)
    requires s.tick > 0 && FirstDecisive(s, obs, n, Verified)
    ensures forall i: nat :: i < n && !Late(s, obs(i)) ==> Good(s, obs(i).insp)
    ensures (n == Target(s) && !Late(s, obs(n - 1))) || (s.optIn && ByHealthOrDeadline(s, obs(n - 1)))
  {
    forall i: nat | i < n && !Late(s, obs(i)) ensures Good(s, obs(i).insp) {
      if i < n - 1 {
        assert Decision(s, obs(i)).None?;
      }
    }
  }

  /** Reaching the deadline is success under opt-in and failure otherwise, whatever was seen before. */
  lemma DeadlineVerdict(s: Settings, obs: nat -> Tick, n: nat, v: Verdict)
    requires s.tick > 0 && FirstDecisive(s, obs, n, v)
    requires Late(s, obs(n - 1)) && !obs(n - 1).done
    ensures v == if s.optIn then Verified else VerifyFailed
  {
    assert Decision(s, obs(n - 1)).Some?;
  }

  /** The reading has one answer per observation sequence. */
  lemma VerdictIsUnique(s: Settings, obs: nat -> Tick, n1: nat, v1: Verdict, n2: nat, v2: Verdict)
    requires s.tick > 0 && FirstDecisive(s, obs, n1, v1) && FirstDecisive(s, obs, n2, v2)
    ensures n1 == n2 && v1 == v2
  {
    var i1: nat, i2: nat := n1 - 1, n2 - 1;
    assert i1 < i2 ==> Decision(s, obs(i1)).None?;
    assert i2 < i1 ==> Decision(s, obs(i2)).None?;
  }

  // ---------------------------------------------------------------- how many rounds

  /** A round that is neither cancelled nor past the deadline: 15 seconds unless set otherwise, or 60 under opt-in, and
      three ticks. */
  predicate OnTime(s: Settings, t: Tick) {
    var normal := if s.window <= 0 then 15 * SECOND else s.window;
    var health := if s.healthWindow <= 0 then 60 * SECOND else s.healthWindow;
    !t.done && t.elapsed <= (if s.optIn then health else normal) + 3 * s.tick
  }

  /** Success that is neither by deadline nor by a healthy answer took as many good rounds as ticks fit into the window,
      at least one: no fewer and no more. */
  lemma CountSuccessTakesTheWindow(s: Settings, obs: nat -> Tick, k: nat)
    requires s.tick > 0 && FirstDecisive(s, obs, k, Verified)
    requires !(s.optIn && ByHealthOrDeadline(s, obs(k - 1)))
    ensures var w := if s.window <= 0 then 15 * SECOND else s.window;
            var n := if w / s.tick < 1 then 1 else w / s.tick;
            k == n && forall i: nat :: i < n ==> OnTime(s, obs(i)) && Good(s, obs(i).insp)
  {
    WhatSuccessMeans(s, obs, k);
    forall i: nat | i < k ensures OnTime(s, obs(i)) && Good(s, obs(i).insp) {
      if i < k - 1 {
        assert Decision(s, obs(i)).None?;
      }
    }
  }

  /** That many good rounds on time are always enough. */
  lemma GoodRoundsSuffice(s: Settings, obs: nat -> Tick, k: nat, v: Verdict)
    requires s.tick > 0 && FirstDecisive(s, obs, k, v)
    requires var w := if s.window <= 0 then 15 * SECOND else s.window;
             var n := if w / s.tick < 1 then 1 else w / s.tick;
             forall i: nat :: i < n ==> OnTime(s, obs(i)) && Good(s, obs(i).insp)
    ensures v == Verified
  {
    var last: nat := k - 1;
    assert OnTime(s, obs(last)) && Good(s, obs(last).insp);
  }

  /** Without opt-in one bad inspection among them means failure, or cancellation if that is what it says. */
  lemma BadRoundFails(s: Settings, obs: nat -> Tick, k: nat, v: Verdict, bad: nat)
    requires s.tick > 0 && !s.optIn && FirstDecisive(s, obs, k, v)
    requires var w := if s.window <= 0 then 15 * SECOND else s.window;
             var n := if w / s.tick < 1 then 1 else w / s.tick;
             bad < n && (forall i: nat :: i < n ==> OnTime(s, obs(i))) && !Good(s, obs(bad).insp)
    ensures v != Verified
  {
    var last: nat := k - 1;
    assert OnTime(s, obs(last)) && OnTime(s, obs(bad));
    assert bad < last ==> Decision(s, obs(bad)).None?;
  }

  /** Under opt-in the first healthy answer, after good ones, is enough at once. */
  lemma HealthyIsEnough(s: Settings, obs: nat -> Tick, k: nat, v: Verdict, i: nat)
    requires s.tick > 0 && s.optIn && FirstDecisive(s, obs, k, v)
    requires var w := if s.window <= 0 then 15 * SECOND else s.window;
             var n := if w / s.tick < 1 then 1 else w / s.tick;
             i < n && forall j: nat :: j <= i ==> OnTime(s, obs(j)) && Good(s, obs(j).insp)
    requires obs(i).insp.health == Healthy
    ensures v == Verified && k <= i + 1
  {
    var last: nat := k - 1;
    assert i < last ==> Decision(s, obs(i)).None?;
    assert last <= i ==> OnTime(s, obs(last)) && Good(s, obs(last).insp);
  }

  /** Cancelled is reported exactly if the round that decided found the context done, or its inspection did. */
  lemma CancelledExactly(s: Settings, obs: nat -> Tick, k: nat, v: Verdict)
    requires s.tick > 0 && FirstDecisive(s, obs, k, v)
    ensures v == VerifyCanceled <==> obs(k - 1).done || (OnTime(s, obs(k - 1)) && obs(k - 1).insp.Canceled?)
  {
  }

  // ---------------------------------------------------------------- does it wait for health

  /** Rounds come one tick apart, or later when the host is busy. */
  ghost predicate NeverEarly(s: Settings, obs: nat -> Tick) {
    forall i: nat :: obs(i).elapsed >= i * s.tick
  }

  /** Rounds come exactly one tick apart. */
  ghost predicate Punctual(s: Settings, obs: nat -> Tick) {
    forall i: nat :: obs(i).elapsed == i * s.tick
  }

  /** Under opt-in, whatever the container does: it is verified only by a healthy answer or at the deadline. */
  ghost predicate WaitsForHealth(s: Settings)
    requires s.tick > 0
  {
    forall obs: nat -> Tick, n: nat :: NeverEarly(s, obs) && FirstDecisive(s, obs, n, Verified) ==>
      ByHealthOrDeadline(s, obs(n - 1))
  }

  /** The same on a host that is never late. */
  ghost predicate WaitsIfPunctual(s: Settings)
    requires s.tick > 0
  {
    forall obs: nat -> Tick, n: nat :: Punctual(s, obs) && FirstDecisive(s, obs, n, Verified) ==>
      ByHealthOrDeadline(s, obs(n - 1))
  }

  /** A container that is up and never gets beyond "starting". */
  function StartingForever(s: Settings): nat -> Tick {
    (i: nat) => Tick(false, i * s.tick, Answer(true, s.baseline, Starting))
  }

  lemma Earlier(i: nat, j: nat, tick: int)
    requires i <= j && tick > 0
    ensures i * tick <= j * tick
  {
  }

  /** If the last of the asked-for rounds is not late, such a container is verified by count alone. */
  lemma StartingForeverIsVerified(s: Settings)
    requires s.tick > 0 && s.optIn && (Target(s) - 1) * s.tick <= Allowance(s)
    ensures Punctual(s, StartingForever(s))
    ensures FirstDecisive(s, StartingForever(s), Target(s), Verified)
    ensures !ByHealthOrDeadline(s, StartingForever(s)(Target(s) - 1))
  {
    var obs := StartingForever(s);
    forall i: nat | i < Target(s) ensures Decision(s, obs(i)).None? {
      Earlier(i, Target(s) - 1, s.tick);
    }
  }

  lemma CountComesTooLate(s: Settings, obs: nat -> Tick, n: nat)
    requires s.tick > 0 && s.optIn && (Target(s) - 1) * s.tick > Allowance(s)
    requires NeverEarly(s, obs) && FirstDecisive(s, obs, n, Verified)
    ensures ByHealthOrDeadline(s, obs(n - 1))
  {
    WhatSuccessMeans(s, obs, n);
    var last: nat := Target(s) - 1;
    assert obs(last).elapsed >= last * s.tick;
  }

  /** Exactly when opt-in waits: a container is verified only by health or at the deadline if and only if the asked-for
      count of ticks takes longer than the healthcheck window and its three spare ticks. Hosts that run late make no
      difference. */
  lemma WaitsForHealthIff(s: Settings)
    requires s.tick > 0 && s.optIn
    ensures WaitsForHealth(s) <==> (Target(s) - 1) * s.tick > HealthWindow(s) + 3 * s.tick
    ensures WaitsIfPunctual(s) <==> (Target(s) - 1) * s.tick > HealthWindow(s) + 3 * s.tick
  {
    if (Target(s) - 1) * s.tick > Allowance(s) {
      forall obs: nat -> Tick, n: nat | NeverEarly(s, obs) && FirstDecisive(s, obs, n, Verified)
        ensures ByHealthOrDeadline(s, obs(n - 1))
      {
        CountComesTooLate(s, obs, n);
      }
    } else {
      StartingForeverIsVerified(s);
    }
  }

  /** With the shipped settings, 15 ticks of a second against a window of 60 seconds, it does not wait. */
  lemma DefaultsDoNotWait(baseline: int)
    ensures !WaitsForHealth(Settings(baseline, true, 0, 0, SECOND))
  {
    WaitsForHealthIff(Settings(baseline, true, 0, 0, SECOND));
  }

  /** Without opt-in the deadline is no obstacle: as long as rounds are at most three ticks behind, none of the asked-for
      ones is late. */
  lemma SlackSuffices(s: Settings, obs: nat -> Tick, i: nat)
    requires s.tick > 0 && !s.optIn && i < Target(s)
    requires obs(i).elapsed <= i * s.tick + 3 * s.tick
    ensures !Late(s, obs(i))
  {
    Earlier(i, Target(s) - 1, s.tick);
    assert (Window(s) / s.tick) * s.tick <= Window(s);
  }
}
