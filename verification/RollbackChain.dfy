/** Rolling back again and again. */
module RollbackChain {
  import opened Schema
  import opened Text
  import opened Messages
  import opened Scripts
  import opened Daemon
  import opened RollbackTarget
  import Actions
  import Recreate

  /** One successful rollback: the row it saw, the daemon's answers from exchange `from` on, the build time they gave
      it for its target, and the target. */
  datatype Step = Step(snap: Container, calls: seq<Call>, from: nat, built: Option<Instant>, target: string)

  /** The daemon's answers about `digest` are readable and true: an inspection by repository and digest may fail, one
      by bare digest does not, and both report the build time `at`. */
  ghost predicate Readable(calls: seq<Call>, from: nat, image: string, digest: string, at: Instant) {
    forall i :: from <= i < |calls| && calls[i].ImageInspected? ==>
      (calls[i].ref == digest ==> calls[i].image.Some?)
      && (calls[i].ref == digest || calls[i].ref == image + "@" + digest ==>
            calls[i].image.Some? ==> calls[i].image.value.built == Some(at))
  }

  /** The rollback went ahead for the reasons Rollback has, its snapshot had caught up with the running image's digest
      and build time, and the target's build time was readable. `images` gives the build times of the images ever
      cached on this host. */
  ghost predicate Informed(s: Step, images: map<string, Instant>) {
    && s.from <= |s.calls| && Justified(s.calls, s.from, s.snap, Go(s.target), s.built)
    && s.snap.currentDigest in images && s.snap.currentDigestAt == images[s.snap.currentDigest]
    && !IsZero(s.snap.currentDigestAt)
    && s.target in images && Readable(s.calls, s.from, s.snap.image, s.target, images[s.target])
  }

  /** An informed rollback goes strictly back in build time. */
  lemma InformedGoesBack(s: Step, images: map<string, Instant>)
    requires Informed(s, images)
    ensures images[s.target] < images[s.snap.currentDigest]
  {
    CandidacyStays(s.calls, s.calls, s.from, s.snap, s.target);
    assert s.built == Some(images[s.target]);
  }

  /** Each rollback starts from the digest the one before it moved to. */
  ghost predicate Chain(steps: seq<Step>, images: map<string, Instant>) {
    && (forall i :: 0 <= i < |steps| ==> Informed(steps[i], images))
    && (forall i :: 0 < i < |steps| ==> steps[i].snap.currentDigest == steps[i - 1].target)
  }

  predicate GoesBack(s: Step, images: map<string, Instant>) {
    s.snap.currentDigest in images && s.target in images && images[s.target] < images[s.snap.currentDigest]
  }

  ghost predicate Descending(steps: seq<Step>, images: map<string, Instant>) {
    && (forall i :: 0 <= i < |steps| ==> GoesBack(steps[i], images))
    && (forall i :: 0 < i < |steps| ==> steps[i].snap.currentDigest == steps[i - 1].target)
  }

  /** Informed rollbacks all go back. */
  lemma ChainDescends(steps: seq<Step>, images: map<string, Instant>)
    requires Chain(steps, images)
    ensures Descending(steps, images)
  {
    forall i | 0 <= i < |steps| ensures GoesBack(steps[i], images) {
      InformedGoesBack(steps[i], images);
    }
  }

  /** And so the running image's build time strictly decreases over any stretch of the chain. */
  lemma {:induction false} Descends(steps: seq<Step>, images: map<string, Instant>, i: nat, j: nat)
    requires Descending(steps, images) && i <= j < |steps|
    ensures steps[j].target in images && steps[i].snap.currentDigest in images && steps[i].target in images
    ensures images[steps[j].target] < images[steps[i].snap.currentDigest]
    ensures i < j ==> images[steps[j].target] < images[steps[i].target]
    decreases j
  {
    assert GoesBack(steps[i], images) && GoesBack(steps[j], images);
    if i < j {
      Descends(steps, images, i, j - 1);
    }
  }

  /** So no digest ever comes back. */
  lemma NeverRepeats(steps: seq<Step>, images: map<string, Instant>, i: nat, j: nat)
    requires Descending(steps, images) && i < j < |steps|
    ensures steps[i].target != steps[j].target && steps[j].target != steps[i].snap.currentDigest
  {
    Descends(steps, images, i, j);
  }

  function OlderThan(images: map<string, Instant>, at: Instant): set<string> {
    set d | d in images && images[d] < at
  }

  /** And the chain is no longer than the number of cached images older than the one it started from. */
  lemma ChainIsBounded(steps: seq<Step>, images: map<string, Instant>)
    requires Descending(steps, images) && steps != []
    ensures steps[0].snap.currentDigest in images
    ensures |steps| <= |OlderThan(images, images[steps[0].snap.currentDigest])|
  {
    assert GoesBack(steps[0], images);
    var older := OlderThan(images, images[steps[0].snap.currentDigest]);
    var targets := seq(|steps|, i requires 0 <= i < |steps| => steps[i].target);
    forall i | 0 <= i < |steps| ensures targets[i] in older {
      Descends(steps, images, 0, i);
    }
    forall i, j | 0 <= i < j < |steps| ensures targets[i] != targets[j] {
      NeverRepeats(steps, images, i, j);
    }
    DistinctFit(targets, older);
  }

  lemma {:induction false} DistinctFit(ts: seq<string>, s: set<string>)
    requires forall i :: 0 <= i < |ts| ==> ts[i] in s
    requires forall i, j :: 0 <= i < j < |ts| ==> ts[i] != ts[j]
    ensures |ts| <= |s|
    decreases |ts|
  {
    if ts != [] {
      var n := |ts| - 1;
      DistinctFit(ts[..n], s - {ts[n]});
      assert |s - {ts[n]}| == |s| - 1;
    }
  }

  // ---------------------------------------------------------------- from runs of Rollback

  /** A run of Rollback on a row it found: what it saw, what it did and why. */
  datatype Record = Record(before: seq<Call>, calls: seq<Call>, snap: Container, res: Actions.ActionResult,
                           script: seq<Msg>, p: Actions.Probe, why: Actions.Reasons, trail: Recreate.Trail)

  /** A successful rollback that is no no-op. */
  ghost predicate Succeeded(r: Record, svc: string) {
    r.p.tick > 0 && Actions.RolledBack(r.before, r.calls, svc, r.snap, r.res, r.script, r.p, r.why, r.trail)
    && r.res.Success? && !r.res.noOp
  }

  function StepOf(r: Record): Step {
    Step(r.snap, r.why.decided, |r.before|, r.why.built, if r.res.Success? then r.res.currentDigest else "")
  }

  /** Its target is the digest it reports and swaps to, and it was chosen for the reasons recorded; what came later did
      not touch them. */
  lemma SuccessIsAStep(r: Record, svc: string)
    requires Succeeded(r, svc)
    ensures Justified(r.why.decided, |r.before|, r.snap, Go(r.res.currentDigest), r.why.built)
    ensures Justified(r.calls, |r.before|, r.snap, Go(r.res.currentDigest), r.why.built)
    ensures RollbackScript(svc, r.snap, r.script)
    ensures |r.script| == 4 && r.script[2] == RollbackSwapOf(svc, r.snap, r.res.currentDigest, r.script[2].at)
  {
    JustifiedStays(r.why.decided, r.calls, |r.before|, r.snap, Go(r.res.currentDigest), r.why.built);
  }

  /** What the consumer applied from the last discovery upsert before the next snapshot on: the document it found, the
      upsert, and the rest. */
  datatype Between = Between(at: State, u: Msg, rest: seq<Msg>)

  /** The next rollback's snapshot comes after discovery has seen the new container and read its digest and build time.
      The swap may have been applied before or after that; no other swap of the service was. */
  ghost predicate Follows(r: Record, b: Between, next: Record, svc: string, images: map<string, Instant>)
    requires r.res.Success?
  {
    && next.snap == Row(ApplyAll(Apply(b.u, b.at), b.rest), svc)
    && b.u.Upsert? && b.u.svc == svc && b.u.running == r.res.currentDigest
    && b.u.running in images && b.u.runningAt == images[b.u.running]
    && (forall m :: m in b.rest ==> !(m.Upsert? && m.svc == svc))
    && (forall m :: m in b.rest && IsSwap(m, svc) ==> m in r.script)
  }

  /** That snapshot has caught up, whichever of swap and upsert came last. */
  lemma CaughtUp(r: Record, b: Between, next: Record, svc: string, images: map<string, Instant>)
    requires Succeeded(r, svc) && Follows(r, b, next, svc, images)
    ensures next.snap.currentDigest == r.res.currentDigest
    ensures next.snap.currentDigestAt == images[r.res.currentDigest]
  {
    SuccessIsAStep(r, svc);
    forall m | m in b.rest && IsSwap(m, svc) ensures m.next == r.res.currentDigest {
      SwapInScript(svc, r.snap, r.script, m);
    }
    CurrentFromUpsert(b.at, b.u, b.rest);
    LastUpsertDescribes(b.at, b.u, b.rest);
  }

  /** Successful rollbacks of one service on a host with build times `images`, all of them known. The first one's row is
      up to date; the later ones' rows are what the messages in between made of it. */
  ghost predicate Rollbacks(rs: seq<Record>, bs: seq<Between>, svc: string, images: map<string, Instant>) {
    && |bs| == |rs|
    && (forall d :: d in images ==> !IsZero(images[d]))
    && (forall i :: 0 <= i < |rs| ==> Succeeded(rs[i], svc) && TargetReadable(rs[i], images))
    && (forall i :: 0 < i < |rs| ==> Follows(rs[i - 1], bs[i - 1], rs[i], svc, images))
    && (rs != [] ==> UpToDate(rs[0].snap, images))
  }

  ghost predicate TargetReadable(r: Record, images: map<string, Instant>)
    requires r.res.Success?
  {
    r.res.currentDigest in images
    && Readable(r.why.decided, |r.before|, r.snap.image, r.res.currentDigest, images[r.res.currentDigest])
  }

  predicate UpToDate(c: Container, images: map<string, Instant>) {
    c.currentDigest in images && c.currentDigestAt == images[c.currentDigest]
  }

  function StepsOf(rs: seq<Record>): seq<Step> {
    seq(|rs|, i requires 0 <= i < |rs| => StepOf(rs[i]))
  }

  lemma RecordIsInformed(r: Record, svc: string, images: map<string, Instant>)
    requires Succeeded(r, svc) && TargetReadable(r, images) && UpToDate(r.snap, images)
    requires forall d :: d in images ==> !IsZero(images[d])
    ensures Informed(StepOf(r), images)
  {
    SuccessIsAStep(r, svc);
  }

  lemma EveryRowIsUpToDate(rs: seq<Record>, bs: seq<Between>, svc: string, images: map<string, Instant>, i: nat)
    requires Rollbacks(rs, bs, svc, images) && i < |rs|
    ensures UpToDate(rs[i].snap, images)
    ensures i > 0 ==> rs[i].snap.currentDigest == rs[i - 1].res.currentDigest
  {
    if i > 0 {
      CaughtUp(rs[i - 1], bs[i - 1], rs[i], svc, images);
      assert TargetReadable(rs[i - 1], images);
    }
  }

  lemma EveryRecordIsInformed(rs: seq<Record>, bs: seq<Between>, svc: string, images: map<string, Instant>, i: nat)
    requires Rollbacks(rs, bs, svc, images) && i < |rs|
    ensures Informed(StepOf(rs[i]), images)
    ensures i > 0 ==> rs[i].snap.currentDigest == StepOf(rs[i - 1]).target
  {
    EveryRowIsUpToDate(rs, bs, svc, images, i);
    RecordIsInformed(rs[i], svc, images);
  }

  lemma StepsMakeAChain(rs: seq<Record>, images: map<string, Instant>)
    requires forall i :: 0 <= i < |rs| ==> Informed(StepOf(rs[i]), images)
    requires forall i :: 0 < i < |rs| ==> rs[i].snap.currentDigest == StepOf(rs[i - 1]).target
    ensures Chain(StepsOf(rs), images)
  {
    var steps := StepsOf(rs);
    assert forall i :: 0 <= i < |steps| ==> steps[i] == StepOf(rs[i]);
  }

  /** So consecutive successful rollbacks are a chain. */
  lemma RollbacksAreAChain(rs: seq<Record>, bs: seq<Between>, svc: string, images: map<string, Instant>)
    requires Rollbacks(rs, bs, svc, images)
    ensures Chain(StepsOf(rs), images)
  {
    forall i | 0 <= i < |rs|
      ensures Informed(StepOf(rs[i]), images) && (i > 0 ==> rs[i].snap.currentDigest == StepOf(rs[i - 1]).target)
    {
      EveryRecordIsInformed(rs, bs, svc, images, i);
    }
    StepsMakeAChain(rs, images);
  }

  /** And go strictly back in build time, each from where the one before it went. */
  lemma RollbacksGoBack(rs: seq<Record>, bs: seq<Between>, svc: string, images: map<string, Instant>)
    requires Rollbacks(rs, bs, svc, images)
    ensures Descending(StepsOf(rs), images)
  {
    RollbacksAreAChain(rs, bs, svc, images);
    ChainDescends(StepsOf(rs), images);
  }

  /** Consecutive successful rollbacks never reach a digest twice, nor one that was running before. */
  lemma RollbacksNeverRepeat(rs: seq<Record>, bs: seq<Between>, svc: string, images: map<string, Instant>, i: nat, j: nat)
    requires Rollbacks(rs, bs, svc, images) && i < j < |rs|
    ensures rs[i].res.currentDigest != rs[j].res.currentDigest && rs[j].res.currentDigest != rs[i].snap.currentDigest
  {
    var steps := StepsOf(rs);
    RollbacksGoBack(rs, bs, svc, images);
    NeverRepeats(steps, images, i, j);
    assert steps[i] == StepOf(rs[i]) && steps[j] == StepOf(rs[j]);
  }

  /** And there are no more of them than cached images older than the one first running. */
  lemma RollbacksAreBounded(rs: seq<Record>, bs: seq<Between>, svc: string, images: map<string, Instant>)
    requires Rollbacks(rs, bs, svc, images) && rs != []
    ensures rs[0].snap.currentDigest in images
    ensures |rs| <= |OlderThan(images, images[rs[0].snap.currentDigest])|
  {
    RollbacksGoBack(rs, bs, svc, images);
    ChainIsBounded(StepsOf(rs), images);
  }

  // ---------------------------------------------------------------- rolling back and forth

  /** The row after a rollback from `c` to its stored digest. */
  function RolledBack(svc: string, c: Container, at: Instant): Container {
    RowAfter(RollbackSwapOf(svc, c, c.previousDigest, at), c)
  }

  lemma RollbackTrades(svc: string, c: Container, at: Instant)
    requires c.currentDigest != "" && c.currentDigest != c.previousDigest
    ensures RolledBack(svc, c, at).currentDigest == c.previousDigest
    ensures RolledBack(svc, c, at).previousDigest == c.currentDigest
    ensures RolledBack(svc, c, at).image == c.image
  {
  }

  /** The gate lets a target of build time `built` pass a row that says its running image was built at `at`. */
  predicate Passes(built: Option<Instant>, at: Instant) {
    IsZero(at) || built.None? || built.value < at
  }

  /** The row the second rollback sees: the first one's, with the build time discovery has written by then. That is still
      the old one until an upsert replaces it. */
  function SecondRow(svc: string, c: Container, at: Instant, midAt: Instant): Container {
    RolledBack(svc, c, at).(currentDigestAt := midAt)
  }

  /** A run of Rollback's decision can choose `target` when `built` is what the daemon tells for it, if asked. */
  ghost predicate CanGo(snap: Container, target: string, built: Option<Instant>) {
    exists calls, told :: Justified(calls, 0, snap, Go(target), told) && (IsZero(snap.currentDigestAt) || told == built)
  }

  /** Answers under which Rollback goes to the stored digest: it is found, and its build time is what is told. */
  lemma GoesToStored(snap: Container, built: Option<Instant>)
    requires snap.previousDigest != "" && snap.previousDigest != snap.currentDigest && Passes(built, snap.currentDigestAt)
    ensures CanGo(snap, snap.previousDigest, built)
  {
    var target := snap.previousDigest;
    var ref := if snap.image != "" then AtDigest(snap.image, target) else target;
    var found := ImageInspected(AtDigest(snap.image, target), Some(ImageInfo(built, None)));
    var calls := [found, ImageInspected(ref, Some(ImageInfo(built, None)))];
    assert LookedUp(calls, 0, snap.image, target, true);
    assert TellsBuilt(calls, 1, snap.image, target, built);
    assert Justified(calls, 0, snap, Go(target), if IsZero(snap.currentDigestAt) then None else built);
  }

  /** Exactly when two rollbacks undo each other. From a row with two different known digests, Rollback can go to the
      stored digest and then back to the one that was running if and only if each target passes the gate: the build time
      on the row is unknown, or the target's cannot be read, or it is older. Both digests are then where they were. */
  lemma PingPongIff(svc: string, c: Container, at1: Instant, at2: Instant, midAt: Instant,
                    b1: Option<Instant>, b2: Option<Instant>)
    requires c.currentDigest != "" && c.previousDigest != "" && c.currentDigest != c.previousDigest
    ensures var mid := SecondRow(svc, c, at1, midAt);
            (CanGo(c, c.previousDigest, b1) && CanGo(mid, mid.previousDigest, b2)
             <==> Passes(b1, c.currentDigestAt) && Passes(b2, midAt))
            && mid.currentDigest == c.previousDigest && mid.previousDigest == c.currentDigest
            && RolledBack(svc, mid, at2).currentDigest == c.currentDigest
            && RolledBack(svc, mid, at2).previousDigest == c.previousDigest
  {
    var mid := SecondRow(svc, c, at1, midAt);
    RollbackTrades(svc, c, at1);
    RollbackTrades(svc, mid, at2);
    if Passes(b1, c.currentDigestAt) && Passes(b2, midAt) {
      GoesToStored(c, b1);
      GoesToStored(mid, b2);
    }
  }

  /** In particular never with true and readable build times, whether or not discovery has caught up in between. */
  lemma NoPingPongWhenInformed(svc: string, c: Container, at1: Instant, midAt: Instant, older: Instant)
    requires c.currentDigest != "" && c.previousDigest != "" && c.currentDigest != c.previousDigest
    requires !IsZero(c.currentDigestAt) && !IsZero(older) && (midAt == c.currentDigestAt || midAt == older)
    ensures var mid := SecondRow(svc, c, at1, midAt);
            !(CanGo(c, c.previousDigest, Some(older)) && CanGo(mid, mid.previousDigest, Some(c.currentDigestAt)))
  {
    PingPongIff(svc, c, at1, 0, midAt, Some(older), Some(c.currentDigestAt));
  }
}
