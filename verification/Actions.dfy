/** The bodies of Update, Rollback and ForcePull, run against a daemon that may answer anything. The lock around
    them is the subject of LockService; what they send is one of the scripts that Protocol interleaves. */
module Actions {
  import opened Schema
  import opened Text
  import opened Messages
  import opened Scripts
  import opened Daemon
  import opened RollbackTarget
  import ImageRef
  import PullStream
  import Recreate
  import Verify

  /** The sending end of the state-update channel. */
  class Outbox {
    var sent: seq<Msg>

    method Send(m: Msg)
      modifies this
      ensures sent == old(sent) + [m]
    {
      sent := sent + [m];
    }

    /** Send `m` as the next message of a script begun when `base` had been sent. */
    method SendNext(m: Msg, ghost base: seq<Msg>, ghost script: seq<Msg>) returns (ghost script': seq<Msg>)
      requires sent == base + script
      modifies this
      ensures script' == script + [m] && sent == base + script'
    {
      Reassociate(base, script, [m]);
      sent := sent + [m];
      script' := script + [m];
    }
  }

  datatype ErrorKind = ComposeMoved | NotInState | NoPreviousDigest | NotADowngrade | PullFailed | ComposeFailed
                     | VerifyFailed

  datatype ActionResult = Success(currentDigest: string, previousDigest: string, noOp: bool) | Failure(kind: ErrorKind)

  function Lookup(rows: map<string, Container>, svc: string): Option<Container> {
    if svc in rows then Some(rows[svc]) else None
  }

  /** How the verify loop is set up, and what it would get to see of each container. */
  datatype Probe = Probe(window: int, healthWindow: int, tick: int, obs: string -> nat -> Verify.Tick)

  // ---------------------------------------------------------------- pulling

  /** From exchange `n` on: `ref` was pulled, the stream gave digest `dg`, and the registry, asked for the same
      reference, named the same digest. */
  ghost predicate Vetted(calls: seq<Call>, n: nat, ref: string, dg: string) {
    n + 1 < |calls|
    && calls[n].Pulled? && calls[n].ref == ref && calls[n].stream.Some?
    && PullStream.Drains(calls[n].stream.value, Ok(dg))
    && calls[n + 1] == RegistryAsked(ref, Some(dg))
  }

  method PullAndVerifyDigest(d: Daemon, image: string, tag: string) returns (r: Option<string>)
    modifies d`calls
    ensures Since(old(d.calls), d.calls, ContactsRegistry)
    ensures r.Some? ==> Vetted(d.calls, |old(d.calls)|, ImageRef.Print(image, tag), r.value)
    ensures r.None? ==> forall dg :: !Vetted(d.calls, |old(d.calls)|, ImageRef.Print(image, tag), dg)
  {
    var ref := ImageRef.Print(image, tag);
    var stream := d.ImagePull(ref);
    if stream.None? {
      return None;
    }
    var pulled := PullStream.DrainPullStream(stream.value);
    if pulled.Err? {
      return None;
    }
    var registry := d.RegistryDigest(ref);
    if registry.None? || pulled.value != registry.value {
      forall dg | Vetted(d.calls, |old(d.calls)|, ref, dg) ensures false {
        PullStream.DrainsIsFunctional(stream.value, pulled, Ok(dg));
      }
      return None;
    }
    return registry;
  }

  // ---------------------------------------------------------------- verifying

  const WAIT_FOR_HEALTHY := "hmi-update.wait-for-healthy"

  function VerifySettings(snap: Container, p: Probe): Verify.Settings {
    var optIn := WAIT_FOR_HEALTHY in snap.labels && snap.labels[WAIT_FOR_HEALTHY] == "true";
    Verify.Settings(0, optIn, p.window, p.healthWindow, p.tick)
  }

  /** The verify loop counts restarts from none, waits for health exactly if the row's label says so, and has the
      configured windows and tick. */
  lemma SettingsFollowTheRow(snap: Container, p: Probe)
    ensures var s := VerifySettings(snap, p);
            s.baseline == 0 && s.window == p.window && s.healthWindow == p.healthWindow && s.tick == p.tick
            && (s.optIn <==> "hmi-update.wait-for-healthy" in snap.labels
                             && snap.labels["hmi-update.wait-for-healthy"] == "true")
  {
  }

  /** Exchange `n` listed the service, and the verify loop, watching the newest container of that listing, reached
      verdict Verified. */
  ghost predicate VerifiedNewest(calls: seq<Call>, n: nat, svc: string, snap: Container, p: Probe)
    requires p.tick > 0
  {
    n < |calls| && calls[n].Listed? && calls[n].svc == svc && calls[n].found.Some?
    && exists k: nat, ticks: nat ::
         Recreate.IsNewest(calls[n].found.value, k)
         && Verify.FirstDecisive(VerifySettings(snap, p), p.obs(calls[n].found.value[k].id), ticks, Verify.Verified)
  }

  /** A listing has one first newest entry, and watching it gives one verdict. */
  lemma VerdictOfNewest(calls: seq<Call>, n: nat, svc: string, snap: Container, p: Probe, k: nat, ticks: nat,
                        v: Verify.Verdict)
    requires p.tick > 0 && n < |calls| && calls[n].Listed? && calls[n].svc == svc && calls[n].found.Some?
    requires Recreate.IsNewest(calls[n].found.value, k)
    requires Verify.FirstDecisive(VerifySettings(snap, p), p.obs(calls[n].found.value[k].id), ticks, v)
    ensures v == Verify.Verified <==> VerifiedNewest(calls, n, svc, snap, p)
  {
    if VerifiedNewest(calls, n, svc, snap, p) {
      var found := calls[n].found.value;
      var k': nat, ticks': nat :| Recreate.IsNewest(found, k')
        && Verify.FirstDecisive(VerifySettings(snap, p), p.obs(found[k'].id), ticks', Verify.Verified);
      assert k == k';
      Verify.VerdictIsUnique(VerifySettings(snap, p), p.obs(found[k].id), ticks, v, ticks', Verify.Verified);
    }
  }

  method InspectAndVerify(d: Daemon, svc: string, snap: Container, p: Probe) returns (ok: bool)
    requires p.tick > 0
    modifies d`calls
    ensures Since(old(d.calls), d.calls, LocalRead)
    ensures ok <==> VerifiedNewest(d.calls, |old(d.calls)|, svc, snap, p)
    ensures |d.calls| == |old(d.calls)| + 1
  {
    var list := d.ContainerList(svc);
    if list.None? || list.value == [] {
      return false;
    }
    var k := Recreate.Newest(list.value);
    var v, ticks, inspections := Verify.VerifyAfterRecreate(VerifySettings(snap, p), p.obs(list.value[k].id));
    ok := v == Verify.Verified;
    VerdictOfNewest(d.calls, |old(d.calls)|, svc, snap, p, k, ticks, v);
  }

  // ---------------------------------------------------------------- recreate, swap, verify, report

  /** The sends from the recreate on: progress, then a compose failure, or the swap followed by the verify result. */
  predicate ReportTail(svc: string, swap: Msg, error: Option<ErrorKind>, tail: seq<Msg>) {
    match error
    case Some(ComposeFailed) => |tail| == 2 && tail[0] == ActionProgress(svc) && IsFailure(tail[1], svc, "compose")
    case Some(VerifyFailed) =>
      |tail| == 3 && tail[0] == ActionProgress(svc) && tail[1] == swap && IsFailure(tail[2], svc, "verify")
    case None => tail == [ActionProgress(svc), swap, ActionDone(svc)]
    case Some(_) => false
  }

  lemma UpdateScriptFrom(svc: string, snap: Container, pulled: string, at: Instant, error: Option<ErrorKind>, tail: seq<Msg>)
    requires ReportTail(svc, UpdateSwapOf(svc, snap, pulled, at), error, tail)
    ensures var script := [ActionStart(svc, Updating)] + tail;
            UpdateScript(svc, snap, script)
            && (|script| == 4 ==> script[2].UpdateSwap? && script[2].next == pulled)
            && (error.None? ==> |script| == 4 && script[3] == ActionDone(svc))
  {
  }

  lemma RollbackScriptFrom(svc: string, snap: Container, target: string, at: Instant, error: Option<ErrorKind>, tail: seq<Msg>)
    requires target != snap.currentDigest
    requires ReportTail(svc, RollbackSwapOf(svc, snap, target, at), error, tail)
    ensures var script := [ActionStart(svc, RollingBack)] + tail;
            RollbackScript(svc, snap, script)
            && (|script| == 4 ==> script[2].RollbackSwap? && script[2].next == target)
            && (error.None? ==> |script| == 4 && script[3] == ActionDone(svc))
  {
  }

  /** From exchange `from` on: whatever was replaced was the newest container of `svc` as listed then, and after a
      finished recreate success is reported if and only if the newest container of `svc` listed last was verified. */
  ghost predicate Carried(from: nat, calls: seq<Call>, svc: string, snap: Container, p: Probe, ok: bool,
                          trail: Recreate.Trail)
    requires p.tick > 0
  {
    && (trail.stage.Looking? || from <= trail.at) && Recreate.Led(calls, svc, trail)
    && (trail.stage.Done? ==> from < |calls| && (ok <==> VerifiedNewest(calls, |calls| - 1, svc, snap, p)))
  }

  lemma CarriedSince(from: nat, from': nat, calls: seq<Call>, svc: string, snap: Container, p: Probe, ok: bool,
                     trail: Recreate.Trail)
    requires p.tick > 0 && Carried(from, calls, svc, snap, p, ok, trail) && from' <= from
    ensures Carried(from', calls, svc, snap, p, ok, trail)
  {
  }

  /** After a finished recreate: the swap, then verify and its result. */
  method SwapAndVerify(d: Daemon, out: Outbox, svc: string, snap: Container, p: Probe, swap: Msg, ghost base: seq<Msg>)
    returns (error: Option<ErrorKind>, ghost tail: seq<Msg>)
    requires p.tick > 0 && out.sent == base + [ActionProgress(svc)]
    modifies d`calls, out
    ensures Since(old(d.calls), d.calls, LocalRead) && |d.calls| == |old(d.calls)| + 1
    ensures error == if VerifiedNewest(d.calls, |d.calls| - 1, svc, snap, p) then None else Some(VerifyFailed)
    ensures out.sent == base + tail
    ensures ReportTail(svc, swap, error, tail)
  {
    tail := out.SendNext(swap, base, [ActionProgress(svc)]);
    assert tail == [ActionProgress(svc), swap];
    var ok := InspectAndVerify(d, svc, snap, p);
    if !ok {
      tail := out.SendNext(ActionFailed(svc, "verify", "verify failed"), base, tail);
      return Some(VerifyFailed), tail;
    }
    tail := out.SendNext(ActionDone(svc), base, tail);
    return None, tail;
  }

  /** The common second half of Update and Rollback. The swap is sent exactly when the recreate succeeded, also if
      verifying then fails. */
  method RecreateAndReport(d: Daemon, out: Outbox, svc: string, snap: Container, p: Probe, swap: Msg)
    returns (error: Option<ErrorKind>, ghost tail: seq<Msg>, ghost trail: Recreate.Trail)
    requires p.tick > 0
    modifies d, out
    ensures Since(old(d.calls), d.calls, LocalWork)
    ensures out.sent == old(out.sent) + tail
    ensures ReportTail(svc, swap, error, tail)
    ensures Recreate.Records(trail, old(d.containers), d.containers)
    ensures error == Some(ComposeFailed) <==> !trail.stage.Done?
    ensures Carried(|old(d.calls)|, d.calls, svc, snap, p, error.None?, trail)
  {
    ghost var base := out.sent;
    out.Send(ActionProgress(svc));
    var made;
    made, trail := Recreate.Service(d, svc);
    if made.None? {
      tail := out.SendNext(ActionFailed(svc, "compose", "recreate failed"), base, [ActionProgress(svc)]);
      return Some(ComposeFailed), tail, trail;
    }
    ghost var mid := d.calls;
    error, tail := SwapAndVerify(d, out, svc, snap, p, swap, base);
    SinceJoin(old(d.calls), mid, d.calls, LocalWork, LocalRead, LocalWork);
    Recreate.LedStays(mid, d.calls, svc, trail);
  }

  function Report(error: Option<ErrorKind>, digest: string, snap: Container): ActionResult {
    if error.Some? then Failure(error.value) else Success(digest, snap.currentDigest, false)
  }

  // ---------------------------------------------------------------- Update

  /** Something was tagged, stopped, removed, created, connected or started since exchange `n`. */
  ghost predicate Worked(calls: seq<Call>, n: nat) {
    exists i :: n <= i < |calls| && Changes(calls[i])
  }

  /** What an acting Update promises. No container is touched unless the pulled digest is the registry's; a swap is
      sent exactly when the recreate succeeded, and to that digest; success reports the swap. */
  ghost predicate Updated(before: seq<Call>, calls: seq<Call>, svc: string, snap: Container, res: ActionResult,
                          script: seq<Msg>, p: Probe, trail: Recreate.Trail)
    requires p.tick > 0
  {
    var ref := ImageRef.Print(snap.image, snap.tag);
    && UpdateScript(svc, snap, script)
    && before <= calls
    && (Worked(calls, |before|) ==> exists dg :: Vetted(calls, |before|, ref, dg))
    && (|script| > 2 <==> exists dg :: Vetted(calls, |before|, ref, dg))
    && (|script| == 4 <==> trail.stage.Done?)
    && (|script| == 4 ==> script[2].UpdateSwap? && Vetted(calls, |before|, ref, script[2].next))
    && (res.Success? <==> |script| == 4 && script[3] == ActionDone(svc))
    && (res.Success? ==> res == Success(script[2].next, snap.currentDigest, false))
    && Carried(|before|, calls, svc, snap, p, res.Success?, trail)
  }

  lemma UpdatedOnceVetted(before: seq<Call>, mid: seq<Call>, calls: seq<Call>, svc: string, snap: Container,
                          pulled: string, at: Instant, error: Option<ErrorKind>, tail: seq<Msg>, p: Probe,
                          trail: Recreate.Trail)
    requires p.tick > 0 && Carried(|mid|, calls, svc, snap, p, error.None?, trail)
    requires before <= mid <= calls && Vetted(mid, |before|, ImageRef.Print(snap.image, snap.tag), pulled)
    requires ReportTail(svc, UpdateSwapOf(svc, snap, pulled, at), error, tail)
    requires error == Some(ComposeFailed) <==> !trail.stage.Done?
    ensures Updated(before, calls, svc, snap, Report(error, pulled, snap),
                    [ActionStart(svc, Updating)] + tail, p, trail)
  {
    CarriedSince(|mid|, |before|, calls, svc, snap, p, error.None?, trail);
    UpdateScriptFrom(svc, snap, pulled, at, error, tail);
    assert Vetted(calls, |before|, ImageRef.Print(snap.image, snap.tag), pulled);
  }

  lemma UpdatedIfNotVetted(before: seq<Call>, calls: seq<Call>, svc: string, snap: Container, p: Probe,
                           containers: map<string, Cont>)
    requires p.tick > 0 && Since(before, calls, ContactsRegistry)
    requires forall dg :: !Vetted(calls, |before|, ImageRef.Print(snap.image, snap.tag), dg)
    ensures Updated(before, calls, svc, snap, Failure(PullFailed),
                    [ActionStart(svc, Updating)] + [ActionFailed(svc, "pull", "pull failed")], p, Recreate.Untouched(containers))
  {
  }

  /** Update once it has decided to act. */
  method PullAndMove(d: Daemon, out: Outbox, svc: string, snap: Container, p: Probe)
    returns (res: ActionResult, ghost script: seq<Msg>, ghost trail: Recreate.Trail)
    requires p.tick > 0
    modifies d, out
    ensures out.sent == old(out.sent) + script
    ensures Updated(old(d.calls), d.calls, svc, snap, res, script, p, trail)
    ensures Recreate.Records(trail, old(d.containers), d.containers)
  {
    out.Send(ActionStart(svc, Updating));
    var pulled := PullAndVerifyDigest(d, snap.image, snap.tag);
    if pulled.None? {
      out.Send(ActionFailed(svc, "pull", "pull failed"));
      UpdatedIfNotVetted(old(d.calls), d.calls, svc, snap, p, d.containers);
      script := [ActionStart(svc, Updating)] + [ActionFailed(svc, "pull", "pull failed")];
      Reassociate(old(out.sent), [ActionStart(svc, Updating)], [ActionFailed(svc, "pull", "pull failed")]);
      return Failure(PullFailed), script, Recreate.Untouched(d.containers);
    }
    ghost var mid := d.calls;
    var swapTime: Instant := *;
    var swap := UpdateSwapOf(svc, snap, pulled.value, swapTime);
    var error;
    ghost var tail;
    error, tail, trail := RecreateAndReport(d, out, svc, snap, p, swap);
    script := [ActionStart(svc, Updating)] + tail;
    Reassociate(old(out.sent), [ActionStart(svc, Updating)], tail);
    res := Report(error, pulled.value, snap);
    UpdatedOnceVetted(old(d.calls), mid, d.calls, svc, snap, pulled.value, swapTime, error, tail, p, trail);
  }

  /** What Update promises: a no-op exactly when the running digest is the recorded available one; nothing at all happens
      then, nor when the compose file moved or the row is missing; otherwise it acts. */
  ghost predicate UpdateDid(before: seq<Call>, calls: seq<Call>, rows: map<string, Container>, svc: string,
                            composeUnchanged: bool, res: ActionResult, script: seq<Msg>, p: Probe, trail: Recreate.Trail)
    requires p.tick > 0
  {
    if !composeUnchanged || svc !in rows then
      res == Failure(if !composeUnchanged then ComposeMoved else NotInState)
      && script == [] && calls == before && trail.stage.Looking?
    else if rows[svc].availableDigest != "" && rows[svc].currentDigest == rows[svc].availableDigest then
      res == Success(rows[svc].currentDigest, rows[svc].previousDigest, true)
      && script == [] && calls == before && trail.stage.Looking?
    else Updated(before, calls, svc, rows[svc], res, script, p, trail)
  }

  method Update(d: Daemon, out: Outbox, rows: map<string, Container>, svc: string, composeUnchanged: bool, p: Probe)
    returns (res: ActionResult, ghost script: seq<Msg>, ghost trail: Recreate.Trail)
    requires p.tick > 0
    modifies d, out
    ensures out.sent == old(out.sent) + script
    ensures BodyScript(svc, Lookup(rows, svc), script)
    ensures Recreate.Records(trail, old(d.containers), d.containers)
    ensures UpdateDid(old(d.calls), d.calls, rows, svc, composeUnchanged, res, script, p, trail)
  {
    script, trail := [], Recreate.Untouched(d.containers);
    if !composeUnchanged {
      res := Failure(ComposeMoved);
    } else if svc !in rows {
      res := Failure(NotInState);
    } else {
      var snap := rows[svc];
      if snap.availableDigest != "" && snap.currentDigest == snap.availableDigest {
        res := Success(snap.currentDigest, snap.previousDigest, true);
      } else {
        res, script, trail := PullAndMove(d, out, svc, snap, p);
      }
    }
  }

  // ---------------------------------------------------------------- ForcePull

  /** What ForcePull without recreate promises: it contacts the registry and nothing else, and succeeds exactly when the
      pulled digest is the registry's, which it then sends as the available one. */
  ghost predicate Refreshed(before: seq<Call>, calls: seq<Call>, rows: map<string, Container>, svc: string,
                            res: ActionResult, script: seq<Msg>)
  {
    && Since(before, calls, ContactsRegistry)
    && if svc !in rows then res == Failure(NotInState) && script == [] && calls == before
       else
         var ref := ImageRef.Print(rows[svc].image, rows[svc].tag);
         && ForcePullScript(svc, script)
         && (res.Success? <==> exists dg :: Vetted(calls, |before|, ref, dg))
         && (res.Success? <==> script[1].ForcePullDone?)
         && (res.Success? ==> Vetted(calls, |before|, ref, script[1].digest)
                              && res == Success(rows[svc].currentDigest, rows[svc].previousDigest, false))
  }

  /** ForcePull without recreate: it refreshes the image cache and the available digest, and touches no container. */
  method PullOnly(d: Daemon, out: Outbox, rows: map<string, Container>, svc: string)
    returns (res: ActionResult, ghost script: seq<Msg>)
    modifies d`calls, out
    ensures out.sent == old(out.sent) + script
    ensures Refreshed(old(d.calls), d.calls, rows, svc, res, script)
  {
    if svc !in rows {
      return Failure(NotInState), [];
    }
    var snap := rows[svc];
    ghost var base := out.sent;
    out.Send(ActionStart(svc, ForcePulling));
    var pulled := PullAndVerifyDigest(d, snap.image, snap.tag);
    if pulled.None? {
      script := out.SendNext(ActionFailed(svc, "pull", "pull failed"), base, [ActionStart(svc, ForcePulling)]);
      return Failure(PullFailed), script;
    }
    script := out.SendNext(ForcePullDone(svc, pulled.value), base, [ActionStart(svc, ForcePulling)]);
    return Success(snap.currentDigest, snap.previousDigest, false), script;
  }

  /** With recreate it is Update; without, no container changes. */
  method ForcePull(d: Daemon, out: Outbox, rows: map<string, Container>, svc: string, recreate: bool,
                   composeUnchanged: bool, p: Probe)
    returns (res: ActionResult, ghost script: seq<Msg>, ghost trail: Recreate.Trail)
    requires p.tick > 0
    modifies d, out
    ensures out.sent == old(out.sent) + script
    ensures BodyScript(svc, Lookup(rows, svc), script)
    ensures Recreate.Records(trail, old(d.containers), d.containers)
    ensures if recreate then UpdateDid(old(d.calls), d.calls, rows, svc, composeUnchanged, res, script, p, trail)
            else Refreshed(old(d.calls), d.calls, rows, svc, res, script) && d.containers == old(d.containers)
  {
    if recreate {
      res, script, trail := Update(d, out, rows, svc, composeUnchanged, p);
    } else {
      trail := Recreate.Untouched(d.containers);
      res, script := PullOnly(d, out, rows, svc);
    }
  }

  // ---------------------------------------------------------------- Rollback

  /** What a rollback to `target` may do: local work, and tagging that target as the row's image. */
  predicate RollsTo(snap: Container, target: string, c: Call) {
    LocalWork(c)
    || (c.Tagged? && c.dst == ImageRef.Print(snap.image, snap.tag)
        && (c.src == snap.image + "@" + target || c.src == target))
  }

  /** Exchange `n` tagged the target, named by repository and digest, as the row's image; if that failed, the next one
      did so naming it by bare digest. */
  ghost predicate Retagged(calls: seq<Call>, n: nat, snap: Container, target: string, ok: bool) {
    var dst := ImageRef.Print(snap.image, snap.tag);
    n < |calls|
    && if calls[n] == Tagged(snap.image + "@" + target, dst, true) then ok
       else calls[n] == Tagged(snap.image + "@" + target, dst, false)
            && n + 1 < |calls| && calls[n + 1] == Tagged(target, dst, ok)
  }

  method Retag(d: Daemon, snap: Container, target: string) returns (ok: bool)
    modifies d`calls
    ensures Since(old(d.calls), d.calls, (c: Call) => RollsTo(snap, target, c))
    ensures Retagged(d.calls, |old(d.calls)|, snap, target, ok)
  {
    var dst := ImageRef.Print(snap.image, snap.tag);
    ok := d.ImageTag(AtDigest(snap.image, target), dst);
    if !ok {
      ok := d.ImageTag(target, dst);
    }
  }

  /** What a rollback to a chosen target promises. */
  ghost predicate RolledTo(before: seq<Call>, calls: seq<Call>, svc: string, snap: Container, target: string,
                           res: ActionResult, script: seq<Msg>, p: Probe, trail: Recreate.Trail)
    requires p.tick > 0
  {
    && RollbackScript(svc, snap, script)
    && Since(before, calls, (c: Call) => RollsTo(snap, target, c))
    && Retagged(calls, |before|, snap, target, |script| > 2)
    && (|script| == 2 ==> trail.stage.Looking?)
    && (|script| == 4 <==> trail.stage.Done?)
    && (|script| == 4 ==> script[2].RollbackSwap? && script[2].next == target)
    && (res.Success? <==> |script| == 4 && script[3] == ActionDone(svc))
    && (res.Success? ==> res == Success(target, snap.currentDigest, false))
    && Carried(|before|, calls, svc, snap, p, res.Success?, trail)
  }

  /** Rollback once a target is chosen. */
  method RollTo(d: Daemon, out: Outbox, svc: string, snap: Container, p: Probe, target: string)
    returns (res: ActionResult, ghost script: seq<Msg>, ghost trail: Recreate.Trail)
    requires p.tick > 0 && target != snap.currentDigest
    modifies d, out
    ensures out.sent == old(out.sent) + script
    ensures RolledTo(old(d.calls), d.calls, svc, snap, target, res, script, p, trail)
    ensures Recreate.Records(trail, old(d.containers), d.containers)
  {
    out.Send(ActionStart(svc, RollingBack));
    var tagged := Retag(d, snap, target);
    if !tagged {
      out.Send(ActionFailed(svc, "pull", "image tag failed"));
      script := [ActionStart(svc, RollingBack)] + [ActionFailed(svc, "pull", "image tag failed")];
      Reassociate(old(out.sent), [ActionStart(svc, RollingBack)], [ActionFailed(svc, "pull", "image tag failed")]);
      return Failure(PullFailed), script, Recreate.Untouched(d.containers);
    }
    ghost var mid := d.calls;
    var swapTime: Instant := *;
    var error;
    ghost var tail;
    error, tail, trail := RecreateAndReport(d, out, svc, snap, p, RollbackSwapOf(svc, snap, target, swapTime));
    script := [ActionStart(svc, RollingBack)] + tail;
    Reassociate(old(out.sent), [ActionStart(svc, RollingBack)], tail);
    res := Report(error, target, snap);
    RolledOnceTagged(old(d.calls), mid, d.calls, svc, snap, target, swapTime, error, tail, p, trail);
  }

  lemma RolledOnceTagged(before: seq<Call>, mid: seq<Call>, calls: seq<Call>, svc: string, snap: Container,
                         target: string, at: Instant, error: Option<ErrorKind>, tail: seq<Msg>, p: Probe,
                         trail: Recreate.Trail)
    requires p.tick > 0 && Carried(|mid|, calls, svc, snap, p, error.None?, trail)
    requires Since(before, mid, (c: Call) => RollsTo(snap, target, c)) && Since(mid, calls, LocalWork)
    requires Retagged(mid, |before|, snap, target, true)
    requires target != snap.currentDigest && ReportTail(svc, RollbackSwapOf(svc, snap, target, at), error, tail)
    requires error == Some(ComposeFailed) <==> !trail.stage.Done?
    ensures RolledTo(before, calls, svc, snap, target, Report(error, target, snap),
                     [ActionStart(svc, RollingBack)] + tail, p, trail)
  {
    CarriedSince(|mid|, |before|, calls, svc, snap, p, error.None?, trail);
    RollsToJoin(before, mid, calls, snap, target);
    RollbackScriptFrom(svc, snap, target, at, error, tail);
  }

  lemma RollsToJoin(a: seq<Call>, b: seq<Call>, c: seq<Call>, snap: Container, target: string)
    requires Since(a, b, (x: Call) => RollsTo(snap, target, x)) && Since(b, c, LocalWork)
    ensures Since(a, c, (x: Call) => RollsTo(snap, target, x))
  {
  }

  /** The registry is never contacted: rollback works offline. */
  predicate Offline(c: Call) {
    !ContactsRegistry(c)
  }

  /** The gate's own inspection, made once the candidate was settled, did not show `target` to be as new as what is
      running, or was not made because the running build time is unknown; and `target` is a real change. */
  ghost predicate LetThrough(decided: seq<Call>, n: nat, snap: Container, target: string, built: Option<Instant>) {
    Allowed(snap, built, target) && Gated(decided, CandidateEnd(decided, n, snap), snap, target, built)
  }

  /** Whenever Rollback tagged, stopped, removed or created anything, its gate had let the target through. */
  lemma WorkNeedsAllowedTarget(before: seq<Call>, decided: seq<Call>, calls: seq<Call>, snap: Container,
                               choice: Choice, built: Option<Instant>)
    requires Since(before, decided, LocalRead) && decided <= calls
    requires Justified(decided, |before|, snap, choice, built)
    requires decided != calls ==> choice.Go?
    requires Worked(calls, |before|)
    ensures choice.Go? && LetThrough(decided, |before|, snap, choice.target, built)
  {
    var i :| |before| <= i < |calls| && Changes(calls[i]);
    assert i < |decided| ==> LocalRead(calls[i]);
  }

  /** A choice is Unchanged if and only if the stored digest is stuck at the running one. */
  lemma NoOpMeans(decided: seq<Call>, n: nat, snap: Container, choice: Choice, built: Option<Instant>)
    requires Justified(decided, n, snap, choice, built)
    ensures choice.Unchanged? <==> StuckAtCurrent(decided, n, snap)
  {
    UnchangedIffStuck(decided, n, snap);
    if StuckAtCurrent(decided, n, snap) {
      ChoiceIsDetermined(decided, n, snap, choice, built, Unchanged, None);
    }
  }

  /** Why a rollback did what it did: its choice, the build time it was told, and the exchanges up to the choice. */
  datatype Reasons = Reasons(choice: Choice, built: Option<Instant>, decided: seq<Call>)

  /** What Rollback promises for a row it found: local reads decide, the choice is justified by what they answered, and
      only a chosen target is acted on. */
  ghost predicate RolledBack(before: seq<Call>, calls: seq<Call>, svc: string, snap: Container, res: ActionResult,
                             script: seq<Msg>, p: Probe, why: Reasons, trail: Recreate.Trail)
    requires p.tick > 0
  {
    && Since(before, why.decided, LocalRead) && why.decided <= calls
    && Justified(why.decided, |before|, snap, why.choice, why.built)
    && |why.decided| == ChoiceEnd(why.decided, |before|, snap, why.choice)
    && if why.choice.Go? then RolledTo(why.decided, calls, svc, snap, why.choice.target, res, script, p, trail)
       else script == [] && calls == why.decided && trail.stage.Looking?
            && res == match why.choice
                      case NoTarget => Failure(NoPreviousDigest)
                      case Unchanged => Success(snap.currentDigest, snap.previousDigest, true)
                      case _ => Failure(NotADowngrade)
  }

  /** Rollback once the row is found. */
  method ChooseAndRoll(d: Daemon, out: Outbox, svc: string, snap: Container, p: Probe)
    returns (res: ActionResult, ghost script: seq<Msg>, ghost why: Reasons, ghost trail: Recreate.Trail)
    requires p.tick > 0
    modifies d, out
    ensures out.sent == old(out.sent) + script
    ensures Recreate.Records(trail, old(d.containers), d.containers)
    ensures RolledBack(old(d.calls), d.calls, svc, snap, res, script, p, why, trail)
  {
    var c;
    ghost var built;
    c, built := ChooseTarget(d, snap);
    why := Reasons(c, built, d.calls);
    script, trail := [], Recreate.Untouched(d.containers);
    match c {
      case NoTarget => res := Failure(NoPreviousDigest);
      case Unchanged => res := Success(snap.currentDigest, snap.previousDigest, true);
      case NotOlder(_) => res := Failure(NotADowngrade);
      case Go(target) => res, script, trail := RollTo(d, out, svc, snap, p, target);
    }
  }

  lemma StaysOffline(before: seq<Call>, decided: seq<Call>, calls: seq<Call>, snap: Container, target: string)
    requires Since(before, decided, LocalRead) && Since(decided, calls, (c: Call) => RollsTo(snap, target, c))
    ensures Since(before, calls, Offline)
  {
  }

  /** Whatever the daemon answered, also if its answers contradict each other: a rollback never contacts the registry; it
      answers no-op if and only if the stored digest was found, is the running one, and the peek found nothing else; and it
      tags, stops, removes or creates something only for a target that its gate let through by its own inspection. */
  lemma RollbackIsSafe(before: seq<Call>, calls: seq<Call>, svc: string, snap: Container, res: ActionResult,
                       script: seq<Msg>, p: Probe, why: Reasons, trail: Recreate.Trail)
    requires p.tick > 0 && RolledBack(before, calls, svc, snap, res, script, p, why, trail)
    ensures Since(before, calls, Offline)
    ensures res.Success? && res.noOp <==> StuckAtCurrent(why.decided, |before|, snap)
    ensures Worked(calls, |before|) ==>
              why.choice.Go? && LetThrough(why.decided, |before|, snap, why.choice.target, why.built)
    ensures BodyScript(svc, Some(snap), script)
  {
    NoOpMeans(why.decided, |before|, snap, why.choice, why.built);
    if why.choice.Go? {
      StaysOffline(before, why.decided, calls, snap, why.choice.target);
    }
    if Worked(calls, |before|) {
      WorkNeedsAllowedTarget(before, why.decided, calls, snap, why.choice, why.built);
    }
  }

  method Rollback(d: Daemon, out: Outbox, rows: map<string, Container>, svc: string, composeUnchanged: bool, p: Probe)
    returns (res: ActionResult, ghost script: seq<Msg>, ghost why: Reasons, ghost trail: Recreate.Trail)
    requires p.tick > 0
    modifies d, out
    ensures out.sent == old(out.sent) + script
    ensures BodyScript(svc, Lookup(rows, svc), script)
    ensures Recreate.Records(trail, old(d.containers), d.containers)
    ensures !composeUnchanged || svc !in rows ==>
              res == Failure(if !composeUnchanged then ComposeMoved else NotInState) && script == []
              && d.calls == old(d.calls) && d.containers == old(d.containers)
    ensures composeUnchanged && svc in rows ==>
              RolledBack(old(d.calls), d.calls, svc, rows[svc], res, script, p, why, trail)
    ensures Since(old(d.calls), d.calls, Offline)
    ensures res.Success? && res.noOp
            <==> composeUnchanged && svc in rows && StuckAtCurrent(why.decided, |old(d.calls)|, rows[svc])
    ensures Worked(d.calls, |old(d.calls)|) ==>
              svc in rows && why.choice.Go?
              && LetThrough(why.decided, |old(d.calls)|, rows[svc], why.choice.target, why.built)
  {
    script, why, trail := [], Reasons(NoTarget, None, d.calls), Recreate.Untouched(d.containers);
    if !composeUnchanged {
      res := Failure(ComposeMoved);
    } else if svc !in rows {
      res := Failure(NotInState);
    } else {
      res, script, why, trail := ChooseAndRoll(d, out, svc, rows[svc], p);
      RollbackIsSafe(old(d.calls), d.calls, svc, rows[svc], res, script, p, why, trail);
    }
  }

  // ---------------------------------------------------------------- what success says about the new container

  /** Exchange `n` listed `svc` as it is after the recreate. */
  ghost predicate ListsTruly(calls: seq<Call>, n: nat, svc: string, trail: Recreate.Trail) {
    n < |calls| && calls[n].Listed? && calls[n].svc == svc && calls[n].found.Some?
    && Recreate.ListsService(trail.after, svc, calls[n].found.value)
  }

  /** The verify loop, watching container `id`, reaches Verified. */
  ghost predicate VerdictOn(id: string, snap: Container, p: Probe)
    requires p.tick > 0
  {
    exists ticks: nat :: Verify.FirstDecisive(VerifySettings(snap, p), p.obs(id), ticks, Verify.Verified)
  }

  lemma SuccessIsVerdictOnNew(from: nat, calls: seq<Call>, svc: string, snap: Container, p: Probe, ok: bool,
                              trail: Recreate.Trail)
    requires p.tick > 0 && Carried(from, calls, svc, snap, p, ok, trail) && Recreate.Outcome(trail) && trail.stage.Done?
    requires Recreate.StrictlyNewest(trail, svc) && ListsTruly(calls, |calls| - 1, svc, trail)
    ensures ok <==> VerdictOn(trail.newId, snap, p)
  {
    var list := calls[|calls| - 1].found.value;
    Recreate.NewIsListed(trail, svc, list);
    var k := Recreate.NewestExists(list);
    Recreate.RecreatedIsFound(trail, svc, list, k);
    if VerdictOn(trail.newId, snap, p) {
      var ticks: nat :| Verify.FirstDecisive(VerifySettings(snap, p), p.obs(trail.newId), ticks, Verify.Verified);
      VerdictOfNewest(calls, |calls| - 1, svc, snap, p, k, ticks, Verify.Verified);
    }
    if ok {
      var k': nat, ticks: nat :| Recreate.IsNewest(list, k')
        && Verify.FirstDecisive(VerifySettings(snap, p), p.obs(list[k'].id), ticks, Verify.Verified);
      Recreate.RecreatedIsFound(trail, svc, list, k');
    }
  }

  /** Update succeeds, after a finished recreate whose container is strictly the newest and with a truthful last listing,
      if and only if the verify loop verifies that very container. */
  lemma UpdateSuccessIsVerdict(before: seq<Call>, calls: seq<Call>, svc: string, snap: Container, res: ActionResult,
                               script: seq<Msg>, p: Probe, trail: Recreate.Trail)
    requires p.tick > 0 && Updated(before, calls, svc, snap, res, script, p, trail)
    requires Recreate.Outcome(trail) && trail.stage.Done?
    requires Recreate.StrictlyNewest(trail, svc) && ListsTruly(calls, |calls| - 1, svc, trail)
    ensures res.Success? <==> VerdictOn(trail.newId, snap, p)
  {
    SuccessIsVerdictOnNew(|before|, calls, svc, snap, p, res.Success?, trail);
  }

  /** The same for Rollback to a chosen target. */
  lemma RollbackSuccessIsVerdict(before: seq<Call>, calls: seq<Call>, svc: string, snap: Container, target: string,
                                 res: ActionResult, script: seq<Msg>, p: Probe, trail: Recreate.Trail)
    requires p.tick > 0 && RolledTo(before, calls, svc, snap, target, res, script, p, trail)
    requires Recreate.Outcome(trail) && trail.stage.Done?
    requires Recreate.StrictlyNewest(trail, svc) && ListsTruly(calls, |calls| - 1, svc, trail)
    ensures res.Success? <==> VerdictOn(trail.newId, snap, p)
  {
    SuccessIsVerdictOnNew(|before|, calls, svc, snap, p, res.Success?, trail);
  }
}
