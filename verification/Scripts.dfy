/** The message sequences one action body can send, and the grammar they make of a service's traffic. */
module Scripts {
  import opened Schema
  import opened Text
  import opened Messages

  // ---------------------------------------------------------------- what one body sends

  predicate IsFailure(m: Msg, svc: string, phase: string) {
    m.ActionFailed? && m.svc == svc && m.phase == phase
  }

  predicate UpdateScript(svc: string, snap: Container, ms: seq<Msg>) {
    |ms| >= 2 && ms[0] == ActionStart(svc, Updating)
    && (|| (|ms| == 2 && IsFailure(ms[1], svc, "pull"))
        || (|ms| == 3 && ms[1] == ActionProgress(svc) && IsFailure(ms[2], svc, "compose"))
        || (|ms| == 4 && ms[1] == ActionProgress(svc)
            && ms[2].UpdateSwap? && ms[2] == UpdateSwapOf(svc, snap, ms[2].next, ms[2].at)
            && (ms[3] == ActionDone(svc) || IsFailure(ms[3], svc, "verify"))))
  }

  predicate RollbackScript(svc: string, snap: Container, ms: seq<Msg>) {
    |ms| >= 2 && ms[0] == ActionStart(svc, RollingBack)
    && (|| (|ms| == 2 && IsFailure(ms[1], svc, "pull"))
        || (|ms| == 3 && ms[1] == ActionProgress(svc) && IsFailure(ms[2], svc, "compose"))
        || (|ms| == 4 && ms[1] == ActionProgress(svc)
            && ms[2].RollbackSwap? && ms[2] == RollbackSwapOf(svc, snap, ms[2].next, ms[2].at)
            && ms[2].next != snap.currentDigest
            && (ms[3] == ActionDone(svc) || IsFailure(ms[3], svc, "verify"))))
  }

  predicate ForcePullScript(svc: string, ms: seq<Msg>) {
    |ms| == 2 && ms[0] == ActionStart(svc, ForcePulling)
    && (IsFailure(ms[1], svc, "pull") || (ms[1].ForcePullDone? && ms[1].svc == svc))
  }

  /** All the sends of one body run, given the row it snapshotted. A body that finds no row, or decides
      before it starts (no-op, no target, not a downgrade), sends nothing. */
  predicate BodyScript(svc: string, snap: Option<Container>, ms: seq<Msg>) {
    ms == []
    || (snap.Some?
        && (UpdateScript(svc, snap.value, ms) || RollbackScript(svc, snap.value, ms) || ForcePullScript(svc, ms)))
  }

  /** A rollback's script holds one swap. */
  lemma SwapInScript(svc: string, snap: Container, ms: seq<Msg>, m: Msg)
    requires RollbackScript(svc, snap, ms) && |ms| == 4 && m in ms && IsSwap(m, svc)
    ensures m == ms[2]
  {
  }

  // ---------------------------------------------------------------- the grammar, as an automaton

  predicate IsAction(m: Msg) {
    m.ActionStart? || m.ActionProgress? || m.UpdateSwap? || m.RollbackSwap?
    || m.ActionDone? || m.ForcePullDone? || m.ActionFailed?
  }

  datatype Phase = Outside | Started(kind: ActionKind) | Fetched(kind: ActionKind) | Recreated(kind: ActionKind)
                 | Broken

  function Advance(p: Phase, m: Msg): Phase
    requires IsAction(m)
  {
    match m
    case ActionStart(_, kind) => if p == Outside then Started(kind) else Broken
    case ActionProgress(_) => if p.Started? && p.kind != ForcePulling then Fetched(p.kind) else Broken
    case UpdateSwap(_, _, _, _, _, _) => if p == Fetched(Updating) then Recreated(Updating) else Broken
    case RollbackSwap(_, _, _, _, _, _) => if p == Fetched(RollingBack) then Recreated(RollingBack) else Broken
    case ActionDone(_) => if p.Recreated? then Outside else Broken
    case ForcePullDone(_, _) => if p == Started(ForcePulling) then Outside else Broken
    case ActionFailed(_, phase, _) =>
      if (p.Started? && phase == "pull") || (p.Fetched? && phase == "compose") || (p.Recreated? && phase == "verify")
      then Outside else Broken
  }

  predicate Concerns(m: Msg, svc: string) {
    IsAction(m) && m.svc == svc
  }

  /** Where the traffic `ms` leaves service `svc`, starting from phase `p`. */
  function Scan(p: Phase, ms: seq<Msg>, svc: string): Phase {
    if ms == [] then p
    else
      var q := Scan(p, ms[..|ms| - 1], svc);
      var last := ms[|ms| - 1];
      if Concerns(last, svc) then Advance(q, last) else q
  }

  lemma {:induction false} ScanConcat(p: Phase, a: seq<Msg>, b: seq<Msg>, svc: string)
    ensures Scan(p, a + b, svc) == Scan(Scan(p, a, svc), b, svc)
  {
    if b == [] {
      assert a + b == a;
    } else {
      assert (a + b)[..|a + b| - 1] == a + b[..|b| - 1];
      ScanConcat(p, a, b[..|b| - 1], svc);
    }
  }

  lemma ScanSnoc(p: Phase, a: seq<Msg>, m: Msg, svc: string)
    ensures Scan(p, a + [m], svc)
            == if Concerns(m, svc) then Advance(Scan(p, a, svc), m) else Scan(p, a, svc)
  {
    assert (a + [m])[..|a|] == a;
  }

  lemma ScanAt(ms: seq<Msg>, i: nat, svc: string)
    requires i < |ms| && Concerns(ms[i], svc)
    ensures Scan(Outside, ms[..i + 1], svc) == Advance(Scan(Outside, ms[..i], svc), ms[i])
  {
    assert ms[..i + 1] == ms[..i] + [ms[i]];
    ScanSnoc(Outside, ms[..i], ms[i], svc);
  }

  // ---------------------------------------------------------------- the grammar, declaratively

  /** A finished action: Start, at most two progress messages, Result; which result goes with which progress. */
  predicate IsBlock(b: seq<Msg>) {
    |b| >= 2 && b[0].ActionStart?
    && match |b| {
         case 2 => (b[1].ActionFailed? && b[1].phase == "pull") || (b[1].ForcePullDone? && b[0].kind == ForcePulling)
         case 3 => b[0].kind != ForcePulling && b[1].ActionProgress? && b[2].ActionFailed? && b[2].phase == "compose"
         case 4 => b[0].kind != ForcePulling && b[1].ActionProgress?
                   && (if b[0].kind == Updating then b[2].UpdateSwap? else b[2].RollbackSwap?)
                   && (b[3].ActionDone? || (b[3].ActionFailed? && b[3].phase == "verify"))
         case _ => false
       }
  }

  lemma ScriptShape(svc: string, snap: Option<Container>, ms: seq<Msg>)
    requires BodyScript(svc, snap, ms) && ms != []
    ensures IsBlock(ms)
    ensures forall m :: m in ms ==> Concerns(m, svc)
  {
  }

  lemma BlockScans(b: seq<Msg>, svc: string)
    requires IsBlock(b) && forall m :: m in b ==> Concerns(m, svc)
    ensures Scan(Outside, b, svc) == Outside
  {
    ScanAt(b, 0, svc);
    assert Scan(Outside, b[..1], svc) == Started(b[0].kind);
    ScanAt(b, 1, svc);
    if |b| > 2 {
      assert Scan(Outside, b[..2], svc) == Fetched(b[0].kind);
      ScanAt(b, 2, svc);
    }
    if |b| > 3 {
      assert Scan(Outside, b[..3], svc) == Recreated(b[0].kind);
      ScanAt(b, 3, svc);
    }
    assert b == b[..|b|];
  }

  /** A whole body run is one block, and leads from outside a block back to outside. */
  lemma ScriptIsBlock(svc: string, snap: Option<Container>, ms: seq<Msg>)
    requires BodyScript(svc, snap, ms)
    ensures Scan(Outside, ms, svc) == Outside
    ensures forall m :: m in ms ==> Concerns(m, svc)
  {
    if ms != [] {
      ScriptShape(svc, snap, ms);
      BlockScans(ms, svc);
    }
  }

  /** An action still under way, at phase `p`. */
  predicate IsOpen(b: seq<Msg>, p: Phase) {
    match p
    case Outside => b == []
    case Started(k) => |b| == 1 && b[0].ActionStart? && b[0].kind == k
    case Fetched(k) => |b| == 2 && b[0].ActionStart? && b[0].kind == k && k != ForcePulling && b[1].ActionProgress?
    case Recreated(k) =>
      |b| == 3 && b[0].ActionStart? && b[0].kind == k && b[1].ActionProgress?
      && k != ForcePulling && (if k == Updating then b[2].UpdateSwap? else b[2].RollbackSwap?)
    case Broken => false
  }

  function ActionsOf(ms: seq<Msg>, svc: string): seq<Msg> {
    if ms == [] then []
    else
      var last := ms[|ms| - 1];
      ActionsOf(ms[..|ms| - 1], svc) + (if Concerns(last, svc) then [last] else [])
  }

  function Flatten(bs: seq<seq<Msg>>): seq<Msg> {
    if bs == [] then [] else Flatten(bs[..|bs| - 1]) + bs[|bs| - 1]
  }

  ghost predicate BlocksThenOpen(ms: seq<Msg>, bs: seq<seq<Msg>>, open: seq<Msg>, p: Phase) {
    ms == Flatten(bs) + open && (forall b :: b in bs ==> IsBlock(b)) && IsOpen(open, p)
  }

  lemma OpenGrows(open: seq<Msg>, p: Phase, m: Msg)
    requires IsOpen(open, p) && IsAction(m) && Advance(p, m) != Broken
    ensures if Advance(p, m) == Outside then IsBlock(open + [m]) else IsOpen(open + [m], Advance(p, m))
  {
  }

  lemma FlattenSnoc(bs: seq<seq<Msg>>, b: seq<Msg>)
    ensures Flatten(bs + [b]) == Flatten(bs) + b
  {
    assert (bs + [b])[..|bs|] == bs;
  }

  /** One more message extends the open block, or closes it. */
  lemma BlocksThenOpenNext(ms: seq<Msg>, bs: seq<seq<Msg>>, open: seq<Msg>, p: Phase, m: Msg)
    returns (bs': seq<seq<Msg>>, open': seq<Msg>)
    requires BlocksThenOpen(ms, bs, open, p) && IsAction(m) && Advance(p, m) != Broken
    ensures BlocksThenOpen(ms + [m], bs', open', Advance(p, m))
  {
    OpenGrows(open, p, m);
    Reassociate(Flatten(bs), open, [m]);
    if Advance(p, m) == Outside {
      FlattenSnoc(bs, open + [m]);
      assert Flatten(bs + [open + [m]]) + [] == Flatten(bs + [open + [m]]);
      return bs + [open + [m]], [];
    }
    return bs, open + [m];
  }

  /** Traffic the automaton accepts is a sequence of finished blocks followed by at most one unfinished one. */
  lemma {:induction false} AcceptedIsBlocks(ms: seq<Msg>, svc: string)
    returns (bs: seq<seq<Msg>>, open: seq<Msg>)
    requires Scan(Outside, ms, svc) != Broken
    ensures BlocksThenOpen(ActionsOf(ms, svc), bs, open, Scan(Outside, ms, svc))
  {
    if ms == [] {
      return [], [];
    }
    var init, last := ms[..|ms| - 1], ms[|ms| - 1];
    bs, open := AcceptedIsBlocks(init, svc);
    if Concerns(last, svc) {
      bs, open := BlocksThenOpenNext(ActionsOf(init, svc), bs, open, Scan(Outside, init, svc), last);
    } else {
      assert ActionsOf(ms, svc) == ActionsOf(init, svc);
    }
  }

  /** The phase depends on the service's own action messages alone. */
  lemma {:induction false} ScanActions(ms: seq<Msg>, svc: string)
    ensures Scan(Outside, ms, svc) == Scan(Outside, ActionsOf(ms, svc), svc)
  {
    if ms != [] {
      var last := ms[|ms| - 1];
      ScanActions(ms[..|ms| - 1], svc);
      if Concerns(last, svc) {
        ScanSnoc(Outside, ActionsOf(ms[..|ms| - 1], svc), last, svc);
      } else {
        assert ActionsOf(ms, svc) == ActionsOf(ms[..|ms| - 1], svc);
      }
    }
  }

  lemma ActionsOfSnoc(ms: seq<Msg>, m: Msg, svc: string)
    ensures ActionsOf(ms + [m], svc) == ActionsOf(ms, svc) + (if Concerns(m, svc) then [m] else [])
  {
    assert (ms + [m])[..|ms|] == ms;
  }

  // ---------------------------------------------------------------- the spinner

  /** The action the traffic says is running: the last Start not yet followed by a Result. */
  function Unfinished(log: seq<Msg>, svc: string): Option<ActionKind> {
    if log == [] then None
    else
      var last := log[|log| - 1];
      if !Concerns(last, svc) then Unfinished(log[..|log| - 1], svc)
      else match last
        case ActionStart(_, kind) => Some(kind)
        case ActionDone(_) => None
        case ForcePullDone(_, _) => None
        case ActionFailed(_, _, _) => None
        case _ => Unfinished(log[..|log| - 1], svc)
  }

  function SpinnerOf(u: Option<ActionKind>): string {
    if u.Some? then InFlightName(u.value) else ""
  }

  predicate Idle(s: State, svc: string) {
    Row(s, svc).actionInFlight == ""
  }

  /** Each message that needs a row finds it when its turn comes. */
  ghost predicate FindsRows(init: State, log: seq<Msg>) {
    forall i :: 0 <= i < |log| && NeedsRow(log[i]) ==> log[i].svc in ApplyAll(init, log[..i]).containers
  }

  lemma FindsRowsSnoc(init: State, log: seq<Msg>, m: Msg)
    requires FindsRows(init, log)
    requires NeedsRow(m) ==> m.svc in ApplyAll(init, log).containers
    ensures FindsRows(init, log + [m])
  {
    var all := log + [m];
    forall i | 0 <= i < |all| && NeedsRow(all[i]) ensures all[i].svc in ApplyAll(init, all[..i]).containers {
      assert all[..i] == log[..i];
      assert log[..|log|] == log;
    }
  }

  lemma FindsRowsPrefix(init: State, log: seq<Msg>, n: nat)
    requires FindsRows(init, log) && n <= |log|
    ensures FindsRows(init, log[..n])
  {
    forall i | 0 <= i < n && NeedsRow(log[..n][i]) ensures log[..n][i].svc in ApplyAll(init, log[..n][..i]).containers {
      assert log[..n][..i] == log[..i];
    }
  }

  lemma SpinnerByOne(m: Msg, s: State, svc: string)
    requires NeedsRow(m) ==> m.svc in s.containers
    ensures Row(Apply(m, s), svc).actionInFlight
            == if !Concerns(m, svc) then Row(s, svc).actionInFlight
               else match m
                 case ActionStart(_, kind) => InFlightName(kind)
                 case ActionDone(_) => ""
                 case ForcePullDone(_, _) => ""
                 case ActionFailed(_, _, _) => ""
                 case _ => Row(s, svc).actionInFlight
  {
    RowAfterApply(m, s, svc);
  }

  /** A message that writes ActionInFlight: a Start or a Result. */
  predicate IsTurn(m: Msg, svc: string) {
    Concerns(m, svc) && (m.ActionStart? || m.ActionDone? || m.ForcePullDone? || m.ActionFailed?)
  }

  predicate AnyTurn(log: seq<Msg>, svc: string) {
    log != [] && (AnyTurn(log[..|log| - 1], svc) || IsTurn(log[|log| - 1], svc))
  }

  /** ActionInFlight always shows the unfinished action of the applied traffic: the last Start without a Result after it,
      or nothing if there is none. Until the first Start or Result it shows what the document held at boot. This holds of
      every log, also one with lost sends. */
  lemma {:induction false} SpinnerExact(init: State, log: seq<Msg>, svc: string)
    requires FindsRows(init, log)
    ensures Row(ApplyAll(init, log), svc).actionInFlight
            == if AnyTurn(log, svc) then SpinnerOf(Unfinished(log, svc)) else Row(init, svc).actionInFlight
  {
    if log != [] {
      var n := |log| - 1;
      FindsRowsPrefix(init, log, n);
      SpinnerExact(init, log[..n], svc);
      SpinnerByOne(log[n], ApplyAll(init, log[..n]), svc);
    }
  }

  /** An unfinished action has had its turn. */
  lemma {:induction false} UnfinishedHadTurn(log: seq<Msg>, svc: string)
    ensures Unfinished(log, svc).Some? ==> AnyTurn(log, svc)
  {
    if log != [] {
      UnfinishedHadTurn(log[..|log| - 1], svc);
    }
  }

  /** The row is idle exactly if no action is unfinished, and it was idle at boot or an action has had its turn since. */
  lemma IdleExact(init: State, log: seq<Msg>, svc: string)
    requires FindsRows(init, log)
    ensures Idle(ApplyAll(init, log), svc) <==> Unfinished(log, svc).None? && (Idle(init, svc) || AnyTurn(log, svc))
  {
    SpinnerExact(init, log, svc);
    UnfinishedHadTurn(log, svc);
  }

  /** In well-formed traffic an action is unfinished exactly while a block is open. */
  lemma {:induction false} UnfinishedIsOpen(log: seq<Msg>, svc: string)
    requires Scan(Outside, log, svc) != Broken
    ensures var p := Scan(Outside, log, svc);
            Unfinished(log, svc) == if p == Outside then None else Some(p.kind)
  {
    if log != [] {
      UnfinishedIsOpen(log[..|log| - 1], svc);
    }
  }

  // ---------------------------------------------------------------- the error breadcrumb

  predicate IsPullError(e: string) {
    HasPrefix(e, "pull_failed:")
  }

  lemma ErrorByOne(m: Msg, s: State, svc: string)
    requires !Concerns(m, svc)
    ensures Row(Apply(m, s), svc).actionError
            == if m.PollResolved? && m.svc == svc && IsPullError(Row(s, svc).actionError) then ""
               else Row(s, svc).actionError
  {
    RowAfterApply(m, s, svc);
  }

  /** Between actions an error stays on the row through events, stops, removals and failed polls; only a successful poll
      clears it, and only a pull error. */
  lemma {:induction false} ErrorUntilPoll(s: State, log: seq<Msg>, svc: string)
    requires forall m :: m in log ==> !Concerns(m, svc)
    ensures Row(ApplyAll(s, log), svc).actionError
            == if IsPullError(Row(s, svc).actionError) && PolledDigests(log, svc) != [] then ""
               else Row(s, svc).actionError
  {
    if log != [] {
      var init, last := log[..|log| - 1], log[|log| - 1];
      assert last in log;
      ErrorUntilPoll(s, init, svc);
      ErrorByOne(last, ApplyAll(s, init), svc);
    }
  }

  /** What a failed action leaves behind, after any later traffic without an action of that service. */
  lemma FailureShown(s: State, svc: string, phase: string, reason: string, rest: seq<Msg>)
    requires svc in s.containers
    requires forall m :: m in rest ==> !Concerns(m, svc)
    ensures var e := phase + "_failed: " + reason;
            Row(ApplyAll(Apply(ActionFailed(svc, phase, reason), s), rest), svc).actionError
            == if IsPullError(e) && PolledDigests(rest, svc) != [] then "" else e
  {
    ErrorUntilPoll(Apply(ActionFailed(svc, phase, reason), s), rest, svc);
  }
}
