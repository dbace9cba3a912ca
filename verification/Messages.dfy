/** The messages of the state-update channel (one constructor per closure) and what applying them does to
    the document. Every fact here is about arbitrary message logs, so it holds for every interleaving of the
    three producers. */
module Messages {
  import opened Schema
  import opened Text

  datatype ActionKind = Updating | RollingBack | ForcePulling

  function InFlightName(k: ActionKind): (r: string)
    ensures r != ""
  {
    match k
    case Updating => "updating"
    case RollingBack => "rolling_back"
    case ForcePulling => "force_pulling"
  }

  datatype Msg =
    | SweepStart(at: Instant)
    | SweepEnd(at: Instant)
    | PollResolved(svc: string, digest: string, createdAt: Instant, now: Instant)
    | PinnedNote(svc: string)
    | TagMismatchNote(svc: string)
    | FetchErrorNote(svc: string, errClass: string)
    | Upsert(svc: string, image: string, tag: string, id: string, labels: map<string, string>,
             pinned: bool, running: string, runningAt: Instant, invalidPattern: bool)
    | MarkStopped(svc: string)
    | RemoveContainer(svc: string)
    | ActionStart(svc: string, kind: ActionKind)
    | ActionProgress(svc: string)
    | UpdateSwap(svc: string, record: bool, prev: string, at: Instant, builtAt: Instant, next: string)
    | RollbackSwap(svc: string, record: bool, prev: string, at: Instant, builtAt: Instant, next: string)
    | ActionDone(svc: string)
    | ForcePullDone(svc: string, digest: string)
    | ActionFailed(svc: string, phase: string, reason: string)

  predicate IsSweep(m: Msg) {
    m.SweepStart? || m.SweepEnd?
  }

  predicate IsSwap(m: Msg, svc: string) {
    (m.UpdateSwap? || m.RollbackSwap?) && m.svc == svc
  }

  /** The closures that read the row with a plain map index and so would store a row under a missing key. */
  predicate WritesMissingRow(m: Msg) {
    m.PollResolved? || m.PinnedNote? || m.TagMismatchNote? || m.FetchErrorNote? || m.Upsert?
  }

  /** Every closure but the discovery upsert relies on its row being there already. */
  predicate NeedsRow(m: Msg) {
    !IsSweep(m) && !m.Upsert?
  }

  function ClearStaleErrorNotes(n: string): string {
    if n == NOTE_TAG_MISMATCH || HasPrefix(n, NOTE_REGISTRY_PREFIX) then "" else n
  }

  function ClearStalePullActionError(e: string): string {
    if HasPrefix(e, "pull_failed:") then "" else e
  }

  /** The poller's flip rule: compare with the running digest, or failing that with the digest seen before. */
  function Flip(c: Container, digest: string): bool {
    if c.currentDigest != "" then c.currentDigest != digest
    else if c.availableDigest != "" && c.availableDigest != digest then true
    else c.updateAvailable
  }

  function Swapped(c: Container, m: Msg): Container
    requires m.UpdateSwap? || m.RollbackSwap?
  {
    var c1 := if m.record
              then c.(previousDigest := m.prev, previousDigestAt := m.at, previousDigestBuiltAt := m.builtAt)
              else c;
    c1.(currentDigest := m.next)
  }

  /** What a closure does to the row it read. */
  function RowAfter(m: Msg, c: Container): Container
    requires !IsSweep(m)
  {
    match m
    case PollResolved(_, digest, createdAt, now) =>
      c.(availableDigest := digest, availableDigestAt := createdAt, lastPolledAt := now,
         updateAvailable := Flip(c, digest),
         notes := ClearStaleErrorNotes(c.notes), actionError := ClearStalePullActionError(c.actionError))
    case PinnedNote(_) => c.(notes := NOTE_PINNED_OPT_OUT)
    case TagMismatchNote(_) => c.(notes := NOTE_TAG_MISMATCH)
    case FetchErrorNote(_, errClass) =>
      if c.notes == NOTE_PINNED_OPT_OUT || c.notes == NOTE_INVALID_TAG_PATTERN then c
      else c.(notes := NOTE_REGISTRY_PREFIX + errClass + NOTE_REGISTRY_SUFFIX)
    case Upsert(svc, image, tag, id, labels, pinned, running, runningAt, invalidPattern) =>
      var c1 := c.(service := svc, image := image, tag := tag, containerID := id, labels := labels,
                   pinned := pinned, stopped := false, currentDigest := running, currentDigestAt := runningAt);
      if invalidPattern then c1.(notes := NOTE_INVALID_TAG_PATTERN) else c1
    case MarkStopped(_) => c.(stopped := true)
    case RemoveContainer(_) => c.(stopped := true, containerID := "")
    case ActionStart(_, kind) => c.(actionInFlight := InFlightName(kind), actionError := "")
    case ActionProgress(_) => c
    case UpdateSwap(_, _, _, _, _, _) => Swapped(c, m).(updateAvailable := false)
    case RollbackSwap(_, _, _, _, _, next) =>
      var c1 := Swapped(c, m);
      if c.availableDigest != "" then c1.(updateAvailable := next != c.availableDigest) else c1
    case ActionDone(_) => c.(actionInFlight := "", actionError := "")
    case ForcePullDone(_, digest) =>
      var flag := if c.currentDigest != "" then c.currentDigest != digest else c.updateAvailable;
      c.(availableDigest := digest, updateAvailable := flag, actionInFlight := "", actionError := "")
    case ActionFailed(_, phase, reason) =>
      c.(actionInFlight := "", actionError := phase + "_failed: " + reason)
  }

  function Apply(m: Msg, s: State): State {
    match m
    case SweepStart(at) => s.(lastPollStart := at, lastPollError := "")
    case SweepEnd(at) => s.(lastPollEnd := at)
    case _ =>
      if m.svc in s.containers || WritesMissingRow(m)
      then s.(containers := s.containers[m.svc := RowAfter(m, Row(s, m.svc))])
      else s
  }

  lemma ServiceAfter(m: Msg, c: Container)
    requires !IsSweep(m)
    ensures RowAfter(m, c).service == if m.Upsert? then m.svc else c.service
  {
  }

  /** A message changes one row at most. */
  lemma RowAfterApply(m: Msg, s: State, svc: string)
    ensures Row(Apply(m, s), svc)
            == if !IsSweep(m) && m.svc == svc && (svc in s.containers || WritesMissingRow(m))
               then RowAfter(m, Row(s, svc)) else Row(s, svc)
  {
  }

  function ApplyAll(s: State, log: seq<Msg>): State {
    if log == [] then s else Apply(log[|log| - 1], ApplyAll(s, log[..|log| - 1]))
  }

  lemma {:induction false} ApplyAllConcat(s: State, a: seq<Msg>, b: seq<Msg>)
    ensures ApplyAll(s, a + b) == ApplyAll(ApplyAll(s, a), b)
  {
    if b == [] {
      assert a + b == a;
    } else {
      var n := |a + b| - 1;
      assert (a + b)[..n] == a + b[..|b| - 1];
      ApplyAllConcat(s, a, b[..|b| - 1]);
    }
  }

  /** No producer ever deletes a row. */
  lemma {:induction false} RowsSurvive(s: State, log: seq<Msg>)
    ensures s.containers.Keys <= ApplyAll(s, log).containers.Keys
  {
    if log != [] {
      RowsSurvive(s, log[..|log| - 1]);
    }
  }

  // ---------------------------------------------------------------- the rollback target

  predicate SamePrevious(c: Container, c': Container) {
    c'.previousDigest == c.previousDigest
    && c'.previousDigestAt == c.previousDigestAt
    && c'.previousDigestBuiltAt == c.previousDigestBuiltAt
  }

  lemma PreviousKeptByOne(m: Msg, s: State, svc: string)
    requires !IsSwap(m, svc)
    ensures SamePrevious(Row(s, svc), Row(Apply(m, s), svc))
  {
    RowAfterApply(m, s, svc);
  }

  /** Only an Update or Rollback swap writes the rollback target: any other traffic, from any producer and in
      any order, leaves PreviousDigest and both of its dates alone. */
  lemma {:induction false} PreviousOnlyBySwap(s: State, log: seq<Msg>, svc: string)
    requires svc in s.containers
    requires forall m :: m in log ==> !IsSwap(m, svc)
    ensures svc in ApplyAll(s, log).containers
    ensures SamePrevious(s.containers[svc], ApplyAll(s, log).containers[svc])
  {
    if log != [] {
      var last := log[|log| - 1];
      assert last in log;
      PreviousOnlyBySwap(s, log[..|log| - 1], svc);
      PreviousKeptByOne(last, ApplyAll(s, log[..|log| - 1]), svc);
    }
  }

  /** The swap an Update sends once its recreate succeeded. When the old digest is unknown it records
      `snapshot.Image`, which discovery fills with the repository name. */
  function UpdateSwapOf(svc: string, snap: Container, pulled: string, at: Instant): Msg {
    var prev := if snap.currentDigest == "" then snap.image else snap.currentDigest;
    UpdateSwap(svc, prev != "" && prev != pulled, prev, at, snap.currentDigestAt, pulled)
  }

  function RollbackSwapOf(svc: string, snap: Container, target: string, at: Instant): Msg {
    var prev := snap.currentDigest;
    RollbackSwap(svc, prev != "" && prev != target, prev, at, snap.currentDigestAt, target)
  }

  /** After an Update moved a service from a known digest to a different one, the old digest stays recorded,
      with the swap time and the old image's build time, until the next swap of that service. Failed verifies,
      die/destroy/start events and polls in `rest` make no difference. */
  lemma OldDigestStaysRecorded(s: State, before: seq<Msg>, svc: string, snap: Container, pulled: string,
                               at: Instant, rest: seq<Msg>)
    requires svc in ApplyAll(s, before).containers
    requires snap.currentDigest != "" && snap.currentDigest != pulled
    requires forall m :: m in rest ==> !IsSwap(m, svc)
    ensures var log := before + [UpdateSwapOf(svc, snap, pulled, at)] + rest;
            svc in ApplyAll(s, log).containers
            && var c := ApplyAll(s, log).containers[svc];
               c.previousDigest == snap.currentDigest
               && c.previousDigestAt == at
               && c.previousDigestBuiltAt == snap.currentDigestAt
  {
    var swap := UpdateSwapOf(svc, snap, pulled, at);
    AroundOne(s, before, swap, rest);
    PreviousOnlyBySwap(Apply(swap, ApplyAll(s, before)), rest, svc);
  }

  /** Whether the swap of an Update that saw row `snap`, applied to row `c`, leaves the digest that was running on record. */
  predicate RecordsRunning(snap: Container, c: Container, pulled: string) {
    if snap.currentDigest != "" then snap.currentDigest != pulled || c.previousDigest == snap.currentDigest
    else (snap.image == "" || snap.image == pulled) && c.previousDigest == ""
  }

  /** The rollback target is the digest that was running if and only if that digest was known and is not the pulled one,
      or stood there already, or was unknown and nothing was recorded in its place. An unknown digest with a repository
      name is the failing case: the name is recorded instead. */
  lemma SwapRecordsRunningIff(s: State, before: seq<Msg>, svc: string, snap: Container, pulled: string, at: Instant,
                              rest: seq<Msg>)
    requires svc in ApplyAll(s, before).containers
    requires forall m :: m in rest ==> !IsSwap(m, svc)
    ensures var log := before + [UpdateSwapOf(svc, snap, pulled, at)] + rest;
            svc in ApplyAll(s, log).containers
            && (ApplyAll(s, log).containers[svc].previousDigest == snap.currentDigest
                <==> RecordsRunning(snap, Row(ApplyAll(s, before), svc), pulled))
  {
    var swap := UpdateSwapOf(svc, snap, pulled, at);
    var mid := ApplyAll(s, before);
    AroundOne(s, before, swap, rest);
    PreviousOnlyBySwap(Apply(swap, mid), rest, svc);
  }

  lemma AroundOne(s: State, before: seq<Msg>, m: Msg, rest: seq<Msg>)
    ensures ApplyAll(s, before + [m] + rest) == ApplyAll(Apply(m, ApplyAll(s, before)), rest)
  {
    ApplyAllConcat(s, before + [m], rest);
    assert (before + [m])[..|before|] == before;
  }

  /** The failing case on a fresh row: the repository name becomes the rollback target. */
  lemma UnknownDigestRecordsRepository(svc: string)
    ensures var c := EMPTY_ROW.(service := svc, image := "repo", tag := "latest");
            RowAfter(UpdateSwapOf(svc, c, "sha256:new", 0), c).previousDigest == "repo"
  {
    assert "repo"[0] != "sha256:new"[0];
  }

  // ---------------------------------------------------------------- the update-available flag

  /** The messages that write a service's current digest, available digest or flag. */
  predicate Touches(m: Msg, svc: string) {
    (m.PollResolved? || m.Upsert? || m.UpdateSwap? || m.RollbackSwap? || m.ForcePullDone?) && m.svc == svc
  }

  predicate FlagAgrees(c: Container) {
    c.updateAvailable <==> c.currentDigest != c.availableDigest
  }

  /** Whether the flag will be right after `m`, judged from the row `c` that `m` is about to change. */
  predicate Settles(m: Msg, c: Container) {
    match m
    case PollResolved(_, _, _, _) => true
    case RollbackSwap(_, _, _, _, _, _) => true
    case ForcePullDone(_, _) => true
    case UpdateSwap(_, _, _, _, _, next) => next == c.availableDigest
    case Upsert(_, _, _, _, _, _, running, _, _) => c.updateAvailable == (running != c.availableDigest)
    case _ => false
  }

  lemma UntouchedByOne(m: Msg, s: State, svc: string)
    requires !Touches(m, svc)
    ensures var c, c' := Row(s, svc), Row(Apply(m, s), svc);
            c'.currentDigest == c.currentDigest
            && c'.availableDigest == c.availableDigest
            && c'.updateAvailable == c.updateAvailable
  {
    RowAfterApply(m, s, svc);
  }

  lemma {:induction false} UntouchedFields(s: State, log: seq<Msg>, svc: string)
    requires forall m :: m in log ==> !Touches(m, svc)
    ensures var c, c' := Row(s, svc), Row(ApplyAll(s, log), svc);
            c'.currentDigest == c.currentDigest
            && c'.availableDigest == c.availableDigest
            && c'.updateAvailable == c.updateAvailable
  {
    if log != [] {
      var last := log[|log| - 1];
      assert last in log;
      UntouchedFields(s, log[..|log| - 1], svc);
      UntouchedByOne(last, ApplyAll(s, log[..|log| - 1]), svc);
    }
  }

  /** Exactly when the flag tells the truth: with both digests known, UpdateAvailable means "current differs
      from available" if and only if the last touching message settles it. Polls, Rollback swaps and ForcePull
      results always do; an Update swap does just when it moved to the recorded available digest; a discovery
      upsert does just when the flag already happened to fit the digest it brings. */
  lemma FlagExact(s: State, before: seq<Msg>, m: Msg, rest: seq<Msg>, svc: string)
    requires Touches(m, svc)
    requires forall x :: x in rest ==> !Touches(x, svc)
    requires var c := Row(ApplyAll(s, before + [m] + rest), svc); c.currentDigest != "" && c.availableDigest != ""
    ensures FlagAgrees(Row(ApplyAll(s, before + [m] + rest), svc))
            <==> Settles(m, Row(ApplyAll(s, before), svc))
  {
    AroundOne(s, before, m, rest);
    UntouchedFields(Apply(m, ApplyAll(s, before)), rest, svc);
  }

  /** A start event that brings the available digest leaves a raised flag raised: until the next poll the row
      offers an update to the digest already running. */
  lemma UpsertLeavesFlagStale(svc: string)
    ensures var polled := PollResolved(svc, "sha256:b", 0, 0);
            var started := (d: string) => Upsert(svc, "r", "latest", "c", map[], false, d, 0, false);
            var c := Row(ApplyAll(EMPTY_STATE, [started("sha256:a"), polled, started("sha256:b")]), svc);
            c.currentDigest == c.availableDigest && c.updateAvailable
  {
    var polled := PollResolved(svc, "sha256:b", 0, 0);
    var a := Upsert(svc, "r", "latest", "c", map[], false, "sha256:a", 0, false);
    var b := Upsert(svc, "r", "latest", "c", map[], false, "sha256:b", 0, false);
    assert [a, polled, b][..2] == [a, polled] && [a, polled][..1] == [a] && [a][..0] == [];
    assert ApplyAll(EMPTY_STATE, [a]) == Apply(a, ApplyAll(EMPTY_STATE, []));
    assert ApplyAll(EMPTY_STATE, [a, polled]) == Apply(polled, ApplyAll(EMPTY_STATE, [a]));
  }

  /** The digests that polls of `svc` brought, oldest first. */
  function PolledDigests(log: seq<Msg>, svc: string): seq<string> {
    if log == [] then []
    else
      var last := log[|log| - 1];
      PolledDigests(log[..|log| - 1], svc)
      + (if last.PollResolved? && last.svc == svc then [last.digest] else [])
  }

  predicate AllEqual(ds: seq<string>) {
    forall i, j :: 0 <= i < |ds| && 0 <= j < |ds| ==> ds[i] == ds[j]
  }

  /** A row whose running digest is unknown and whose polls so far brought `ds`. */
  ghost predicate Watched(c: Container, ds: seq<string>) {
    c.currentDigest == ""
    && c.availableDigest == (if ds == [] then "" else ds[|ds| - 1])
    && (c.updateAvailable <==> !AllEqual(ds))
    && "" !in ds
  }

  lemma PollExtends(c: Container, ds: seq<string>, m: Msg)
    requires Watched(c, ds) && m.PollResolved? && m.digest != ""
    ensures Watched(RowAfter(m, c), ds + [m.digest])
  {
    if ds != [] {
      assert ds[|ds| - 1] in ds;
      AllEqualSnoc(ds, m.digest);
    }
  }

  /** With the running digest unknown, the flag rises exactly when the registry has shown two digests, however
      other messages of this and other services interleave. */
  lemma {:induction false} UnknownCurrentFlag(s: State, log: seq<Msg>, svc: string)
    requires Watched(Row(s, svc), [])
    requires forall m :: m in log && Touches(m, svc) ==> m.PollResolved? && m.digest != ""
    ensures Watched(Row(ApplyAll(s, log), svc), PolledDigests(log, svc))
  {
    if log != [] {
      var init, last := log[..|log| - 1], log[|log| - 1];
      assert last in log;
      UnknownCurrentFlag(s, init, svc);
      RowAfterApply(last, ApplyAll(s, init), svc);
      if Touches(last, svc) {
        PollExtends(Row(ApplyAll(s, init), svc), PolledDigests(init, svc), last);
      } else {
        assert PolledDigests(log, svc) == PolledDigests(init, svc);
        UntouchedByOne(last, ApplyAll(s, init), svc);
      }
    }
  }

  lemma AllEqualSnoc(ds: seq<string>, d: string)
    requires ds != []
    ensures AllEqual(ds + [d]) <==> AllEqual(ds) && ds[|ds| - 1] == d
  {
    var all := ds + [d];
    if AllEqual(all) {
      assert all[|ds| - 1] == all[|ds|];
      forall i, j | 0 <= i < |ds| && 0 <= j < |ds| ensures ds[i] == ds[j] {
        assert all[i] == all[j];
      }
    }
  }

  // ---------------------------------------------------------------- notes

  /** The notes that describe the container itself rather than the last fetch. */
  predicate IsPersistentNote(n: string) {
    n == NOTE_PINNED_OPT_OUT || n == NOTE_INVALID_TAG_PATTERN
  }

  /** The messages that set a note unconditionally. */
  predicate SetsNote(m: Msg, svc: string) {
    (m.PinnedNote? || m.TagMismatchNote? || (m.Upsert? && m.invalidPattern)) && m.svc == svc
  }

  lemma PersistentNotesAreNoErrors(n: string)
    requires IsPersistentNote(n)
    ensures ClearStaleErrorNotes(n) == n
  {
    assert NOTE_PINNED_OPT_OUT[0] == 'p' && NOTE_INVALID_TAG_PATTERN[0] == 'i' && NOTE_TAG_MISMATCH[0] == 'r';
    assert NOTE_REGISTRY_PREFIX[0] == 'r';
    assert n[0] == 'p' || n[0] == 'i';
  }

  lemma NoteKeptByOne(m: Msg, s: State, svc: string)
    requires IsPersistentNote(Row(s, svc).notes) && !SetsNote(m, svc)
    ensures Row(Apply(m, s), svc).notes == Row(s, svc).notes
  {
    PersistentNotesAreNoErrors(Row(s, svc).notes);
    RowAfterApply(m, s, svc);
  }

  /** A pinned or misconfigured row keeps saying so: neither registry errors nor successful polls, in any number and
      order, replace such a note. */
  lemma {:induction false} PersistentNoteStays(s: State, log: seq<Msg>, svc: string)
    requires IsPersistentNote(Row(s, svc).notes)
    requires forall m :: m in log ==> !SetsNote(m, svc)
    ensures Row(ApplyAll(s, log), svc).notes == Row(s, svc).notes
  {
    if log != [] {
      var init, last := log[..|log| - 1], log[|log| - 1];
      assert last in log;
      PersistentNoteStays(s, init, svc);
      NoteKeptByOne(last, ApplyAll(s, init), svc);
    }
  }

  // ---------------------------------------------------------------- who the row is about

  predicate IsRemoval(m: Msg, svc: string) {
    m.RemoveContainer? && m.svc == svc
  }

  predicate IsStop(m: Msg, svc: string) {
    (m.MarkStopped? || m.RemoveContainer?) && m.svc == svc
  }

  /** The row `c` is as the upsert `u` left it, apart from a later stop or removal. */
  predicate Describes(u: Msg, c: Container, stopped: bool, removed: bool)
    requires u.Upsert?
  {
    c.service == u.svc && c.image == u.image && c.tag == u.tag && c.labels == u.labels && c.pinned == u.pinned
    && c.currentDigestAt == u.runningAt
    && c.stopped == stopped && c.containerID == (if removed then "" else u.id)
  }

  /** The fields that only an upsert writes. */
  predicate SameIdentity(c: Container, c': Container) {
    c'.service == c.service && c'.image == c.image && c'.tag == c.tag && c'.labels == c.labels && c'.pinned == c.pinned
    && c'.currentDigestAt == c.currentDigestAt
  }

  lemma IdentityKept(m: Msg, c: Container)
    requires !IsSweep(m) && !m.Upsert?
    ensures SameIdentity(c, RowAfter(m, c))
  {
  }

  lemma LivenessAfter(m: Msg, c: Container)
    requires !IsSweep(m) && !m.Upsert?
    ensures RowAfter(m, c).stopped == (c.stopped || m.MarkStopped? || m.RemoveContainer?)
    ensures RowAfter(m, c).containerID == if m.RemoveContainer? then "" else c.containerID
  {
    match m
    case MarkStopped(_) =>
    case RemoveContainer(_) =>
    case UpdateSwap(_, _, _, _, _, _) =>
    case RollbackSwap(_, _, _, _, _, _) =>
    case _ =>
  }

  lemma DescribedRow(u: Msg, m: Msg, c: Container, stopped: bool, removed: bool)
    requires u.Upsert? && Describes(u, c, stopped, removed)
    requires !IsSweep(m) && !m.Upsert?
    ensures Describes(u, RowAfter(m, c), stopped || m.MarkStopped? || m.RemoveContainer?, removed || m.RemoveContainer?)
  {
    var c' := RowAfter(m, c);
    assert SameIdentity(c, c') by { IdentityKept(m, c); }
    LivenessAfter(m, c);
  }

  lemma DescribedAfterOne(u: Msg, m: Msg, s: State, stopped: bool, removed: bool)
    requires u.Upsert? && u.svc in s.containers && Describes(u, Row(s, u.svc), stopped, removed)
    requires !(m.Upsert? && m.svc == u.svc)
    ensures u.svc in Apply(m, s).containers
    ensures Describes(u, Row(Apply(m, s), u.svc), stopped || IsStop(m, u.svc), removed || IsRemoval(m, u.svc))
  {
    if !IsSweep(m) && m.svc == u.svc {
      DescribedRow(u, m, Row(s, u.svc), stopped, removed);
    }
  }

  predicate AnyStop(log: seq<Msg>, svc: string) {
    log != [] && (AnyStop(log[..|log| - 1], svc) || IsStop(log[|log| - 1], svc))
  }

  predicate AnyRemoval(log: seq<Msg>, svc: string) {
    log != [] && (AnyRemoval(log[..|log| - 1], svc) || IsRemoval(log[|log| - 1], svc))
  }

  /** Identity comes from the last upsert alone: whatever actions, polls and other services' traffic follow it, the row
      keeps that upsert's service, image, tag, labels, pin and build time; it is stopped exactly if a stop or removal
      followed, and has lost the container ID exactly if a removal did. */
  lemma {:induction false} LastUpsertDescribes(s: State, u: Msg, rest: seq<Msg>)
    requires u.Upsert?
    requires forall m :: m in rest ==> !(m.Upsert? && m.svc == u.svc)
    ensures u.svc in ApplyAll(Apply(u, s), rest).containers
    ensures Describes(u, Row(ApplyAll(Apply(u, s), rest), u.svc), AnyStop(rest, u.svc), AnyRemoval(rest, u.svc))
  {
    if rest != [] {
      var init, last := rest[..|rest| - 1], rest[|rest| - 1];
      assert last in rest;
      LastUpsertDescribes(s, u, init);
      DescribedAfterOne(u, last, ApplyAll(Apply(u, s), init), AnyStop(init, u.svc), AnyRemoval(init, u.svc));
    }
  }

  /** The running digest comes from the last upsert, as long as later swaps go to the same digest. */
  lemma {:induction false} CurrentFromUpsert(s: State, u: Msg, rest: seq<Msg>)
    requires u.Upsert?
    requires forall m :: m in rest ==> !(m.Upsert? && m.svc == u.svc)
    requires forall m :: m in rest && IsSwap(m, u.svc) ==> m.next == u.running
    ensures Row(ApplyAll(Apply(u, s), rest), u.svc).currentDigest == u.running
  {
    if rest != [] {
      var init, last := rest[..|rest| - 1], rest[|rest| - 1];
      assert last in rest;
      CurrentFromUpsert(s, u, init);
      CurrentAfterOne(last, ApplyAll(Apply(u, s), init), u.svc);
    }
  }

  lemma CurrentAfterOne(m: Msg, s: State, svc: string)
    requires !(m.Upsert? && m.svc == svc)
    ensures Row(Apply(m, s), svc).currentDigest == Row(s, svc).currentDigest
            || (IsSwap(m, svc) && Row(Apply(m, s), svc).currentDigest == m.next)
  {
    RowAfterApply(m, s, svc);
  }
}
