/** What each field of a row says, after any log: who wrote it last, and what that message brought. Every fact is in
    terms of the messages' own fields. */
module RowFacts {
  import opened Schema
  import opened Text
  import opened Messages
  import opened Scripts

  // ---------------------------------------------------------------- the available digest

  /** The messages that bring an available digest. */
  predicate Brings(m: Msg, svc: string) {
    (m.PollResolved? || m.ForcePullDone?) && m.svc == svc
  }

  predicate IsPoll(m: Msg, svc: string) {
    m.PollResolved? && m.svc == svc
  }

  lemma AvailableKeptByOne(m: Msg, s: State, svc: string)
    requires !Brings(m, svc)
    ensures Row(Apply(m, s), svc).availableDigest == Row(s, svc).availableDigest
  {
    RowAfterApply(m, s, svc);
  }

  lemma {:induction false} AvailableKept(s: State, log: seq<Msg>, svc: string)
    requires forall m :: m in log ==> !Brings(m, svc)
    ensures Row(ApplyAll(s, log), svc).availableDigest == Row(s, svc).availableDigest
  {
    if log != [] {
      var init, last := log[..|log| - 1], log[|log| - 1];
      assert last in log;
      AvailableKept(s, init, svc);
      AvailableKeptByOne(last, ApplyAll(s, init), svc);
    }
  }

  /** After the last poll or ForcePull result of a service the available digest is the one it brought, whatever was
      running or available before. */
  lemma AvailableIsLastBrought(s: State, before: seq<Msg>, m: Msg, rest: seq<Msg>, svc: string)
    requires Brings(m, svc) && (m.ForcePullDone? ==> svc in ApplyAll(s, before).containers)
    requires forall x :: x in rest ==> !Brings(x, svc)
    ensures Row(ApplyAll(s, before + [m] + rest), svc).availableDigest == m.digest
  {
    AroundOne(s, before, m, rest);
    AvailableKept(Apply(m, ApplyAll(s, before)), rest, svc);
  }

  lemma PollTimesKeptByOne(m: Msg, s: State, svc: string)
    requires !IsPoll(m, svc)
    ensures Row(Apply(m, s), svc).availableDigestAt == Row(s, svc).availableDigestAt
    ensures Row(Apply(m, s), svc).lastPolledAt == Row(s, svc).lastPolledAt
  {
    RowAfterApply(m, s, svc);
  }

  lemma {:induction false} PollTimesKept(s: State, log: seq<Msg>, svc: string)
    requires forall m :: m in log ==> !IsPoll(m, svc)
    ensures Row(ApplyAll(s, log), svc).availableDigestAt == Row(s, svc).availableDigestAt
    ensures Row(ApplyAll(s, log), svc).lastPolledAt == Row(s, svc).lastPolledAt
  {
    if log != [] {
      var init, last := log[..|log| - 1], log[|log| - 1];
      assert last in log;
      PollTimesKept(s, init, svc);
      PollTimesKeptByOne(last, ApplyAll(s, init), svc);
    }
  }

  /** After the last poll its two times stand: when the image was built, and when it was polled. */
  lemma PollTimesAreLast(s: State, before: seq<Msg>, m: Msg, rest: seq<Msg>, svc: string)
    requires IsPoll(m, svc)
    requires forall x :: x in rest ==> !IsPoll(x, svc)
    ensures Row(ApplyAll(s, before + [m] + rest), svc).availableDigestAt == m.createdAt
    ensures Row(ApplyAll(s, before + [m] + rest), svc).lastPolledAt == m.now
  {
    AroundOne(s, before, m, rest);
    PollTimesKept(Apply(m, ApplyAll(s, before)), rest, svc);
  }

  /** Right after a poll or ForcePull result, with the running digest known, the flag compares that digest with the one
      just brought. */
  lemma FlagAfterBrought(s: State, before: seq<Msg>, m: Msg, svc: string)
    requires Brings(m, svc) && Row(ApplyAll(s, before), svc).currentDigest != ""
    ensures var c := Row(ApplyAll(s, before + [m]), svc);
            c.currentDigest == Row(ApplyAll(s, before), svc).currentDigest
            && (c.updateAvailable <==> c.currentDigest != m.digest)
  {
    AroundOne(s, before, m, []);
    assert before + [m] + [] == before + [m];
    RowAfterApply(m, ApplyAll(s, before), svc);
  }

  // ---------------------------------------------------------------- the running digest

  predicate SetsCurrent(m: Msg, svc: string) {
    IsSwap(m, svc) || (m.Upsert? && m.svc == svc)
  }

  lemma {:induction false} CurrentKept(s: State, log: seq<Msg>, svc: string)
    requires forall m :: m in log ==> !SetsCurrent(m, svc)
    ensures Row(ApplyAll(s, log), svc).currentDigest == Row(s, svc).currentDigest
  {
    if log != [] {
      var init, last := log[..|log| - 1], log[|log| - 1];
      assert last in log;
      CurrentKept(s, init, svc);
      CurrentAfterOne(last, ApplyAll(s, init), svc);
    }
  }

  /** After an Update's swap the running digest is the pulled one, until the next swap or upsert. */
  lemma UpdateMovesToPulled(s: State, before: seq<Msg>, svc: string, snap: Container, pulled: string, at: Instant,
                            rest: seq<Msg>)
    requires svc in ApplyAll(s, before).containers
    requires forall m :: m in rest ==> !SetsCurrent(m, svc)
    ensures Row(ApplyAll(s, before + [UpdateSwapOf(svc, snap, pulled, at)] + rest), svc).currentDigest == pulled
  {
    var swap := UpdateSwapOf(svc, snap, pulled, at);
    AroundOne(s, before, swap, rest);
    CurrentKept(Apply(swap, ApplyAll(s, before)), rest, svc);
  }

  /** After a Rollback's swap it is the target, wherever that came from. */
  lemma RollbackMovesToTarget(s: State, before: seq<Msg>, svc: string, snap: Container, target: string, at: Instant,
                              rest: seq<Msg>)
    requires svc in ApplyAll(s, before).containers
    requires forall m :: m in rest ==> !SetsCurrent(m, svc)
    ensures Row(ApplyAll(s, before + [RollbackSwapOf(svc, snap, target, at)] + rest), svc).currentDigest == target
  {
    var swap := RollbackSwapOf(svc, snap, target, at);
    AroundOne(s, before, swap, rest);
    CurrentKept(Apply(swap, ApplyAll(s, before)), rest, svc);
  }

  // ---------------------------------------------------------------- the rollback target

  predicate Recorded(c: Container, digest: string, at: Instant, builtAt: Instant) {
    c.previousDigest == digest && c.previousDigestAt == at && c.previousDigestBuiltAt == builtAt
  }

  /** What an Update's swap leaves on record until the next swap: the digest that was running, or the repository name if
      none was known, with the swap time and the running image's build time; and nothing new if there is neither or it is
      what was pulled. */
  lemma UpdateRecords(s: State, before: seq<Msg>, svc: string, snap: Container, pulled: string, at: Instant, rest: seq<Msg>)
    requires svc in ApplyAll(s, before).containers
    requires forall m :: m in rest ==> !IsSwap(m, svc)
    ensures var was, c := Row(ApplyAll(s, before), svc),
                          Row(ApplyAll(s, before + [UpdateSwapOf(svc, snap, pulled, at)] + rest), svc);
            if snap.currentDigest != "" && snap.currentDigest != pulled
            then Recorded(c, snap.currentDigest, at, snap.currentDigestAt)
            else if snap.currentDigest == "" && snap.image != "" && snap.image != pulled
            then Recorded(c, snap.image, at, snap.currentDigestAt)
            else SamePrevious(was, c)
  {
    var swap := UpdateSwapOf(svc, snap, pulled, at);
    AroundOne(s, before, swap, rest);
    PreviousOnlyBySwap(Apply(swap, ApplyAll(s, before)), rest, svc);
  }

  /** What a Rollback's swap leaves on record: the way back. For every target, stored or found in the cache, a known and
      different digest that was running is recorded with the swap time and its build time, until the next swap; otherwise
      nothing changes. */
  lemma RollbackRecords(s: State, before: seq<Msg>, svc: string, snap: Container, target: string, at: Instant,
                        rest: seq<Msg>)
    requires svc in ApplyAll(s, before).containers
    requires forall m :: m in rest ==> !IsSwap(m, svc)
    ensures var was, c := Row(ApplyAll(s, before), svc),
                          Row(ApplyAll(s, before + [RollbackSwapOf(svc, snap, target, at)] + rest), svc);
            if snap.currentDigest != "" && snap.currentDigest != target
            then Recorded(c, snap.currentDigest, at, snap.currentDigestAt)
            else SamePrevious(was, c)
  {
    var swap := RollbackSwapOf(svc, snap, target, at);
    AroundOne(s, before, swap, rest);
    PreviousOnlyBySwap(Apply(swap, ApplyAll(s, before)), rest, svc);
  }

  // ---------------------------------------------------------------- the flag where digests are unknown

  /** An Update's swap lowers the flag, whatever is available, until the next message that touches it. */
  lemma UpdateLowersFlag(s: State, before: seq<Msg>, svc: string, snap: Container, pulled: string, at: Instant,
                         rest: seq<Msg>)
    requires svc in ApplyAll(s, before).containers
    requires forall m :: m in rest ==> !Touches(m, svc)
    ensures !Row(ApplyAll(s, before + [UpdateSwapOf(svc, snap, pulled, at)] + rest), svc).updateAvailable
  {
    var swap := UpdateSwapOf(svc, snap, pulled, at);
    AroundOne(s, before, swap, rest);
    UntouchedFields(Apply(swap, ApplyAll(s, before)), rest, svc);
  }

  /** Where there is nothing to compare with, a Rollback's swap and a ForcePull result leave the flag as it was. */
  lemma FlagLeftAlone(m: Msg, s: State, svc: string)
    requires (m.RollbackSwap? && Row(s, svc).availableDigest == "") || (m.ForcePullDone? && Row(s, svc).currentDigest == "")
    ensures Row(Apply(m, s), svc).updateAvailable == Row(s, svc).updateAvailable
  {
    RowAfterApply(m, s, svc);
  }

  // ---------------------------------------------------------------- notes

  /** The messages that may change a note. */
  predicate TouchesNote(m: Msg, svc: string) {
    (m.PollResolved? || m.PinnedNote? || m.TagMismatchNote? || m.FetchErrorNote? || (m.Upsert? && m.invalidPattern))
    && m.svc == svc
  }

  lemma NoteLeftByOne(m: Msg, s: State, svc: string)
    requires !TouchesNote(m, svc)
    ensures Row(Apply(m, s), svc).notes == Row(s, svc).notes
  {
    RowAfterApply(m, s, svc);
  }

  lemma {:induction false} NoteLeft(s: State, log: seq<Msg>, svc: string)
    requires forall m :: m in log ==> !TouchesNote(m, svc)
    ensures Row(ApplyAll(s, log), svc).notes == Row(s, svc).notes
  {
    if log != [] {
      var init, last := log[..|log| - 1], log[|log| - 1];
      assert last in log;
      NoteLeft(s, init, svc);
      NoteLeftByOne(last, ApplyAll(s, init), svc);
    }
  }

  predicate IsErrorNote(n: string) {
    n == "running tag does not match tag-pattern label" || HasPrefix(n, "registry error: ")
  }

  predicate IsStanding(n: string) {
    n == "pinned: opt-out" || n == "invalid tag-pattern label, ignored"
  }

  /** The note is what the last message about it says: a good poll clears error notes and only those; a failed one writes
      its class over anything but a standing note; the others write theirs. */
  lemma NoteIsLastWord(s: State, before: seq<Msg>, m: Msg, rest: seq<Msg>, svc: string)
    requires TouchesNote(m, svc)
    requires forall x :: x in rest ==> !TouchesNote(x, svc)
    ensures var was, now := Row(ApplyAll(s, before), svc).notes, Row(ApplyAll(s, before + [m] + rest), svc).notes;
            match m
            case PollResolved(_, _, _, _) => now == if IsErrorNote(was) then "" else was
            case FetchErrorNote(_, errClass) =>
              now == if IsStanding(was) then was else "registry error: " + errClass + " (check image ref)"
            case PinnedNote(_) => now == "pinned: opt-out"
            case TagMismatchNote(_) => now == "running tag does not match tag-pattern label"
            case _ => now == "invalid tag-pattern label, ignored"
  {
    AroundOne(s, before, m, rest);
    NoteLeft(Apply(m, ApplyAll(s, before)), rest, svc);
    RowAfterApply(m, ApplyAll(s, before), svc);
  }

  // ---------------------------------------------------------------- action fields

  /** A Start, a Done and a ForcePull result take the last error away, and the row stays without one until an action
      fails. A Start shows the name of its action. */
  lemma TurnClearsError(s: State, m: Msg, rest: seq<Msg>, svc: string)
    requires IsTurn(m, svc) && !m.ActionFailed? && svc in s.containers
    requires forall x :: x in rest ==> !Concerns(x, svc)
    ensures Row(ApplyAll(Apply(m, s), rest), svc).actionError == ""
    ensures m.ActionStart? ==>
              Row(Apply(m, s), svc).actionInFlight
              == match m.kind
                 case Updating => "updating"
                 case RollingBack => "rolling_back"
                 case ForcePulling => "force_pulling"
  {
    ErrorUntilPoll(Apply(m, s), rest, svc);
  }

  // ---------------------------------------------------------------- rows that are not there, and the document

  /** A message about a service without a row makes one only if it is an upsert or comes from the poller; stops, removals
      and actions leave the document as it is. */
  lemma MissingRowStaysMissing(m: Msg, s: State, svc: string)
    requires svc !in s.containers
    ensures svc in Apply(m, s).containers
            <==> !IsSweep(m) && m.svc == svc
                 && (m.Upsert? || m.PollResolved? || m.PinnedNote? || m.TagMismatchNote? || m.FetchErrorNote?)
  {
  }

  /** The sweep marks write the document's poll times and nothing else does. */
  lemma SweepTimesByOne(m: Msg, s: State)
    ensures Apply(m, s).lastPollStart == if m.SweepStart? then m.at else s.lastPollStart
    ensures Apply(m, s).lastPollEnd == if m.SweepEnd? then m.at else s.lastPollEnd
    ensures Apply(m, s).lastPollError == if m.SweepStart? then "" else s.lastPollError
    ensures Apply(m, s).version == s.version
    ensures IsSweep(m) ==> Apply(m, s).containers == s.containers
  {
  }

  lemma {:induction false} SweepTimesKept(s: State, log: seq<Msg>)
    ensures (forall m :: m in log ==> !m.SweepStart?) ==>
              ApplyAll(s, log).lastPollStart == s.lastPollStart && ApplyAll(s, log).lastPollError == s.lastPollError
    ensures (forall m :: m in log ==> !m.SweepEnd?) ==> ApplyAll(s, log).lastPollEnd == s.lastPollEnd
    ensures ApplyAll(s, log).version == s.version
  {
    if log != [] {
      var init, last := log[..|log| - 1], log[|log| - 1];
      assert last in log && forall m :: m in init ==> m in log;
      SweepTimesKept(s, init);
      SweepTimesByOne(last, ApplyAll(s, init));
    }
  }

  /** After the last start mark the document has its time and no poll error, after the last end mark its time. */
  lemma SweepTimesAreLast(s: State, before: seq<Msg>, m: Msg, rest: seq<Msg>)
    ensures m.SweepStart? && (forall x :: x in rest ==> !x.SweepStart?) ==>
              ApplyAll(s, before + [m] + rest).lastPollStart == m.at && ApplyAll(s, before + [m] + rest).lastPollError == ""
    ensures m.SweepEnd? && (forall x :: x in rest ==> !x.SweepEnd?) ==>
              ApplyAll(s, before + [m] + rest).lastPollEnd == m.at
  {
    AroundOne(s, before, m, rest);
    SweepTimesKept(Apply(m, ApplyAll(s, before)), rest);
  }
}
