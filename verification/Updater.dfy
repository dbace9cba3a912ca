/** The single consumer of the state-update channel. */
module Updater {
  import opened Schema
  import opened Messages

  /** One pass of the consumer's select: what producers had put into the buffer just before it, whether the context
      was done, and which case the select took when both were ready. */
  datatype Round = Round(arrivals: seq<Msg>, done: bool, prefersDone: bool)

  function Arrived(rounds: seq<Round>): seq<Msg> {
    if rounds == [] then [] else Arrived(rounds[..|rounds| - 1]) + rounds[|rounds| - 1].arrivals
  }

  lemma ArrivedSnoc(rounds: seq<Round>, i: nat)
    requires i < |rounds|
    ensures Arrived(rounds[..i + 1]) == Arrived(rounds[..i]) + rounds[i].arrivals
  {
    assert rounds[..i + 1][..i] == rounds[..i];
  }

  class Consumer {
    var buffer: seq<Msg>
    var applied: seq<Msg>
    var state: State

    /** Take the oldest message and hand it to the store. A persist error is logged and nothing else: the change is in
        memory either way. */
    method TakeOne(ghost init: State)
      requires buffer != [] && state == ApplyAll(init, applied)
      modifies this
      ensures old(applied) <= applied && |applied| == |old(applied)| + 1 && |buffer| == |old(buffer)| - 1
      ensures applied + buffer == old(applied) + old(buffer)
      ensures state == ApplyAll(init, applied)
    {
      ApplyAllSnoc(init, applied, buffer[0]);
      var m := buffer[0];
      buffer := buffer[1..];
      state := Apply(m, state);
      applied := applied + [m];
    }

    method Receive(rounds: seq<Round>, seen: nat, ghost total: seq<Msg>)
      requires seen < |rounds|
      requires applied + buffer == total + Arrived(rounds[..seen])
      modifies this`buffer
      ensures applied + buffer == total + Arrived(rounds[..seen + 1])
    {
      ArrivedSnoc(rounds, seen);
      assert applied + (buffer + rounds[seen].arrivals) == total + Arrived(rounds[..seen]) + rounds[seen].arrivals;
      buffer := buffer + rounds[seen].arrivals;
    }

    /** The inner loop: messages may still arrive while it drains. */
    method Drain(rounds: seq<Round>, seen: nat, ghost init: State, ghost total: seq<Msg>) returns (seen': nat)
      requires seen <= |rounds| && state == ApplyAll(init, applied)
      requires applied + buffer == total + Arrived(rounds[..seen])
      modifies this
      ensures seen <= seen' <= |rounds| && buffer == []
      ensures applied + buffer == total + Arrived(rounds[..seen'])
      ensures old(applied) <= applied && state == ApplyAll(init, applied)
    {
      seen' := seen;
      while buffer != []
        invariant seen <= seen' <= |rounds|
        invariant applied + buffer == total + Arrived(rounds[..seen'])
        invariant old(applied) <= applied && state == ApplyAll(init, applied)
        decreases |rounds| - seen', |buffer|
      {
        TakeOne(init);
        if seen' < |rounds| {
          Receive(rounds, seen', total);
          seen' := seen' + 1;
        }
      }
    }

    /** runUpdater. Whatever arrives when, and whenever the context ends: the applied messages followed by the buffer
        are exactly what was there and what arrived, in order, each once; the document is the one those messages
        make; and it returns only after the context is done, and only on seeing the buffer empty. */
    method Run(rounds: seq<Round>, ghost init: State) returns (returned: bool, seen: nat)
      requires state == ApplyAll(init, applied)
      modifies this
      ensures seen <= |rounds|
      ensures applied + buffer == old(applied) + old(buffer) + Arrived(rounds[..seen])
      ensures old(applied) <= applied
      ensures state == ApplyAll(init, applied)
      ensures returned ==> buffer == [] && exists i :: 0 <= i < seen && rounds[i].done
      ensures !returned ==> seen == |rounds|
    {
      returned, seen := false, 0;
      ghost var total := applied + buffer;
      while seen < |rounds|
        invariant seen <= |rounds|
        invariant applied + buffer == total + Arrived(rounds[..seen])
        invariant old(applied) <= applied && state == ApplyAll(init, applied)
      {
        var now := rounds[seen];
        Receive(rounds, seen, total);
        seen := seen + 1;
        if now.done && (now.prefersDone || buffer == []) {
          ghost var at := seen - 1;
          assert rounds[at].done;
          seen := Drain(rounds, seen, init, total);
          return true, seen;
        } else if buffer != [] {
          TakeOne(init);
        }
      }
    }
  }

  lemma ApplyAllSnoc(init: State, log: seq<Msg>, m: Msg)
    ensures ApplyAll(init, log + [m]) == Apply(m, ApplyAll(init, log))
  {
    assert (log + [m])[..|log|] == log;
  }
}
