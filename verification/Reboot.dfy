/** The spinner across a crash: ActionInFlight is part of the document on disk, and nothing clears it at boot. */
module Reboot {
  import opened Schema
  import opened Text
  import opened Messages
  import opened Scripts
  import Durable
  import Protocol
  import LS = LockService

  /** The documents the store has held: the one at boot, and one more for each message the consumer applied. */
  ghost predicate Wrote(history: seq<State>, init: State, log: seq<Msg>) {
    |history| == |log| + 1 && forall k :: 0 <= k <= |log| ==> history[k] == ApplyAll(init, log[..k])
  }

  /** A crash anywhere in a run of the system that started idle, and the boot after it: the row comes up showing the action
      that was unfinished in the part of the traffic whose document had been renamed into place, or idle if there was
      none. */
  lemma SpinnerAtReboot(c: Durable.Codec, ns: seq<Durable.Node>, n: nat, up: Durable.Node, ss: seq<Protocol.Sys>, i: nat,
                        svc: string)
    requires Durable.Faithful(c) && Durable.Run(c, ns) && n < |ns|
    requires Durable.Next(c, ns[n], Durable.Boot, up) && ns[n].vis >= 0
    requires Protocol.Run(ss) && i < |ss| && Idle(ss[0].init, svc)
    requires Wrote(ns[n].history, ss[0].init, ss[i].log)
    ensures up.mem.Some? && ns[n].vis <= |ss[i].log|
    ensures Row(up.mem.value, svc).actionInFlight == SpinnerOf(Unfinished(ss[i].log[..ns[n].vis], svc))
  {
    Durable.RebootYieldsPrefix(c, ns, n, up);
    Protocol.RunRows(ss, i);
    var applied := ss[i].log[..ns[n].vis];
    FindsRowsPrefix(ss[0].init, ss[i].log, ns[n].vis);
    SpinnerExact(ss[0].init, applied, svc);
    UnfinishedHadTurn(applied, svc);
  }

  /** The run after such a boot. At every moment the row is idle if and only if none of the new actions is unfinished, and
      either the crash left none behind or a new action has had its turn: a spinner left by a crash stays up until an
      action of the service brings its Result. */
  lemma SpinnerAfterReboot(crashed: seq<Msg>, init: State, ss: seq<Protocol.Sys>, i: nat, svc: string)
    requires Row(init, svc).actionInFlight == SpinnerOf(Unfinished(crashed, svc))
    requires Protocol.Run(ss) && i < |ss| && ss[0].init == init
    ensures Idle(ss[i].state, svc)
            <==> Unfinished(ss[i].log, svc).None? && (Unfinished(crashed, svc).None? || AnyTurn(ss[i].log, svc))
  {
    Protocol.SpinnerShowsTraffic(ss, i, svc);
  }

  /** Both together, at rest: with the queue drained, the mutex free and no send lost since the boot, the row is idle if
      and only if the crash left no action behind or some action of the service has run since. */
  lemma SettledAfterReboot(c: Durable.Codec, ns: seq<Durable.Node>, n: nat, up: Durable.Node, ss: seq<Protocol.Sys>, i: nat,
                           ss': seq<Protocol.Sys>, j: nat, svc: string)
    requires Durable.Faithful(c) && Durable.Run(c, ns) && n < |ns|
    requires Durable.Next(c, ns[n], Durable.Boot, up) && ns[n].vis >= 0
    requires Protocol.Run(ss) && i < |ss| && Idle(ss[0].init, svc)
    requires Wrote(ns[n].history, ss[0].init, ss[i].log)
    requires Protocol.Run(ss') && j < |ss'| && up.mem == Some(ss'[0].init)
    requires svc !in ss'[j].lost && ss'[j].queue == []
    requires forall t :: LS.HoldsMutex(LS.PcOf(ss'[j].lock, t)) ==> LS.PcOf(ss'[j].lock, t).svc != svc
    ensures ns[n].vis <= |ss[i].log|
    ensures Idle(ss'[j].state, svc)
            <==> Unfinished(ss[i].log[..ns[n].vis], svc).None? || AnyTurn(ss'[j].log, svc)
  {
    SpinnerAtReboot(c, ns, n, up, ss, i, svc);
    Protocol.SpinnerSettles(ss', j, svc);
  }

  /** The document a boot finds after a crash is keyed, so a second run can start from it. */
  lemma CanStartAgain(c: Durable.Codec, ns: seq<Durable.Node>, n: nat, up: Durable.Node, ss: seq<Protocol.Sys>, i: nat)
    returns (s: Protocol.Sys)
    requires Durable.Faithful(c) && Durable.Run(c, ns) && n < |ns|
    requires Durable.Next(c, ns[n], Durable.Boot, up) && ns[n].vis >= 0
    requires Protocol.Run(ss) && i < |ss| && Wrote(ns[n].history, ss[0].init, ss[i].log)
    ensures Protocol.Run([s]) && up.mem == Some(s.init)
  {
    Durable.RebootYieldsPrefix(c, ns, n, up);
    Protocol.RunRows(ss, i);
    FindsRowsPrefix(ss[0].init, ss[i].log, ns[n].vis);
    Protocol.KeyedByAll(ss[0].init, ss[i].log[..ns[n].vis]);
    s := Protocol.CanStart(up.mem.value);
  }

  /** A store that holds `a`, takes an Update to `b`, and crashes right after the rename. */
  lemma CanCrashAfterRename(c: Durable.Codec, a: State, b: State) returns (ns: seq<Durable.Node>, up: Durable.Node)
    requires Durable.Faithful(c)
    ensures Durable.Run(c, ns)
    ensures var n := ns[|ns| - 1]; n.history == [a, b] && n.vis == 1 && Durable.Next(c, n, Durable.Boot, up)
  {
    var file := Some(c.encode(a));
    assert c.decode(c.encode(a)) == Some(Durable.Doc(a, false)) && c.encode(a) != "";
    var n0 := Durable.Node(None, false, Durable.Ready, false, file, file, [a], 0, 0);
    var n1 := n0.(mem := Some(a), lastOk := true);
    var n2 := n1.(mem := Some(b), phase := Durable.Mutated, history := [a, b]);
    var n3 := n2.(phase := Durable.Marshalled(c.encode(b)));
    var n4 := n3.(phase := Durable.TempWritten(c.encode(b)));
    var n5 := n4.(phase := Durable.Renamed, visible := Some(c.encode(b)), vis := 1);
    var n6 := n5.(mem := None, phase := Durable.Ready);
    assert [a][..1] == [a] && [a] + [b] == [a, b];
    assert Durable.Next(c, n0, Durable.Boot, n1) && Durable.Next(c, n1, Durable.Mutate(Durable.Doc(b, false)), n2);
    assert Durable.Next(c, n2, Durable.Marshal, n3) && Durable.Next(c, n3, Durable.WriteTemp, n4);
    assert Durable.Next(c, n4, Durable.Rename, n5) && Durable.Next(c, n5, Durable.Crash, n6);
    ns := [n0, n1, n2, n3, n4, n5, n6];
    up := Durable.Booted(c, n6);
  }

  /** From every document with an idle row there are a run of the system, a crash of the store, and a boot that comes up
      with that row spinning though nothing runs. */
  lemma CrashLeavesSpinner(c: Durable.Codec, init: State, svc: string)
    returns (ss: seq<Protocol.Sys>, ns: seq<Durable.Node>, up: Durable.Node)
    requires Durable.Faithful(c) && Protocol.Keyed(init.containers) && svc in init.containers && Idle(init, svc)
    ensures Protocol.Run(ss) && ss[0].init == init && Durable.Run(c, ns)
    ensures var n := ns[|ns| - 1];
            n.vis >= 0 && Wrote(n.history, init, ss[|ss| - 1].log) && Durable.Next(c, n, Durable.Boot, up)
    ensures up.mem.Some? && Row(up.mem.value, svc).actionInFlight == "updating"
  {
    ss := Protocol.CanLeaveUnfinished(init, svc);
    var log := ss[|ss| - 1].log;
    var start := ActionStart(svc, Updating);
    assert log[..0] == [] && log[..1] == [start] && [start][..0] == [];
    ns, up := CanCrashAfterRename(c, init, Apply(start, init));
    assert ApplyAll(init, [start]) == Apply(start, ApplyAll(init, []));
    var n := ns[|ns| - 1];
    assert Wrote(n.history, init, log);
    SpinnerAtReboot(c, ns, |ns| - 1, up, ss, |ss| - 1, svc);
    assert Unfinished([start], svc) == Some(Updating);
  }
}
