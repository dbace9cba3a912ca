/** Replacing a service's container through the daemon: stop, remove, create, connect, start. */
module Recreate {
  import opened Text
  import opened Translate
  import opened Daemon

  // ---------------------------------------------------------------- which container

  /** `k` is the first of the most recently created entries. */
  predicate IsNewest(list: seq<Summary>, k: nat) {
    k < |list|
    && (forall j :: 0 <= j < |list| ==> list[j].created <= list[k].created)
    && (forall j :: 0 <= j < k ==> list[j].created < list[k].created)
  }

  method Newest(list: seq<Summary>) returns (k: nat)
    requires list != []
    ensures IsNewest(list, k)
  {
    k := 0;
    for i := 1 to |list|
      invariant k < i && IsNewest(list[..i], k)
    {
      if list[i].created > list[k].created {
        k := i;
      }
    }
    assert list[..|list|] == list;
  }

  lemma {:induction false} NewestExists(list: seq<Summary>) returns (k: nat)
    requires list != []
    ensures IsNewest(list, k)
  {
    var n := |list| - 1;
    if n == 0 {
      return 0;
    }
    k := NewestExists(list[..n]);
    if list[k].created < list[n].created {
      k := n;
    }
  }

  predicate HasService(c: Cont, svc: string) {
    COMPOSE_SERVICE_LABEL in c.config.labels && c.config.labels[COMPOSE_SERVICE_LABEL] == svc
  }

  /** A truthful listing of a service: exactly its containers, in any order. */
  ghost predicate ListsService(containers: map<string, Cont>, svc: string, list: seq<Summary>) {
    && (forall s :: s in list ==> s.id in containers && HasService(containers[s.id], svc)
                                  && containers[s.id].created == s.created)
    && (forall id :: id in containers && HasService(containers[id], svc) ==> Summary(id, containers[id].created) in list)
  }

  /** If a container of the service is strictly newer than all others, any truthful listing leads to it. */
  lemma LookupFindsNewest(containers: map<string, Cont>, svc: string, list: seq<Summary>, id: string, k: nat)
    requires ListsService(containers, svc, list) && IsNewest(list, k)
    requires id in containers && HasService(containers[id], svc)
    requires forall other :: other in containers && other != id && HasService(containers[other], svc) ==>
                               containers[other].created < containers[id].created
    ensures list[k].id == id
  {
    var mine := Summary(id, containers[id].created);
    assert mine in list && list[k] in list;
    var j :| 0 <= j < |list| && list[j] == mine;
  }

  // ---------------------------------------------------------------- what it becomes

  function TrimSlash(name: string): string {
    if HasPrefix(name, "/") then name[1..] else name
  }

  function NewConfig(insp: Inspect, imageLabels: Option<map<string, string>>): Config {
    var c := if insp.config.Some? then insp.config.value else Config("", map[], []);
    if imageLabels.Some? then c.(labels := Refreshed(c.labels, imageLabels.value)) else c
  }

  function NewHost(insp: Inspect): HostConfig {
    match insp.host
    case None => HostConfig("no", [])
    case Some(h) => if h.restartPolicy == "" then h.(restartPolicy := "no") else h
  }

  function OldNetworks(insp: Inspect): map<string, Option<Endpoint>> {
    if insp.networks.Some? then insp.networks.value else map[]
  }

  /** The replacement: the old container's name, settings and networks, whatever order they were walked in. */
  function Replacement(insp: Inspect, imageLabels: Option<map<string, string>>, id: string, created: int, running: bool): Cont {
    Cont(TrimSlash(insp.name), NewConfig(insp, imageLabels), NewHost(insp),
         AttachAll(ScrubAll(OldNetworks(insp), ShortId(insp.id)), id), created, running)
  }

  // ---------------------------------------------------------------- the sequence

  lemma AttachMore(c: Cont, eps: map<string, Endpoint>, left: set<string>, net: string, id: string)
    requires net in left && left <= eps.Keys
    ensures c.networks + AttachAll(eps - (left - {net}), id)
            == (c.networks + AttachAll(eps - left, id))[net := Attach(eps[net], id)]
  {
  }

  lemma Overwrite(was: map<string, Cont>, id: string, c: Cont, c': Cont)
    ensures was[id := c][id := c'] == was[id := c'] && was[id := c] - {id} == was - {id}
  {
  }

  /** Connecting the remaining networks in any order: all of them, or a failure that leaves the other containers
      alone. */
  method ConnectExtras(d: Daemon, id: string, extras: map<string, Endpoint>) returns (ok: bool)
    requires id in d.containers
    modifies d
    ensures Since(old(d.calls), d.calls, ChangesContainers)
    ensures id in d.containers && d.containers - {id} == old(d.containers) - {id}
    ensures d.containers[id].running == old(d.containers)[id].running
    ensures ok ==> d.containers[id]
                   == old(d.containers)[id].(networks := old(d.containers)[id].networks + AttachAll(extras, id))
  {
    ghost var was := d.containers;
    var c0 := d.containers[id];
    var left := extras.Keys;
    assert AttachAll(extras - left, id) == map[] && c0.networks + map[] == c0.networks;
    assert was == was[id := c0];
    ghost var nets := c0.networks;
    while left != {}
      invariant left <= extras.Keys
      invariant Since(old(d.calls), d.calls, ChangesContainers)
      invariant d.containers == was[id := c0.(networks := nets)]
      invariant nets == c0.networks + AttachAll(extras - left, id)
      decreases left
    {
      var net :| net in left;
      AttachMore(c0, extras, left, net, id);
      Overwrite(was, id, c0.(networks := nets), c0.(networks := nets[net := Attach(extras[net], id)]));
      ok := d.NetworkConnect(net, id, extras[net]);
      if !ok {
        return false;
      }
      nets := nets[net := Attach(extras[net], id)];
      left := left - {net};
    }
    assert extras - left == extras;
    Overwrite(was, id, c0.(networks := nets), c0);
    return true;
  }

  datatype Stage = Looking | Stopping | Removing | Creating | Connecting(cleaned: bool) | Starting(cleaned: bool) | Done

  /** What a run did, for the record: where it ended, at which exchange it began, which container it replaced by which,
      what it was told, and the containers before and after. */
  datatype Trail = Trail(stage: Stage, at: nat, oldId: string, newId: string, insp: Inspect,
                         imageLabels: Option<map<string, string>>, before: map<string, Cont>, after: map<string, Cont>)

  /** The record of a run that never got beyond looking. */
  function Untouched(containers: map<string, Cont>): Trail {
    Trail(Looking, 0, "", "", Inspect("", "", None, None, None), None, containers, containers)
  }

  /** The record is of the change from `before` to `after`, and that change is one of the documented ones. */
  ghost predicate Records(t: Trail, before: map<string, Cont>, after: map<string, Cont>) {
    t.before == before && t.after == after && Outcome(t)
  }

  /** The documented outcomes. In every one of them all other containers are untouched. */
  ghost predicate Outcome(t: Trail) {
    match t.stage
    case Looking => t.after == t.before
    case Stopping => t.after == t.before
    case Removing => t.oldId in t.before && t.after == t.before[t.oldId := t.before[t.oldId].(running := false)]
    case Creating => t.oldId in t.before && t.after == t.before - {t.oldId}
    case Connecting(cleaned) => Aborted(t, cleaned)
    case Starting(cleaned) => Aborted(t, cleaned)
    case Done =>
      t.oldId in t.before && t.newId !in t.before - {t.oldId} && t.newId in t.after
      && t.after - {t.newId} == t.before - {t.oldId}
      && t.after[t.newId] == Replacement(t.insp, t.imageLabels, t.newId, t.after[t.newId].created, true)
  }

  /** A connect or start failure: the new container is gone again, unless removing it failed too; then it is there
      but not running. */
  ghost predicate Aborted(t: Trail, cleaned: bool) {
    t.oldId in t.before && t.newId !in t.before - {t.oldId}
    && if cleaned then t.after == t.before - {t.oldId}
       else t.newId in t.after && !t.after[t.newId].running && t.after - {t.newId} == t.before - {t.oldId}
  }

  method PrepareConfig(insp: Inspect, imageLabels: Option<map<string, string>>) returns (config: Config)
    ensures config == NewConfig(insp, imageLabels)
  {
    config := if insp.config.Some? then insp.config.value else Config("", map[], []);
    if imageLabels.Some? {
      var labels := RefreshImageLabels(config.labels, imageLabels.value);
      config := config.(labels := labels);
    }
  }

  /** Stop and remove the old container: where that got stuck, or Creating if it is gone. */
  method TakeDown(d: Daemon, oldId: string) returns (stage: Stage)
    modifies d
    ensures Since(old(d.calls), d.calls, ChangesContainers)
    ensures stage.Stopping? || stage.Removing? || stage.Creating?
    ensures d.calls == old(d.calls) + if stage.Stopping? then [Stopped(oldId, false)]
                                      else [Stopped(oldId, true), Removed(oldId, stage.Creating?)]
    ensures stage.Stopping? ==> d.containers == old(d.containers)
    ensures !stage.Stopping? ==> oldId in old(d.containers)
    ensures stage.Removing? ==> d.containers == old(d.containers)[oldId := old(d.containers)[oldId].(running := false)]
    ensures stage.Creating? ==> d.containers == old(d.containers) - {oldId}
  {
    ghost var before := d.containers;
    var ok := d.Stop(oldId);
    if !ok {
      return Stopping;
    }
    ok := d.Remove(oldId);
    assert ok ==> d.containers == before - {oldId};
    return if ok then Creating else Removing;
  }

  /** Connect and start a created container; on failure try to remove it again. No other container changes. */
  method ConnectAndStart(d: Daemon, id: string, extras: map<string, Endpoint>) returns (stage: Stage)
    requires id in d.containers && !d.containers[id].running
    modifies d
    ensures Since(old(d.calls), d.calls, ChangesContainers)
    ensures stage.Connecting? || stage.Starting? || stage.Done?
    ensures d.containers - {id} == old(d.containers) - {id}
    ensures stage.Connecting? || stage.Starting? ==>
              if stage.cleaned then id !in d.containers else id in d.containers && !d.containers[id].running
    ensures stage.Done? ==>
              id in d.containers
              && d.containers[id] == old(d.containers)[id].(networks := old(d.containers)[id].networks + AttachAll(extras, id),
                                                            running := true)
  {
    var ok := ConnectExtras(d, id, extras);
    if !ok {
      var cleaned := d.Remove(id);
      return Connecting(cleaned);
    }
    ok := d.Start(id);
    if !ok {
      var cleaned := d.Remove(id);
      return Starting(cleaned);
    }
    return Done;
  }

  /** Create, connect and start the replacement of a container that is gone already. */
  method BuildReplacement(d: Daemon, insp: Inspect, imageLabels: Option<map<string, string>>)
    returns (r: Option<string>, stage: Stage, newId: string)
    modifies d
    ensures Since(old(d.calls), d.calls, ChangesContainers)
    ensures stage.Creating? || stage.Connecting? || stage.Starting? || stage.Done?
    ensures r == if stage.Done? then Some(newId) else None
    ensures stage.Creating? ==> d.containers == old(d.containers)
    ensures !stage.Creating? ==> newId !in old(d.containers)
    ensures stage.Connecting? || stage.Starting? ==>
              if stage.cleaned then d.containers == old(d.containers)
              else newId in d.containers && !d.containers[newId].running && d.containers - {newId} == old(d.containers)
    ensures stage.Done? ==>
              newId in d.containers && d.containers - {newId} == old(d.containers)
              && d.containers[newId] == Replacement(insp, imageLabels, newId, d.containers[newId].created, true)
  {
    ghost var was := d.containers;
    var config := PrepareConfig(insp, imageLabels);
    var primary, extras := TranslateNetworks(OldNetworks(insp), insp.id);
    var made := d.Create(TrimSlash(insp.name), config, NewHost(insp), primary);
    if made.None? {
      return None, Creating, "";
    }
    newId := made.value;
    WithoutNew(was, newId, d.containers);
    ghost var mid := d.calls;
    stage := ConnectAndStart(d, newId, extras);
    if stage.Done? {
      Assembled(insp, imageLabels, newId, primary, extras, d.containers[newId]);
    } else {
      WithoutAbsentKey(d.containers, newId);
    }
    SinceJoin(old(d.calls), mid, d.calls, ChangesContainers, ChangesContainers, ChangesContainers);
    r := if stage.Done? then Some(newId) else None;
  }

  lemma WithoutNew(was: map<string, Cont>, id: string, now: map<string, Cont>)
    requires id !in was && id in now && now == was[id := now[id]]
    ensures now - {id} == was
  {
  }

  lemma WithoutAbsentKey(now: map<string, Cont>, id: string)
    ensures id !in now ==> now - {id} == now
  {
  }

  /** Primary and extra networks together make the replacement complete. */
  lemma Assembled(insp: Inspect, imageLabels: Option<map<string, string>>, id: string, primary: map<string, Endpoint>,
                  extras: map<string, Endpoint>, c: Cont)
    requires primary + extras == ScrubAll(OldNetworks(insp), ShortId(insp.id))
    requires c == Cont(TrimSlash(insp.name), NewConfig(insp, imageLabels), NewHost(insp),
                       AttachAll(primary, id) + AttachAll(extras, id), c.created, true)
    ensures c == Replacement(insp, imageLabels, id, c.created, true)
  {
    AttachSplit(primary, extras, id);
  }

  lemma AttachSplit(primary: map<string, Endpoint>, extras: map<string, Endpoint>, id: string)
    ensures AttachAll(primary, id) + AttachAll(extras, id) == AttachAll(primary + extras, id)
  {
  }

  /** What `image` labels the daemon gave when last asked at exchange `i`. */
  function LabelsTold(calls: seq<Call>, i: nat, image: string): Option<map<string, string>> {
    if i < |calls| && calls[i].ImageInspected? && calls[i].ref == image && calls[i].image.Some?
    then calls[i].image.value.labels else None
  }

  /** The exchanges from `n` on single out container `oldId`: the first newest one of the listing of `svc`,
      inspected as `insp`, with image labels as told for its image reference. */
  ghost predicate Targets(calls: seq<Call>, n: nat, svc: string, oldId: string, insp: Inspect,
                          imageLabels: Option<map<string, string>>)
  {
    n + 1 < |calls|
    && calls[n].Listed? && calls[n].svc == svc && calls[n].found.Some?
    && (exists k: nat :: IsNewest(calls[n].found.value, k) && calls[n].found.value[k].id == oldId)
    && calls[n + 1] == Inspected(oldId, Some(insp))
    && if insp.config.Some? && insp.config.value.image != ""
       then n + 2 < |calls| && imageLabels == LabelsTold(calls, n + 2, insp.config.value.image)
       else imageLabels == None
  }

  /** If the run touched anything, the exchanges it began with led it to that container. */
  ghost predicate Led(calls: seq<Call>, svc: string, t: Trail) {
    t.stage.Looking? || Targets(calls, t.at, svc, t.oldId, t.insp, t.imageLabels)
  }

  lemma LedStays(calls: seq<Call>, later: seq<Call>, svc: string, t: Trail)
    requires Led(calls, svc, t) && calls <= later
    ensures Led(later, svc, t)
  {
  }

  lemma TargetsStay(calls: seq<Call>, later: seq<Call>, n: nat, svc: string, oldId: string, insp: Inspect,
                    imageLabels: Option<map<string, string>>)
    requires Targets(calls, n, svc, oldId, insp, imageLabels) && calls <= later
    ensures Targets(later, n, svc, oldId, insp, imageLabels)
  {
  }

  /** The reading half of recreate.Service: the newest container of the service, its inspection, and the labels of
      the image its reference now names. */
  method Locate(d: Daemon, svc: string)
    returns (oldId: string, insp: Option<Inspect>, imageLabels: Option<map<string, string>>)
    modifies d`calls
    ensures Since(old(d.calls), d.calls, LocalRead)
    ensures insp.Some? ==> Targets(d.calls, |old(d.calls)|, svc, oldId, insp.value, imageLabels)
  {
    oldId, insp, imageLabels := "", None, None;
    var list := d.ContainerList(svc);
    if list.None? || list.value == [] {
      return;
    }
    var k := Newest(list.value);
    oldId := list.value[k].id;
    insp := d.ContainerInspect(oldId);
    if insp.Some? && insp.value.config.Some? && insp.value.config.value.image != "" {
      var img := d.ImageInspect(insp.value.config.value.image);
      if img.Some? {
        imageLabels := img.value.labels;
      }
    }
  }

  /** recreate.Service. */
  method Service(d: Daemon, svc: string) returns (r: Option<string>, ghost trail: Trail)
    modifies d
    ensures Since(old(d.calls), d.calls, LocalWork)
    ensures Records(trail, old(d.containers), d.containers)
    ensures trail.stage.Looking? || trail.at == |old(d.calls)|
    ensures Led(d.calls, svc, trail)
    ensures r == if trail.stage.Done? then Some(trail.newId) else None
  {
    ghost var before := d.containers;
    var oldId, insp, imageLabels := Locate(d, svc);
    ghost var told := d.calls;
    r := None;
    if insp.None? {
      trail := Untouched(before);
      return;
    }
    var down := TakeDown(d, oldId);
    ghost var mid := d.calls;
    SinceJoin(old(d.calls), told, mid, LocalRead, ChangesContainers, LocalWork);
    trail := Trail(down, |old(d.calls)|, oldId, "", insp.value, imageLabels, before, d.containers);
    if down.Creating? {
      var stage, newId;
      r, stage, newId := BuildReplacement(d, insp.value, imageLabels);
      SinceJoin(old(d.calls), mid, d.calls, LocalWork, ChangesContainers, LocalWork);
      trail := trail.(stage := stage, newId := newId, after := d.containers);
    }
    TargetsStay(told, d.calls, |old(d.calls)|, svc, oldId, insp.value, imageLabels);
  }

  /** The replaced container showed its service label, and the new one's creation stamp is after those of all others of
      the service. */
  ghost predicate StrictlyNewest(t: Trail, svc: string)
    requires Outcome(t) && t.stage.Done?
  {
    t.insp.config.Some? && HasService(t.before[t.oldId].(config := t.insp.config.value), svc)
    && forall id :: id in t.before && id != t.oldId && HasService(t.before[id], svc) ==>
         t.before[id].created < t.after[t.newId].created
  }

  lemma NewKeepsService(t: Trail, svc: string)
    requires Outcome(t) && t.stage.Done? && StrictlyNewest(t, svc)
    ensures HasService(t.after[t.newId], svc)
  {
    ServiceLabelIsNotMetadata();
    if t.imageLabels.Some? {
      RefreshKeepsOthers(t.insp.config.value.labels, t.imageLabels.value, COMPOSE_SERVICE_LABEL);
    }
  }

  /** A truthful listing after a finished recreate is not empty. */
  lemma NewIsListed(t: Trail, svc: string, list: seq<Summary>)
    requires Outcome(t) && t.stage.Done? && StrictlyNewest(t, svc) && ListsService(t.after, svc, list)
    ensures list != []
  {
    NewKeepsService(t, svc);
    assert Summary(t.newId, t.after[t.newId].created) in list;
  }

  /** A successful recreate attaches the new container to exactly the old one's networks and keeps its service
      label, so if its creation stamp is strictly the newest, every truthful later listing leads verify to it. */
  lemma RecreatedIsFound(t: Trail, svc: string, list: seq<Summary>, k: nat)
    requires Outcome(t) && t.stage.Done? && StrictlyNewest(t, svc)
    requires ListsService(t.after, svc, list) && IsNewest(list, k)
    ensures t.after[t.newId].networks.Keys == OldNetworks(t.insp).Keys
    ensures HasService(t.after[t.newId], svc)
    ensures list[k].id == t.newId
  {
    NewKeepsService(t, svc);
    forall other | other in t.after && other != t.newId && HasService(t.after[other], svc)
      ensures t.after[other].created < t.after[t.newId].created
    {
      assert other in t.after - {t.newId};
      assert other in t.before - {t.oldId};
      assert (t.after - {t.newId})[other] == (t.before - {t.oldId})[other];
    }
    LookupFindsNewest(t.after, svc, list, t.newId, k);
  }

  // ---------------------------------------------------------------- recreating again and again

  /** The operator's part of a container's networks, as a recreate would carry it over. */
  function OperatorNetworks(networks: map<string, Option<Endpoint>>, id: string): map<string, Endpoint> {
    ScrubAll(networks, ShortId(id))
  }

  /** A truthful inspection of networks. */
  function Shown(networks: map<string, Endpoint>): map<string, Option<Endpoint>> {
    map n | n in networks :: Some(networks[n])
  }

  lemma ScrubUndoesAttach(ep: Option<Endpoint>, oldShort: string, newId: string)
    requires ShortId(newId) !in Scrub(ep, oldShort).aliases
    ensures Scrub(Some(Attach(Scrub(ep, oldShort), newId)), ShortId(newId)) == Scrub(ep, oldShort)
  {
    var kept := Scrub(ep, oldShort).aliases;
    ScrubUndoesAlias(kept, ShortId(newId), |kept|);
    assert Insert(kept, ShortId(newId), |kept|) == kept + [ShortId(newId)];
  }

  /** A recreate neither loses nor adds anything of the operator's network settings: what the next recreate will
      carry over is what this one did. The proviso is that no carried alias is the new container's short ID. */
  lemma RecreateKeepsOperatorNetworks(t: Trail)
    requires Outcome(t) && t.stage.Done? && AvoidsShortId(OperatorNetworks(OldNetworks(t.insp), t.insp.id), t.newId)
    ensures OperatorNetworks(Shown(t.after[t.newId].networks), t.newId)
            == OperatorNetworks(OldNetworks(t.insp), t.insp.id)
  {
    var nets := OldNetworks(t.insp);
    forall n | n in nets
      ensures Scrub(Some(t.after[t.newId].networks[n]), ShortId(t.newId)) == Scrub(nets[n], ShortId(t.insp.id))
    {
      assert n in OperatorNetworks(nets, t.insp.id);
      ScrubUndoesAttach(nets[n], ShortId(t.insp.id), t.newId);
    }
  }

  ghost predicate AvoidsShortId(nets: map<string, Endpoint>, id: string) {
    forall n :: n in nets ==> ShortId(id) !in nets[n].aliases
  }

  /** Finished recreates, each of the container the one before it made, as truthfully inspected. */
  ghost predicate RecreatedInTurn(ts: seq<Trail>) {
    && (forall i :: 0 <= i < |ts| ==> Outcome(ts[i]) && ts[i].stage.Done?)
    && (forall i :: 0 < i < |ts| ==>
          ts[i].insp.id == ts[i - 1].newId
          && OldNetworks(ts[i].insp) == Shown(ts[i - 1].after[ts[i - 1].newId].networks))
  }

  /** After any number of recreates the operator's networks, aliases and pinned addresses are what they were before the
      first, provided none of those aliases is the short ID of a container made on the way. */
  lemma {:induction false} RecreatesKeepOperatorNetworks(ts: seq<Trail>, k: nat)
    requires RecreatedInTurn(ts) && k < |ts|
    requires forall i :: 0 <= i < |ts| ==>
               AvoidsShortId(OperatorNetworks(OldNetworks(ts[0].insp), ts[0].insp.id), ts[i].newId)
    ensures OperatorNetworks(Shown(ts[k].after[ts[k].newId].networks), ts[k].newId)
            == OperatorNetworks(OldNetworks(ts[0].insp), ts[0].insp.id)
  {
    if k > 0 {
      RecreatesKeepOperatorNetworks(ts, k - 1);
    }
    RecreateKeepsOperatorNetworks(ts[k]);
  }
}
