/** What a finished recreate keeps of the container it replaced, field by field. */
module Replaced {
  import opened Text
  import opened Translate
  import opened Daemon
  import opened Recreate

  /** Name, image, environment, binds and restart policy are the inspected ones; the name loses the daemon's leading
      slash, and an empty restart policy becomes "no". The new container runs. */
  lemma SettingsKept(t: Trail)
    requires Outcome(t) && t.stage.Done?
    ensures var c := t.after[t.newId];
            && c.running
            && (if t.insp.name != "" && t.insp.name[0] == '/' then t.insp.name == "/" + c.name else t.insp.name == c.name)
            && (match t.insp.host
                case Some(h) =>
                  c.host.binds == h.binds && c.host.restartPolicy == (if h.restartPolicy == "" then "no" else h.restartPolicy)
                case None => c.host.binds == [] && c.host.restartPolicy == "no")
            && (match t.insp.config
                case Some(config) => c.config.image == config.image && c.config.env == config.env
                case None => c.config.image == "" && c.config.env == [])
  {
    var name := t.insp.name;
    if name != "" && name[0] == '/' {
      assert name[..1] == "/" && name == name[..1] + name[1..];
    } else {
      assert !HasPrefix(name, "/");
    }
  }

  /** A label of the image namespace that the new image has takes its value from there; every other label is the
      inspected one, neither changed, added nor lost. */
  lemma LabelsKept(t: Trail, k: string)
    requires Outcome(t) && t.stage.Done?
    ensures var labels := t.after[t.newId].config.labels;
            var was := if t.insp.config.Some? then t.insp.config.value.labels else map[];
            if HasPrefix(k, "org.opencontainers.image.") && t.imageLabels.Some? && k in t.imageLabels.value
            then k in labels && labels[k] == t.imageLabels.value[k]
            else (k in labels <==> k in was) && (k in was ==> labels[k] == was[k])
  {
  }

  // ---------------------------------------------------------------- networks

  /** `ys` is `xs` without the members equal to `x`, in the same order. */
  predicate Removes(xs: seq<string>, x: string, ys: seq<string>) {
    if xs == [] then ys == []
    else if xs[0] == x then Removes(xs[1..], x, ys)
    else ys != [] && ys[0] == xs[0] && Removes(xs[1..], x, ys[1..])
  }

  lemma {:induction false} WithoutRemoves(names: seq<string>, name: string)
    ensures Removes(names, name, Without(names, name))
  {
    if names != [] {
      WithoutConcat([names[0]], names[1..], name);
      assert [names[0]] + names[1..] == names && [names[0]][..0] == [];
      assert Without([names[0]], name) == if names[0] == name then [] else [names[0]];
      WithoutRemoves(names[1..], name);
      if names[0] != name {
        assert Without(names, name)[1..] == Without(names[1..], name);
      } else {
        assert Without(names, name) == Without(names[1..], name);
      }
    }
  }

  /** The endpoint `now` of container `id` is what a recreate makes of the endpoint `was` of container `oldId`: the
      operator's address settings; the address itself only if it was pinned; the old aliases but for the old short ID, the
      first 12 characters of the old container's ID, followed by the new one. */
  ghost predicate CarriedOver(was: Option<Endpoint>, oldId: string, now: Endpoint, id: string) {
    var own := if |id| >= 12 then [id[..12]] else [];
    match was
    case None => now == Endpoint(own, None, "")
    case Some(e) =>
      && now.ipam == e.ipam
      && now.ip == (if e.ipam.Some? then e.ip else "")
      && |own| <= |now.aliases|
      && var kept := now.aliases[..|now.aliases| - |own|];
         now.aliases == kept + own
         && if |oldId| >= 12 then Removes(e.aliases, oldId[..12], kept) else kept == e.aliases
  }

  lemma AttachedScrub(was: Option<Endpoint>, oldId: string, id: string)
    ensures CarriedOver(was, oldId, Attach(Scrub(was, ShortId(oldId)), id), id)
  {
    var kept := Scrub(was, ShortId(oldId)).aliases;
    var now := Attach(Scrub(was, ShortId(oldId)), id);
    var own := if |id| >= 12 then [id[..12]] else [];
    assert ShortId(id) != "" <==> |id| >= 12;
    assert ShortId(oldId) != "" <==> |oldId| >= 12;
    assert now.aliases == kept + own;
    assert now.aliases[..|kept|] == kept;
    if was.Some? && |oldId| >= 12 {
      WithoutRemoves(was.value.aliases, oldId[..12]);
    }
  }

  /** A finished recreate: the same networks, each endpoint carried over. */
  lemma NetworksKept(t: Trail, n: string)
    requires Outcome(t) && t.stage.Done?
    ensures t.after[t.newId].networks.Keys == OldNetworks(t.insp).Keys
    ensures n in OldNetworks(t.insp) ==>
              CarriedOver(OldNetworks(t.insp)[n], t.insp.id, t.after[t.newId].networks[n], t.newId)
  {
    if n in OldNetworks(t.insp) {
      AttachedScrub(OldNetworks(t.insp)[n], t.insp.id, t.newId);
    }
  }

  lemma NetworksAfterMany(ts: seq<Trail>, k: nat)
    requires RecreatedInTurn(ts) && k < |ts|
    requires forall i :: 0 <= i < |ts| ==>
               AvoidsShortId(OperatorNetworks(OldNetworks(ts[0].insp), ts[0].insp.id), ts[i].newId)
    ensures ts[k].after[ts[k].newId].networks
            == AttachAll(OperatorNetworks(OldNetworks(ts[0].insp), ts[0].insp.id), ts[k].newId)
  {
    if k > 0 {
      RecreatesKeepOperatorNetworks(ts, k - 1);
    }
  }

  /** Any number of recreates in turn: the last container's endpoints are those before the first one carried over once,
      as if the containers in between had never been. */
  lemma NetworksKeptForever(ts: seq<Trail>, k: nat, n: string)
    requires RecreatedInTurn(ts) && k < |ts|
    requires forall i :: 0 <= i < |ts| ==>
               AvoidsShortId(OperatorNetworks(OldNetworks(ts[0].insp), ts[0].insp.id), ts[i].newId)
    ensures ts[k].after[ts[k].newId].networks.Keys == OldNetworks(ts[0].insp).Keys
    ensures n in OldNetworks(ts[0].insp) ==>
              CarriedOver(OldNetworks(ts[0].insp)[n], ts[0].insp.id, ts[k].after[ts[k].newId].networks[n], ts[k].newId)
  {
    NetworksAfterMany(ts, k);
    if n in OldNetworks(ts[0].insp) {
      AttachedScrub(OldNetworks(ts[0].insp)[n], ts[0].insp.id, ts[k].newId);
    }
  }
}
