/** Turning an inspected container into the inputs of its replacement: networks, aliases and labels. */
module Translate {
  import opened Text

  datatype Endpoint = Endpoint(aliases: seq<string>, ipam: Option<string>, ip: string)

  const SHORT_ID_LEN := 12

  /** The alias the daemon derives from a container ID; none for IDs that are too short. */
  function ShortId(id: string): string {
    if |id| >= SHORT_ID_LEN then id[..SHORT_ID_LEN] else ""
  }

  // ---------------------------------------------------------------- one endpoint

  function Without(names: seq<string>, name: string): seq<string> {
    if names == [] then []
    else
      var init, last := names[..|names| - 1], names[|names| - 1];
      Without(init, name) + (if last == name then [] else [last])
  }

  /** What scrubbing an endpoint leaves: no short-ID alias, and no address unless the operator pinned one. */
  function Scrub(ep: Option<Endpoint>, shortId: string): Endpoint {
    match ep
    case None => Endpoint([], None, "")
    case Some(e) =>
      Endpoint(if shortId != "" then Without(e.aliases, shortId) else e.aliases, e.ipam,
               if e.ipam.None? then "" else e.ip)
  }

  method ScrubEndpoint(ep: Option<Endpoint>, shortId: string) returns (out: Endpoint)
    ensures out == Scrub(ep, shortId)
  {
    if ep.None? {
      return Endpoint([], None, "");
    }
    out := ep.value;
    if |out.aliases| > 0 && shortId != "" {
      var aliases := [];
      for i := 0 to |out.aliases|
        invariant aliases == Without(out.aliases[..i], shortId)
      {
        assert out.aliases[..i + 1][..i] == out.aliases[..i];
        if out.aliases[i] != shortId {
          aliases := aliases + [out.aliases[i]];
        }
      }
      assert out.aliases[..|out.aliases|] == out.aliases;
      out := out.(aliases := aliases);
    }
    if out.ipam.None? {
      out := out.(ip := "");
    }
  }

  lemma {:induction false} WithoutConcat(a: seq<string>, b: seq<string>, name: string)
    ensures Without(a + b, name) == Without(a, name) + Without(b, name)
  {
    if b == [] {
      assert a + b == a;
    } else {
      assert (a + b)[..|a + b| - 1] == a + b[..|b| - 1];
      WithoutConcat(a, b[..|b| - 1], name);
    }
  }

  lemma {:induction false} WithoutAbsent(names: seq<string>, name: string)
    ensures |Without(names, name)| <= |names|
    ensures Without(names, name) == names <==> name !in names
  {
    if names != [] {
      var init, last := names[..|names| - 1], names[|names| - 1];
      assert names == init + [last];
      WithoutAbsent(init, name);
      if last == name {
        assert |Without(names, name)| < |names|;
      }
    }
  }

  /** The daemon's own alias slipped into the operator's list at some position. */
  function Insert(names: seq<string>, name: string, at: nat): seq<string> {
    var k := if at <= |names| then at else |names|;
    names[..k] + [name] + names[k..]
  }

  lemma WithoutInserted(a: seq<string>, b: seq<string>, name: string)
    ensures Without(a + [name] + b, name) == Without(a + b, name)
  {
    assert Without([name], name) == [] by { assert [name][..0] == []; }
    WithoutConcat(a, [name], name);
    WithoutConcat(a + [name], b, name);
    WithoutConcat(a, b, name);
  }

  /** Scrubbing gives the operator's aliases back exactly when none of them is the container's short ID. */
  lemma ScrubUndoesAlias(names: seq<string>, name: string, at: nat)
    ensures Without(Insert(names, name, at), name) == names <==> name !in names
  {
    var k := if at <= |names| then at else |names|;
    WithoutInserted(names[..k], names[k..], name);
    assert names[..k] + names[k..] == names;
    WithoutAbsent(names, name);
  }

  /** The aliases the daemon reports for the k-th container of a chain of recreates: each container is created
      with the scrubbed aliases of the one before it, and gets its own short ID added wherever the daemon likes. */
  function Reported(operator: seq<string>, ids: seq<string>, at: seq<nat>, k: nat): seq<string>
    requires |ids| == |at| && k < |ids|
  {
    var base := if k == 0 then operator else Without(Reported(operator, ids, at, k - 1), ShortId(ids[k - 1]));
    Insert(base, ShortId(ids[k]), at[k])
  }

  /** However often a container is recreated, the operator's alias list comes back unchanged, provided none of
      the operator's aliases is one of the containers' short IDs. */
  lemma {:induction false} AliasesSurviveRecreates(operator: seq<string>, ids: seq<string>, at: seq<nat>, k: nat)
    requires |ids| == |at| && k < |ids|
    requires forall i :: 0 <= i < |ids| ==> ShortId(ids[i]) != "" && ShortId(ids[i]) !in operator
    ensures Scrub(Some(Endpoint(Reported(operator, ids, at, k), None, "")), ShortId(ids[k])).aliases == operator
  {
    if k > 0 {
      AliasesSurviveRecreates(operator, ids, at, k - 1);
    }
    ScrubUndoesAlias(operator, ShortId(ids[k]), at[k]);
  }

  // ---------------------------------------------------------------- all networks

  function ScrubAll(nets: map<string, Option<Endpoint>>, shortId: string): map<string, Endpoint> {
    map n | n in nets :: Scrub(nets[n], shortId)
  }

  /** `primary` and `extras` split the networks of `all` that are not in `left`. */
  ghost predicate Splits(all: map<string, Endpoint>, primary: map<string, Endpoint>, extras: map<string, Endpoint>,
                         left: set<string>)
  {
    primary.Keys !! extras.Keys && left <= all.Keys && primary + extras == all - left
  }

  lemma ExtraAdded(all: map<string, Endpoint>, primary: map<string, Endpoint>, extras: map<string, Endpoint>,
                   left: set<string>, name: string)
    requires Splits(all, primary, extras, left) && name in left
    ensures Splits(all, primary, extras[name := all[name]], left - {name})
  {
    assert name !in primary + extras;
    assert primary + extras[name := all[name]] == (primary + extras)[name := all[name]];
    assert all - (left - {name}) == (all - left)[name := all[name]];
  }

  lemma PrimaryChosen(all: map<string, Endpoint>, name: string)
    requires name in all
    ensures Splits(all, map[name := all[name]], map[], all.Keys - {name})
  {
  }

  lemma NothingLeft(all: map<string, Endpoint>, primary: map<string, Endpoint>, extras: map<string, Endpoint>)
    requires Splits(all, primary, extras, {})
    ensures primary + extras == all
  {
  }

  /** For every iteration order of the network map, at most one network goes into the create call, the others
      are left for connecting, and together they are the old networks, each once and scrubbed. */
  method TranslateNetworks(nets: map<string, Option<Endpoint>>, id: string)
    returns (primary: map<string, Endpoint>, extras: map<string, Endpoint>)
    ensures primary.Keys !! extras.Keys
    ensures primary + extras == ScrubAll(nets, ShortId(id))
    ensures if nets == map[] then primary == map[] else |primary| == 1
  {
    primary, extras := map[], map[];
    var shortId := ShortId(id);
    ghost var all := ScrubAll(nets, shortId);
    var remaining := nets.Keys;
    var first := true;
    while remaining != {}
      invariant Splits(all, primary, extras, remaining)
      invariant if first then primary == map[] && extras == map[] && remaining == all.Keys else |primary| == 1
      decreases remaining
    {
      var name :| name in remaining;
      var scrubbed := ScrubEndpoint(nets[name], shortId);
      if first {
        PrimaryChosen(all, name);
        primary := map[name := scrubbed];
        first := false;
      } else {
        ExtraAdded(all, primary, extras, remaining, name);
        extras := extras[name := scrubbed];
      }
      remaining := remaining - {name};
    }
    NothingLeft(all, primary, extras);
  }

  // ---------------------------------------------------------------- labels

  const IMAGE_LABEL_NAMESPACE := "org.opencontainers.image."
  const COMPOSE_SERVICE_LABEL := "com.docker.compose.service"

  predicate IsMetadata(k: string) {
    HasPrefix(k, IMAGE_LABEL_NAMESPACE)
  }

  function MetadataOf(imageLabels: map<string, string>): map<string, string> {
    map k | k in imageLabels && IsMetadata(k) :: imageLabels[k]
  }

  function Refreshed(labels: map<string, string>, imageLabels: map<string, string>): map<string, string> {
    labels + MetadataOf(imageLabels)
  }

  method RefreshImageLabels(labels: map<string, string>, imageLabels: map<string, string>)
    returns (out: map<string, string>)
    ensures out == Refreshed(labels, imageLabels)
  {
    out := labels;
    ghost var metadata := MetadataOf(imageLabels);
    var remaining := imageLabels.Keys;
    while remaining != {}
      invariant remaining <= imageLabels.Keys
      invariant out == labels + (metadata - remaining)
      decreases remaining
    {
      var k :| k in remaining;
      if IsMetadata(k) {
        assert metadata - (remaining - {k}) == (metadata - remaining)[k := imageLabels[k]];
        out := out[k := imageLabels[k]];
      } else {
        assert metadata - (remaining - {k}) == metadata - remaining;
      }
      remaining := remaining - {k};
    }
    assert metadata - remaining == metadata;
  }

  /** Refreshing takes the image's own metadata labels from the new image and leaves every other label alone, the
      compose service label among them. */
  lemma RefreshKeepsOthers(labels: map<string, string>, imageLabels: map<string, string>, k: string)
    requires !IsMetadata(k)
    ensures k in Refreshed(labels, imageLabels) <==> k in labels
    ensures k in labels ==> Refreshed(labels, imageLabels)[k] == labels[k]
  {
  }

  lemma ServiceLabelIsNotMetadata()
    ensures !IsMetadata(COMPOSE_SERVICE_LABEL)
  {
    assert COMPOSE_SERVICE_LABEL[0] == 'c' && IMAGE_LABEL_NAMESPACE[0] == 'o';
  }
}
