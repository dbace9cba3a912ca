/** The docker daemon as the program meets it. What it says is arbitrary: any read may fail or give any answer,
    even one that contradicts the last. What it does is not: a successful change has its effect, a failed one has
    none. Every exchange is recorded. */
module Daemon {
  import opened Schema
  import opened Text
  import opened Translate
  import Fallback
  import PullStream

  datatype Config = Config(image: string, labels: map<string, string>, env: seq<string>)

  datatype HostConfig = HostConfig(restartPolicy: string, binds: seq<string>)

  datatype Cont = Cont(name: string, config: Config, host: HostConfig, networks: map<string, Endpoint>,
                       created: int, running: bool)

  /** A container inspection; nil parts are None. */
  datatype Inspect = Inspect(id: string, name: string, config: Option<Config>, host: Option<HostConfig>,
                             networks: Option<map<string, Option<Endpoint>>>)

  datatype Summary = Summary(id: string, created: int)

  /** An image inspection: its build time if one could be read, and its labels if it has a config. */
  datatype ImageInfo = ImageInfo(built: Option<Instant>, labels: Option<map<string, string>>)

  datatype Call =
    | ImageInspected(ref: string, image: Option<ImageInfo>)
    | ImagesListed(repo: string, images: Option<seq<Fallback.Image>>)
    | Pulled(ref: string, stream: Option<seq<PullStream.Item>>)
    | RegistryAsked(ref: string, digest: Option<string>)
    | Listed(svc: string, found: Option<seq<Summary>>)
    | Inspected(id: string, container: Option<Inspect>)
    | Tagged(src: string, dst: string, ok: bool)
    | Stopped(id: string, ok: bool)
    | Removed(id: string, ok: bool)
    | Created(name: string, newId: Option<string>)
    | Connected(net: string, id: string, ok: bool)
    | Started(id: string, ok: bool)

  predicate ContactsRegistry(c: Call) {
    c.Pulled? || c.RegistryAsked?
  }

  predicate ChangesContainers(c: Call) {
    c.Stopped? || c.Removed? || c.Created? || c.Connected? || c.Started?
  }

  predicate Changes(c: Call) {
    c.Tagged? || ChangesContainers(c)
  }

  /** A question about local images or containers. */
  predicate LocalRead(c: Call) {
    !ContactsRegistry(c) && !Changes(c)
  }

  /** What a recreate may do. */
  predicate LocalWork(c: Call) {
    LocalRead(c) || ChangesContainers(c)
  }

  /** The exchanges since `before` all satisfy `p`. */
  ghost predicate Since(before: seq<Call>, after: seq<Call>, p: Call -> bool) {
    before <= after && forall i :: |before| <= i < |after| ==> p(after[i])
  }

  lemma SinceJoin(a: seq<Call>, b: seq<Call>, c: seq<Call>, p: Call -> bool, q: Call -> bool, r: Call -> bool)
    requires Since(a, b, p) && Since(b, c, q)
    requires forall x :: p(x) || q(x) ==> r(x)
    ensures Since(a, c, r)
  {
  }

  /** Joining a network adds the container's short ID to the endpoint's aliases. */
  function Attach(ep: Endpoint, id: string): Endpoint {
    if ShortId(id) == "" then ep else ep.(aliases := ep.aliases + [ShortId(id)])
  }

  function AttachAll(eps: map<string, Endpoint>, id: string): map<string, Endpoint> {
    map n | n in eps :: Attach(eps[n], id)
  }

  class Daemon {
    var containers: map<string, Cont>
    var calls: seq<Call>

    method ImageInspect(ref: string) returns (r: Option<ImageInfo>)
      modifies this`calls
      ensures calls == old(calls) + [ImageInspected(ref, r)]
    {
      r := *;
      calls := calls + [ImageInspected(ref, r)];
    }

    method ImageList(repo: string) returns (r: Option<seq<Fallback.Image>>)
      modifies this`calls
      ensures calls == old(calls) + [ImagesListed(repo, r)]
    {
      r := *;
      calls := calls + [ImagesListed(repo, r)];
    }

    method ImagePull(ref: string) returns (r: Option<seq<PullStream.Item>>)
      modifies this`calls
      ensures calls == old(calls) + [Pulled(ref, r)]
    {
      r := *;
      calls := calls + [Pulled(ref, r)];
    }

    method RegistryDigest(ref: string) returns (r: Option<string>)
      modifies this`calls
      ensures calls == old(calls) + [RegistryAsked(ref, r)]
    {
      r := *;
      calls := calls + [RegistryAsked(ref, r)];
    }

    method ContainerList(svc: string) returns (r: Option<seq<Summary>>)
      modifies this`calls
      ensures calls == old(calls) + [Listed(svc, r)]
    {
      r := *;
      calls := calls + [Listed(svc, r)];
    }

    method ContainerInspect(id: string) returns (r: Option<Inspect>)
      modifies this`calls
      ensures calls == old(calls) + [Inspected(id, r)]
    {
      r := *;
      calls := calls + [Inspected(id, r)];
    }

    method ImageTag(src: string, dst: string) returns (ok: bool)
      modifies this`calls
      ensures calls == old(calls) + [Tagged(src, dst, ok)]
    {
      ok := *;
      calls := calls + [Tagged(src, dst, ok)];
    }

    method Stop(id: string) returns (ok: bool)
      modifies this
      ensures calls == old(calls) + [Stopped(id, ok)]
      ensures ok ==> id in old(containers)
      ensures containers == if ok then old(containers)[id := old(containers)[id].(running := false)] else old(containers)
    {
      ok := *;
      ok := ok && id in containers;
      if ok {
        containers := containers[id := containers[id].(running := false)];
      }
      calls := calls + [Stopped(id, ok)];
    }

    method Remove(id: string) returns (ok: bool)
      modifies this
      ensures calls == old(calls) + [Removed(id, ok)]
      ensures ok ==> id in old(containers)
      ensures containers == if ok then old(containers) - {id} else old(containers)
    {
      ok := *;
      ok := ok && id in containers;
      if ok {
        containers := containers - {id};
      }
      calls := calls + [Removed(id, ok)];
    }

    method Create(name: string, config: Config, host: HostConfig, primary: map<string, Endpoint>)
      returns (r: Option<string>)
      modifies this
      ensures calls == old(calls) + [Created(name, r)]
      ensures r.None? ==> containers == old(containers)
      ensures r.Some? ==> r.value !in old(containers) && r.value in containers
                          && containers == old(containers)[r.value := containers[r.value]]
                          && containers[r.value]
                             == Cont(name, config, host, AttachAll(primary, r.value), containers[r.value].created, false)
    {
      var id: string, created: int, ok: bool := *, *, *;
      if ok && id !in containers {
        containers := containers[id := Cont(name, config, host, AttachAll(primary, id), created, false)];
        r := Some(id);
      } else {
        r := None;
      }
      calls := calls + [Created(name, r)];
    }

    method NetworkConnect(net: string, id: string, ep: Endpoint) returns (ok: bool)
      modifies this
      ensures calls == old(calls) + [Connected(net, id, ok)]
      ensures ok ==> id in old(containers) && net !in old(containers)[id].networks
      ensures containers
              == if ok
                 then old(containers)[id := old(containers)[id].(networks := old(containers)[id].networks[net := Attach(ep, id)])]
                 else old(containers)
    {
      ok := *;
      ok := ok && id in containers && net !in containers[id].networks;
      if ok {
        containers := containers[id := containers[id].(networks := containers[id].networks[net := Attach(ep, id)])];
      }
      calls := calls + [Connected(net, id, ok)];
    }

    method Start(id: string) returns (ok: bool)
      modifies this
      ensures calls == old(calls) + [Started(id, ok)]
      ensures ok ==> id in old(containers)
      ensures containers == if ok then old(containers)[id := old(containers)[id].(running := true)] else old(containers)
    {
      ok := *;
      ok := ok && id in containers;
      if ok {
        containers := containers[id := containers[id].(running := true)];
      }
      calls := calls + [Started(id, ok)];
    }
  }
}
