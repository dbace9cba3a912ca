/** Reading the pulled digest out of a docker pull progress stream. */
module PullStream {
  import opened Text

  /** The optional `aux` payload: absent, not of the known shape, or an ID and a Digest (either may be empty). */
  datatype Aux = NoAux | BadAux | Aux(id: string, digest: string)

  /** One decoded object of the stream, or the decoder's error (anything but the end of the stream). */
  datatype Item = Undecodable | Message(status: string, error: string, aux: Aux)

  const STATUS_PREFIX := "Digest: sha256:"

  /** What the stream stops at with an error. */
  predicate IsBad(m: Item) {
    m.Undecodable? || m.error != "" || m.aux.BadAux?
  }

  /** The digest a good message's aux carries: Digest before ID. */
  function AuxDigest(m: Item): string {
    if m.Message? && m.aux.Aux? then (if m.aux.digest != "" then m.aux.digest else m.aux.id) else ""
  }

  /** The digest a good message's status line carries, without the leading "Digest: ". */
  function StatusDigest(m: Item): (r: string)
    ensures r != "" <==> m.Message? && HasPrefix(m.status, STATUS_PREFIX)
    ensures r != "" ==> HasPrefix(r, "sha256:") && m.status == "Digest: " + r
  {
    if m.Message? && HasPrefix(m.status, STATUS_PREFIX) then
      assert m.status[8..15] == "sha256:";
      m.status[8..]
    else ""
  }

  // ---------------------------------------------------------------- the declarative form

  function Auxes(ms: seq<Item>): seq<string> {
    seq(|ms|, i requires 0 <= i < |ms| => AuxDigest(ms[i]))
  }

  function Statuses(ms: seq<Item>): seq<string> {
    seq(|ms|, i requires 0 <= i < |ms| => StatusDigest(ms[i]))
  }

  /** The whole contract: an error exactly when some message is bad or no digest turned up; otherwise the last
      aux digest if there is one, and failing that the first status digest. */
  ghost predicate Drains(ms: seq<Item>, r: Result<string>) {
    if (exists i :: 0 <= i < |ms| && IsBad(ms[i])) then r.Err?
    else if AllEmpty(Auxes(ms)) && AllEmpty(Statuses(ms)) then r.Err?
    else if AllEmpty(Auxes(ms)) then r.Ok? && IsFirst(Statuses(ms), r.value)
    else r.Ok? && IsLast(Auxes(ms), r.value)
  }

  // ---------------------------------------------------------------- the loop

  /** One message: an error if it is bad; otherwise its aux digest wins over what was known, and its status digest only
      fills a gap. */
  method Absorb(msg: Item, known: string) returns (r: Result<string>)
    ensures r.Err? <==> IsBad(msg)
    ensures r.Ok? ==> r.value == if AuxDigest(msg) != "" then AuxDigest(msg) else if known != "" then known else StatusDigest(msg)
  {
    var digest := known;
    if msg.Undecodable? {
      return Err("drain pull stream");
    }
    if msg.error != "" {
      return Err("docker pull stream error: " + msg.error);
    }
    if digest == "" && HasPrefix(msg.status, STATUS_PREFIX) {
      digest := msg.status[8..];
    }
    if msg.aux.BadAux? {
      return Err("drain pull stream: aux unmarshal");
    }
    if msg.aux.Aux? {
      if msg.aux.digest != "" {
        digest := msg.aux.digest;
      } else if msg.aux.id != "" {
        digest := msg.aux.id;
      }
    }
    return Ok(digest);
  }

  /** What the first `n` messages amount to: the last aux digest among them, or the first status digest, or nothing. */
  ghost predicate Amounts(auxes: seq<string>, statuses: seq<string>, n: nat, digest: string)
    requires n <= |auxes| == |statuses|
  {
    if !AllEmpty(auxes[..n]) then IsLast(auxes[..n], digest)
    else if !AllEmpty(statuses[..n]) then IsFirst(statuses[..n], digest)
    else digest == ""
  }

  lemma AmountsNext(auxes: seq<string>, statuses: seq<string>, n: nat, known: string, digest: string)
    requires n < |auxes| == |statuses| && Amounts(auxes, statuses, n, known)
    requires digest == if auxes[n] != "" then auxes[n] else if known != "" then known else statuses[n]
    ensures Amounts(auxes, statuses, n + 1, digest)
  {
    LastOfMore(auxes, n, known);
    FirstOfMore(statuses, n, known);
  }

  const NO_DIGEST := "docker pull stream ended without aux digest"

  lemma DrainsAll(ms: seq<Item>, digest: string, r: Result<string>)
    requires forall m :: m in ms ==> !IsBad(m)
    requires Amounts(Auxes(ms), Statuses(ms), |ms|, digest)
    requires if digest == "" then r.Err? else r == Ok(digest)
    ensures Drains(ms, r)
  {
    assert Auxes(ms)[..|ms|] == Auxes(ms) && Statuses(ms)[..|ms|] == Statuses(ms);
  }

  method DrainPullStream(ms: seq<Item>) returns (r: Result<string>)
    ensures Drains(ms, r)
  {
    var digest := "";
    ghost var auxes, statuses := Auxes(ms), Statuses(ms);
    for i := 0 to |ms|
      invariant forall j :: 0 <= j < i ==> !IsBad(ms[j])
      invariant Amounts(auxes, statuses, i, digest)
    {
      var next := Absorb(ms[i], digest);
      if next.Err? {
        assert IsBad(ms[i]);
        return next;
      }
      AmountsNext(auxes, statuses, i, digest, next.value);
      digest := next.value;
    }
    r := if digest == "" then Err(NO_DIGEST) else Ok(digest);
    DrainsAll(ms, digest, r);
  }

  predicate CarriesAux(m: Item) {
    m.Message? && m.aux.Aux? && (m.aux.digest != "" || m.aux.id != "")
  }

  /** A good stream gives the Digest of its last aux that says anything, or failing that its ID. */
  lemma LastAuxWins(ms: seq<Item>, i: nat, r: Result<string>)
    requires Drains(ms, r) && forall m :: m in ms ==> !IsBad(m)
    requires i < |ms| && CarriesAux(ms[i]) && forall j :: i < j < |ms| ==> !CarriesAux(ms[j])
    ensures r == Ok(if ms[i].aux.digest != "" then ms[i].aux.digest else ms[i].aux.id)
  {
    assert forall j :: 0 <= j < |ms| ==> ms[j] in ms;
    assert LastAt(Auxes(ms), i);
    LastIsUnique(Auxes(ms), r.value, Auxes(ms)[i]);
  }

  predicate NamesDigest(m: Item) {
    m.Message? && HasPrefix(m.status, "Digest: sha256:")
  }

  /** Without any such aux, the text after "Digest: " of the first status line that names a digest. */
  lemma FirstStatusCounts(ms: seq<Item>, i: nat, r: Result<string>)
    requires Drains(ms, r) && forall m :: m in ms ==> !IsBad(m) && !CarriesAux(m)
    requires i < |ms| && NamesDigest(ms[i]) && forall j :: 0 <= j < i ==> !NamesDigest(ms[j])
    ensures r.Ok? && ms[i].status == "Digest: " + r.value
  {
    assert forall j :: 0 <= j < |ms| ==> ms[j] in ms;
    assert FirstAt(Statuses(ms), i);
    FirstIsUnique(Statuses(ms), r.value, Statuses(ms)[i]);
  }

  /** A bad message, or neither aux nor digest status, is an error, and nothing else is. */
  lemma FailsExactly(ms: seq<Item>, r: Result<string>)
    requires Drains(ms, r)
    ensures r.Err?
            <==> (exists m :: m in ms && (m.Undecodable? || m.error != "" || m.aux.BadAux?))
                 || forall m :: m in ms ==> !CarriesAux(m) && !NamesDigest(m)
  {
    assert forall j :: 0 <= j < |ms| ==> ms[j] in ms;
    assert forall j :: 0 <= j < |ms| ==> (Auxes(ms)[j] != "" <==> CarriesAux(ms[j]));
    if exists m :: m in ms && IsBad(m) {
      var m :| m in ms && IsBad(m);
      var j :| 0 <= j < |ms| && ms[j] == m;
    } else {
      assert forall j :: 0 <= j < |ms| ==> (Statuses(ms)[j] != "" <==> NamesDigest(ms[j]));
    }
  }

  /** The contract leaves no freedom: it determines whether there is a digest, and which. */
  lemma DrainsIsFunctional(ms: seq<Item>, r1: Result<string>, r2: Result<string>)
    requires Drains(ms, r1) && Drains(ms, r2)
    ensures r1.Ok? <==> r2.Ok?
    ensures r1.Ok? ==> r1.value == r2.value
  {
    if r1.Ok? && AllEmpty(Auxes(ms)) {
      FirstIsUnique(Statuses(ms), r1.value, r2.value);
    } else if r1.Ok? {
      LastIsUnique(Auxes(ms), r1.value, r2.value);
    }
  }
}
