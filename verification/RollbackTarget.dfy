/** How Rollback chooses what to roll back to, from the stored digest and the local image cache. */
module RollbackTarget {
  import opened Schema
  import opened Text
  import opened Daemon
  import Fallback

  function AtDigest(image: string, digest: string): string {
    image + "@" + digest
  }

  /** The reference names the digest: it is what the cache search would read out of it. */
  lemma AtDigestNames(image: string, digest: string)
    requires HasPrefix(digest, "sha256:") && '@' !in image
    ensures Fallback.DigestOf(AtDigest(image, digest)) == digest
  {
    var ref, n := AtDigest(image, digest), |image|;
    assert ref[n + 1..] == digest && digest[..7] == "sha256:";
    assert ref[n..n + 8] == ['@'] + digest[..7];
    assert OccursAt(ref, Fallback.DIGEST_MARK, n);
    assert forall i :: 0 <= i < n ==> ref[i] == image[i];
    forall i: nat | OccursAt(ref, Fallback.DIGEST_MARK, i) ensures n <= i {
      assert ref[i] == ref[i..i + 8][0] == '@';
    }
    var r := Fallback.DigestOf(ref);
    assert r != "";
    assert |ref| - |r| - 1 == n;
  }

  // ---------------------------------------------------------------- is it still there

  /** Exchanges `n` and, if needed, `n + 1` looked the image up by repository and digest, then by bare digest. */
  ghost predicate LookedUp(calls: seq<Call>, n: nat, image: string, digest: string, found: bool) {
    n < |calls| && calls[n].ImageInspected? && calls[n].ref == image + "@" + digest
    && if calls[n].image.Some? then found
       else n + 1 < |calls| && calls[n + 1].ImageInspected? && calls[n + 1].ref == digest
            && found == calls[n + 1].image.Some?
  }

  /** Where an inspection in two forms that began at exchange `n` ends: the second form is asked only if the first one
      failed. */
  function InspectEnd(calls: seq<Call>, n: nat): nat {
    if n < |calls| && calls[n].ImageInspected? && calls[n].image.Some? then n + 1 else n + 2
  }

  method ExistsLocally(d: Daemon, image: string, digest: string) returns (found: bool)
    modifies d`calls
    ensures Since(old(d.calls), d.calls, LocalRead)
    ensures LookedUp(d.calls, |old(d.calls)|, image, digest, found)
    ensures |d.calls| == InspectEnd(d.calls, |old(d.calls)|)
  {
    var r := d.ImageInspect(AtDigest(image, digest));
    if r.None? {
      r := d.ImageInspect(digest);
    }
    return r.Some?;
  }

  // ---------------------------------------------------------------- the cache

  /** Exchange `i` listed the images of the row's repository. */
  predicate ListsImages(calls: seq<Call>, i: nat, snap: Container) {
    i < |calls| && calls[i].ImagesListed? && calls[i].repo == snap.image
  }

  /** The search that began at exchange `k` comes up with `r`: nothing if the row names no repository or the listing
      failed, else a right pick of that very listing. */
  ghost predicate Offers(calls: seq<Call>, k: nat, snap: Container, r: string) {
    if snap.image == "" then r == ""
    else ListsImages(calls, k, snap)
         && if calls[k].images.None? then r == ""
            else Fallback.IsTarget(calls[k].images.value, snap.currentDigest, snap.currentDigestAt, r)
  }

  /** Where that search ends. */
  function ListEnd(k: nat, snap: Container): nat {
    if snap.image == "" then k else k + 1
  }

  /** findFallbackRollbackTarget: an error if the images cannot be listed, else a right pick, which is empty if no image
      is eligible or the row names no repository. */
  method FindFallback(d: Daemon, snap: Container) returns (r: Result<string>)
    modifies d`calls
    ensures Since(old(d.calls), d.calls, LocalRead)
    ensures |d.calls| == ListEnd(|old(d.calls)|, snap)
    ensures Offers(d.calls, |old(d.calls)|, snap, Offered(r))
    ensures r.Err? <==> snap.image != "" && d.calls[|old(d.calls)|].images.None?
    ensures r.Ok? && r.value != "" ==> r.value != snap.currentDigest
  {
    if snap.image == "" {
      return Ok("");
    }
    var imgs := d.ImageList(snap.image);
    if imgs.None? {
      return Err("findFallbackRollbackTarget ImageList");
    }
    var picked := Fallback.PickTarget(imgs.value, snap.currentDigest, snap.currentDigestAt);
    return Ok(picked);
  }

  /** Rollback only logs a listing error and goes on with an empty answer. */
  function Offered(r: Result<string>): string {
    if r.Ok? then r.value else ""
  }

  lemma OffersStays(calls: seq<Call>, later: seq<Call>, k: nat, snap: Container, r: string)
    requires calls <= later && ListEnd(k, snap) <= |calls|
    ensures Offers(later, k, snap, r) <==> Offers(calls, k, snap, r)
  {
  }

  /** A search never offers the known running digest. */
  lemma OffersAnother(calls: seq<Call>, k: nat, snap: Container, r: string)
    requires Offers(calls, k, snap, r) && r != ""
    ensures r != snap.currentDigest
  {
    Fallback.NeverCurrent(calls[k].images.value, snap.currentDigest, snap.currentDigestAt, r);
  }

  // ---------------------------------------------------------------- how old is it

  /** Exchange `n`, and the next one if it failed, told the build time of an image. */
  ghost predicate TellsBuilt(calls: seq<Call>, n: nat, image: string, digest: string, built: Option<Instant>) {
    n < |calls| && calls[n].ImageInspected?
    && calls[n].ref == (if image != "" then image + "@" + digest else digest)
    && if calls[n].image.Some? then built == calls[n].image.value.built
       else n + 1 < |calls| && calls[n + 1].ImageInspected? && calls[n + 1].ref == digest
            && built == if calls[n + 1].image.Some? then calls[n + 1].image.value.built else None
  }

  /** inspectImageCreated. */
  method InspectBuilt(d: Daemon, image: string, digest: string) returns (built: Option<Instant>)
    modifies d`calls
    ensures Since(old(d.calls), d.calls, LocalRead)
    ensures TellsBuilt(d.calls, |old(d.calls)|, image, digest, built)
    ensures |d.calls| == InspectEnd(d.calls, |old(d.calls)|)
  {
    var r := d.ImageInspect(if image != "" then AtDigest(image, digest) else digest);
    if r.None? {
      r := d.ImageInspect(digest);
    }
    return if r.Some? then r.value.built else None;
  }

  lemma TellsBuiltStays(calls: seq<Call>, later: seq<Call>, n: nat, image: string, digest: string, built: Option<Instant>)
    requires TellsBuilt(calls, n, image, digest, built) && calls <= later
    ensures TellsBuilt(later, n, image, digest, built) && InspectEnd(later, n) == InspectEnd(calls, n) <= |calls|
  {
  }

  // ---------------------------------------------------------------- the candidate

  /** The stored digest is known, and the existence probe at exchange `n` found it. */
  ghost predicate Present(calls: seq<Call>, n: nat, snap: Container) {
    snap.previousDigest != "" && LookedUp(calls, n, snap.image, snap.previousDigest, true)
  }

  /** The existence probe was made as it should be, and ends at `ProbeEnd`. */
  ghost predicate Probed(calls: seq<Call>, n: nat, snap: Container) {
    snap.previousDigest == "" || LookedUp(calls, n, snap.image, snap.previousDigest, Present(calls, n, snap))
  }

  function ProbeEnd(calls: seq<Call>, n: nat, snap: Container): nat {
    if snap.previousDigest == "" then n else InspectEnd(calls, n)
  }

  /** The stored digest is there but is the running one, and the peek into the cache, right after the probe, found nothing
      else. */
  ghost predicate StuckAtCurrent(calls: seq<Call>, n: nat, snap: Container) {
    Present(calls, n, snap) && snap.previousDigest == snap.currentDigest
    && Offers(calls, ProbeEnd(calls, n, snap), snap, "")
  }

  /** The exchange at which the search whose answer counts begins: after the probe, and after the peek too if there was
      one that offered something. */
  ghost function SearchAt(calls: seq<Call>, n: nat, snap: Container): nat {
    if Present(calls, n, snap) then ListEnd(ProbeEnd(calls, n, snap), snap) else ProbeEnd(calls, n, snap)
  }

  /** What the exchanges from `n` on make the candidate: the stored digest if it is there and differs from the running
      one, or is stuck at it; otherwise what the search offers. A peek that offered something is on record then. */
  ghost predicate Candidacy(calls: seq<Call>, n: nat, snap: Container, r: string) {
    && Probed(calls, n, snap)
    && if Present(calls, n, snap) && snap.previousDigest != snap.currentDigest then r == snap.previousDigest
       else if StuckAtCurrent(calls, n, snap) then r == snap.previousDigest
       else (Present(calls, n, snap) ==> ListsImages(calls, ProbeEnd(calls, n, snap), snap))
            && Offers(calls, SearchAt(calls, n, snap), snap, r)
  }

  /** Where the candidate is settled. */
  ghost function CandidateEnd(calls: seq<Call>, n: nat, snap: Container): nat {
    var probed := ProbeEnd(calls, n, snap);
    if Present(calls, n, snap) && snap.previousDigest != snap.currentDigest then probed
    else if StuckAtCurrent(calls, n, snap) then ListEnd(probed, snap)
    else ListEnd(SearchAt(calls, n, snap), snap)
  }

  lemma ProbeStays(calls: seq<Call>, later: seq<Call>, n: nat, snap: Container)
    requires Probed(calls, n, snap) && n <= |calls| && calls <= later
    ensures Probed(later, n, snap) && (Present(later, n, snap) <==> Present(calls, n, snap))
    ensures n <= ProbeEnd(later, n, snap) == ProbeEnd(calls, n, snap) <= |calls|
  {
  }

  lemma CandidacyStays(calls: seq<Call>, later: seq<Call>, n: nat, snap: Container, r: string)
    requires Candidacy(calls, n, snap, r) && n <= |calls| && calls <= later
    ensures Candidacy(later, n, snap, r)
    ensures n <= CandidateEnd(later, n, snap) == CandidateEnd(calls, n, snap) <= |calls|
  {
    ProbeStays(calls, later, n, snap);
    var probed := ProbeEnd(calls, n, snap);
    if !(Present(calls, n, snap) && snap.previousDigest != snap.currentDigest) {
      OffersStays(calls, later, probed, snap, "");
      OffersStays(calls, later, probed, snap, r);
      if Present(calls, n, snap) && !StuckAtCurrent(calls, n, snap) {
        OffersStays(calls, later, ListEnd(probed, snap), snap, r);
      }
    }
  }

  /** The candidate once a stuck or missing stored digest has been looked for in the cache. */
  lemma SearchSettles(probed: seq<Call>, searched: seq<Call>, calls: seq<Call>, n: nat, snap: Container, r: string)
    requires n <= |probed| && probed <= searched <= calls && Probed(probed, n, snap) && |probed| == ProbeEnd(probed, n, snap)
    requires MustSearch(probed, searched, n, snap)
    requires Offers(calls, |searched|, snap, r) && |calls| == ListEnd(|searched|, snap)
    ensures Candidacy(calls, n, snap, r) && |calls| == CandidateEnd(calls, n, snap)
  {
    ProbeStays(probed, calls, n, snap);
    if Present(probed, n, snap) {
      OffersStays(searched, calls, |probed|, snap, "");
    }
  }

  /** The candidate if the peek finds nothing. */
  lemma PeekSettles(probed: seq<Call>, calls: seq<Call>, n: nat, snap: Container)
    requires n <= |probed| && probed <= calls && Probed(probed, n, snap) && |probed| == ProbeEnd(probed, n, snap)
    requires Present(probed, n, snap) && snap.previousDigest == snap.currentDigest
    requires Offers(calls, |probed|, snap, "") && |calls| == ListEnd(|probed|, snap)
    ensures Candidacy(calls, n, snap, snap.previousDigest) && |calls| == CandidateEnd(calls, n, snap)
  {
    ProbeStays(probed, calls, n, snap);
  }

  /** The peek, made at exchange `|probed|`, offered something; without a stored digest there was none. */
  ghost predicate MustSearch(probed: seq<Call>, searched: seq<Call>, n: nat, snap: Container) {
    if Present(probed, n, snap)
    then snap.previousDigest == snap.currentDigest && |searched| == ListEnd(|probed|, snap)
         && ListsImages(searched, |probed|, snap) && !Offers(searched, |probed|, snap, "")
    else searched == probed
  }

  lemma PeekForcesSearch(probed: seq<Call>, calls: seq<Call>, n: nat, snap: Container, r: string)
    requires Present(probed, n, snap) && snap.previousDigest == snap.currentDigest
    requires |calls| == ListEnd(|probed|, snap) && Offers(calls, |probed|, snap, r) && r != ""
    ensures MustSearch(probed, calls, n, snap)
  {
    PeekOffered(calls, |probed|, snap, r);
  }

  /** A stored digest that is there and differs from the running one needs no search. */
  lemma StoredSettles(calls: seq<Call>, n: nat, snap: Container)
    requires Probed(calls, n, snap) && Present(calls, n, snap) && snap.previousDigest != snap.currentDigest
    requires |calls| == ProbeEnd(calls, n, snap)
    ensures Candidacy(calls, n, snap, snap.previousDigest) && |calls| == CandidateEnd(calls, n, snap)
  {
  }

  method Search(d: Daemon, snap: Container, ghost probed: seq<Call>, ghost n: nat) returns (r: string)
    requires n <= |probed| && probed <= d.calls && Probed(probed, n, snap) && |probed| == ProbeEnd(probed, n, snap)
    requires MustSearch(probed, d.calls, n, snap)
    modifies d`calls
    ensures Since(old(d.calls), d.calls, LocalRead)
    ensures Candidacy(d.calls, n, snap, r) && |d.calls| == CandidateEnd(d.calls, n, snap)
  {
    var fallback := FindFallback(d, snap);
    r := Offered(fallback);
    SearchSettles(probed, old(d.calls), d.calls, n, snap, r);
  }

  /** The peek and the fallback, for a stored digest that is "" if it is unknown or was not found. */
  method Settle(d: Daemon, snap: Container, stored: string, ghost n: nat) returns (r: string)
    requires n <= |d.calls| && Probed(d.calls, n, snap) && |d.calls| == ProbeEnd(d.calls, n, snap)
    requires stored == if Present(d.calls, n, snap) then snap.previousDigest else ""
    modifies d`calls
    ensures Since(old(d.calls), d.calls, LocalRead)
    ensures Candidacy(d.calls, n, snap, r) && |d.calls| == CandidateEnd(d.calls, n, snap)
  {
    r := stored;
    if r != "" && r == snap.currentDigest {
      var peek := FindFallback(d, snap);
      if Offered(peek) != "" {
        r := "";
        PeekForcesSearch(old(d.calls), d.calls, n, snap, Offered(peek));
      } else {
        PeekSettles(old(d.calls), d.calls, n, snap);
      }
    } else if r != "" {
      StoredSettles(d.calls, n, snap);
    }
    if r == "" {
      r := Search(d, snap, old(d.calls), n);
    }
  }

  method Candidate(d: Daemon, snap: Container) returns (r: string)
    modifies d`calls
    ensures Since(old(d.calls), d.calls, LocalRead)
    ensures Candidacy(d.calls, |old(d.calls)|, snap, r)
    ensures |d.calls| == CandidateEnd(d.calls, |old(d.calls)|, snap)
  {
    r := snap.previousDigest;
    if r != "" {
      var present := ExistsLocally(d, snap.image, r);
      if !present {
        r := "";
      }
    }
    r := Settle(d, snap, r, |old(d.calls)|);
  }

  /** A search that offered something did list, and did not come up empty. */
  lemma PeekOffered(calls: seq<Call>, k: nat, snap: Container, r: string)
    requires Offers(calls, k, snap, r) && r != ""
    ensures ListsImages(calls, k, snap) && !Offers(calls, k, snap, "")
  {
  }

  // ---------------------------------------------------------------- the choice

  datatype Choice = NoTarget | Unchanged | NotOlder(rejected: string) | Go(target: string)

  /** The target is a real change, and its build time, if told, is older than that of what is running, if known. */
  predicate Allowed(snap: Container, built: Option<Instant>, target: string) {
    target != "" && target != snap.currentDigest
    && (IsZero(snap.currentDigestAt) || built.None? || built.value < snap.currentDigestAt)
  }

  /** The gate on candidate `r`, at exchange `k`: it is not asked if the running build time is unknown, and otherwise
      decides by its own inspection. */
  ghost predicate Gated(calls: seq<Call>, k: nat, snap: Container, r: string, built: Option<Instant>) {
    if IsZero(snap.currentDigestAt) then built == None else TellsBuilt(calls, k, snap.image, r, built)
  }

  function GateEnd(calls: seq<Call>, k: nat, snap: Container): nat {
    if IsZero(snap.currentDigestAt) then k else InspectEnd(calls, k)
  }

  /** Each choice with its reason, in the exchanges that led to it. */
  ghost predicate Justified(calls: seq<Call>, n: nat, snap: Container, c: Choice, built: Option<Instant>) {
    match c
    case NoTarget => Candidacy(calls, n, snap, "") && built == None
    case Unchanged => snap.currentDigest != "" && Candidacy(calls, n, snap, snap.currentDigest) && built == None
    case NotOlder(r) => Weighed(calls, n, snap, r, built) && !Allowed(snap, built, r)
    case Go(r) => Weighed(calls, n, snap, r, built) && Allowed(snap, built, r)
  }

  /** Candidate `r` is a real change, and the gate was told `built` for it. */
  ghost predicate Weighed(calls: seq<Call>, n: nat, snap: Container, r: string, built: Option<Instant>) {
    Candidacy(calls, n, snap, r) && r != "" && r != snap.currentDigest
    && Gated(calls, CandidateEnd(calls, n, snap), snap, r, built)
  }

  /** Where the choice is made. */
  ghost function ChoiceEnd(calls: seq<Call>, n: nat, snap: Container, c: Choice): nat {
    var k := CandidateEnd(calls, n, snap);
    if c.NoTarget? || c.Unchanged? then k else GateEnd(calls, k, snap)
  }

  /** The strict-downgrade gate. */
  method PassGate(d: Daemon, snap: Container, target: string, ghost n: nat) returns (c: Choice, ghost built: Option<Instant>)
    requires n <= |d.calls| && Candidacy(d.calls, n, snap, target) && target != "" && target != snap.currentDigest
    requires |d.calls| == CandidateEnd(d.calls, n, snap)
    modifies d`calls
    ensures Since(old(d.calls), d.calls, LocalRead)
    ensures Justified(d.calls, n, snap, c, built) && |d.calls| == ChoiceEnd(d.calls, n, snap, c)
    ensures Gated(d.calls, |old(d.calls)|, snap, target, built)
    ensures c == if Allowed(snap, built, target) then Go(target) else NotOlder(target)
  {
    if IsZero(snap.currentDigestAt) {
      return Go(target), None;
    }
    var created := InspectBuilt(d, snap.image, target);
    CandidacyStays(old(d.calls), d.calls, n, snap, target);
    if created.Some? && !(created.value < snap.currentDigestAt) {
      return NotOlder(target), created;
    }
    return Go(target), created;
  }

  /** Without a candidate, or with the running digest for one, the choice is made at once. */
  function AtOnce(target: string): Choice {
    if target == "" then NoTarget else Unchanged
  }

  lemma ChosenAtOnce(calls: seq<Call>, n: nat, snap: Container, target: string)
    requires Candidacy(calls, n, snap, target) && (target == "" || target == snap.currentDigest)
    ensures Justified(calls, n, snap, AtOnce(target), None)
    ensures ChoiceEnd(calls, n, snap, AtOnce(target)) == CandidateEnd(calls, n, snap)
  {
  }

  method ChooseTarget(d: Daemon, snap: Container) returns (c: Choice, ghost built: Option<Instant>)
    modifies d`calls
    ensures Since(old(d.calls), d.calls, LocalRead)
    ensures Justified(d.calls, |old(d.calls)|, snap, c, built)
    ensures |d.calls| == ChoiceEnd(d.calls, |old(d.calls)|, snap, c)
  {
    var target := Candidate(d, snap);
    if target == "" || snap.currentDigest == target {
      ChosenAtOnce(d.calls, |old(d.calls)|, snap, target);
      return AtOnce(target), None;
    }
    c, built := PassGate(d, snap, target, |old(d.calls)|);
  }

  // ---------------------------------------------------------------- the answers decide

  /** Reasons outlast later exchanges. */
  lemma JustifiedStays(calls: seq<Call>, later: seq<Call>, n: nat, snap: Container, c: Choice, built: Option<Instant>)
    requires Justified(calls, n, snap, c, built) && n <= |calls| && calls <= later
    ensures Justified(later, n, snap, c, built)
  {
    match c
    case NoTarget => CandidacyStays(calls, later, n, snap, "");
    case Unchanged => CandidacyStays(calls, later, n, snap, snap.currentDigest);
    case NotOlder(r) => WeighedStays(calls, later, n, snap, r, built);
    case Go(r) => WeighedStays(calls, later, n, snap, r, built);
  }

  lemma WeighedStays(calls: seq<Call>, later: seq<Call>, n: nat, snap: Container, r: string, built: Option<Instant>)
    requires Weighed(calls, n, snap, r, built) && n <= |calls| && calls <= later
    ensures Weighed(later, n, snap, r, built)
  {
    CandidacyStays(calls, later, n, snap, r);
    if !IsZero(snap.currentDigestAt) {
      TellsBuiltStays(calls, later, CandidateEnd(calls, n, snap), snap.image, r, built);
    }
  }

  /** A no-op is justified if and only if the stored digest is stuck at the running one. */
  lemma UnchangedIffStuck(calls: seq<Call>, n: nat, snap: Container)
    ensures Justified(calls, n, snap, Unchanged, None) <==> StuckAtCurrent(calls, n, snap)
  {
    if Justified(calls, n, snap, Unchanged, None) && !StuckAtCurrent(calls, n, snap) {
      var k := SearchAt(calls, n, snap);
      assert Offers(calls, k, snap, snap.currentDigest);
      OffersAnother(calls, k, snap, snap.currentDigest);
    }
  }

  /** The same exchanges never settle on two candidates, except that a listing may hold several newest images. */
  lemma CandidatesAreOffers(calls: seq<Call>, n: nat, snap: Container, r1: string, r2: string)
    requires Candidacy(calls, n, snap, r1) && Candidacy(calls, n, snap, r2) && r1 != r2
    ensures r1 != "" && r2 != "" && r1 != snap.currentDigest && r2 != snap.currentDigest
    ensures var k := SearchAt(calls, n, snap);
            ListsImages(calls, k, snap) && calls[k].images.Some?
            && Fallback.IsTarget(calls[k].images.value, snap.currentDigest, snap.currentDigestAt, r1)
            && Fallback.IsTarget(calls[k].images.value, snap.currentDigest, snap.currentDigestAt, r2)
  {
    var k := SearchAt(calls, n, snap);
    assert Offers(calls, k, snap, r1) && Offers(calls, k, snap, r2);
    if r1 != "" {
      PeekOffered(calls, k, snap, r1);
      OffersAnother(calls, k, snap, r1);
    }
    if r2 != "" {
      PeekOffered(calls, k, snap, r2);
      OffersAnother(calls, k, snap, r2);
    }
  }

  lemma SameReference(image: string, d1: string, d2: string)
    requires AtDigest(image, d1) == AtDigest(image, d2)
    ensures d1 == d2
  {
    assert AtDigest(image, d1)[|image| + 1..] == d1 && AtDigest(image, d2)[|image| + 1..] == d2;
  }

  lemma GateFixesTarget(calls: seq<Call>, k: nat, image: string, d1: string, b1: Option<Instant>, d2: string,
                        b2: Option<Instant>)
    requires TellsBuilt(calls, k, image, d1, b1) && TellsBuilt(calls, k, image, d2, b2)
    ensures d1 == d2 && b1 == b2
  {
    if image != "" { SameReference(image, d1, d2); }
  }

  /** The exchanges decide: the same ones justify a single choice. The one freedom left is which of several newest cached
      images is taken when no gate is asked about it. */
  lemma ChoiceIsDetermined(calls: seq<Call>, n: nat, snap: Container, c1: Choice, b1: Option<Instant>, c2: Choice,
                           b2: Option<Instant>)
    requires Justified(calls, n, snap, c1, b1) && Justified(calls, n, snap, c2, b2)
    ensures b1 == b2
    ensures c1 == c2 || (c1.Go? && c2.Go? && IsZero(snap.currentDigestAt))
  {
    var r1, r2 := CandidateOf(snap, c1), CandidateOf(snap, c2);
    assert Candidacy(calls, n, snap, r1) && Candidacy(calls, n, snap, r2);
    if r1 != r2 {
      CandidatesAreOffers(calls, n, snap, r1, r2);
    }
    if IsWeighed(c1) && IsWeighed(c2) && !IsZero(snap.currentDigestAt) {
      GateFixesTarget(calls, CandidateEnd(calls, n, snap), snap.image, r1, b1, r2, b2);
    }
  }

  predicate IsWeighed(c: Choice) {
    c.NotOlder? || c.Go?
  }

  function CandidateOf(snap: Container, c: Choice): string {
    match c
    case NoTarget => ""
    case Unchanged => snap.currentDigest
    case NotOlder(r) => r
    case Go(r) => r
  }
}
