/** Picking a rollback target from the daemon's image cache. */
module Fallback {
  import opened Schema
  import opened Text

  /** One entry of the daemon's image listing: its repo digests and its creation time in Unix seconds. */
  datatype Image = Image(repoDigests: seq<string>, created: int)

  const DIGEST_MARK := "@sha256:"

  /** "repo@sha256:hex" gives "sha256:hex", what follows the first "@" that starts such a mark; a reference without one
      gives nothing. */
  function DigestOf(rd: string): (r: string)
    ensures r == "" <==> forall i: nat :: !OccursAt(rd, DIGEST_MARK, i)
    ensures r != "" ==> HasPrefix(r, "sha256:") && |r| < |rd| && rd[|rd| - |r|..] == r
                        && OccursAt(rd, DIGEST_MARK, |rd| - |r| - 1)
                        && forall i: nat :: OccursAt(rd, DIGEST_MARK, i) ==> |rd| - |r| - 1 <= i
  {
    var at := Index(rd, DIGEST_MARK);
    if at.None? then ""
    else
      assert rd[at.value..at.value + 8] == DIGEST_MARK;
      assert rd[at.value + 1..][..7] == rd[at.value..at.value + 8][1..];
      rd[at.value + 1..]
  }

  /** The digests of an image's repo digests, empty where a reference has none. */
  function Digests(rds: seq<string>): seq<string> {
    seq(|rds|, i requires 0 <= i < |rds| => DigestOf(rds[i]))
  }

  /** The strict-downgrade filter compares whole seconds, and is off unless the current image's build time is
      known and lies in a positive Unix second. */
  function FilterSeconds(currentAt: Instant): int {
    if IsZero(currentAt) then 0 else UnixSeconds(currentAt)
  }

  predicate OldEnough(img: Image, currentAt: Instant) {
    FilterSeconds(currentAt) > 0 ==> img.created < FilterSeconds(currentAt)
  }

  /** A rollback candidate that offers digest `d`. */
  ghost predicate Eligible(img: Image, current: string, currentAt: Instant, d: string) {
    IsFirst(Digests(img.repoDigests), d)
    && !(current != "" && current in Digests(img.repoDigests))
    && OldEnough(img, currentAt)
  }

  /** The digests an image's repo digests carry, one by one. */
  ghost predicate Carries(img: Image, ds: seq<string>) {
    |ds| == |img.repoDigests| && forall i :: 0 <= i < |ds| ==> ds[i] == DigestOf(img.repoDigests[i])
  }

  lemma FirstMeans(ds: seq<string>, d: string)
    ensures IsFirst(ds, d) <==> d != "" && exists i :: 0 <= i < |ds| && ds[i] == d && forall j :: 0 <= j < i ==> ds[j] == ""
  {
    if IsFirst(ds, d) {
      var i :| FirstAt(ds, i) && ds[i] == d;
    }
    if d != "" {
      if i :| 0 <= i < |ds| && ds[i] == d && forall j :: 0 <= j < i ==> ds[j] == "" {
        assert FirstAt(ds, i);
      }
    }
  }

  /** Who is eligible, in the listing's own terms: an image that offers its first repo digest, none of whose repo digests
      is the known running one, and that was built in an earlier whole second than the running image, unless that build
      time is unknown or before the end of the first second of 1970. */
  lemma EligibleMeans(img: Image, current: string, currentAt: Instant, d: string, ds: seq<string>)
    requires Carries(img, ds)
    ensures Eligible(img, current, currentAt, d)
            <==> && d != ""
                 && (exists i :: 0 <= i < |ds| && ds[i] == d && forall j :: 0 <= j < i ==> ds[j] == "")
                 && (current == "" || current !in ds)
                 && (currentAt == ZERO_INSTANT || currentAt < SECOND || (img.created + 1) * SECOND <= currentAt)
  {
    assert Digests(img.repoDigests) == ds;
    FirstMeans(ds, d);
    SecondsCompare(img.created, currentAt);
  }

  lemma SecondsCompare(created: int, at: Instant)
    ensures created < UnixSeconds(at) <==> (created + 1) * SECOND <= at
    ensures UnixSeconds(at) <= 0 <==> at < SECOND
  {
  }

  /** The inner loop, over the digests of one image's repo digests. */
  method ScanDigests(ds: seq<string>, current: string) returns (isCurrent: bool, picked: string)
    ensures isCurrent <==> current != "" && current in ds
    ensures !isCurrent ==> if picked == "" then AllEmpty(ds) else IsFirst(ds, picked)
  {
    isCurrent, picked := false, "";
    ghost var at := -1;
    for i := 0 to |ds|
      invariant !isCurrent
      invariant current != "" ==> forall j :: 0 <= j < i ==> ds[j] != current
      invariant at < 0 ==> picked == "" && forall j :: 0 <= j < i ==> ds[j] == ""
      invariant at >= 0 ==> FirstAt(ds, at) && ds[at] == picked
    {
      if ds[i] != "" {
        if current != "" && ds[i] == current {
          isCurrent := true;
          return;
        }
        if picked == "" {
          picked, at := ds[i], i;
        }
      }
    }
  }

  datatype Candidate = Candidate(digest: string, created: int)

  /** Something of a nonempty list is maximal. */
  lemma {:induction false} MaximumExists(cs: seq<Candidate>) returns (k: nat)
    requires cs != []
    ensures k < |cs| && forall j :: 0 <= j < |cs| ==> cs[j].created <= cs[k].created
  {
    if |cs| == 1 {
      return 0;
    }
    k := MaximumExists(cs[..|cs| - 1]);
    if cs[k].created < cs[|cs| - 1].created {
      return |cs| - 1;
    }
  }

  ghost predicate FromList(imgs: seq<Image>, current: string, currentAt: Instant, c: Candidate) {
    exists i :: 0 <= i < |imgs| && Eligible(imgs[i], current, currentAt, c.digest) && imgs[i].created == c.created
  }

  /** `r` is the right answer for the listing `imgs`: empty exactly when no image is eligible, and otherwise the
      digest of an eligible image that no eligible image is newer than. */
  ghost predicate IsTarget(imgs: seq<Image>, current: string, currentAt: Instant, r: string) {
    if r == "" then forall i, d :: 0 <= i < |imgs| ==> !Eligible(imgs[i], current, currentAt, d)
    else exists i :: 0 <= i < |imgs| && Eligible(imgs[i], current, currentAt, r)
                     && forall j, d :: 0 <= j < |imgs| && Eligible(imgs[j], current, currentAt, d) ==>
                                         imgs[j].created <= imgs[i].created
  }

  /** findFallbackRollbackTarget, after the listing. The source sorts the candidates newest first and takes the
      first; its sort is unstable, so among the newest any may come first. */
  method PickTarget(imgs: seq<Image>, current: string, currentAt: Instant) returns (r: string)
    ensures IsTarget(imgs, current, currentAt, r)
    ensures current != "" ==> r != current
  {
    var cands: seq<Candidate> := [];
    for i := 0 to |imgs|
      invariant forall c :: c in cands ==> c.digest != "" && FromList(imgs, current, currentAt, c)
      invariant forall j, d :: 0 <= j < i && Eligible(imgs[j], current, currentAt, d) ==>
                                 Candidate(d, imgs[j].created) in cands
    {
      var isCurrent, picked := ScanDigests(Digests(imgs[i].repoDigests), current);
      if isCurrent || picked == "" || !OldEnough(imgs[i], currentAt) {
        assert forall d :: !Eligible(imgs[i], current, currentAt, d);
      } else {
        assert Eligible(imgs[i], current, currentAt, picked);
        forall d | Eligible(imgs[i], current, currentAt, d) ensures d == picked {
          FirstIsUnique(Digests(imgs[i].repoDigests), d, picked);
        }
        cands := cands + [Candidate(picked, imgs[i].created)];
      }
    }
    if cands == [] {
      return "";
    }
    ghost var m := MaximumExists(cands);
    var k: nat :| k < |cands| && forall j :: 0 <= j < |cands| ==> cands[j].created <= cands[k].created;
    r := cands[k].digest;
    assert cands[k] in cands;
    AnswerIsTarget(imgs, current, currentAt, cands, k);
    NeverCurrent(imgs, current, currentAt, r);
  }

  lemma AnswerIsTarget(imgs: seq<Image>, current: string, currentAt: Instant, cands: seq<Candidate>, k: nat)
    requires k < |cands| && forall j :: 0 <= j < |cands| ==> cands[j].created <= cands[k].created
    requires cands[k].digest != "" && FromList(imgs, current, currentAt, cands[k])
    requires forall j, d :: 0 <= j < |imgs| && Eligible(imgs[j], current, currentAt, d) ==>
                              Candidate(d, imgs[j].created) in cands
    ensures IsTarget(imgs, current, currentAt, cands[k].digest)
  {
    var r := cands[k].digest;
    var i :| 0 <= i < |imgs| && Eligible(imgs[i], current, currentAt, r) && imgs[i].created == cands[k].created;
    forall j, d | 0 <= j < |imgs| && Eligible(imgs[j], current, currentAt, d) ensures imgs[j].created <= imgs[i].created {
      var c := Candidate(d, imgs[j].created);
      assert c in cands;
      var n :| 0 <= n < |cands| && cands[n] == c;
    }
  }

  /** The running digest is never offered, whatever the listing says. */
  lemma NeverCurrent(imgs: seq<Image>, current: string, currentAt: Instant, r: string)
    requires IsTarget(imgs, current, currentAt, r)
    ensures current != "" ==> r != current
  {
    if r != "" {
      var i :| 0 <= i < |imgs| && Eligible(imgs[i], current, currentAt, r);
      assert r in Digests(imgs[i].repoDigests);
    }
  }

  // ---------------------------------------------------------------- the finer gate

  /** Rollback's own gate compares full instants and is off when the current build time is unknown. */
  predicate PassesGate(built: Instant, currentAt: Instant) {
    IsZero(currentAt) || built < currentAt
  }

  /** The listing's seconds come from the same build times that image inspection reports. */
  ghost predicate Consistent(imgs: seq<Image>, built: string -> Instant) {
    forall i :: 0 <= i < |imgs| ==>
      forall d :: IsFirst(Digests(imgs[i].repoDigests), d) ==> imgs[i].created == UnixSeconds(built(d))
  }

  /** The second-grained filter is strict enough for the nanosecond gate: every answer passes it, provided the
      current build time is unknown or lies in a positive Unix second. */
  lemma TargetPassesGate(imgs: seq<Image>, current: string, currentAt: Instant, built: string -> Instant, r: string)
    requires IsTarget(imgs, current, currentAt, r) && r != ""
    requires Consistent(imgs, built)
    requires IsZero(currentAt) || UnixSeconds(currentAt) > 0
    ensures PassesGate(built(r), currentAt)
  {
    var i :| 0 <= i < |imgs| && Eligible(imgs[i], current, currentAt, r);
    if !IsZero(currentAt) {
      assert UnixSeconds(built(r)) < UnixSeconds(currentAt);
    }
  }

  /** The proviso cannot be dropped: for any other current build time (known, but not after the first second of
      1970, as reproducible builds stamp their images) there is a consistent listing whose only answer the gate
      then refuses. */
  lemma GateRefusesWithoutProviso(currentAt: Instant) returns (imgs: seq<Image>, built: string -> Instant)
    requires !IsZero(currentAt) && UnixSeconds(currentAt) <= 0
    ensures Consistent(imgs, built)
    ensures IsTarget(imgs, "sha256:b", currentAt, "sha256:a")
    ensures forall r :: IsTarget(imgs, "sha256:b", currentAt, r) ==> r == "sha256:a"
    ensures !PassesGate(built("sha256:a"), currentAt)
  {
    var rd := "r@sha256:a";
    assert OccursAt(rd, DIGEST_MARK, 1);
    assert !OccursAt(rd, DIGEST_MARK, 0) by { assert rd[0..8][0] == 'r'; }
    assert DigestOf(rd) == rd[2..] == "sha256:a";
    var img := Image([rd], UnixSeconds(currentAt));
    imgs := [img];
    built := (d: string) => currentAt;
    assert Digests(img.repoDigests) == ["sha256:a"];
    assert FirstAt(Digests(img.repoDigests), 0);
    assert "sha256:a"[7] != "sha256:b"[7];
    assert Eligible(imgs[0], "sha256:b", currentAt, "sha256:a");
    forall d | Eligible(imgs[0], "sha256:b", currentAt, d) ensures d == "sha256:a" {
      FirstIsUnique(Digests(img.repoDigests), d, "sha256:a");
    }
  }

  /** Whatever the cache holds, the pick passes Rollback's own gate. */
  ghost predicate AlwaysPasses(currentAt: Instant) {
    forall imgs, current, built: string -> Instant, r ::
      IsTarget(imgs, current, currentAt, r) && r != "" && Consistent(imgs, built) ==> PassesGate(built(r), currentAt)
  }

  /** Exactly for which running images filter and gate agree: those of unknown build time, and those built after the
      first Unix second. */
  lemma GateAgreesIff(currentAt: Instant)
    ensures AlwaysPasses(currentAt) <==> IsZero(currentAt) || UnixSeconds(currentAt) > 0
  {
    if IsZero(currentAt) || UnixSeconds(currentAt) > 0 {
      forall imgs, current, built: string -> Instant, r |
        IsTarget(imgs, current, currentAt, r) && r != "" && Consistent(imgs, built)
        ensures PassesGate(built(r), currentAt)
      {
        TargetPassesGate(imgs, current, currentAt, built, r);
      }
    } else {
      var imgs, built := GateRefusesWithoutProviso(currentAt);
    }
  }
}
