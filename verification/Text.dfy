/** Options, results and the few operations of Go's `strings` package that the model needs. */
module Text {

  datatype Option<+T> = None | Some(value: T)

  datatype Result<+T> = Ok(value: T) | Err(error: string)

  predicate HasPrefix(s: string, p: string) {
    p <= s
  }

  predicate OccursAt(s: string, sub: string, i: nat) {
    i + |sub| <= |s| && s[i..i + |sub|] == sub
  }

  /** strings.Index: the offset of the first occurrence of `sub`. */
  function Index(s: string, sub: string, from: nat := 0): (r: Option<nat>)
    requires from <= |s|
    ensures r.Some? ==> from <= r.value && OccursAt(s, sub, r.value)
    ensures forall i: nat :: from <= i && OccursAt(s, sub, i) ==> r.Some? && r.value <= i
    decreases |s| - from
  {
    if OccursAt(s, sub, from) then Some(from)
    else if from == |s| then None
    else Index(s, sub, from + 1)
  }

  /** strings.Index for a one-character needle. */
  function FirstChar(s: string, c: char): (r: Option<nat>)
    ensures r.None? <==> c !in s
    ensures r.Some? ==> r.value < |s| && s[r.value] == c && c !in s[..r.value]
  {
    if s == "" then None
    else if s[0] == c then Some(0)
    else
      match FirstChar(s[1..], c)
      case None => None
      case Some(i) => assert s[..i + 1] == [s[0]] + s[1..][..i]; Some(i + 1)
  }

  /** The last occurrence of `c` before position `n`. */
  function LastCharBefore(s: string, c: char, n: nat): (r: Option<nat>)
    requires n <= |s|
    ensures r.None? ==> forall j :: 0 <= j < n ==> s[j] != c
    ensures r.Some? ==> r.value < n && s[r.value] == c && forall j :: r.value < j < n ==> s[j] != c
  {
    if n == 0 then None
    else if s[n - 1] == c then Some(n - 1)
    else LastCharBefore(s, c, n - 1)
  }

  /** strings.LastIndex for a one-character needle. */
  function LastChar(s: string, c: char): (r: Option<nat>)
    ensures r.None? <==> c !in s
    ensures r.Some? ==> r.value < |s| && s[r.value] == c && c !in s[r.value + 1..]
  {
    LastCharBefore(s, c, |s|)
  }

  lemma LastCharAt(s: string, c: char, n: nat)
    requires n < |s| && s[n] == c && c !in s[n + 1..]
    ensures LastChar(s, c) == Some(n)
  {
    forall j | n < j < |s| ensures s[j] != c {
      assert s[j] == s[n + 1..][j - n - 1];
    }
  }

  // ---------------------------------------------------------------- first and last nonempty strings

  ghost predicate AllEmpty(ds: seq<string>) {
    forall i :: 0 <= i < |ds| ==> ds[i] == ""
  }

  ghost predicate FirstAt(ds: seq<string>, i: int) {
    0 <= i < |ds| && ds[i] != "" && forall j :: 0 <= j < i ==> ds[j] == ""
  }

  ghost predicate LastAt(ds: seq<string>, i: int) {
    0 <= i < |ds| && ds[i] != "" && forall j :: i < j < |ds| ==> ds[j] == ""
  }

  /** `d` is the first nonempty member of `ds`. */
  ghost predicate IsFirst(ds: seq<string>, d: string) {
    exists i :: FirstAt(ds, i) && ds[i] == d
  }

  /** `d` is the last nonempty member of `ds`. */
  ghost predicate IsLast(ds: seq<string>, d: string) {
    exists i :: LastAt(ds, i) && ds[i] == d
  }

  lemma FirstIsUnique(ds: seq<string>, a: string, b: string)
    requires IsFirst(ds, a) && IsFirst(ds, b)
    ensures a == b
  {
    var i :| FirstAt(ds, i) && ds[i] == a;
    var j :| FirstAt(ds, j) && ds[j] == b;
    assert i == j;
  }

  lemma LastIsUnique(ds: seq<string>, a: string, b: string)
    requires IsLast(ds, a) && IsLast(ds, b)
    ensures a == b
  {
    var i :| LastAt(ds, i) && ds[i] == a;
    var j :| LastAt(ds, j) && ds[j] == b;
    assert i == j;
  }

  /** One more string changes the last nonempty one only if it is nonempty itself. */
  lemma LastOfMore(ds: seq<string>, n: nat, d: string)
    requires n < |ds|
    ensures ds[n] != "" ==> IsLast(ds[..n + 1], ds[n]) && !AllEmpty(ds[..n + 1])
    ensures ds[n] == "" ==> (IsLast(ds[..n], d) ==> IsLast(ds[..n + 1], d)) && (AllEmpty(ds[..n + 1]) <==> AllEmpty(ds[..n]))
  {
    if ds[n] != "" {
      assert LastAt(ds[..n + 1], n);
    } else {
      if IsLast(ds[..n], d) {
        var i :| LastAt(ds[..n], i) && ds[..n][i] == d;
        assert LastAt(ds[..n + 1], i);
      }
      if AllEmpty(ds[..n + 1]) {
        assert forall i :: 0 <= i < n ==> ds[..n][i] == ds[..n + 1][i];
      }
    }
  }

  /** One more string changes the first nonempty one only if there was none before. */
  lemma FirstOfMore(ds: seq<string>, n: nat, d: string)
    requires n < |ds|
    ensures IsFirst(ds[..n], d) ==> IsFirst(ds[..n + 1], d)
    ensures AllEmpty(ds[..n]) && ds[n] != "" ==> IsFirst(ds[..n + 1], ds[n])
    ensures AllEmpty(ds[..n + 1]) <==> AllEmpty(ds[..n]) && ds[n] == ""
  {
    if IsFirst(ds[..n], d) {
      var i :| FirstAt(ds[..n], i) && ds[..n][i] == d;
      assert FirstAt(ds[..n + 1], i);
    }
    if AllEmpty(ds[..n]) && ds[n] != "" {
      assert forall i :: 0 <= i < n ==> ds[..n + 1][i] == ds[..n][i];
      assert FirstAt(ds[..n + 1], n);
    }
    if AllEmpty(ds[..n + 1]) {
      assert forall i :: 0 <= i < n ==> ds[..n][i] == ds[..n + 1][i];
      assert ds[..n + 1][n] == ds[n];
    }
  }

  lemma Reassociate<T>(a: seq<T>, b: seq<T>, c: seq<T>)
    ensures a + b + c == a + (b + c)
  {
  }
}
