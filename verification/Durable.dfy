/** The write-through store: every Update changes memory and then renames a fresh copy of the document into
    place. First the file system steps as a machine that can crash anywhere, then the store itself. */
module Durable {
  import opened Schema
  import opened Text

  /** A decoded or mutated document; Go tells a nil Containers map from an empty one. */
  datatype Doc = Doc(state: State, nilMap: bool)

  function Repaired(d: Doc): State {
    if d.nilMap then d.state.(containers := map[]) else d.state
  }

  datatype Codec = Codec(encode: State -> string, decode: string -> Option<Doc>)

  /** JSON decoding inverts encoding on documents whose map is not nil, and no document encodes to nothing. */
  ghost predicate Faithful(c: Codec) {
    forall s :: c.encode(s) != "" && c.decode(c.encode(s)) == Some(Doc(s, false))
  }

  // ---------------------------------------------------------------- the crash machine

  /** How far the current persist has come. */
  datatype Phase = Ready | Mutated | Marshalled(bytes: string) | TempWritten(bytes: string) | Renamed

  /** `visible` is the state file as the running kernel shows it, `platter` what a power loss would leave.
      `history` holds the in-memory document after each Update, `vis` and `dur` the positions in it of the
      documents in `visible` and `platter` (-1: no document yet). */
  datatype Node = Node(
    mem: Option<State>,
    booting: bool,
    phase: Phase,
    lastOk: bool,
    visible: Option<string>,
    platter: Option<string>,
    history: seq<State>,
    vis: int,
    dur: int)

  datatype Event =
    | Boot | BootFail
    | Mutate(next: Doc)
    | Marshal | MarshalFail
    | WriteTemp | TempFail
    | Rename | RenameFail
    | SyncDir(ok: bool)
    | Flush
    | Crash
    | PowerLoss

  /** Leaving persist with an error: Update reports it, NewStore gives up. */
  function Failed(n: Node): Node {
    n.(phase := Ready, booting := false, lastOk := false, mem := if n.booting then None else n.mem)
  }

  predicate NoDocument(file: Option<string>) {
    file.None? || file.value == ""
  }

  /** NewStore reading the file. A missing or empty file starts from the empty document and persists it; a file
      that does not decode is an error and is left alone. */
  function Booted(c: Codec, n: Node): Node
    requires n.history == [] || -1 <= n.vis < |n.history|
  {
    if NoDocument(n.visible) then
      n.(mem := Some(EMPTY_STATE), booting := true, phase := Mutated, history := [EMPTY_STATE], vis := -1, dur := -1)
    else match c.decode(n.visible.value)
      case None => n
      case Some(doc) =>
        n.(mem := Some(Repaired(doc)), history := if n.history == [] then [] else n.history[..n.vis + 1], lastOk := true)
  }

  ghost predicate Next(c: Codec, n: Node, e: Event, n': Node) {
    match e
    case Boot => n.mem.None? && (n.history == [] || -1 <= n.vis < |n.history|) && n' == Booted(c, n)
    case BootFail => n.mem.None? && n' == n
    case Mutate(next) =>
      n.mem.Some? && n.phase.Ready?
      && n' == n.(mem := Some(Repaired(next)), phase := Mutated, history := n.history + [Repaired(next)])
    case Marshal => n.mem.Some? && n.phase.Mutated? && n' == n.(phase := Marshalled(c.encode(n.mem.value)))
    case MarshalFail => n.mem.Some? && n.phase.Mutated? && n' == Failed(n)
    case WriteTemp => n.mem.Some? && n.phase.Marshalled? && n' == n.(phase := TempWritten(n.phase.bytes))
    case TempFail => n.mem.Some? && n.phase.Marshalled? && n' == Failed(n)
    case Rename =>
      n.mem.Some? && n.phase.TempWritten?
      && n' == n.(phase := Renamed, visible := Some(n.phase.bytes), vis := |n.history| - 1)
    case RenameFail => n.mem.Some? && n.phase.TempWritten? && n' == Failed(n)
    case SyncDir(ok) =>
      n.mem.Some? && n.phase.Renamed?
      && n' == n.(phase := Ready, booting := false, lastOk := true,
                  platter := if ok then n.visible else n.platter, dur := if ok then n.vis else n.dur)
    case Flush => n' == n.(platter := n.visible, dur := n.vis)
    case Crash => n' == n.(mem := None, booting := false, phase := Ready)
    case PowerLoss => n' == n.(mem := None, booting := false, phase := Ready, visible := n.platter, vis := n.dur)
  }

  ghost predicate Holds(c: Codec, file: Option<string>, history: seq<State>, k: int) {
    -1 <= k < |history| && (if k == -1 then NoDocument(file) else file == Some(c.encode(history[k])))
  }

  ghost predicate Inv(c: Codec, n: Node) {
    && Holds(c, n.visible, n.history, n.vis)
    && Holds(c, n.platter, n.history, n.dur)
    && n.dur <= n.vis
    && (n.mem.Some? ==> n.history != [] && n.history[|n.history| - 1] == n.mem.value)
    && (n.phase.Marshalled? || n.phase.TempWritten? ==> n.mem.Some? && n.phase.bytes == c.encode(n.mem.value))
    && (n.mem.Some? && (n.phase.Renamed? || (n.phase.Ready? && n.lastOk)) ==> n.vis == |n.history| - 1)
  }

  /** A first boot may find no file, an empty one, or a document some earlier process left. */
  ghost predicate Init(c: Codec, n: Node) {
    && n.mem.None? && n.phase.Ready? && !n.booting
    && n.platter == n.visible && n.dur == n.vis
    && Holds(c, n.visible, n.history, n.vis) && |n.history| == n.vis + 1
  }

  lemma InvKeptByBoot(c: Codec, n: Node, n': Node)
    requires Faithful(c) && Inv(c, n) && Next(c, n, Boot, n')
    ensures Inv(c, n')
  {
    if n.vis >= 0 {
      assert c.decode(c.encode(n.history[n.vis])) == Some(Doc(n.history[n.vis], false));
      assert n.history[..n.vis + 1][n.vis] == n.history[n.vis];
    }
  }

  lemma InvKept(c: Codec, n: Node, e: Event, n': Node)
    requires Faithful(c) && Inv(c, n) && Next(c, n, e, n')
    ensures Inv(c, n')
  {
    if e.Boot? {
      InvKeptByBoot(c, n, n');
    }
  }

  ghost predicate AnyStep(c: Codec, n: Node, n': Node) {
    exists e :: Next(c, n, e, n')
  }

  ghost predicate Run(c: Codec, ns: seq<Node>) {
    |ns| > 0 && Init(c, ns[0]) && forall i :: 0 <= i < |ns| - 1 ==> AnyStep(c, ns[i], ns[i + 1])
  }

  lemma {:induction false} RunInv(c: Codec, ns: seq<Node>, i: nat)
    requires Faithful(c) && Run(c, ns) && i < |ns|
    ensures Inv(c, ns[i])
  {
    if i > 0 {
      RunInv(c, ns, i - 1);
      assert AnyStep(c, ns[i - 1], ns[i - 1 + 1]);
      var e :| Next(c, ns[i - 1], e, ns[i]);
      InvKept(c, ns[i - 1], e, ns[i]);
    }
  }

  /** Whatever crashed and wherever it crashed, a reboot never fails to decode and yields exactly the document
      of the last Update that was renamed into place: one whole earlier in-memory state, never a mixture, and
      never the empty document once any document was in place. */
  lemma RebootYieldsPrefix(c: Codec, ns: seq<Node>, i: nat, n': Node)
    requires Faithful(c) && Run(c, ns) && i < |ns| && Next(c, ns[i], Boot, n')
    ensures n'.mem.Some?
    ensures if ns[i].vis >= 0
            then ns[i].vis < |ns[i].history| && n'.mem == Some(ns[i].history[ns[i].vis])
                 && n'.history == ns[i].history[..ns[i].vis + 1] && n'.visible == ns[i].visible
            else NoDocument(ns[i].visible) && n'.mem == Some(EMPTY_STATE)
  {
    RunInv(c, ns, i);
    if ns[i].vis >= 0 {
      assert c.decode(c.encode(ns[i].history[ns[i].vis])) == Some(Doc(ns[i].history[ns[i].vis], false));
    }
  }

  /** A file that does not decode is never reset: the boot gives up and leaves it where it is. */
  lemma CorruptFileIsKept(c: Codec, n: Node, n': Node)
    requires Next(c, n, Boot, n') && n.visible.Some? && n.visible.value != "" && c.decode(n.visible.value).None?
    ensures n'.mem.None? && n'.visible == n.visible && n'.platter == n.platter
  {
  }

  /** Whenever Update has returned nil, the file holds the document in memory. */
  lemma NilMeansOnDisk(c: Codec, ns: seq<Node>, i: nat)
    requires Faithful(c) && Run(c, ns) && i < |ns|
    requires ns[i].mem.Some? && ns[i].phase.Ready? && ns[i].lastOk
    ensures ns[i].visible == Some(c.encode(ns[i].mem.value))
  {
    RunInv(c, ns, i);
  }

  /** A process crash right after a successful Update loses nothing. */
  lemma CrashAfterNilLosesNothing(c: Codec, ns: seq<Node>, i: nat, down: Node, up: Node)
    requires Faithful(c) && Run(c, ns) && i < |ns|
    requires ns[i].mem.Some? && ns[i].phase.Ready? && ns[i].lastOk
    requires Next(c, ns[i], Crash, down) && Next(c, down, Boot, up)
    ensures up.mem == ns[i].mem
  {
    RunInv(c, ns, i);
    assert c.decode(c.encode(ns[i].mem.value)) == Some(Doc(ns[i].mem.value, false));
  }

  /** A power cut can only take the store back to an earlier whole document, and not past a synced rename. */
  lemma PowerLossRecoversEarlier(c: Codec, ns: seq<Node>, i: nat, down: Node, up: Node)
    requires Faithful(c) && Run(c, ns) && i < |ns|
    requires Next(c, ns[i], PowerLoss, down) && Next(c, down, Boot, up)
    ensures ns[i].dur <= ns[i].vis < |ns[i].history|
    ensures up.mem == Some(if ns[i].dur >= 0 then ns[i].history[ns[i].dur] else EMPTY_STATE)
  {
    RunInv(c, ns, i);
    if ns[i].dur >= 0 {
      assert c.decode(c.encode(ns[i].history[ns[i].dur])) == Some(Doc(ns[i].history[ns[i].dur], false));
    }
  }

  lemma EncodingsDiffer(c: Codec, a: State, b: State)
    requires Faithful(c) && c.encode(a) == c.encode(b)
    ensures a == b
  {
    assert c.decode(c.encode(a)) == Some(Doc(a, false)) && c.decode(c.encode(b)) == Some(Doc(b, false));
  }

  /** A run with its events. */
  ghost predicate RunBy(c: Codec, ns: seq<Node>, es: seq<Event>) {
    |ns| == |es| + 1 && Init(c, ns[0]) && forall i :: 0 <= i < |es| ==> Next(c, ns[i], es[i], ns[i + 1])
  }

  lemma RunByIsRun(c: Codec, ns: seq<Node>, es: seq<Event>)
    requires RunBy(c, ns, es)
    ensures Run(c, ns)
  {
    forall i | 0 <= i < |ns| - 1 ensures AnyStep(c, ns[i], ns[i + 1]) {
      assert Next(c, ns[i], es[i], ns[i + 1]);
    }
  }

  predicate IsSync(e: Event) {
    e == SyncDir(true) || e == Flush
  }

  /** The last state up to `i` that a directory sync, or the kernel on its own, had just brought to the platter; or the
      first one. */
  function SyncPoint(es: seq<Event>, i: nat): (k: nat)
    requires i <= |es|
    ensures k <= i && forall j :: k <= j < i ==> !IsSync(es[j])
  {
    if i == 0 || IsSync(es[i - 1]) then i else SyncPoint(es, i - 1)
  }

  /** A sync brings the file to the platter; nothing else touches the platter, and only a rename parts the two. */
  lemma PlatterStep(c: Codec, n: Node, e: Event, n': Node)
    requires Next(c, n, e, n')
    ensures n'.platter == if IsSync(e) then n'.visible else n.platter
    ensures !e.Rename? && n.visible == n.platter ==> n'.visible == n'.platter
  {
  }

  ghost predicate RenamedSince(es: seq<Event>, k: nat, i: nat)
    requires i <= |es|
  {
    exists j :: k <= j < i && es[j].Rename?
  }

  /** The platter has the file of that moment. */
  lemma {:induction false} PlatterIsLastSync(c: Codec, ns: seq<Node>, es: seq<Event>, i: nat)
    requires RunBy(c, ns, es) && i < |ns|
    ensures ns[i].platter == ns[SyncPoint(es, i)].visible
    ensures !RenamedSince(es, SyncPoint(es, i), i) ==> ns[i].visible == ns[i].platter
  {
    if i > 0 {
      PlatterIsLastSync(c, ns, es, i - 1);
      assert Next(c, ns[i - 1], es[i - 1], ns[i - 1 + 1]);
      PlatterStep(c, ns[i - 1], es[i - 1], ns[i]);
      if !IsSync(es[i - 1]) && RenamedSince(es, SyncPoint(es, i - 1), i - 1) {
        var j :| SyncPoint(es, i - 1) <= j < i - 1 && es[j].Rename?;
        assert RenamedSince(es, SyncPoint(es, i), i);
      }
    }
  }

  predicate SameDocument(was: Option<string>, now: Option<string>, mem: State) {
    was == now || (NoDocument(was) && mem == EMPTY_STATE)
  }

  /** Exactly when the document of a successful Update survives a power cut: if the file held it already at the last sync,
      in particular if nothing was renamed into place since. */
  lemma NilSurvivesPowerLossIff(c: Codec, ns: seq<Node>, es: seq<Event>, i: nat, down: Node, up: Node)
    requires Faithful(c) && RunBy(c, ns, es) && i < |ns|
    requires ns[i].mem.Some? && ns[i].phase.Ready? && ns[i].lastOk
    requires Next(c, ns[i], PowerLoss, down) && Next(c, down, Boot, up)
    ensures up.mem == ns[i].mem
            <==> SameDocument(ns[SyncPoint(es, i)].visible, ns[i].visible, ns[i].mem.value)
    ensures !RenamedSince(es, SyncPoint(es, i), i) ==> up.mem == ns[i].mem
  {
    var n := ns[i];
    RunByIsRun(c, ns, es);
    RunInv(c, ns, i);
    NilMeansOnDisk(c, ns, i);
    PowerLossRecoversEarlier(c, ns, i, down, up);
    PlatterIsLastSync(c, ns, es, i);
    if n.dur >= 0 {
      assert c.encode(n.history[n.dur]) != "";
      if n.platter == n.visible {
        EncodingsDiffer(c, n.history[n.dur], n.mem.value);
      }
    } else {
      assert c.encode(n.mem.value) != "";
    }
  }

  const LATER := EMPTY_STATE.(lastPollError := "later")

  /** A run to a successful Update whose directory sync failed: a power cut then takes the document back. */
  lemma NilIsNotPowerProof(c: Codec) returns (ns: seq<Node>, down: Node, up: Node)
    requires Faithful(c)
    ensures Run(c, ns)
    ensures var n := ns[|ns| - 1];
            n.mem == Some(LATER) && n.phase.Ready? && n.lastOk
            && Next(c, n, PowerLoss, down) && Next(c, down, Boot, up) && up.mem == Some(EMPTY_STATE)
  {
    var e := c.encode(EMPTY_STATE);
    var n0 := Node(None, false, Ready, false, Some(e), Some(e), [EMPTY_STATE], 0, 0);
    assert c.decode(e) == Some(Doc(EMPTY_STATE, false)) && e != "";
    assert [EMPTY_STATE][..1] == [EMPTY_STATE];
    var n1 := n0.(mem := Some(EMPTY_STATE), lastOk := true);
    var n2 := n1.(mem := Some(LATER), phase := Mutated, history := [EMPTY_STATE] + [LATER]);
    var n3 := n2.(phase := Marshalled(c.encode(LATER)));
    var n4 := n3.(phase := TempWritten(c.encode(LATER)));
    var n5 := n4.(phase := Renamed, visible := Some(c.encode(LATER)), vis := 1);
    var n6 := n5.(phase := Ready);
    ns := [n0, n1, n2, n3, n4, n5, n6];
    assert Next(c, n0, Boot, n1) && Next(c, n1, Mutate(Doc(LATER, false)), n2) && Next(c, n2, Marshal, n3);
    assert Next(c, n3, WriteTemp, n4) && Next(c, n4, Rename, n5) && Next(c, n5, SyncDir(false), n6);
    down := n6.(mem := None, booting := false, phase := Ready, visible := n6.platter, vis := n6.dur);
    up := Booted(c, down);
  }

  // ---------------------------------------------------------------- the store

  /** What reading the state file gives: nothing there, its bytes, or another error. */
  datatype Read = Missing | Contents(bytes: string) | Unreadable

  class FileSystem {
    var file: Option<string>

    constructor (initial: Option<string>)
      ensures file == initial
    {
      file := initial;
    }

    method ReadFile() returns (r: Read)
      ensures r.Missing? ==> file == None
      ensures r.Contents? ==> file == Some(r.bytes)
    {
      var readable: bool := *;
      r := if !readable then Unreadable else if file.None? then Missing else Contents(file.value);
    }

    /** renameio.WriteFile: all or nothing. */
    method WriteFile(data: string) returns (ok: bool)
      modifies this
      ensures file == if ok then Some(data) else old(file)
    {
      ok := *;
      if ok {
        file := Some(data);
      }
    }

    /** Best-effort directory sync; its result is ignored. */
    method SyncDir()
    {
    }
  }

  class Store {
    const codec: Codec
    const fs: FileSystem
    var state: State

    constructor (codec: Codec, fs: FileSystem, state: State)
      ensures this.codec == codec && this.fs == fs && this.state == state
    {
      this.codec, this.fs, this.state := codec, fs, state;
    }

    method Persist() returns (ok: bool)
      modifies fs
      ensures fs.file == if ok then Some(codec.encode(state)) else old(fs.file)
    {
      var marshalled: bool := *;
      if !marshalled {
        return false;
      }
      ok := fs.WriteFile(codec.encode(state));
      if ok {
        fs.SyncDir();
      }
    }

    /** The mutation always takes effect in memory, with a nil map repaired; the file follows if and only if nil
        is returned. */
    method Update(fn: State -> Doc) returns (ok: bool)
      modifies this`state, fs
      ensures state == Repaired(fn(old(state)))
      ensures !fn(old(state)).nilMap ==> state == fn(old(state)).state
      ensures fn(old(state)).nilMap ==> state == fn(old(state)).state.(containers := map[])
      ensures fs.file == if ok then Some(codec.encode(state)) else old(fs.file)
    {
      state := Repaired(fn(state));
      ok := Persist();
    }

    function Get(): State
      reads this
    {
      state
    }
  }

  predicate IsColdStart(read: Read) {
    read.Missing? || read == Contents("")
  }

  /** NewStore. It opens the document in the file, or creates the empty one where there is none; a file that cannot be
      read or does not decode is reported and left as it is. */
  method Open(codec: Codec, fs: FileSystem) returns (r: Option<Store>, ghost read: Read)
    modifies fs
    ensures read.Missing? ==> old(fs.file) == None
    ensures read.Contents? ==> old(fs.file) == Some(read.bytes)
    ensures IsColdStart(read) ==>
              if r.Some? then r.value.state == EMPTY_STATE && fs.file == Some(codec.encode(EMPTY_STATE))
              else fs.file == old(fs.file)
    ensures !IsColdStart(read) ==> fs.file == old(fs.file)
    ensures read.Unreadable? ==> r.None?
    ensures read.Contents? && read.bytes != "" ==>
              (r.Some? <==> codec.decode(read.bytes).Some?)
              && (r.Some? ==> r.value.state == Repaired(codec.decode(read.bytes).value))
    ensures r.Some? ==> r.value.codec == codec && r.value.fs == fs && fresh(r.value)
  {
    var data := fs.ReadFile();
    read := data;
    if data.Unreadable? {
      return None, read;
    }
    if data.Missing? || data.bytes == "" {
      var s := new Store(codec, fs, EMPTY_STATE);
      var ok := s.Persist();
      return if ok then Some(s) else None, read;
    }
    match codec.decode(data.bytes) {
      case None => return None, read;
      case Some(doc) =>
        var s := new Store(codec, fs, Repaired(doc));
        return Some(s), read;
    }
  }
}
