/**
  `atomic_write` as a state machine: any number of calls, by any number of processes, interleaved
  step by step with each other, with readers, and with other programs using the directory. Every
  step of a call may fail. A crash may come between any two steps.
 */
module Protocol {
  import opened Bytes
  import opened Prelude
  import opened Reads
  import opened TempNames

  type Inode = nat

  /** Which temporary names are used: the current scheme, or the one it replaced. */
  datatype Scheme = PerCall | PerProcess

  /** How far a call has come. `Failed` still has its cleanup to do. */
  datatype Phase =
    | Named | Opened | Filled | Flushed | Synced | Closed | Renamed | ReturnedOk | Failed | ReturnedErr

  datatype Call = Call(
    pid: nat, target: Name, nanos: nat, counter: nat, tmp: Name,
    phase: Phase,
    inode: Option<Inode>,     // the temporary file, once created
    output: seq<byte>,        // what the caller's closure had written when it returned Ok
    dirSynced: bool,          // the best-effort directory sync succeeded
    leaked: bool,             // cleanup failed to remove the temporary file
    pub: nat,                 // position in the log of this call's rename
    started: nat, returned: nat)

  /** One rename that took effect. */
  datatype Publication = Publication(call: nat, target: Name, bytes: seq<byte>, at: nat)

  /** A directory as a crash may leave it, and how many renames it reflects. */
  datatype Snapshot = Snapshot(dir: map<Name, Inode>, pubs: nat)

  datatype ReaderPhase = Reading | Missing

  /** An open file, its position, and everything that was read from it. */
  datatype Reader = Reader(
    target: Name, phase: ReaderPhase, inode: Inode, pos: nat, pieces: seq<Piece>, pubs: nat, openedAt: nat)

  datatype State = State(
    scheme: Scheme,
    targets: set<Name>,                // names that calls and readers use
    origin: map<Name, seq<byte>>,      // their contents at the start
    stale: set<Name>,                  // temporary names left over from before the start, while they last
    dir: map<Name, Inode>,             // the directory
    content: map<Inode, seq<byte>>,    // file contents, as running programs see them
    durable: set<Inode>,               // files whose contents are on disk
    next: Inode,                       // inodes from here on are unused
    history: seq<Snapshot>,            // directories since the last directory sync, current one last
    counters: map<nat, nat>,           // TMP_COUNTER of each process, before wrapping
    calls: seq<Call>,
    log: seq<Publication>,
    readers: seq<Reader>,
    time: nat)

  datatype Action =
    | Start(pid: nat, target: Name, nanos: nat)
    | CreateNew(c: nat)
    | WriteTemp(c: nat, bytes: seq<byte>)
    | ClosureOk(c: nat)
    | Flush(c: nat)
    | SyncAll(c: nat)
    | DropHandle(c: nat)
    | Rename(c: nat)
    | SyncDir(c: nat)
    | ReturnOk(c: nat)
    | Fail(c: nat)
    | RemoveFile(c: nat)
    | RemoveFails(c: nat)
    | OpenTarget(name: Name)
    | SeekTo(r: nat, pos: nat)
    | ReadSome(r: nat, n: nat)
    | ReadEnd(r: nat)
    | OthersCreate(name: Name, bytes: seq<byte>)
    | OthersRemove(name: Name)
    | OthersSyncDir

  function Count(counters: map<nat, nat>, pid: nat): nat {
    if pid in counters then counters[pid] else 0
  }

  function TempFor(scheme: Scheme, target: Name, pid: nat, nanos: nat, counter: nat): Name {
    if scheme.PerCall? then TempName(target, pid, nanos, counter) else OldTempName(target, pid)
  }

  // ----- What may happen -----

  predicate Is(s: State, c: nat, phase: Phase) {
    c < |s.calls| && s.calls[c].phase == phase
  }

  /** Other programs keep away from the targets, and touch temp-shaped names only to tidy up leftovers. */
  ghost predicate Free(s: State, name: Name) {
    name !in s.targets && !TempShaped(name)
  }

  /** The temporary name of the next call of a process. */
  function NextTemp(s: State, target: Name, pid: nat, nanos: nat): Name {
    TempFor(s.scheme, target, pid, nanos, Count(s.counters, pid) % U64_LIMIT)
  }

  ghost predicate Enabled(s: State, a: Action) {
    match a
    case Start(pid, target, nanos) => target in s.targets && nanos < U64_LIMIT
    case CreateNew(c) => Is(s, c, Named) && s.calls[c].tmp !in s.dir
    case WriteTemp(c, _) => Is(s, c, Opened)
    case ClosureOk(c) => Is(s, c, Opened)
    case Flush(c) => Is(s, c, Filled)
    case SyncAll(c) => Is(s, c, Flushed)
    case DropHandle(c) => Is(s, c, Synced)
    case Rename(c) => Is(s, c, Closed) && s.calls[c].tmp in s.dir
    case SyncDir(c) => Is(s, c, Renamed)
    case ReturnOk(c) => Is(s, c, Renamed)
    case Fail(c) => c < |s.calls| && s.calls[c].phase in {Named, Opened, Filled, Flushed, Closed}
    case RemoveFile(c) => Is(s, c, Failed) && s.calls[c].tmp in s.dir
    case RemoveFails(c) => Is(s, c, Failed)
    case OpenTarget(name) => name in s.targets
    case SeekTo(r, _) => r < |s.readers| && s.readers[r].phase == Reading
    case ReadSome(r, n) => r < |s.readers| && s.readers[r].phase == Reading && Unread(s, r, n)
    case ReadEnd(r) => r < |s.readers| && s.readers[r].phase == Reading && AtEnd(s, r)
    case OthersCreate(name, _) => Free(s, name)
    case OthersRemove(name) => name in s.dir && (Free(s, name) || name in s.stale)
    case OthersSyncDir => s.history != []
  }

  /** A read returns at least one byte, and no more than there are beyond the reader's position. */
  predicate Unread(s: State, r: nat, n: nat)
    requires r < |s.readers|
  {
    var rd := s.readers[r];
    rd.inode in s.content && n > 0 && rd.pos + n <= |s.content[rd.inode]|
  }

  predicate AtEnd(s: State, r: nat)
    requires r < |s.readers|
  {
    var rd := s.readers[r];
    rd.inode in s.content && rd.pos >= |s.content[rd.inode]|
  }

  // ----- What then happens -----

  function WithCall(s: State, c: nat, call: Call): (t: State)
    requires c < |s.calls|
    ensures t.targets == s.targets && t.origin == s.origin
  {
    s.(calls := s.calls[c := call])
  }

  function WithDir(s: State, dir: map<Name, Inode>): (t: State)
    ensures t.targets == s.targets && t.origin == s.origin
  {
    s.(dir := dir, history := s.history + [Snapshot(dir, |s.log|)])
  }

  /** `remove_file`; a leftover that is removed is a leftover no more. */
  function Unlink(s: State, name: Name): (t: State)
    ensures t.targets == s.targets && t.origin == s.origin
  {
    WithDir(s.(stale := s.stale - {name}), s.dir - {name})
  }

  function DoStart(s: State, pid: nat, target: Name, nanos: nat): (t: State)
    ensures t.targets == s.targets && t.origin == s.origin
  {
    var count := Count(s.counters, pid);
    var counter := count % U64_LIMIT;
    var tmp := NextTemp(s, target, pid, nanos);
    s.(counters := s.counters[pid := count + 1],
       calls := s.calls + [Call(pid, target, nanos, counter, tmp, Named, None, [], false, false, 0, s.time, 0)])
  }

  function DoCreateNew(s: State, c: nat): (t: State)
    requires c < |s.calls|
    ensures t.targets == s.targets && t.origin == s.origin
  {
    var call := s.calls[c];
    WithCall(WithDir(s.(content := s.content[s.next := []], next := s.next + 1), s.dir[call.tmp := s.next]),
             c, call.(phase := Opened, inode := Some(s.next)))
  }

  function DoWriteTemp(s: State, inode: Inode, bytes: seq<byte>): (t: State)
    ensures t.targets == s.targets && t.origin == s.origin
  {
    s.(content := s.content[inode := bytes], durable := s.durable - {inode})
  }

  function DoRename(s: State, c: nat): (t: State)
    requires c < |s.calls| && s.calls[c].tmp in s.dir
    ensures t.targets == s.targets && t.origin == s.origin
  {
    var call := s.calls[c];
    var dir := (s.dir - {call.tmp})[call.target := s.dir[call.tmp]];
    var published := s.(log := s.log + [Publication(c, call.target, call.output, s.time)]);
    WithCall(WithDir(published, dir), c, call.(phase := Renamed, pub := |s.log|))
  }

  /** The effect of a step, before the clock ticks. */
  function Effect(s: State, a: Action): (t: State)
    requires Enabled(s, a)
    ensures t.targets == s.targets && t.origin == s.origin
  {
    match a
    case Start(pid, target, nanos) => DoStart(s, pid, target, nanos)
    case CreateNew(c) => DoCreateNew(s, c)
    case WriteTemp(c, bytes) =>
      if s.calls[c].inode.Some? then DoWriteTemp(s, s.calls[c].inode.value, bytes) else s
    case ClosureOk(c) =>
      var call := s.calls[c];
      var written := if call.inode.Some? && call.inode.value in s.content then s.content[call.inode.value] else [];
      WithCall(s, c, call.(phase := Filled, output := written))
    case Flush(c) => WithCall(s, c, s.calls[c].(phase := Flushed))
    case SyncAll(c) =>
      var call := s.calls[c];
      WithCall(s.(durable := s.durable + if call.inode.Some? then {call.inode.value} else {}),
               c, call.(phase := Synced))
    case DropHandle(c) => WithCall(s, c, s.calls[c].(phase := Closed))
    case Rename(c) => DoRename(s, c)
    case SyncDir(c) => WithCall(s.(history := [Snapshot(s.dir, |s.log|)]), c, s.calls[c].(dirSynced := true))
    case ReturnOk(c) => WithCall(s, c, s.calls[c].(phase := ReturnedOk, returned := s.time))
    case Fail(c) => WithCall(s, c, s.calls[c].(phase := Failed))
    case RemoveFile(c) =>
      WithCall(Unlink(s, s.calls[c].tmp), c, s.calls[c].(phase := ReturnedErr, returned := s.time))
    case RemoveFails(c) =>
      WithCall(s, c, s.calls[c].(phase := ReturnedErr, returned := s.time, 
               leaked := s.calls[c].inode.Some? && s.calls[c].tmp in s.dir))
    case OpenTarget(name) =>
      var reader := if name in s.dir then Reader(name, Reading, s.dir[name], 0, [], |s.log|, s.time)
                    else Reader(name, Missing, 0, 0, [], |s.log|, s.time);
      s.(readers := s.readers + [reader])
    case SeekTo(r, pos) => s.(readers := s.readers[r := s.readers[r].(pos := pos)])
    case ReadSome(r, n) =>
      var rd := s.readers[r];
      var bytes := s.content[rd.inode];
      var piece := Piece(rd.pos, bytes[rd.pos..rd.pos + n]);
      s.(readers := s.readers[r := rd.(pos := rd.pos + n, pieces := rd.pieces + [piece])])
    case ReadEnd(r) =>
      var rd := s.readers[r];
      s.(readers := s.readers[r := rd.(pieces := rd.pieces + [Piece(rd.pos, [])])])
    case OthersCreate(name, bytes) =>
      WithDir(s.(content := s.content[s.next := bytes], next := s.next + 1), s.dir[name := s.next])
    case OthersRemove(name) => Unlink(s, name)
    case OthersSyncDir => s.(history := [Snapshot(s.dir, |s.log|)])
  }

  function Step(s: State, a: Action): (t: State)
    requires Enabled(s, a)
    ensures t.targets == s.targets && t.origin == s.origin
    ensures t.time == s.time + 1
  {
    Effect(s, a).(time := s.time + 1)
  }

  ghost predicate Init(s: State) {
    && s.scheme == PerCall
    && (forall t :: t in s.targets ==> !TempShaped(t))
    && (forall n :: n in s.dir ==> s.dir[n] < s.next)
    && (forall n :: n in s.stale <==> n in s.dir && TempShaped(n))
    && (forall i: Inode :: i in s.content <==> i < s.next)
    && (forall t :: t in s.targets && t in s.dir ==> s.dir[t] in s.durable)
    && (forall x :: x in s.durable ==> x < s.next)
    && s.origin == (map t | t in s.targets && t in s.dir && s.dir[t] in s.content :: s.content[s.dir[t]])
    && s.history == [Snapshot(s.dir, 0)]
    && s.calls == [] && s.log == [] && s.readers == []
  }

  // ----- Runs -----

  ghost predicate Legal(s: State, run: seq<Action>)
    decreases |run|
  {
    run == [] || (Enabled(s, run[0]) && Legal(Step(s, run[0]), run[1..]))
  }

  /** The state a legal run leads to. */
  ghost function Exec(s: State, run: seq<Action>): State
    requires Legal(s, run)
    decreases |run|
  {
    if run == [] then s else Exec(Step(s, run[0]), run[1..])
  }

  /** No two calls have drawn the same temporary name. */
  ghost predicate NamesApart(s: State) {
    forall i, j :: 0 <= i < j < |s.calls| ==> s.calls[i].tmp != s.calls[j].tmp
  }

  /** No call so far has drawn this name. */
  ghost predicate NewName(s: State, name: Name) {
    forall i :: 0 <= i < |s.calls| ==> s.calls[i].tmp != name
  }

  /** No process has used up its counter. */
  ghost predicate NotWrapped(s: State) {
    forall pid: nat :: Count(s.counters, pid) <= U64_LIMIT
  }

  // ----- The register a target is -----

  /** The last publication of `target` among the first `k`. */
  function LastPub(log: seq<Publication>, target: Name, k: nat): (r: Option<nat>)
    requires k <= |log|
    ensures r.Some? ==> r.value < k && log[r.value].target == target
    ensures r.Some? ==> forall j :: r.value < j < k ==> log[j].target != target
    ensures r.None? ==> forall j :: 0 <= j < k ==> log[j].target != target
    decreases k
  {
    if k == 0 then None
    else if log[k - 1].target == target then Some(k - 1)
    else LastPub(log, target, k - 1)
  }

  /** What `target` holds after the first `k` renames: the last of them onto it, else its first content. */
  function Register(s: State, target: Name, k: nat): Option<seq<byte>>
    requires k <= |s.log|
  {
    match LastPub(s.log, target, k)
    case Some(j) => Some(s.log[j].bytes)
    case None => if target in s.origin then Some(s.origin[target]) else None
  }
}
