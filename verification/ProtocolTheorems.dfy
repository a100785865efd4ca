/** What callers, readers and whoever recovers after a crash may rely on, in every run. */
module ProtocolTheorems {
  import opened Bytes
  import opened Prelude
  import opened Reads
  import opened TempNames
  import opened Protocol
  import opened ProtocolInvariant
  import opened ProtocolSteps
  import opened ProtocolNames

  /** What reading a file name from beginning to end would give. */
  function Lookup(dir: map<Name, Inode>, files: map<Inode, seq<byte>>, name: Name): Option<seq<byte>> {
    if name in dir && dir[name] in files then Some(files[dir[name]]) else None
  }

  predicate Finished(c: Call) {
    c.phase == ReturnedOk || c.phase == ReturnedErr
  }

  // ----- The target is a register -----

  lemma {:induction false} OriginKept(s: State, run: seq<Action>)
    requires Legal(s, run)
    ensures Exec(s, run).origin == s.origin && Exec(s, run).targets == s.targets
    decreases |run|
  {
    hide Enabled, Step;
    if run != [] {
      OriginKept(Step(s, run[0]), run[1..]);
    }
  }

  /** At every moment of every run the target holds what the last rename onto it published. */
  lemma TargetIsRegister(s0: State, run: seq<Action>, s: State, target: Name)
    requires ReachedBy(s0, run, s) && target in s.targets
    ensures Lookup(s.dir, s.content, target) == Register(s, target, |s.log|)
  {
    hide FsOk, CallsOk, PairsOk, TempsOk, PubsOk, ReadersOk, Init, Legal, Exec, Register;
    ReachableInv(s0, run, s);
    LastInHistory(s);
    assert TargetOk(s, Snapshot(s.dir, |s.log|), target);
  }

  lemma LastInHistory(s: State)
    requires FsOk(s)
    ensures Snapshot(s.dir, |s.log|) in s.history
  {
    hide TempShaped;
  }

  /**
    A register's value is the content at the start, until a first rename onto the target; from then on
    it is the whole output of one call for that target whose rename took effect.
   */
  lemma RegisterIsOneOutput(s0: State, run: seq<Action>, s: State, target: Name, k: nat)
    requires ReachedBy(s0, run, s) && target in s.targets && k <= |s.log|
    ensures match LastPub(s.log, target, k)
            case None => Register(s, target, k) == Lookup(s0.dir, s0.content, target)
            case Some(j) =>
              && s.log[j].call < |s.calls|
              && var c := s.calls[s.log[j].call];
              && Published(c) && c.target == target && c.pub == j
              && Register(s, target, k) == Some(c.output)
  {
    hide FsOk, PairsOk, TempsOk, SnapsOk, ReadersOk, Exec, NameOk, OwnsOk, FileOk, TempShaped;
    ReachableInv(s0, run, s);
    OriginKept(s0, run);
    var j := LastPub(s.log, target, k);
    if j.Some? {
      assert CallOk(s, s.log[j.value].call);
    }
  }

  // ----- Results and their order -----

  /** A call returned an error exactly when it finished without a rename; an Ok call has exactly one. */
  lemma OkIffRenamed(s0: State, run: seq<Action>, s: State, i: nat)
    requires ReachedBy(s0, run, s) && i < |s.calls| && Finished(s.calls[i])
    ensures s.calls[i].phase == ReturnedOk <==> exists k :: 0 <= k < |s.log| && s.log[k].call == i
    ensures forall k :: 0 <= k < |s.log| && s.log[k].call == i ==> k == s.calls[i].pub
  {
    hide FsOk, PairsOk, TempsOk, SnapsOk, ReadersOk, Init, Legal, Exec, NameOk, OwnsOk, FileOk;
    ReachableInv(s0, run, s);
    assert CallOk(s, i);
  }

  /** The rename of an Ok call publishes its whole output between its start and its return. */
  lemma RenameWithinCall(s0: State, run: seq<Action>, s: State, i: nat)
    requires ReachedBy(s0, run, s) && i < |s.calls| && s.calls[i].phase == ReturnedOk
    ensures var c := s.calls[i];
            && c.pub < |s.log|
            && s.log[c.pub] == Publication(i, c.target, c.output, s.log[c.pub].at)
            && c.started < s.log[c.pub].at < c.returned < s.time
  {
    hide FsOk, PairsOk, TempsOk, PubsOk, SnapsOk, ReadersOk, Init, Legal, Exec, NameOk, OwnsOk, FileOk;
    ReachableInv(s0, run, s);
    assert CallOk(s, i);
  }

  /** The order of the renames never contradicts the order of calls that do not overlap. */
  lemma RealTimeOrder(s0: State, run: seq<Action>, s: State, i: nat, j: nat)
    requires ReachedBy(s0, run, s) && i < |s.calls| && j < |s.calls|
    requires s.calls[i].phase == ReturnedOk && s.calls[j].phase == ReturnedOk
    requires s.calls[i].returned <= s.calls[j].started
    ensures s.calls[i].pub < s.calls[j].pub
  {
    hide FsOk, CallsOk, PairsOk, TempsOk, SnapsOk, ReadersOk, Init, Legal, Exec;
    ReachableInv(s0, run, s);
    RenameWithinCall(s0, run, s, i);
    RenameWithinCall(s0, run, s, j);
  }

  // ----- Readers -----

  /**
    Everything read through one open file, at whatever positions, in whatever portions and however many
    renames happened meanwhile, comes from the one value the target had when the file was opened.
   */
  lemma ReadsAreSnapshots(s0: State, run: seq<Action>, s: State, r: nat)
    requires ReachedBy(s0, run, s) && r < |s.readers|
    ensures var rd := s.readers[r];
            && rd.target in s.targets && rd.pubs <= |s.log|
            && (forall k :: 0 <= k < |s.log| ==> (k < rd.pubs <==> s.log[k].at < rd.openedAt))
            && match Register(s, rd.target, rd.pubs)
               case None => rd.phase == Missing
               case Some(b) => rd.phase != Missing && AllFrom(b, rd.pieces)
  {
    hide FsOk, CallsOk, PairsOk, TempsOk, PubsOk, SnapsOk, Init, Legal, Exec, Settled, Register;
    ReachableInv(s0, run, s);
    assert ReaderOk(s, s.readers[r]);
  }

  /** Among a reader's reads are these: from the start of the file, one after another, to its end. */
  predicate ReadsWhole(rd: Reader, lo: nat, hi: nat) {
    && rd.phase == Reading && lo < hi <= |rd.pieces|
    && Follow(rd.pieces[lo..hi], 0) && rd.pieces[hi - 1].bytes == []
  }

  /** Reading a file from start to end gives exactly the value the target had when it was opened. */
  lemma WholeReadGivesValue(s0: State, run: seq<Action>, s: State, r: nat, lo: nat, hi: nat)
    requires ReachedBy(s0, run, s) && r < |s.readers| && ReadsWhole(s.readers[r], lo, hi)
    ensures var rd := s.readers[r];
            rd.pubs <= |s.log| && Register(s, rd.target, rd.pubs) == Some(Joined(rd.pieces[lo..hi]))
  {
    hide ReachedBy, Register, Joined, Follow;
    ReadsAreSnapshots(s0, run, s, r);
    var rd := s.readers[r];
    var b := Register(s, rd.target, rd.pubs).value;
    assert rd.pieces == rd.pieces[..lo] + (rd.pieces[lo..hi] + rd.pieces[hi..]);
    AllFromSplit(b, rd.pieces[..lo], rd.pieces[lo..hi] + rd.pieces[hi..]);
    AllFromSplit(b, rd.pieces[lo..hi], rd.pieces[hi..]);
    JoinedIsSlice(b, rd.pieces[lo..hi], 0);
  }

  /** Whoever opens the target after a call returned Ok sees that call's output or a later one's. */
  lemma ReadsSeeFinishedWrites(s0: State, run: seq<Action>, s: State, r: nat, i: nat)
    requires ReachedBy(s0, run, s) && r < |s.readers| && i < |s.calls|
    requires s.calls[i].phase == ReturnedOk && s.calls[i].target == s.readers[r].target
    requires s.calls[i].returned <= s.readers[r].openedAt
    ensures s.readers[r].pubs <= |s.log|
    ensures var j := LastPub(s.log, s.readers[r].target, s.readers[r].pubs);
            j.Some? && j.value >= s.calls[i].pub
  {
    hide Inv, Init, Legal, Exec, Register;
    RenameWithinCall(s0, run, s, i);
    ReadsAreSnapshots(s0, run, s, r);
  }

  // ----- Crashes -----

  ghost predicate SameAt(d: map<Name, Inode>, e: map<Name, Inode>, name: Name) {
    (name in d <==> name in e) && (name in d ==> d[name] == e[name])
  }

  ghost predicate AsEverSince(s: State, dir: map<Name, Inode>, name: Name) {
    exists h :: h in s.history && SameAt(dir, h.dir, name)
  }

  /**
    What a crash may leave: each directory entry as it was at some moment since the last directory
    sync, and anything at all in files that are not on disk.
   */
  ghost predicate CrashLeaves(s: State, dir: map<Name, Inode>, disk: map<Inode, seq<byte>>) {
    && (forall n :: AsEverSince(s, dir, n))
    && (forall x :: x in s.durable && x in s.content ==> x in disk && disk[x] == s.content[x])
  }

  /** A crash at any moment leaves the target with one of its complete values, old or new. */
  lemma CrashLeavesWholeValue(s0: State, run: seq<Action>, s: State, dir: map<Name, Inode>,
                              disk: map<Inode, seq<byte>>, target: Name) returns (k: nat)
    requires ReachedBy(s0, run, s) && target in s.targets && CrashLeaves(s, dir, disk)
    ensures k <= |s.log| && Lookup(dir, disk, target) == Register(s, target, k)
    ensures exists h :: h in s.history && h.pubs == k
  {
    hide FsOk, CallsOk, PairsOk, TempsOk, PubsOk, ReadersOk, Init, Legal, Exec, Register;
    ReachableInv(s0, run, s);
    assert AsEverSince(s, dir, target);
    var h :| h in s.history && SameAt(dir, h.dir, target);
    assert TargetOk(s, h, target);
    k := h.pubs;
  }

  /** These are exactly the values a crash may leave: one for each moment since the last directory sync. */
  lemma CrashOutcomes(s0: State, run: seq<Action>, s: State, target: Name, v: Option<seq<byte>>)
    requires ReachedBy(s0, run, s) && target in s.targets
    ensures forall h :: h in s.history ==> h.pubs <= |s.log|
    ensures (exists dir, disk :: CrashLeaves(s, dir, disk) && Lookup(dir, disk, target) == v)
       <==> (exists h :: h in s.history && Register(s, target, h.pubs) == v)
  {
    hide FsOk, CallsOk, PairsOk, TempsOk, PubsOk, ReadersOk, Init, Legal, Exec, Register;
    ReachableInv(s0, run, s);
    forall h | h in s.history
      ensures h.pubs <= |s.log|
    {
      assert TargetOk(s, h, target);
    }
    if h :| h in s.history && Register(s, target, h.pubs) == v {
      assert TargetOk(s, h, target);
      forall n
        ensures AsEverSince(s, h.dir, n)
      {
        assert SameAt(h.dir, h.dir, n);
      }
      assert CrashLeaves(s, h.dir, s.content);
    }
    if dir, disk :| CrashLeaves(s, dir, disk) && Lookup(dir, disk, target) == v {
      var k := CrashLeavesWholeValue(s0, run, s, dir, disk, target);
    }
  }

  /**
    Until its fsync a temporary file is at a crash's mercy: whatever was written to it, a crash may leave
    anything in its place. So a rename before the fsync could publish anything.
   */
  lemma UnsyncedMayBeAnything(s0: State, run: seq<Action>, s: State, i: nat, garbage: seq<byte>)
    returns (disk: map<Inode, seq<byte>>)
    requires ReachedBy(s0, run, s) && i < |s.calls| && s.calls[i].phase in {Opened, Filled, Flushed}
    ensures CrashLeaves(s, s.dir, disk) && Lookup(s.dir, disk, s.calls[i].tmp) == Some(garbage)
  {
    hide PairsOk, TempsOk, PubsOk, SnapsOk, ReadersOk, Init, Legal, Exec, NameOk, LogOk, NamesApart, TempShaped;
    ReachableInv(s0, run, s);
    assert CallOk(s, i);
    LastInHistory(s);
    disk := s.content[s.calls[i].inode.value := garbage];
    forall n
      ensures AsEverSince(s, s.dir, n)
    {
      assert SameAt(s.dir, Snapshot(s.dir, |s.log|).dir, n);
    }
  }

  /** If the directory was synced before a call returned, a crash loses neither its value nor a later one. */
  lemma SyncedCallSurvivesCrash(s0: State, run: seq<Action>, s: State, dir: map<Name, Inode>,
                                disk: map<Inode, seq<byte>>, i: nat) returns (j: nat)
    requires ReachedBy(s0, run, s) && CrashLeaves(s, dir, disk)
    requires i < |s.calls| && Published(s.calls[i]) && s.calls[i].dirSynced
    ensures s.calls[i].pub <= j < |s.log| && s.log[j].target == s.calls[i].target
    ensures Lookup(dir, disk, s.calls[i].target) == Some(s.log[j].bytes)
  {
    hide FsOk, PairsOk, TempsOk, PubsOk, SnapsOk, ReadersOk, Init, Legal, Exec, OwnsOk, FileOk, TempName, CrashLeaves;
    ReachableInv(s0, run, s);
    assert CallOk(s, i);
    var k := CrashLeavesWholeValue(s0, run, s, dir, disk, s.calls[i].target);
    j := LastPub(s.log, s.calls[i].target, k).value;
  }

  // ----- Temporary files -----

  /** While no counter has wrapped, no two calls share a temporary name, and none is a target. */
  lemma TempNamesAreOwn(s0: State, run: seq<Action>, s: State, i: nat, j: nat)
    requires Init(s0) && Legal(s0, run) && s == Exec(s0, run) && NotWrapped(s)
    requires i < |s.calls| && j < |s.calls| && i != j
    ensures s.calls[i].tmp != s.calls[j].tmp && s.calls[i].tmp !in s.targets
  {
    hide FsOk, CallsOk, TempsOk, PubsOk, SnapsOk, ReadersOk, Init, Legal, Exec, NotWrapped, NamesApart;
    UnwrappedIsReached(s0, run, s);
    ReachableInv(s0, run, s);
    DistinctTmps(s, i, j);
    TmpIsNoTarget(s, i);
  }

  lemma StepTidies(s: State, a: Action)
    requires Enabled(s, a)
    ensures Step(s, a).stale <= s.stale
  {
    hide TempFor, Count;
  }

  /** Leftovers are names that were there at the start; once gone, they stay gone. */
  lemma {:induction false} LeftoversOnlyGo(s: State, run: seq<Action>)
    requires Legal(s, run)
    ensures Exec(s, run).stale <= s.stale
    decreases |run|
  {
    hide Enabled, Step;
    if run != [] {
      StepTidies(s, run[0]);
      LeftoversOnlyGo(Step(s, run[0]), run[1..]);
    }
  }

  /**
    Exclusive creation meets an existing name exactly if a leftover has it; the rename never misses its
    source; and cleanup finds something to remove exactly if the call had created its file or a leftover
    was in its way.
   */
  lemma OwnNameIsAsExpected(s0: State, run: seq<Action>, s: State, i: nat)
    requires ReachedBy(s0, run, s) && i < |s.calls|
    ensures var c := s.calls[i];
            && (c.phase == Named ==> (Enabled(s, CreateNew(i)) <==> c.tmp !in s.stale))
            && (c.phase == Closed ==> Enabled(s, Rename(i)))
            && (c.phase == Failed ==> (Enabled(s, RemoveFile(i)) <==> c.inode.Some? || c.tmp in s.stale))
  {
    hide FsOk, PairsOk, TempsOk, PubsOk, SnapsOk, ReadersOk, Init, Legal, Exec, NameOk, LogOk, NamesApart;
    ReachableInv(s0, run, s);
    assert CallOk(s, i);
  }

  /**
    Cleanup removes the file its own call created exactly if no leftover has the name; otherwise it
    removes that leftover, and its call had created nothing. Every target and every other call's entry stay.
   */
  lemma CleanupIsOwn(s0: State, run: seq<Action>, s: State, i: nat)
    requires ReachedBy(s0, run, s) && Enabled(s, RemoveFile(i))
    ensures Some(s.dir[s.calls[i].tmp]) == s.calls[i].inode <==> s.calls[i].tmp !in s.stale
    ensures s.calls[i].tmp in s.stale ==> s.calls[i].inode.None?
    ensures var t := Step(s, RemoveFile(i));
            && (forall n :: n in s.targets ==> SameAt(t.dir, s.dir, n))
            && (forall j :: 0 <= j < |s.calls| && j != i ==> SameAt(t.dir, s.dir, s.calls[j].tmp))
  {
    hide FsOk, PairsOk, TempsOk, PubsOk, SnapsOk, ReadersOk, Init, Legal, Exec, NameOk, LogOk, NamesApart;
    ReachableInv(s0, run, s);
    assert CallOk(s, i);
    TmpIsNoTarget(s, i);
    forall j | 0 <= j < |s.calls| && j != i
      ensures SameAt(Step(s, RemoveFile(i)).dir, s.dir, s.calls[j].tmp)
    {
      DistinctTmps(s, i, j);
    }
  }

  /** Once all calls have finished, the temporary names left are leftovers and those whose removal failed. */
  lemma NoTempsLeft(s0: State, run: seq<Action>, s: State, name: Name)
    requires ReachedBy(s0, run, s) && TempShaped(name)
    requires forall i :: 0 <= i < |s.calls| ==> Finished(s.calls[i])
    ensures name in s.dir <==> name in s.stale || exists i: nat :: OwnedBy(s, name, i) && s.calls[i].leaked
  {
    hide TempShaped, PairsOk, PubsOk, SnapsOk, ReadersOk, Init, Legal, Exec, NameOk, LogOk, NamesApart;
    ReachableInv(s0, run, s);
    if name in s.dir && name !in s.stale {
      var i: nat :| OwnedBy(s, name, i);
      assert CallOk(s, i);
    }
    forall i: nat | OwnedBy(s, name, i) && s.calls[i].leaked
      ensures name in s.dir
    {
      assert CallOk(s, i);
    }
  }
}
