/** Each step keeps the invariant, one kind of step at a time. */
module ProtocolSteps {
  import opened Bytes
  import opened Prelude
  import opened Reads
  import opened TempNames
  import opened Protocol
  import opened ProtocolInvariant
  import opened ProtocolHistory

  // ----- Steps that move one call along without touching the directory or any content -----

  predicate Unmoved(c: Call, d: Call) {
    && c.pid == d.pid && c.target == d.target && c.nanos == d.nanos && c.counter == d.counter
    && c.tmp == d.tmp && c.inode == d.inode && c.started == d.started && c.pub == d.pub
    && Published(c) == Published(d) && Holding(c) == Holding(d)
  }

  ghost predicate Advances(s: State, t: State, c: nat) {
    && c < |s.calls| && c < |t.calls|
    && t == s.(calls := s.calls[c := t.calls[c]], durable := t.durable, history := t.history, time := s.time + 1)
    && (t.durable == s.durable || (s.calls[c].inode.Some? && t.durable == s.durable + {s.calls[c].inode.value}))
    && (t.history == s.history || t.history == [Snapshot(s.dir, |s.log|)])
    && Unmoved(s.calls[c], t.calls[c])
  }

  lemma AdvanceExtends(s: State, t: State, c: nat)
    requires Advances(s, t, c)
    ensures Extends(s, t)
  {
  }

  lemma AdvanceCalls(s: State, t: State, c: nat)
    requires FsOk(s) && CallsOk(s) && PairsOk(s) && Advances(s, t, c) && Extends(s, t)
    requires FileOk(t, t.calls[c]) && LogOk(t, c)
    ensures CallsOk(t)
  {
    hide Settled, TempShaped, FileOk, LogOk, Extends;
    assert HistoryGrows(s, t);
    forall i | 0 <= i < |s.calls| && i != c
      ensures Undisturbed(s, t, s.calls[i])
    {
      assert PairOk(s.calls[i], s.calls[c]);
    }
    OtherCallsKept(s, t, c);
    assert CallOk(s, c);
    assert NameOk(t, t.calls[c]) by { assert NameOk(s, s.calls[c]); }
    assert OwnsOk(t, t.calls[c]) by { assert OwnsOk(s, s.calls[c]); }
    assert CallOk(t, c);
  }

  lemma AdvancePairs(s: State, t: State, c: nat)
    requires PairsOk(s) && Advances(s, t, c)
    ensures PairsOk(t)
  {
    hide Published, Holding;
    forall i, j | 0 <= i < |t.calls| && 0 <= j < |t.calls| && i != j
      ensures PairOk(t.calls[i], t.calls[j])
    {
      assert PairOk(s.calls[i], s.calls[j]);
    }
  }

  lemma AdvanceTemps(s: State, t: State, c: nat)
    requires TempsOk(s) && Advances(s, t, c)
    ensures TempsOk(t)
  {
    hide TempShaped, Published, Holding;
    forall n | n in t.dir && TempShaped(n) && n !in t.stale
      ensures exists i: nat :: OwnedBy(t, n, i)
    {
      var i: nat :| OwnedBy(s, n, i);
      assert OwnedBy(t, n, i);
    }
  }

  lemma AdvancePubs(s: State, t: State, c: nat)
    requires PubsOk(s) && Advances(s, t, c)
    ensures PubsOk(t)
  {
    hide Published, Holding;
  }

  lemma AdvanceSnaps(s: State, t: State, c: nat)
    requires FsOk(s) && SnapsOk(s) && Advances(s, t, c) && Extends(s, t)
    requires s.calls[c].inode.Some? ==> s.calls[c].inode.value < s.next
    ensures FsOk(t) && SnapsOk(t)
  {
    hide Settled, TempShaped, TargetOk, Extends, Unmoved;
    assert Snapshot(s.dir, |s.log|) in s.history;
    SnapsKept(s, t);
  }

  lemma AdvanceInv(s: State, t: State, c: nat)
    requires Inv(s) && Advances(s, t, c)
    requires FileOk(t, t.calls[c]) && LogOk(t, c)
    ensures Inv(t)
  {
    hide FsOk, CallsOk, PairsOk, TempsOk, PubsOk, SnapsOk, ReadersOk, FileOk, LogOk, Extends;
    AdvanceExtends(s, t, c);
    AdvanceCalls(s, t, c);
    AdvancePairs(s, t, c);
    AdvanceTemps(s, t, c);
    AdvancePubs(s, t, c);
    FileBelow(s, c);
    AdvanceSnaps(s, t, c);
    ReadersKept(s, t);
  }

  lemma FileBelow(s: State, c: nat)
    requires CallsOk(s) && c < |s.calls|
    ensures s.calls[c].inode.Some? ==> s.calls[c].inode.value < s.next
  {
    hide NameOk, OwnsOk, LogOk;
    assert CallOk(s, c);
  }

  lemma ClosureOkInv(s: State, c: nat)
    requires Inv(s) && Enabled(s, ClosureOk(c))
    ensures Inv(Step(s, ClosureOk(c)))
  {
    hide FsOk, PairsOk, TempsOk, PubsOk, SnapsOk, ReadersOk, NameOk, OwnsOk;
    assert CallOk(s, c);
    assert s.calls[c].inode.value in s.content by { Allocated(s, c); }
    AdvanceInv(s, Step(s, ClosureOk(c)), c);
  }

  lemma Allocated(s: State, c: nat)
    requires FsOk(s) && c < |s.calls| && CallOk(s, c)
    ensures s.calls[c].inode.Some? ==> s.calls[c].inode.value in s.content
  {
    hide TempShaped, NameOk, OwnsOk, LogOk;
  }

  lemma FlushInv(s: State, c: nat)
    requires Inv(s) && Enabled(s, Flush(c))
    ensures Inv(Step(s, Flush(c)))
  {
    hide FsOk, PairsOk, TempsOk, PubsOk, SnapsOk, ReadersOk, NameOk, OwnsOk;
    assert CallOk(s, c);
    AdvanceInv(s, Step(s, Flush(c)), c);
  }

  lemma SyncAllInv(s: State, c: nat)
    requires Inv(s) && Enabled(s, SyncAll(c))
    ensures Inv(Step(s, SyncAll(c)))
  {
    hide FsOk, PairsOk, TempsOk, PubsOk, SnapsOk, ReadersOk, NameOk, OwnsOk;
    assert CallOk(s, c);
    AdvanceInv(s, Step(s, SyncAll(c)), c);
  }

  lemma DropHandleInv(s: State, c: nat)
    requires Inv(s) && Enabled(s, DropHandle(c))
    ensures Inv(Step(s, DropHandle(c)))
  {
    hide FsOk, PairsOk, TempsOk, PubsOk, SnapsOk, ReadersOk, NameOk, OwnsOk;
    assert CallOk(s, c);
    AdvanceInv(s, Step(s, DropHandle(c)), c);
  }

  lemma FailInv(s: State, c: nat)
    requires Inv(s) && Enabled(s, Fail(c))
    ensures Inv(Step(s, Fail(c)))
  {
    hide FsOk, PairsOk, TempsOk, PubsOk, SnapsOk, ReadersOk, NameOk, OwnsOk;
    assert CallOk(s, c);
    AdvanceInv(s, Step(s, Fail(c)), c);
  }

  lemma SyncDirInv(s: State, c: nat)
    requires Inv(s) && Enabled(s, SyncDir(c))
    ensures Inv(Step(s, SyncDir(c)))
  {
    hide FsOk, PairsOk, TempsOk, PubsOk, SnapsOk, ReadersOk, NameOk, OwnsOk;
    assert CallOk(s, c);
    AdvanceInv(s, Step(s, SyncDir(c)), c);
  }

  lemma ReturnOkInv(s: State, c: nat)
    requires Inv(s) && Enabled(s, ReturnOk(c))
    ensures Inv(Step(s, ReturnOk(c)))
  {
    hide FsOk, PairsOk, TempsOk, SnapsOk, ReadersOk, NameOk, OwnsOk;
    assert CallOk(s, c);
    assert s.log[s.calls[c].pub].at < s.time;
    AdvanceInv(s, Step(s, ReturnOk(c)), c);
  }

  lemma RemoveFailsInv(s: State, c: nat)
    requires Inv(s) && Enabled(s, RemoveFails(c))
    ensures Inv(Step(s, RemoveFails(c)))
  {
    hide FsOk, PairsOk, TempsOk, PubsOk, SnapsOk, ReadersOk, NameOk;
    assert CallOk(s, c);
    AdvanceInv(s, Step(s, RemoveFails(c)), c);
  }

  // ----- Writing into a temporary file -----

  lemma WriteTempExtends(s: State, c: nat, bytes: seq<byte>)
    requires Inv(s) && Enabled(s, WriteTemp(c, bytes))
    ensures Extends(s, Step(s, WriteTemp(c, bytes)))
  {
    hide FsOk, PairsOk, TempsOk, PubsOk, SnapsOk, ReadersOk, NameOk, OwnsOk, LogOk;
    assert CallOk(s, c);
  }

  lemma WriteTempCalls(s: State, c: nat, bytes: seq<byte>)
    requires Inv(s) && Enabled(s, WriteTemp(c, bytes))
    requires Extends(s, Step(s, WriteTemp(c, bytes)))
    ensures CallsOk(Step(s, WriteTemp(c, bytes)))
  {
    hide TempName, Settled, FsOk, TempsOk, PubsOk, SnapsOk, ReadersOk, Extends;
    var t := Step(s, WriteTemp(c, bytes));
    assert CallOk(s, c);
    forall i | 0 <= i < |s.calls| && i != c
      ensures Undisturbed(s, t, s.calls[i])
    {
      assert PairOk(s.calls[i], s.calls[c]);
    }
    OtherCallsKept(s, t, c);
    assert CallOk(t, c);
  }

  lemma WriteTempInv(s: State, c: nat, bytes: seq<byte>)
    requires Inv(s) && Enabled(s, WriteTemp(c, bytes))
    ensures Inv(Step(s, WriteTemp(c, bytes)))
  {
    hide TempShaped, Settled, TargetOk, ReaderOk, Extends, NameOk, OwnsOk, LogOk, CallsOk;
    var t := Step(s, WriteTemp(c, bytes));
    WriteTempExtends(s, c, bytes);
    WriteTempCalls(s, c, bytes);
    assert s.calls[c].inode.Some? && s.calls[c].inode.value in s.content by { Writing(s, c); }
    forall n | n in t.dir && TempShaped(n) && n !in t.stale
      ensures exists i: nat :: OwnedBy(t, n, i)
    {
      var i: nat :| OwnedBy(s, n, i);
      assert OwnedBy(t, n, i);
    }
    SnapsKept(s, t);
    ReadersKept(s, t);
  }

  lemma Writing(s: State, c: nat)
    requires FsOk(s) && CallsOk(s) && Is(s, c, Opened)
    ensures s.calls[c].inode.Some? && s.calls[c].inode.value in s.content
  {
    hide TempShaped, NameOk, OwnsOk, LogOk;
    assert CallOk(s, c);
  }

  // ----- Steps that change the directory, but no target in it -----

  ghost predicate SameTargets(s: State, t: State) {
    forall n :: n in s.targets ==>
      (n in t.dir <==> n in s.dir) && (n in s.dir ==> t.dir[n] == s.dir[n])
  }

  lemma SnapsGrow(s: State, t: State)
    requires FsOk(s) && SnapsOk(s) && Extends(s, t) && SameTargets(s, t)
    requires t.log == s.log && t.history == s.history + [Snapshot(t.dir, |t.log|)]
    ensures SnapsOk(t)
  {
    hide Settled, TempShaped, Extends, TargetOk;
    var last, new_ := Snapshot(s.dir, |s.log|), Snapshot(t.dir, |t.log|);
    assert last in s.history;
    forall h, n | h in t.history && n in t.targets
      ensures h in s.history || TargetOk(t, h, n)
    {
      assert n in s.targets by { assert t.targets == s.targets by { SameNames(s, t); } }
      if h !in s.history {
        assert h == new_;
        assert TargetOk(s, last, n);
        SnapKept(s, t, last, n);
        SameEntry(t, last, new_, n);
      }
    }
    SnapsKept(s, t);
  }

  lemma SameNames(s: State, t: State)
    requires Extends(s, t)
    ensures t.targets == s.targets
  {
  }

  lemma SameEntry(t: State, h: Snapshot, g: Snapshot, n: Name)
    requires TargetOk(t, h, n) && g.pubs == h.pubs
    requires n in g.dir <==> n in h.dir
    requires n in h.dir ==> g.dir[n] == h.dir[n]
    ensures TargetOk(t, g, n)
  {
    hide Settled;
  }

  lemma IsTempShaped(c: Call)
    requires c.tmp == TempName(c.target, c.pid, c.nanos, c.counter)
    ensures TempShaped(c.tmp)
  {
    hide TempName;
  }

  /** Distinct calls have distinct temporary names. */
  lemma DistinctTmps(s: State, i: nat, j: nat)
    requires PairsOk(s) && i < |s.calls| && j < |s.calls| && i != j
    ensures s.calls[i].tmp != s.calls[j].tmp
  {
    assert PairOk(s.calls[i], s.calls[j]);
  }

  // ----- Start -----

  /** A name no call has drawn before is in the directory exactly if a leftover has it. */
  lemma FreshName(s: State, target: Name, pid: nat, nanos: nat)
    requires Inv(s) && NewName(s, NextTemp(s, target, pid, nanos))
    ensures var name := NextTemp(s, target, pid, nanos);
            name in s.dir <==> name in s.stale
  {
    hide TempName, PairsOk, PubsOk, SnapsOk, ReadersOk, CallsOk;
    var name := NextTemp(s, target, pid, nanos);
    assert TempShaped(name);
  }

  ghost predicate Started(s: State, t: State, c: Call) {
    && s.scheme == PerCall
    && c == Call(c.pid, c.target, c.nanos, Count(s.counters, c.pid) % U64_LIMIT, NextTemp(s, c.target, c.pid, c.nanos),
                 Named, None, [], false, false, 0, s.time, 0)
    && c.target in s.targets && NewName(s, c.tmp)
    && t == s.(counters := s.counters[c.pid := Count(s.counters, c.pid) + 1], calls := s.calls + [c], time := s.time + 1)
    && (c.tmp in s.dir <==> c.tmp in s.stale)
  }

  lemma StartedExtends(s: State, t: State, c: Call)
    requires Started(s, t, c)
    ensures Extends(s, t)
  {
    hide TempName;
  }

  lemma StartedCalls(s: State, t: State, c: Call)
    requires CallsOk(s) && Started(s, t, c) && Extends(s, t)
    ensures CallsOk(t)
  {
    hide TempName, CallOk, Extends;
    OtherCallsKept(s, t, |s.calls|);
    assert CallOk(t, |s.calls|) by { StartedCall(s, t, c); }
  }

  lemma StartedCall(s: State, t: State, c: Call)
    requires Started(s, t, c)
    ensures CallOk(t, |s.calls|)
  {
    hide TempName;
  }

  lemma StartedPairs(s: State, t: State, c: Call)
    requires PairsOk(s) && Started(s, t, c)
    ensures PairsOk(t)
  {
    hide TempName;
    forall i, j | 0 <= i < |t.calls| && 0 <= j < |t.calls| && i != j
      ensures PairOk(t.calls[i], t.calls[j])
    {
      if i < |s.calls| && j < |s.calls| { assert PairOk(s.calls[i], s.calls[j]); }
    }
  }

  lemma StartedRest(s: State, t: State, c: Call)
    requires FsOk(s) && TempsOk(s) && PubsOk(s) && Started(s, t, c)
    ensures FsOk(t) && TempsOk(t) && PubsOk(t)
  {
    hide TempName, TempShaped;
    forall n | n in t.dir && TempShaped(n) && n !in t.stale
      ensures exists i: nat :: OwnedBy(t, n, i)
    {
      var i: nat :| OwnedBy(s, n, i);
      assert OwnedBy(t, n, i);
    }
  }

  lemma StartInv(s: State, pid: nat, target: Name, nanos: nat)
    requires Inv(s) && Enabled(s, Start(pid, target, nanos))
    requires NamesApart(Step(s, Start(pid, target, nanos)))
    ensures Inv(Step(s, Start(pid, target, nanos)))
  {
    hide FsOk, CallsOk, PairsOk, TempsOk, PubsOk, SnapsOk, ReadersOk, TempName, Extends, TargetOk, Count;
    var t := Step(s, Start(pid, target, nanos));
    var c := t.calls[|s.calls|];
    NewIsNew(s, t, c);
    FreshName(s, target, pid, nanos);
    assert Started(s, t, c);
    StartedExtends(s, t, c);
    StartedCalls(s, t, c);
    StartedPairs(s, t, c);
    StartedRest(s, t, c);
    SnapsStill(s, t);
    ReadersKept(s, t);
  }

  lemma NewIsNew(s: State, t: State, c: Call)
    requires t.calls == s.calls + [c]
    ensures NamesApart(t) <==> NamesApart(s) && NewName(s, c.tmp)
  {
    if NamesApart(t) {
      forall i | 0 <= i < |s.calls|
        ensures s.calls[i].tmp != c.tmp
      {
        assert t.calls[i].tmp != t.calls[|s.calls|].tmp;
      }
      forall i, j | 0 <= i < j < |s.calls|
        ensures s.calls[i].tmp != s.calls[j].tmp
      {
        assert t.calls[i].tmp != t.calls[j].tmp;
      }
    }
  }

  /** Nothing at all changed in the directory. */
  lemma SnapsStill(s: State, t: State)
    requires SnapsOk(s) && Extends(s, t) && t.history == s.history
    ensures SnapsOk(t)
  {
    hide TargetOk, Extends;
    SnapsKept(s, t);
  }

  // ----- Create -----

  ghost predicate Created(s: State, t: State, c: nat) {
    && c < |s.calls| && s.calls[c].phase == Named && s.calls[c].tmp !in s.dir
    && var call := s.calls[c];
    && t == s.(content := s.content[s.next := []], next := s.next + 1, dir := s.dir[call.tmp := s.next],
               history := s.history + [Snapshot(s.dir[call.tmp := s.next], |s.log|)],
               calls := s.calls[c := call.(phase := Opened, inode := Some(s.next))], time := s.time + 1)
  }

  lemma CreatedExtends(s: State, t: State, c: nat)
    requires FsOk(s) && Created(s, t, c)
    requires s.calls[c].inode.None?
    ensures Extends(s, t)
  {
    hide TempShaped;
  }

  lemma CreatedCalls(s: State, t: State, c: nat)
    requires FsOk(s) && CallsOk(s) && PairsOk(s) && Created(s, t, c) && Extends(s, t)
    ensures CallsOk(t)
  {
    hide TempShaped, Extends, TempName, PairsOk, CallOk, Settled;
    forall i | 0 <= i < |s.calls| && i != c
      ensures Undisturbed(s, t, s.calls[i])
    {
      DistinctTmps(s, i, c);
    }
    OtherCallsKept(s, t, c);
    assert CallOk(s, c);
    CreatedCall(s, t, c);
  }

  lemma CreatedCall(s: State, t: State, c: nat)
    requires FsOk(s) && Created(s, t, c) && CallOk(s, c)
    ensures CallOk(t, c)
  {
    hide TempName, TempShaped;
  }

  lemma CreatedPairs(s: State, t: State, c: nat)
    requires CallsOk(s) && PairsOk(s) && Created(s, t, c)
    ensures PairsOk(t)
  {
    hide TempName, OwnsOk, LogOk, NameOk;
    forall i, j | 0 <= i < |t.calls| && 0 <= j < |t.calls| && i != j
      ensures PairOk(t.calls[i], t.calls[j])
    {
      assert CallOk(s, i) && CallOk(s, j) && PairOk(s.calls[i], s.calls[j]);
    }
  }

  lemma CreatedRest(s: State, t: State, c: nat)
    requires FsOk(s) && TempsOk(s) && PubsOk(s) && Created(s, t, c)
    ensures FsOk(t) && TempsOk(t) && PubsOk(t)
  {
    hide TempShaped;
    forall n | n in t.dir && TempShaped(n) && n !in t.stale
      ensures exists i: nat :: OwnedBy(t, n, i)
    {
      if n == s.calls[c].tmp {
        assert OwnedBy(t, n, c);
      } else {
        var i: nat :| OwnedBy(s, n, i);
        assert OwnedBy(t, n, i);
      }
    }
  }

  lemma TmpIsNoTarget(s: State, c: nat)
    requires FsOk(s) && CallsOk(s) && c < |s.calls|
    ensures s.calls[c].tmp !in s.targets
  {
    hide TempShaped, OwnsOk, FileOk, LogOk;
    assert CallOk(s, c);
    IsTempShaped(s.calls[c]);
  }

  lemma CreateNewInv(s: State, c: nat)
    requires Inv(s) && Enabled(s, CreateNew(c))
    ensures Inv(Step(s, CreateNew(c)))
  {
    hide FsOk, PairsOk, TempsOk, PubsOk, SnapsOk, ReadersOk, TempName, Extends, NameOk, OwnsOk, LogOk;
    var t := Step(s, CreateNew(c));
    assert Created(s, t, c);
    assert CallOk(s, c);
    CreatedExtends(s, t, c);
    CreatedCalls(s, t, c);
    CreatedPairs(s, t, c);
    CreatedRest(s, t, c);
    TmpIsNoTarget(s, c);
    SnapsGrow(s, t);
    ReadersKept(s, t);
  }

  // ----- Remove -----

  ghost predicate Removed(s: State, t: State, c: nat) {
    && c < |s.calls| && s.calls[c].phase == Failed && s.calls[c].tmp in s.dir
    && var call := s.calls[c];
    && t == s.(dir := s.dir - {call.tmp}, history := s.history + [Snapshot(s.dir - {call.tmp}, |s.log|)],
               stale := s.stale - {call.tmp},
               calls := s.calls[c := call.(phase := ReturnedErr, returned := s.time)], time := s.time + 1)
  }

  lemma RemovedExtends(s: State, t: State, c: nat)
    requires Removed(s, t, c)
    ensures Extends(s, t)
  {
  }

  lemma RemovedCalls(s: State, t: State, c: nat)
    requires CallsOk(s) && PairsOk(s) && Removed(s, t, c) && Extends(s, t)
    requires !s.calls[c].leaked
    ensures CallsOk(t)
  {
    hide TempShaped, Extends, TempName, PairsOk, CallOk, Settled;
    forall i | 0 <= i < |s.calls| && i != c
      ensures Undisturbed(s, t, s.calls[i])
    {
      DistinctTmps(s, i, c);
    }
    OtherCallsKept(s, t, c);
    assert CallOk(s, c);
    RemovedCall(s, t, c);
  }

  lemma RemovedCall(s: State, t: State, c: nat)
    requires Removed(s, t, c) && CallOk(s, c) && !s.calls[c].leaked
    ensures CallOk(t, c)
  {
    hide TempName;
  }

  lemma RemovedPairs(s: State, t: State, c: nat)
    requires PairsOk(s) && Removed(s, t, c)
    ensures PairsOk(t)
  {
    forall i, j | 0 <= i < |t.calls| && 0 <= j < |t.calls| && i != j
      ensures PairOk(t.calls[i], t.calls[j])
    {
      assert PairOk(s.calls[i], s.calls[j]);
    }
  }

  lemma RemovedRest(s: State, t: State, c: nat)
    requires FsOk(s) && TempsOk(s) && PubsOk(s) && Removed(s, t, c)
    ensures FsOk(t) && TempsOk(t) && PubsOk(t)
  {
    hide TempShaped;
    forall n | n in t.dir && TempShaped(n) && n !in t.stale
      ensures exists i: nat :: OwnedBy(t, n, i)
    {
      var i: nat :| OwnedBy(s, n, i);
      assert OwnedBy(t, n, i);
    }
  }

  lemma RemoveFileInv(s: State, c: nat)
    requires Inv(s) && Enabled(s, RemoveFile(c))
    ensures Inv(Step(s, RemoveFile(c)))
  {
    hide FsOk, PairsOk, TempsOk, PubsOk, SnapsOk, ReadersOk, TempName, Extends, NameOk, OwnsOk, LogOk;
    var t := Step(s, RemoveFile(c));
    assert Removed(s, t, c);
    assert CallOk(s, c);
    RemovedExtends(s, t, c);
    RemovedCalls(s, t, c);
    RemovedPairs(s, t, c);
    RemovedRest(s, t, c);
    TmpIsNoTarget(s, c);
    SnapsGrow(s, t);
    ReadersKept(s, t);
  }

  // ----- Rename -----

  ghost predicate Replaced(s: State, t: State, c: nat) {
    && c < |s.calls| && s.calls[c].phase == Closed && s.calls[c].inode.Some?
    && var call := s.calls[c];
    && var dir := (s.dir - {call.tmp})[call.target := call.inode.value];
    && t == s.(dir := dir, log := s.log + [Publication(c, call.target, call.output, s.time)],
               history := s.history + [Snapshot(dir, |s.log| + 1)],
               calls := s.calls[c := call.(phase := Renamed, pub := |s.log|)], time := s.time + 1)
  }

  lemma RenameExtends(s: State, t: State, c: nat)
    requires Replaced(s, t, c)
    ensures Extends(s, t)
  {
  }

  lemma RenameCalls(s: State, t: State, c: nat)
    requires FsOk(s) && CallsOk(s) && PairsOk(s) && Replaced(s, t, c) && Extends(s, t)
    ensures CallsOk(t)
  {
    hide TempShaped, Extends, TempName, PairsOk, CallOk, Settled, FsOk;
    assert CallOk(s, c);
    forall i | 0 <= i < |s.calls| && i != c
      ensures Undisturbed(s, t, s.calls[i])
    {
      DistinctTmps(s, i, c);
      TmpIsNoTarget(s, i);
      assert s.calls[c].target in s.targets by { TargetNamed(s, c); }
    }
    OtherCallsKept(s, t, c);
    TmpIsNoTarget(s, c);
    TargetNamed(s, c);
    RenameCall(s, t, c);
  }

  lemma TargetNamed(s: State, c: nat)
    requires c < |s.calls| && CallOk(s, c)
    ensures s.calls[c].target in s.targets
  {
    hide TempName, OwnsOk, FileOk, LogOk;
  }

  lemma RenameCall(s: State, t: State, c: nat)
    requires Replaced(s, t, c) && CallOk(s, c)
    requires s.calls[c].tmp != s.calls[c].target
    ensures CallOk(t, c)
  {
    hide TempName;
  }

  lemma RenamePairs(s: State, t: State, c: nat)
    requires PairsOk(s) && Replaced(s, t, c)
    ensures PairsOk(t)
  {
    forall i, j | 0 <= i < |t.calls| && 0 <= j < |t.calls| && i != j
      ensures PairOk(t.calls[i], t.calls[j])
    {
      assert PairOk(s.calls[i], s.calls[j]);
    }
  }

  lemma RenameRest(s: State, t: State, c: nat)
    requires FsOk(s) && TempsOk(s) && PubsOk(s) && Replaced(s, t, c)
    requires s.calls[c].inode.value < s.next && s.calls[c].target in s.targets && s.calls[c].tmp !in s.stale
    ensures FsOk(t) && TempsOk(t) && PubsOk(t)
  {
    hide TempShaped;
    forall n | n in t.dir && TempShaped(n) && n !in t.stale
      ensures exists i: nat :: OwnedBy(t, n, i)
    {
      var i: nat :| OwnedBy(s, n, i);
      assert OwnedBy(t, n, i);
    }
  }

  /** The file that replaces the target is complete, on disk, and will not be written again. */
  lemma RenamedIsSettled(s: State, t: State, c: nat)
    requires PairsOk(s) && Replaced(s, t, c) && CallOk(s, c)
    ensures Settled(t, s.calls[c].inode.value)
    ensures t.content[s.calls[c].inode.value] == s.calls[c].output
  {
    hide TempName;
    var x := s.calls[c].inode.value;
    forall i | 0 <= i < |t.calls| && t.calls[i].inode == Some(x)
      ensures Published(t.calls[i])
    {
      if i != c { DistinctInodes(s, i, c); }
    }
  }

  lemma DistinctInodes(s: State, i: nat, j: nat)
    requires PairsOk(s) && i < |s.calls| && j < |s.calls| && i != j && s.calls[i].inode.Some?
    ensures s.calls[i].inode != s.calls[j].inode
  {
    assert PairOk(s.calls[i], s.calls[j]);
  }

  lemma RenameSnap(s: State, t: State, c: nat, n: Name)
    requires Replaced(s, t, c) && Extends(s, t)
    requires n in s.targets && s.calls[c].tmp !in s.targets
    requires Settled(t, s.calls[c].inode.value)
    requires t.content[s.calls[c].inode.value] == s.calls[c].output
    requires TargetOk(s, Snapshot(s.dir, |s.log|), n)
    ensures TargetOk(t, Snapshot(t.dir, |t.log|), n)
  {
    hide Settled, Extends;
    if n != s.calls[c].target {
      var h := Snapshot(s.dir, |s.log|);
      SnapKept(s, t, h, n);
      assert LastPub(t.log, n, |t.log|) == LastPub(t.log, n, |s.log|);
    }
  }

  lemma RenameInv(s: State, c: nat)
    requires Inv(s) && Enabled(s, Rename(c))
    ensures Inv(Step(s, Rename(c)))
  {
    hide FsOk, PairsOk, TempsOk, PubsOk, SnapsOk, ReadersOk, TempName, Extends, NameOk, LogOk, TargetOk, Settled;
    var t := Step(s, Rename(c));
    assert CallOk(s, c);
    assert Replaced(s, t, c);
    RenameExtends(s, t, c);
    RenameCalls(s, t, c);
    RenamePairs(s, t, c);
    TargetNamed(s, c);
    RenameRest(s, t, c);
    TmpIsNoTarget(s, c);
    RenamedIsSettled(s, t, c);
    RenameSnaps(s, t, c);
    ReadersKept(s, t);
  }

  lemma RenameSnaps(s: State, t: State, c: nat)
    requires FsOk(s) && SnapsOk(s) && Replaced(s, t, c) && Extends(s, t)
    requires s.calls[c].tmp !in s.targets
    requires Settled(t, s.calls[c].inode.value)
    requires t.content[s.calls[c].inode.value] == s.calls[c].output
    ensures SnapsOk(t)
  {
    hide Settled, TempShaped, Extends, TargetOk;
    assert Snapshot(s.dir, |s.log|) in s.history;
    forall h, n | h in t.history && n in t.targets
      ensures h in s.history || TargetOk(t, h, n)
    {
      assert n in s.targets by { SameNames(s, t); }
      if h !in s.history {
        RenameSnap(s, t, c, n);
      }
    }
    SnapsKept(s, t);
  }

  // ----- Readers -----

  ghost predicate OnlyReaders(s: State, t: State) {
    t == s.(readers := t.readers, time := s.time + 1)
  }

  lemma OnlyReadersExtends(s: State, t: State)
    requires OnlyReaders(s, t)
    ensures Extends(s, t)
  {
  }

  lemma OnlyReadersCalls(s: State, t: State)
    requires CallsOk(s) && OnlyReaders(s, t) && Extends(s, t)
    ensures CallsOk(t)
  {
    hide Extends, CallOk;
    OtherCallsKept(s, t, |s.calls|);
  }

  lemma OnlyReadersTemps(s: State, t: State)
    requires FsOk(s) && TempsOk(s) && PubsOk(s) && OnlyReaders(s, t)
    ensures FsOk(t) && TempsOk(t) && PubsOk(t)
  {
    hide TempShaped;
    forall n | n in t.dir && TempShaped(n) && n !in t.stale
      ensures exists i: nat :: OwnedBy(t, n, i)
    {
      var i: nat :| OwnedBy(s, n, i);
      assert OwnedBy(t, n, i);
    }
  }

  lemma ReadersStep(s: State, t: State)
    requires Inv(s) && OnlyReaders(s, t)
    requires Extends(s, t) ==> forall r :: r in t.readers ==> r in s.readers || ReaderOk(t, r)
    ensures Inv(t)
  {
    hide FsOk, CallsOk, TempsOk, PubsOk, SnapsOk, ReaderOk, Extends;
    OnlyReadersExtends(s, t);
    OnlyReadersCalls(s, t);
    OnlyReadersTemps(s, t);
    SnapsStill(s, t);
    forall r | r in t.readers
      ensures ReaderOk(t, r)
    {
      if r in s.readers { ReaderKept(s, t, r); }
    }
  }

  lemma OpenTargetInv(s: State, name: Name)
    requires Inv(s) && Enabled(s, OpenTarget(name))
    ensures Inv(Step(s, OpenTarget(name)))
  {
    hide CallsOk, PairsOk, TempsOk, Settled, TempShaped;
    var t := Step(s, OpenTarget(name));
    assert TargetOk(s, Snapshot(s.dir, |s.log|), name);
    OnlyReadersExtends(s, t);
    SnapKept(s, t, Snapshot(s.dir, |s.log|), name);
    forall r | r in t.readers
      ensures r in s.readers || ReaderOk(t, r)
    {
      assert t.readers == s.readers + [t.readers[|s.readers|]];
    }
    ReadersStep(s, t);
  }

  lemma SeekToInv(s: State, r: nat, pos: nat)
    requires Inv(s) && Enabled(s, SeekTo(r, pos))
    ensures Inv(Step(s, SeekTo(r, pos)))
  {
    hide FsOk, CallsOk, PairsOk, TempsOk, PubsOk, SnapsOk, Settled;
    var t := Step(s, SeekTo(r, pos));
    OnlyReadersExtends(s, t);
    assert ReaderOk(s, s.readers[r]);
    ReaderKept(s, t, s.readers[r]);
    assert ReaderOk(t, t.readers[r]);
    ReadersStep(s, t);
  }

  lemma ReadSomeInv(s: State, r: nat, n: nat)
    requires Inv(s) && Enabled(s, ReadSome(r, n))
    ensures Inv(Step(s, ReadSome(r, n)))
  {
    hide FsOk, CallsOk, PairsOk, TempsOk, PubsOk, SnapsOk, Settled;
    var t := Step(s, ReadSome(r, n));
    OnlyReadersExtends(s, t);
    assert ReaderOk(s, s.readers[r]);
    ReaderKept(s, t, s.readers[r]);
    assert ReaderOk(t, t.readers[r]);
    ReadersStep(s, t);
  }

  lemma ReadEndInv(s: State, r: nat)
    requires Inv(s) && Enabled(s, ReadEnd(r))
    ensures Inv(Step(s, ReadEnd(r)))
  {
    hide FsOk, CallsOk, PairsOk, TempsOk, PubsOk, SnapsOk, Settled;
    var t := Step(s, ReadEnd(r));
    OnlyReadersExtends(s, t);
    assert ReaderOk(s, s.readers[r]);
    ReaderKept(s, t, s.readers[r]);
    assert ReaderOk(t, t.readers[r]);
    ReadersStep(s, t);
  }

  // ----- Other programs -----

  ghost predicate Foreign(s: State, t: State, name: Name) {
    && t == s.(dir := t.dir, content := t.content, next := t.next, history := t.history, stale := s.stale - {name},
               time := s.time + 1)
    && name !in s.targets && (TempShaped(name) ==> name in s.stale && name !in t.dir)
    && s.next <= t.next
    && (forall i :: i in s.content ==> i in t.content && t.content[i] == s.content[i])
    && (forall i: Inode :: i in t.content <==> i < t.next)
    && (forall n :: n in t.dir ==> t.dir[n] < t.next)
    && (forall n :: n != name ==> (n in t.dir <==> n in s.dir) && (n in s.dir ==> t.dir[n] == s.dir[n]))
    && t.history == s.history + [Snapshot(t.dir, |s.log|)]
  }

  lemma ForeignExtends(s: State, t: State, name: Name)
    requires Foreign(s, t, name)
    ensures Extends(s, t)
  {
    hide TempShaped;
  }

  lemma ForeignCalls(s: State, t: State, name: Name)
    requires CallsOk(s) && Foreign(s, t, name) && Extends(s, t)
    ensures CallsOk(t)
  {
    hide TempShaped, Extends, TempName, CallOk, Settled;
    forall i | 0 <= i < |s.calls|
      ensures Undisturbed(s, t, s.calls[i])
    {
      assert NameOk(s, s.calls[i]) by { CallNamed(s, i); }
      IsTempShaped(s.calls[i]);
    }
    OtherCallsKept(s, t, |s.calls|);
  }

  lemma CallNamed(s: State, i: nat)
    requires CallsOk(s) && i < |s.calls|
    ensures NameOk(s, s.calls[i])
  {
    hide NameOk, OwnsOk, FileOk, LogOk;
    assert CallOk(s, i);
  }

  lemma ForeignRest(s: State, t: State, name: Name)
    requires FsOk(s) && TempsOk(s) && PubsOk(s) && Foreign(s, t, name)
    ensures FsOk(t) && TempsOk(t) && PubsOk(t)
  {
    hide TempShaped;
    forall n | n in t.dir && TempShaped(n) && n !in t.stale
      ensures exists i: nat :: OwnedBy(t, n, i)
    {
      var i: nat :| OwnedBy(s, n, i);
      assert OwnedBy(t, n, i);
    }
  }

  lemma ForeignInv(s: State, t: State, name: Name)
    requires Inv(s) && Foreign(s, t, name)
    ensures Inv(t)
  {
    hide FsOk, CallsOk, TempsOk, PubsOk, SnapsOk, ReadersOk, Extends, TempShaped;
    ForeignExtends(s, t, name);
    ForeignCalls(s, t, name);
    ForeignRest(s, t, name);
    SnapsGrow(s, t);
    ReadersKept(s, t);
  }

  lemma OthersCreateInv(s: State, name: Name, bytes: seq<byte>)
    requires Inv(s) && Enabled(s, OthersCreate(name, bytes))
    ensures Inv(Step(s, OthersCreate(name, bytes)))
  {
    hide CallsOk, PairsOk, TempsOk, PubsOk, SnapsOk, ReadersOk, TempShaped;
    ForeignInv(s, Step(s, OthersCreate(name, bytes)), name);
  }

  lemma OthersRemoveInv(s: State, name: Name)
    requires Inv(s) && Enabled(s, OthersRemove(name))
    ensures Inv(Step(s, OthersRemove(name)))
  {
    hide CallsOk, PairsOk, TempsOk, PubsOk, SnapsOk, ReadersOk, TempShaped;
    ForeignInv(s, Step(s, OthersRemove(name)), name);
  }

  lemma OnlyHistoryExtends(s: State, t: State)
    requires t == s.(history := t.history, time := s.time + 1)
    ensures Extends(s, t)
  {
  }

  lemma OthersSyncDirInv(s: State)
    requires Inv(s) && Enabled(s, OthersSyncDir)
    ensures Inv(Step(s, OthersSyncDir))
  {
    hide TempShaped, CallOk, TargetOk, ReadersOk, Settled;
    var t := Step(s, OthersSyncDir);
    OnlyHistoryExtends(s, t);
    assert Snapshot(s.dir, |s.log|) in s.history;
    hide Extends;
    OtherCallsKept(s, t, |s.calls|);
    forall n | n in t.dir && TempShaped(n) && n !in t.stale
      ensures exists i: nat :: OwnedBy(t, n, i)
    {
      var i: nat :| OwnedBy(s, n, i);
      assert OwnedBy(t, n, i);
    }
    SnapsKept(s, t);
    ReadersKept(s, t);
  }

  // ----- Every step, every run -----

  /** The invariant is kept by every step of every interleaving. */
  lemma StepInv(s: State, a: Action)
    requires Inv(s) && Enabled(s, a) && NamesApart(Step(s, a))
    ensures Inv(Step(s, a))
  {
    hide Inv, Step, Enabled, NamesApart;
    match a
    case Start(pid, target, nanos) => StartInv(s, pid, target, nanos);
    case CreateNew(c) => CreateNewInv(s, c);
    case WriteTemp(c, bytes) => WriteTempInv(s, c, bytes);
    case ClosureOk(c) => ClosureOkInv(s, c);
    case Flush(c) => FlushInv(s, c);
    case SyncAll(c) => SyncAllInv(s, c);
    case DropHandle(c) => DropHandleInv(s, c);
    case Rename(c) => RenameInv(s, c);
    case SyncDir(c) => SyncDirInv(s, c);
    case ReturnOk(c) => ReturnOkInv(s, c);
    case Fail(c) => FailInv(s, c);
    case RemoveFile(c) => RemoveFileInv(s, c);
    case RemoveFails(c) => RemoveFailsInv(s, c);
    case OpenTarget(name) => OpenTargetInv(s, name);
    case SeekTo(r, pos) => SeekToInv(s, r, pos);
    case ReadSome(r, n) => ReadSomeInv(s, r, n);
    case ReadEnd(r) => ReadEndInv(s, r);
    case OthersCreate(name, bytes) => OthersCreateInv(s, name, bytes);
    case OthersRemove(name) => OthersRemoveInv(s, name);
    case OthersSyncDir => OthersSyncDirInv(s);
  }

  lemma ApartBefore(s: State, run: seq<Action>)
    requires Legal(s, run) && NamesApart(Exec(s, run))
    ensures NamesApart(s)
  {
    hide Legal, Exec;
    forall i, j | 0 <= i < j < |s.calls|
      ensures s.calls[i].tmp != s.calls[j].tmp
    {
      RecordsAreHistory(s, run, i);
      RecordsAreHistory(s, run, j);
      assert Exec(s, run).calls[i].tmp != Exec(s, run).calls[j].tmp;
    }
  }

  lemma {:induction false} RunInv(s: State, run: seq<Action>)
    requires Inv(s) && Legal(s, run) && NamesApart(Exec(s, run))
    ensures Inv(Exec(s, run))
    decreases |run|
  {
    hide Inv, Enabled, Step, NamesApart;
    if run != [] {
      ApartBefore(Step(s, run[0]), run[1..]);
      StepInv(s, run[0]);
      RunInv(Step(s, run[0]), run[1..]);
    }
  }

  /** A state some run from an initial state leads to, in which no two calls have drawn the same name. */
  ghost predicate ReachedBy(s0: State, run: seq<Action>, s: State) {
    Init(s0) && Legal(s0, run) && s == Exec(s0, run) && NamesApart(s)
  }

  /** Every reachable state satisfies the invariant. */
  lemma ReachableInv(s0: State, run: seq<Action>, s: State)
    requires ReachedBy(s0, run, s)
    ensures Inv(s)
  {
    InitInv(s0);
    RunInv(s0, run);
  }
}
