/** What every step of every interleaving keeps. */
module ProtocolInvariant {
  import opened Bytes
  import opened Prelude
  import opened Reads
  import opened TempNames
  import opened Protocol

  // ----- The invariant -----

  predicate Published(c: Call) {
    c.phase == Renamed || c.phase == ReturnedOk
  }

  /** The call's temporary name is in the directory. */
  predicate Holding(c: Call) {
    && c.inode.Some?
    && (c.phase in {Opened, Filled, Flushed, Synced, Closed, Failed} || (c.phase == ReturnedErr && c.leaked))
  }

  /** A file nobody will write again, and which is on disk. */
  ghost predicate Settled(s: State, x: Inode) {
    && x < s.next && x in s.content && x in s.durable
    && forall i :: 0 <= i < |s.calls| && s.calls[i].inode == Some(x) ==> Published(s.calls[i])
  }

  ghost predicate FsOk(s: State) {
    && (forall n :: n in s.dir ==> s.dir[n] < s.next)
    && (forall i: Inode :: i in s.content <==> i < s.next)
    && (forall x :: x in s.durable ==> x < s.next)
    && (forall t :: t in s.targets ==> !TempShaped(t))
    && (forall n :: n in s.stale ==> n in s.dir && TempShaped(n))
    && |s.history| > 0 && s.history[|s.history| - 1] == Snapshot(s.dir, |s.log|)
  }

  ghost predicate NameOk(s: State, c: Call) {
    && c.target in s.targets
    && c.tmp == TempName(c.target, c.pid, c.nanos, c.counter)
  }

  /**
    The temporary name is in the directory exactly while the call holds it, and is then the call's own
    file, or while a leftover has it, and then the call has no file.
   */
  ghost predicate OwnsOk(s: State, c: Call) {
    && (c.tmp in s.dir <==> Holding(c) || c.tmp in s.stale)
    && (Holding(c) ==> c.tmp !in s.stale && s.dir[c.tmp] == c.inode.value)
    && (c.tmp in s.stale ==> c.inode.None?)
  }

  ghost predicate FileOk(s: State, c: Call) {
    && (c.inode.Some? ==> c.inode.value < s.next)
    && (c.phase == Named ==> c.inode.None?)
    && (c.leaked ==> c.phase == ReturnedErr && c.inode.Some?)
    && (c.phase in {Opened, Filled, Flushed, Synced, Closed, Renamed, ReturnedOk} ==> c.inode.Some?)
    && (c.phase in {Filled, Flushed, Synced, Closed, Renamed, ReturnedOk} ==>
          c.inode.value in s.content && s.content[c.inode.value] == c.output)
    && (c.phase in {Opened, Filled, Flushed} ==> c.inode.value !in s.durable)
    && (c.phase in {Synced, Closed, Renamed, ReturnedOk} ==> c.inode.value in s.durable)
  }

  ghost predicate LogOk(s: State, i: nat)
    requires i < |s.calls|
  {
    var c := s.calls[i];
    && c.started < s.time
    && (Published(c) ==>
          && c.pub < |s.log|
          && s.log[c.pub] == Publication(i, c.target, c.output, s.log[c.pub].at)
          && c.started < s.log[c.pub].at)
    && (c.phase == ReturnedOk ==> s.log[c.pub].at < c.returned)
    && (c.phase in {ReturnedOk, ReturnedErr} ==> c.returned < s.time)
    && (Published(c) && c.dirSynced ==> forall h :: h in s.history ==> h.pubs > c.pub)
    && (!Published(c) ==> !c.dirSynced)
  }

  ghost predicate CallOk(s: State, i: nat)
    requires i < |s.calls|
  {
    NameOk(s, s.calls[i]) && OwnsOk(s, s.calls[i]) && FileOk(s, s.calls[i]) && LogOk(s, i)
  }

  ghost predicate CallsOk(s: State) {
    forall i :: 0 <= i < |s.calls| ==> CallOk(s, i)
  }

  ghost predicate PairOk(c: Call, d: Call) {
    && c.tmp != d.tmp
    && (c.inode.Some? && d.inode.Some? ==> c.inode.value != d.inode.value)
  }

  ghost predicate PairsOk(s: State) {
    forall i, j :: 0 <= i < |s.calls| && 0 <= j < |s.calls| && i != j ==> PairOk(s.calls[i], s.calls[j])
  }

  ghost predicate OwnedBy(s: State, n: Name, i: nat) {
    i < |s.calls| && s.calls[i].tmp == n
  }

  /** Every temp-shaped name in the directory is some call's, or was there before. */
  ghost predicate TempsOk(s: State) {
    forall n :: n in s.dir && TempShaped(n) && n !in s.stale ==> exists i: nat :: OwnedBy(s, n, i)
  }

  /** Each rename in the log is the one of its call, and they are in the order they happened. */
  ghost predicate PubsOk(s: State) {
    && (forall k :: 0 <= k < |s.log| ==>
          && s.log[k].call < |s.calls|
          && Published(s.calls[s.log[k].call]) && s.calls[s.log[k].call].pub == k
          && s.log[k].at < s.time)
    && (forall j, k :: 0 <= j < k < |s.log| ==> s.log[j].at < s.log[k].at)
  }

  ghost predicate TargetOk(s: State, h: Snapshot, t: Name) {
    && h.pubs <= |s.log|
    && match Register(s, t, h.pubs)
       case None => t !in h.dir
       case Some(b) => t in h.dir && Settled(s, h.dir[t]) && s.content[h.dir[t]] == b
  }

  ghost predicate SnapsOk(s: State) {
    forall h, t :: h in s.history && t in s.targets ==> TargetOk(s, h, t)
  }

  ghost predicate ReaderOk(s: State, r: Reader) {
    && r.target in s.targets && r.pubs <= |s.log| && r.openedAt < s.time
    && (forall k :: 0 <= k < |s.log| ==> (k < r.pubs <==> s.log[k].at < r.openedAt))
    && match Register(s, r.target, r.pubs)
       case None => r.phase == Missing
       case Some(b) =>
         r.phase != Missing && Settled(s, r.inode) && s.content[r.inode] == b && AllFrom(b, r.pieces)
  }

  ghost predicate ReadersOk(s: State) {
    forall r :: r in s.readers ==> ReaderOk(s, r)
  }

  ghost predicate Inv(s: State) {
    && s.scheme == PerCall
    && FsOk(s) && CallsOk(s) && PairsOk(s) && TempsOk(s) && PubsOk(s) && SnapsOk(s) && ReadersOk(s)
  }

  // ----- At the start -----

  lemma InitInv(s: State)
    requires Init(s)
    ensures Inv(s)
  {
    hide TempShaped;
    forall h, t | h in s.history && t in s.targets
      ensures TargetOk(s, h, t)
    {
      assert h == Snapshot(s.dir, 0);
      assert t in s.dir <==> t in s.origin;
    }
  }

  // ----- Frames -----

  /** From `s` to `t` nothing that has been published, or will be reported about it, is undone. */
  ghost predicate Extends(s: State, t: State) {
    && t.targets == s.targets && t.origin == s.origin && t.scheme == s.scheme
    && s.log <= t.log && s.time < t.time && s.next <= t.next
    && (forall k :: |s.log| <= k < |t.log| ==> t.log[k].at >= s.time)
    && forall x: Inode :: Settled(s, x) ==> Settled(t, x) && t.content[x] == s.content[x]
  }

  lemma {:induction false} LastPubKept(log: seq<Publication>, more: seq<Publication>, target: Name, k: nat)
    requires k <= |log|
    ensures LastPub(log + more, target, k) == LastPub(log, target, k)
    decreases k
  {
    if k > 0 { LastPubKept(log, more, target, k - 1); }
  }

  /** The past of a register is never rewritten. */
  lemma RegisterKept(s: State, t: State, target: Name, k: nat)
    requires s.log <= t.log && s.origin == t.origin && k <= |s.log|
    ensures Register(t, target, k) == Register(s, target, k)
  {
    assert t.log == s.log + t.log[|s.log|..];
    LastPubKept(s.log, t.log[|s.log|..], target, k);
  }

  lemma SnapKept(s: State, t: State, h: Snapshot, n: Name)
    requires Extends(s, t) && TargetOk(s, h, n)
    ensures TargetOk(t, h, n)
  {
    hide Settled;
    RegisterKept(s, t, n, h.pubs);
  }

  lemma ReaderKept(s: State, t: State, r: Reader)
    requires Extends(s, t) && ReaderOk(s, r)
    ensures ReaderOk(t, r)
  {
    hide Settled;
    RegisterKept(s, t, r.target, r.pubs);
  }

  lemma ReadersKept(s: State, t: State)
    requires Extends(s, t) && ReadersOk(s) && t.readers == s.readers
    ensures ReadersOk(t)
  {
    hide Extends, ReaderOk;
    forall r | r in t.readers
      ensures ReaderOk(t, r)
    {
      ReaderKept(s, t, r);
    }
  }

  /** Old snapshots stay right; a new one has to be shown right. */
  lemma SnapsKept(s: State, t: State)
    requires Extends(s, t) && SnapsOk(s)
    requires forall h, n :: h in t.history && n in t.targets ==> h in s.history || TargetOk(t, h, n)
    ensures SnapsOk(t)
  {
    hide TargetOk;
    forall h, n | h in t.history && n in t.targets
      ensures TargetOk(t, h, n)
    {
      if h in s.history {
        assert TargetOk(s, h, n) by { assert n in s.targets; }
        SnapKept(s, t, h, n);
      }
    }
  }

  ghost predicate SameEntryOf(s: State, t: State, n: Name) {
    && (n in t.dir <==> n in s.dir)
    && (n in s.dir ==> t.dir[n] == s.dir[n])
    && (n in t.stale <==> n in s.stale)
  }

  /** What is needed of a step for it not to disturb a call it does not belong to. */
  ghost predicate Undisturbed(s: State, t: State, c: Call) {
    && (|| SameEntryOf(s, t, c.tmp)
        || (c.tmp in s.stale && c.tmp !in t.stale && c.tmp !in t.dir))
    && (c.inode.Some? && c.inode.value in s.content ==>
          c.inode.value in t.content && t.content[c.inode.value] == s.content[c.inode.value])
    && (c.inode.Some? ==> (c.inode.value in s.durable <==> c.inode.value in t.durable))
  }

  ghost predicate HistoryGrows(s: State, t: State) {
    forall h :: h in t.history ==> h in s.history || h.pubs >= |s.log|
  }

  lemma CallKept(s: State, t: State, i: nat)
    requires Extends(s, t) && HistoryGrows(s, t)
    requires i < |s.calls| && i < |t.calls| && t.calls[i] == s.calls[i]
    requires CallOk(s, i) && Undisturbed(s, t, s.calls[i])
    ensures CallOk(t, i)
  {
    hide Settled;
  }

  /** All calls but `c` are as they were. */
  lemma OtherCallsKept(s: State, t: State, c: nat)
    requires Extends(s, t) && HistoryGrows(s, t) && CallsOk(s)
    requires |s.calls| <= |t.calls|
    requires forall i :: 0 <= i < |s.calls| && i != c ==> t.calls[i] == s.calls[i] && Undisturbed(s, t, s.calls[i])
    ensures forall i :: 0 <= i < |s.calls| && i != c ==> CallOk(t, i)
  {
    hide Extends, HistoryGrows, Undisturbed, CallOk;
    forall i | 0 <= i < |s.calls| && i != c
      ensures CallOk(t, i)
    {
      CallKept(s, t, i);
    }
  }
}
