/** Any number of crashes: each leaves a directory in which the next run starts. */
module CrashRecovery {
  import opened Bytes
  import opened Prelude
  import opened TempNames
  import opened Protocol
  import opened ProtocolInvariant
  import opened ProtocolSteps
  import opened ProtocolTheorems

  /** From one start to the next crash. */
  datatype Era = Era(start: State, run: seq<Action>, end: State)

  ghost predicate Restarted(s: State, t: State) {
    Init(t) && t.targets == s.targets && CrashLeaves(s, t.dir, t.content)
  }

  ghost predicate Eras(es: seq<Era>) {
    && |es| > 0
    && (forall i :: 0 <= i < |es| ==> ReachedBy(es[i].start, es[i].run, es[i].end))
    && (forall i :: 0 < i < |es| ==> Restarted(es[i - 1].end, es[i].start))
  }

  // ----- Starting again -----

  /** Directory entries point to files that exist, and unused inodes have no content. */
  ghost predicate SoundDisk(dir: map<Name, Inode>, disk: map<Inode, seq<byte>>, next: Inode) {
    && (forall n :: n in dir ==> dir[n] < next)
    && (forall i: Inode :: i in disk <==> i < next)
  }

  /** The state in which `atomic_write` finds a directory; temporary names left in it are stale. */
  ghost function Reboot(targets: set<Name>, dir: map<Name, Inode>, disk: map<Inode, seq<byte>>, next: Inode): State {
    State(PerCall, targets,
          (map t | t in targets && t in dir && dir[t] in disk :: disk[dir[t]]),
          (set n | n in dir && TempShaped(n)),
          dir, disk, disk.Keys, next, [Snapshot(dir, 0)], map[], [], [], [], 0)
  }

  /** Whatever a crash leaves, and whatever temporary files with it, the next run can start from. */
  lemma CanRestart(s0: State, run: seq<Action>, s: State, dir: map<Name, Inode>, disk: map<Inode, seq<byte>>, next: Inode)
    requires ReachedBy(s0, run, s) && CrashLeaves(s, dir, disk) && SoundDisk(dir, disk, next)
    ensures Restarted(s, Reboot(s.targets, dir, disk, next))
  {
    hide TempShaped, CallsOk, PairsOk, TempsOk, PubsOk, SnapsOk, ReadersOk, Legal, Exec;
    ReachableInv(s0, run, s);
  }

  // ----- Values -----

  function Now(s: State, target: Name): Option<seq<byte>> {
    Lookup(s.dir, s.content, target)
  }

  /** `v` is what rename number `j` of era `e` put onto `target`: the whole output of its call. */
  ghost predicate PutBy(es: seq<Era>, e: nat, j: nat, target: Name, v: Option<seq<byte>>) {
    && e < |es| && j < |es[e].end.log|
    && var s := es[e].end;
    && s.log[j].call < |s.calls|
    && var c := s.calls[s.log[j].call];
    && Published(c) && c.target == target && c.pub == j && v == Some(c.output)
  }

  /** `v` was in place at the very start, or was put in place by a call in an era up to `i`. */
  ghost predicate Whole(es: seq<Era>, i: nat, target: Name, v: Option<seq<byte>>) {
    || (|es| > 0 && v == Now(es[0].start, target))
    || exists e: nat, j: nat :: e <= i && PutBy(es, e, j, target, v)
  }

  /** `v` was put in place by rename `p` of era `e`, or by a later one up to era `i`. */
  ghost predicate NoOlder(es: seq<Era>, e: nat, p: nat, i: nat, target: Name, v: Option<seq<byte>>) {
    exists e': nat, j: nat :: e <= e' <= i && (e' == e ==> p <= j) && PutBy(es, e', j, target, v)
  }

  lemma RegisterPut(es: seq<Era>, i: nat, target: Name, k: nat)
    requires Eras(es) && i < |es| && target in es[i].end.targets && k <= |es[i].end.log|
    ensures var s := es[i].end;
            match LastPub(s.log, target, k)
            case None => Register(s, target, k) == Now(es[i].start, target)
            case Some(j) => PutBy(es, i, j, target, Register(s, target, k))
  {
    hide ReachedBy, Register, Restarted;
    RegisterIsOneOutput(es[i].start, es[i].run, es[i].end, target, k);
  }

  lemma TargetsKept(es: seq<Era>, i: nat)
    requires Eras(es) && i < |es|
    ensures es[i].end.targets == es[i].start.targets
    ensures i > 0 ==> es[i].start.targets == es[i - 1].end.targets
  {
    hide Init, CrashLeaves, NotWrapped;
    OriginKept(es[i].start, es[i].run);
  }

  /** What era `i` starts with is what the target held at some moment of the era before. */
  lemma StartsFromRegister(es: seq<Era>, i: nat, target: Name) returns (k: nat)
    requires Eras(es) && 0 < i < |es| && target in es[i].end.targets
    ensures target in es[i - 1].end.targets && k <= |es[i - 1].end.log|
    ensures Now(es[i].start, target) == Register(es[i - 1].end, target, k)
  {
    hide ReachedBy, Register, Init, CrashLeaves;
    TargetsKept(es, i);
    var s, t := es[i - 1].end, es[i].start;
    k := CrashLeavesWholeValue(es[i - 1].start, es[i - 1].run, s, t.dir, t.content, target);
  }

  lemma {:induction false} RegisterIsWhole(es: seq<Era>, i: nat, target: Name, k: nat)
    requires Eras(es) && i < |es| && target in es[i].end.targets && k <= |es[i].end.log|
    ensures Whole(es, i, target, Register(es[i].end, target, k))
    decreases i
  {
    hide Eras, Register, PutBy;
    RegisterPut(es, i, target, k);
    if LastPub(es[i].end.log, target, k).None? && i > 0 {
      var k' := StartsFromRegister(es, i, target);
      RegisterIsWhole(es, i - 1, target, k');
    }
  }

  /** However many crashes there were, the target holds its first content or the whole output of one call. */
  lemma AlwaysWhole(es: seq<Era>, i: nat, target: Name)
    requires Eras(es) && i < |es| && target in es[i].end.targets
    ensures Whole(es, i, target, Now(es[i].end, target))
  {
    hide ReachedBy, Register, Whole, Restarted;
    TargetIsRegister(es[i].start, es[i].run, es[i].end, target);
    RegisterIsWhole(es, i, target, |es[i].end.log|);
  }

  lemma SyncedAtNextStart(es: seq<Era>, e: nat, c: nat)
    requires Eras(es) && e + 1 < |es|
    requires c < |es[e].end.calls| && Published(es[e].end.calls[c]) && es[e].end.calls[c].dirSynced
    ensures var call := es[e].end.calls[c];
            NoOlder(es, e, call.pub, e, call.target, Now(es[e + 1].start, call.target))
  {
    hide ReachedBy, Register, Init, CrashLeaves, Inv;
    var s, t := es[e].end, es[e + 1].start;
    var target := s.calls[c].target;
    assert Restarted(s, t);
    var j := SyncedCallSurvivesCrash(es[e].start, es[e].run, s, t.dir, t.content, c);
    ReachableInv(es[e].start, es[e].run, s);
    LogEntry(s, j);
    assert PutBy(es, e, j, target, Some(s.log[j].bytes));
  }

  lemma LogEntry(s: State, j: nat)
    requires Inv(s) && j < |s.log|
    ensures s.log[j].call < |s.calls|
    ensures var c := s.calls[s.log[j].call];
            Published(c) && c.pub == j && c.target == s.log[j].target && c.output == s.log[j].bytes
  {
    hide FsOk, PairsOk, TempsOk, SnapsOk, ReadersOk, NameOk, OwnsOk, FileOk;
    assert CallOk(s, s.log[j].call);
  }

  /** A call whose directory sync succeeded is never undone, by any number of later crashes. */
  lemma {:induction false} SyncedIsForever(es: seq<Era>, e: nat, c: nat, i: nat, k: nat)
    requires Eras(es) && e < i < |es| && k <= |es[i].end.log|
    requires c < |es[e].end.calls| && Published(es[e].end.calls[c]) && es[e].end.calls[c].dirSynced
    requires es[e].end.calls[c].target in es[i].end.targets
    ensures var call := es[e].end.calls[c];
            NoOlder(es, e, call.pub, i, call.target, Register(es[i].end, call.target, k))
    decreases i
  {
    hide Eras, Register, PutBy;
    var call := es[e].end.calls[c];
    RegisterPut(es, i, call.target, k);
    if LastPub(es[i].end.log, call.target, k).None? {
      if i == e + 1 {
        SyncedAtNextStart(es, e, c);
      } else {
        var k' := StartsFromRegister(es, i, call.target);
        SyncedIsForever(es, e, c, i - 1, k');
      }
    }
  }
}
