/** `atomic_write` itself, running among other calls and programs. */
module AtomicWriter {
  import opened Bytes
  import opened Prelude
  import opened Format
  import opened TempNames
  import opened Protocol
  import opened ProtocolHistory
  import opened ProtocolInvariant
  import opened ProtocolSteps
  import opened ProtocolNames
  import opened ProtocolTheorems

  // ----- What the steps of others leave alone -----

  function Actor(a: Action): Option<nat> {
    match a
    case CreateNew(c) => Some(c)
    case WriteTemp(c, _) => Some(c)
    case ClosureOk(c) => Some(c)
    case Flush(c) => Some(c)
    case SyncAll(c) => Some(c)
    case DropHandle(c) => Some(c)
    case Rename(c) => Some(c)
    case SyncDir(c) => Some(c)
    case ReturnOk(c) => Some(c)
    case Fail(c) => Some(c)
    case RemoveFile(c) => Some(c)
    case RemoveFails(c) => Some(c)
    case _ => None
  }

  ghost predicate Alone(run: seq<Action>, i: nat) {
    forall a :: a in run ==> Actor(a) != Some(i)
  }

  /** What call `i` knows about itself and its file. */
  ghost predicate Kept(s: State, t: State, i: nat) {
    && i < |s.calls| && i < |t.calls| && t.calls[i] == s.calls[i] && s.time <= t.time
    && (s.calls[i].inode.Some? && s.calls[i].inode.value in s.content ==> SameFile(s, t, s.calls[i].inode.value))
  }

  predicate SameFile(s: State, t: State, x: Inode)
    requires x in s.content
  {
    x in t.content && t.content[x] == s.content[x]
  }

  lemma StepKeeps(s: State, a: Action, i: nat)
    requires Inv(s) && Enabled(s, a) && i < |s.calls| && Actor(a) != Some(i)
    ensures Kept(s, Step(s, a), i)
  {
    hide CallsOk, TempsOk, PubsOk, SnapsOk, ReadersOk, TempFor, Count, TempShaped, FsOk;
    assert i < |Step(s, a).calls| && Step(s, a).calls[i] == s.calls[i];
    if s.calls[i].inode.Some? && s.calls[i].inode.value in s.content {
      FileKept(s, a, i);
    }
  }

  lemma FileKept(s: State, a: Action, i: nat)
    requires Inv(s) && Enabled(s, a) && i < |s.calls| && Actor(a) != Some(i)
    requires s.calls[i].inode.Some? && s.calls[i].inode.value in s.content
    ensures SameFile(s, Step(s, a), s.calls[i].inode.value)
  {
    hide CallsOk, TempsOk, PubsOk, SnapsOk, ReadersOk, TempFor, Count, TempShaped;
    if a.WriteTemp? {
      assert PairOk(s.calls[i], s.calls[a.c]);
    }
  }

  /** However many steps others take. */
  lemma {:induction false} RunKeeps(s: State, run: seq<Action>, i: nat)
    requires Inv(s) && Legal(s, run) && NamesApart(Exec(s, run)) && i < |s.calls| && Alone(run, i)
    ensures Kept(s, Exec(s, run), i)
    decreases |run|
  {
    hide Inv, Enabled, Step, NamesApart;
    if run != [] {
      ApartBefore(Step(s, run[0]), run[1..]);
      assert Actor(run[0]) != Some(i);
      StepKeeps(s, run[0], i);
      StepInv(s, run[0]);
      RunKeeps(Step(s, run[0]), run[1..], i);
    }
  }

  lemma {:induction false} LegalAppend(s: State, run: seq<Action>, more: seq<Action>)
    requires Legal(s, run) && Legal(Exec(s, run), more)
    ensures Legal(s, run + more) && Exec(s, run + more) == Exec(Exec(s, run), more)
    decreases |run|
  {
    hide Enabled, Step;
    if run == [] {
      assert run + more == more;
    } else {
      assert (run + more)[1..] == run[1..] + more;
      LegalAppend(Step(s, run[0]), run[1..], more);
    }
  }

  lemma EnabledOnce(s: State, a: Action)
    requires Enabled(s, a)
    ensures Legal(s, [a]) && Exec(s, [a]) == Step(s, a)
  {
    hide Enabled, Step;
    assert Legal(Step(s, a), [][..]);
    assert [a][1..] == [];
  }

  // ----- The machine the call runs on -----

  /** The file system and everything running on it, with the run that led here. */
  class Machine {
    ghost var origin: State
    ghost var run: seq<Action>
    ghost var now: State

    ghost predicate Valid() reads this {
      ReachedBy(origin, run, now)
    }

    constructor (ghost start: State)
      requires Init(start)
      ensures Valid() && origin == start && run == [] && now == start
    {
      origin, run, now := start, [], start;
      new;
      NoSteps(start);
    }

    ghost method Do(a: Action)
      requires Valid() && Enabled(now, a)
      requires a.Start? ==> NewName(now, NextTemp(now, a.target, a.pid, a.nanos))
      modifies this
      ensures Valid() && origin == old(origin) && run == old(run) + [a]
      ensures now == Step(old(now), a)
    {
      hide Enabled, Init, Legal, Exec, NamesApart;
      EnabledOnce(now, a);
      LegalAppend(origin, run, [a]);
      StaysApart(now, a);
      run := run + [a];
      now := Step(now, a);
    }

    /** Others take any number of steps, call `i` none. */
    ghost method Others(i: nat)
      requires Valid() && i < |now.calls|
      modifies this
      ensures Valid() && origin == old(origin) && old(run) <= run && Alone(run[|old(run)|..], i)
      ensures Kept(old(now), now, i)
    {
      hide Init, Legal, Exec, Kept, Inv, NamesApart;
      ghost var more: seq<Action> := AnyOf(now, i);
      LegalAppend(origin, run, more);
      ReachableInv(origin, run, now);
      RunKeeps(now, more, i);
      run := run + more;
      now := Exec(now, more);
    }

    /**
      Others take any number of steps after which the name of call `i` is free. Before an exclusive
      creation that succeeds, that is what happened: if a leftover had the name, somebody tidied it up.
     */
    ghost method OthersUntilFree(i: nat)
      requires Valid() && Is(now, i, Named)
      modifies this
      ensures Valid() && origin == old(origin) && old(run) <= run && Alone(run[|old(run)|..], i)
      ensures Kept(old(now), now, i) && now.calls[i].tmp !in now.dir
    {
      hide Init, Legal, Exec, Kept, Inv, NamesApart;
      ReachableInv(origin, run, now);
      ghost var more: seq<Action> := AnyFreeing(now, i);
      LegalAppend(origin, run, more);
      RunKeeps(now, more, i);
      run := run + more;
      now := Exec(now, more);
    }
  }

  lemma StaysApart(s: State, a: Action)
    requires NamesApart(s) && Enabled(s, a)
    requires a.Start? ==> NewName(s, NextTemp(s, a.target, a.pid, a.nanos))
    ensures NamesApart(Step(s, a))
  {
    hide TempFor, Count;
    if a.Start? {
      NewIsNew(s, Step(s, a), Step(s, a).calls[|s.calls|]);
    } else {
      OtherStaysApart(s, a);
    }
  }

  lemma OtherStaysApart(s: State, a: Action)
    requires NamesApart(s) && Enabled(s, a) && !a.Start?
    ensures NamesApart(Step(s, a))
  {
    hide Enabled, Step;
    OtherStep(s, a);
    forall i, j | 0 <= i < j < |s.calls|
      ensures Step(s, a).calls[i].tmp != Step(s, a).calls[j].tmp
    {
      OldCallSame(s, a, i);
      OldCallSame(s, a, j);
    }
  }

  /** Some steps of others, nobody knows which. */
  ghost method AnyOf(s: State, i: nat) returns (more: seq<Action>)
    requires NamesApart(s)
    ensures Legal(s, more) && NamesApart(Exec(s, more)) && Alone(more, i)
  {
    assert Legal(s, []) && NamesApart(Exec(s, [])) && Alone([], i);
    more :| Legal(s, more) && NamesApart(Exec(s, more)) && Alone(more, i);
  }

  /** Some steps of others that leave the name of call `i` free. */
  ghost method AnyFreeing(s: State, i: nat) returns (more: seq<Action>)
    requires Inv(s) && NamesApart(s) && Is(s, i, Named)
    ensures Legal(s, more) && NamesApart(Exec(s, more)) && Alone(more, i)
    ensures i < |Exec(s, more).calls| && Exec(s, more).calls[i].tmp !in Exec(s, more).dir
  {
    hide Inv, NamesApart, Step, Enabled;
    ghost var tidy := Tidying(s, i);
    more :| Legal(s, more) && NamesApart(Exec(s, more)) && Alone(more, i)
         && i < |Exec(s, more).calls| && Exec(s, more).calls[i].tmp !in Exec(s, more).dir;
  }

  /** There are such steps: a leftover can be tidied up. */
  lemma Tidying(s: State, i: nat) returns (more: seq<Action>)
    requires Inv(s) && NamesApart(s) && Is(s, i, Named)
    ensures Legal(s, more) && NamesApart(Exec(s, more)) && Alone(more, i)
    ensures i < |Exec(s, more).calls| && Exec(s, more).calls[i].tmp !in Exec(s, more).dir
  {
    hide FsOk, PairsOk, TempsOk, PubsOk, SnapsOk, ReadersOk, NamesApart, Legal, Exec, NameOk, LogOk;
    var tmp := s.calls[i].tmp;
    assert CallOk(s, i);
    if tmp in s.dir {
      more := [OthersRemove(tmp)];
      EnabledOnce(s, OthersRemove(tmp));
      StaysApart(s, OthersRemove(tmp));
    } else {
      more := [];
      NoSteps(s);
    }
  }

  lemma NoSteps(s: State)
    ensures Legal(s, []) && Exec(s, []) == s
  {
  }

  // ----- The call -----

  function Concat(chunks: seq<seq<byte>>): seq<byte> {
    if chunks == [] then [] else Concat(chunks[..|chunks| - 1]) + chunks[|chunks| - 1]
  }

  /** Call `i` of `s` is in `phase`, has created its file, and has written `bytes` into it. */
  ghost predicate At(s: State, i: nat, phase: Phase, bytes: seq<byte>) {
    && i < |s.calls| && s.calls[i].phase == phase && s.calls[i].inode.Some?
    && s.calls[i].inode.value in s.content && s.content[s.calls[i].inode.value] == bytes
  }

  /**
    Which system calls fail during one call, for whatever reason: `create` also when a leftover has the
    name; `write` is the chunk whose writing fails.
   */
  datatype Faults = Faults(
    create: bool, write: Option<nat>, flush: bool, sync: bool, rename: bool, syncDir: bool, remove: bool)

  /**
    The closure, as far as the file system sees it: it writes `chunks` one after another, one of which
    may fail part of the way, and then returns `outcome`.
   */
  method RunClosure(m: Machine, ghost i: nat, chunks: seq<seq<byte>>, outcome: Outcome<()>, write: Option<nat>)
    returns (r: Outcome<()>)
    requires m.Valid() && At(m.now, i, Opened, [])
    modifies m
    ensures m.Valid() && m.origin == old(m.origin) && old(m.run) <= m.run
    ensures i < |m.now.calls| && SameCall(old(m.now.calls[i]), m.now.calls[i])
    ensures Is(m.now, i, Opened) && m.now.calls[i].inode.Some? && (r.Ok? ==> At(m.now, i, Opened, Concat(chunks)))
    ensures write.Some? && write.value < |chunks| ==> r == Err(Io)
    ensures write.None? || write.value >= |chunks| ==> r == outcome
  {
    hide Step, Enabled, ReachedBy;
    var k := 0;
    while k < |chunks|
      invariant k <= |chunks| && m.Valid() && At(m.now, i, Opened, Concat(chunks[..k]))
      invariant m.origin == old(m.origin) && old(m.run) <= m.run
      invariant SameCall(old(m.now.calls[i]), m.now.calls[i])
      invariant write.Some? ==> k <= write.value || |chunks| <= write.value
    {
      m.Others(i);
      if write == Some(k) {
        ghost var partly: seq<byte> := *;
        Writes(m.now, i, partly);
        m.Do(WriteTemp(i, partly));
        return Err(Io);
      }
      assert chunks[..k + 1][..k] == chunks[..k];
      Writes(m.now, i, Concat(chunks[..k + 1]));
      m.Do(WriteTemp(i, Concat(chunks[..k + 1])));
      k := k + 1;
    }
    assert chunks[..k] == chunks;
    return outcome;
  }

  lemma Writes(s: State, i: nat, bytes: seq<byte>)
    requires Is(s, i, Opened) && s.calls[i].inode.Some?
    ensures Enabled(s, WriteTemp(i, bytes))
    ensures At(Step(s, WriteTemp(i, bytes)), i, Opened, bytes)
    ensures Step(s, WriteTemp(i, bytes)).calls == s.calls
  {
  }

  /** What the next step of call `i` does to it. */
  lemma Advances(s: State, i: nat, bytes: seq<byte>)
    requires i < |s.calls|
    ensures At(s, i, Opened, bytes) ==>
              Enabled(s, ClosureOk(i)) && At(Step(s, ClosureOk(i)), i, Filled, bytes)
              && Step(s, ClosureOk(i)).calls[i] == s.calls[i].(phase := Filled, output := bytes)
    ensures At(s, i, Filled, bytes) ==>
              Enabled(s, Flush(i)) && At(Step(s, Flush(i)), i, Flushed, bytes)
              && Step(s, Flush(i)).calls[i] == s.calls[i].(phase := Flushed)
    ensures At(s, i, Flushed, bytes) ==>
              Enabled(s, SyncAll(i)) && At(Step(s, SyncAll(i)), i, Synced, bytes)
              && Step(s, SyncAll(i)).calls[i] == s.calls[i].(phase := Synced)
    ensures At(s, i, Synced, bytes) ==>
              Enabled(s, DropHandle(i)) && At(Step(s, DropHandle(i)), i, Closed, bytes)
              && Step(s, DropHandle(i)).calls[i] == s.calls[i].(phase := Closed)
  {
  }

  lemma NoFileYet(s: State, i: nat)
    requires Inv(s) && Is(s, i, Named)
    ensures s.calls[i].inode.None?
  {
    hide FsOk, PairsOk, TempsOk, PubsOk, SnapsOk, ReadersOk, NameOk, OwnsOk, LogOk;
    assert CallOk(s, i);
  }

  lemma Fails(s: State, i: nat)
    requires i < |s.calls| && s.calls[i].phase in {Named, Opened, Filled, Flushed, Closed}
    ensures Enabled(s, Fail(i)) && Step(s, Fail(i)).calls == s.calls[i := s.calls[i].(phase := Failed)]
  {
  }

  lemma Creates(s: State, i: nat)
    requires Inv(s) && Is(s, i, Named) && s.calls[i].tmp !in s.dir
    ensures Enabled(s, CreateNew(i)) && At(Step(s, CreateNew(i)), i, Opened, [])
    ensures SameCall(Step(s, CreateNew(i)).calls[i], s.calls[i])
  {
    hide PairsOk, TempsOk, PubsOk, SnapsOk, ReadersOk, FsOk, TempName;
    assert CallOk(s, i);
  }

  lemma Renames(s: State, i: nat)
    requires Inv(s) && Is(s, i, Closed)
    ensures Enabled(s, Rename(i)) && Is(Step(s, Rename(i)), i, Renamed)
    ensures SameCall(Step(s, Rename(i)).calls[i], s.calls[i])
    ensures Step(s, Rename(i)).calls[i].output == s.calls[i].output && !Step(s, Rename(i)).calls[i].dirSynced
  {
    hide PairsOk, TempsOk, PubsOk, SnapsOk, ReadersOk, FsOk, TempName;
    assert CallOk(s, i);
  }

  lemma Syncs(s: State, i: nat)
    requires Is(s, i, Renamed)
    ensures Enabled(s, SyncDir(i))
    ensures Step(s, SyncDir(i)).calls == s.calls[i := s.calls[i].(dirSynced := true)]
  {
  }

  /** A step has failed; cleanup is all that is left to do. */
  ghost method GiveUp(m: Machine, i: nat)
    requires m.Valid() && i < |m.now.calls| && m.now.calls[i].phase in {Named, Opened, Filled, Flushed, Closed}
    modifies m
    ensures m.Valid() && m.origin == old(m.origin) && old(m.run) <= m.run
    ensures Is(m.now, i, Failed) && SameCall(old(m.now.calls[i]), m.now.calls[i])
    ensures m.now.calls[i].inode == old(m.now.calls[i].inode)
  {
    hide Step, Enabled, ReachedBy;
    Fails(m.now, i);
    m.Do(Fail(i));
  }

  /** The closure has succeeded: flush the file. */
  method FlushFile(m: Machine, ghost i: nat, ghost bytes: seq<byte>, fails: bool) returns (r: Outcome<()>)
    requires m.Valid() && At(m.now, i, Opened, bytes)
    modifies m
    ensures m.Valid() && m.origin == old(m.origin) && old(m.run) <= m.run
    ensures i < |m.now.calls| && SameCall(old(m.now.calls[i]), m.now.calls[i])
    ensures r == if fails then Err(Io) else Ok(())
    ensures r.Ok? ==> At(m.now, i, Flushed, bytes) && m.now.calls[i].output == bytes
    ensures r.Err? ==> Is(m.now, i, Failed) && m.now.calls[i].inode.Some?
  {
    hide Step, Enabled, ReachedBy, Inv;
    Advances(m.now, i, bytes);
    m.Do(ClosureOk(i));
    m.Others(i);
    if fails {
      GiveUp(m, i);
      return Err(Io);
    }
    Advances(m.now, i, bytes);
    m.Do(Flush(i));
    return Ok(());
  }

  /** Once flushed: sync the file and drop its handle. */
  method SyncFile(m: Machine, ghost i: nat, ghost bytes: seq<byte>, fails: bool) returns (r: Outcome<()>)
    requires m.Valid() && At(m.now, i, Flushed, bytes)
    modifies m
    ensures m.Valid() && m.origin == old(m.origin) && old(m.run) <= m.run
    ensures i < |m.now.calls| && SameCall(old(m.now.calls[i]), m.now.calls[i])
    ensures r == if fails then Err(Io) else Ok(())
    ensures r.Ok? ==> At(m.now, i, Closed, bytes) && m.now.calls[i].output == old(m.now.calls[i].output)
    ensures r.Err? ==> Is(m.now, i, Failed) && m.now.calls[i].inode.Some?
  {
    hide Step, Enabled, ReachedBy, Inv;
    m.Others(i);
    if fails {
      GiveUp(m, i);
      return Err(Io);
    }
    Advances(m.now, i, bytes);
    m.Do(SyncAll(i));
    m.Others(i);
    Advances(m.now, i, bytes);
    m.Do(DropHandle(i));
    return Ok(());
  }

  /** Rename the file onto the target, then sync the directory if that can be done. */
  method Commit(m: Machine, ghost i: nat, ghost bytes: seq<byte>, faults: Faults) returns (r: Outcome<()>)
    requires m.Valid() && At(m.now, i, Closed, bytes)
    modifies m
    ensures m.Valid() && m.origin == old(m.origin) && old(m.run) <= m.run
    ensures i < |m.now.calls| && SameCall(old(m.now.calls[i]), m.now.calls[i])
    ensures r == if faults.rename then Err(Io) else Ok(())
    ensures r.Ok? ==> Is(m.now, i, Renamed) && m.now.calls[i].output == old(m.now.calls[i].output)
    ensures r.Ok? ==> m.now.calls[i].dirSynced == !faults.syncDir
    ensures r.Err? ==> Is(m.now, i, Failed) && m.now.calls[i].inode.Some?
  {
    hide Step, Enabled, ReachedBy, Inv;
    m.Others(i);
    if faults.rename {
      GiveUp(m, i);
      return Err(Io);
    }
    ReachableInv(m.origin, m.run, m.now);
    Renames(m.now, i);
    m.Do(Rename(i));
    m.Others(i);

    if !faults.syncDir {
      Syncs(m.now, i);
      m.Do(SyncDir(i));
    }
    return Ok(());
  }

  lemma UnitOk(r: Outcome<()>)
    ensures r.Ok? ==> r == Ok(())
  {
    if r.Ok? {
      match r.value
      case () =>
    }
  }

  /** Create the temporary file, which fails if its name is taken. */
  method Create(m: Machine, ghost i: nat, fails: bool) returns (r: Outcome<()>)
    requires m.Valid() && Is(m.now, i, Named)
    modifies m
    ensures m.Valid() && m.origin == old(m.origin) && old(m.run) <= m.run
    ensures i < |m.now.calls| && SameCall(old(m.now.calls[i]), m.now.calls[i])
    ensures r == if fails then Err(Io) else Ok(())
    ensures r.Ok? ==> At(m.now, i, Opened, [])
    ensures r.Err? ==> Is(m.now, i, Failed) && m.now.calls[i].inode.None?
  {
    hide Step, Enabled, ReachedBy, Inv;
    if fails {
      m.Others(i);
      ReachableInv(m.origin, m.run, m.now);
      NoFileYet(m.now, i);
      GiveUp(m, i);
      return Err(Io);
    }
    m.OthersUntilFree(i);
    ReachableInv(m.origin, m.run, m.now);
    Creates(m.now, i);
    m.Do(CreateNew(i));
    return Ok(());
  }

  lemma SameIsSame()
    ensures forall c, d, e :: SameCall(c, d) && SameCall(d, e) ==> SameCall(c, e)
  {
  }

  /** The steps from creating the temporary file to syncing the directory; the first failure ends them. */
  method Replace(m: Machine, ghost i: nat, chunks: seq<seq<byte>>, outcome: Outcome<()>, faults: Faults)
    returns (r: Outcome<()>)
    requires m.Valid() && Is(m.now, i, Named)
    modifies m
    ensures m.Valid() && m.origin == old(m.origin) && old(m.run) <= m.run
    ensures i < |m.now.calls| && SameCall(old(m.now.calls[i]), m.now.calls[i])
    ensures faults.create ==> r == Err(Io)
    ensures !faults.create && faults.write.Some? && faults.write.value < |chunks| ==> r == Err(Io)
    ensures !faults.create && (faults.write.None? || faults.write.value >= |chunks|) ==>
              && (!outcome.Ok? ==> r == outcome)
              && (outcome.Ok? && (faults.flush || faults.sync || faults.rename) ==> r == Err(Io))
              && (outcome.Ok? && !faults.flush && !faults.sync && !faults.rename ==> r == Ok(()))
    ensures r.Ok? ==> Is(m.now, i, Renamed) && m.now.calls[i].output == Concat(chunks)
    ensures r.Ok? ==> m.now.calls[i].dirSynced == !faults.syncDir
    ensures r.Err? ==> Is(m.now, i, Failed) && (m.now.calls[i].inode.Some? <==> !faults.create)
    ensures r.Panic? ==> Is(m.now, i, Opened)
  {
    hide Step, Enabled, ReachedBy, Inv, SameCall;
    SameIsSame();
    r := Create(m, i, faults.create);
    if !r.Ok? { return; }
    r := RunClosure(m, i, chunks, outcome, faults.write);
    if r.Panic? { return; }
    UnitOk(r);
    if r.Err? {
      GiveUp(m, i);
      return;
    }
    r := FlushFile(m, i, Concat(chunks), faults.flush);
    if !r.Ok? { return; }
    r := SyncFile(m, i, Concat(chunks), faults.sync);
    if r.Ok? {
      r := Commit(m, i, Concat(chunks), faults);
    }
  }

  lemma Returns(s: State, i: nat)
    requires Is(s, i, Renamed)
    ensures Enabled(s, ReturnOk(i))
    ensures Step(s, ReturnOk(i)).calls == s.calls[i := s.calls[i].(phase := ReturnedOk, returned := s.time)]
    ensures Step(s, ReturnOk(i)).log == s.log
  {
  }

  /** Cleanup that fails leaves the call's file behind, if it has one; cleanup that does not leaves nothing. */
  lemma CleansUp(s: State, i: nat)
    requires Inv(s) && Is(s, i, Failed)
    ensures Enabled(s, RemoveFails(i))
    ensures var t := Step(s, RemoveFails(i));
            && t.dir == s.dir && Is(t, i, ReturnedErr) && SameCall(s.calls[i], t.calls[i])
            && (t.calls[i].leaked <==> s.calls[i].inode.Some?)
    ensures s.calls[i].tmp in s.dir ==>
              && Enabled(s, RemoveFile(i))
              && var t := Step(s, RemoveFile(i));
              && s.calls[i].tmp !in t.dir && Is(t, i, ReturnedErr) && SameCall(s.calls[i], t.calls[i])
  {
    hide FsOk, PairsOk, TempsOk, PubsOk, SnapsOk, ReadersOk, NameOk, LogOk;
    assert CallOk(s, i);
  }

  /** `remove_file`, whatever comes of it. */
  method CleanUp(m: Machine, ghost i: nat, fails: bool)
    requires m.Valid() && Is(m.now, i, Failed)
    modifies m
    ensures m.Valid() && m.origin == old(m.origin) && old(m.run) <= m.run
    ensures Is(m.now, i, ReturnedErr) && SameCall(old(m.now.calls[i]), m.now.calls[i])
    ensures !fails ==> m.now.calls[i].tmp !in m.now.dir
    ensures fails ==> (m.now.calls[i].leaked <==> old(m.now.calls[i].inode.Some?))
  {
    hide Step, Enabled, ReachedBy, Inv;
    ReachableInv(m.origin, m.run, m.now);
    CleansUp(m.now, i);
    if !fails && m.now.calls[i].tmp in m.now.dir {
      m.Do(RemoveFile(i));
    } else {
      m.Do(RemoveFails(i));
    }
  }

  lemma Begins(s: State, pid: nat, target: Name, nanos: nat)
    requires target in s.targets && nanos < U64_LIMIT
    ensures Enabled(s, Start(pid, target, nanos))
    ensures var t := Step(s, Start(pid, target, nanos));
            && |t.calls| == |s.calls| + 1 && Is(t, |s.calls|, Named)
            && var c := t.calls[|s.calls|];
            c.pid == pid && c.target == target && c.nanos == nanos && c.started == s.time
  {
    hide TempFor, Count;
  }

  /** What a call leaves behind. */
  lemma Outcomes(s0: State, run: seq<Action>, s: State, i: nat)
    requires ReachedBy(s0, run, s) && i < |s.calls|
    ensures var c := s.calls[i];
            && (c.phase in {ReturnedErr, Opened} ==> forall k :: 0 <= k < |s.log| ==> s.log[k].call != i)
            && (c.phase == ReturnedErr ==> (c.tmp in s.dir <==> c.leaked || c.tmp in s.stale))
            && (c.phase == ReturnedOk ==> c.tmp !in s.dir)
            && (c.phase == Opened ==> c.tmp in s.dir)
  {
    hide FsOk, PairsOk, TempsOk, SnapsOk, ReadersOk, NameOk, LogOk, Init, Legal, Exec, NamesApart;
    ReachableInv(s0, run, s);
    assert CallOk(s, i);
  }

  /**
    Write a file atomically. The closure writes `chunks` and returns `outcome`; others may do anything
    between any two steps. The call returns the first failure up to the rename: an I/O error if it is a
    system call's, the closure's own error if it is the closure that gives up. Ok means that the target held exactly the chunks from one moment on, between
    the start and the return of this call; otherwise it never held anything of this call's. The temporary
    name remains after an error exactly if removal failed and there was something to remove, the call's
    file or a leftover; it always remains after a panic of the closure, which no cleanup follows.
   */
  method AtomicWrite(m: Machine, pid: nat, target: Name, nanos: nat, chunks: seq<seq<byte>>, outcome: Outcome<()>,
                     faults: Faults)
    returns (r: Outcome<()>, ghost i: nat)
    requires m.Valid() && target in m.now.targets && nanos < U64_LIMIT
    requires NewName(m.now, NextTemp(m.now, target, pid, nanos))
    modifies m
    ensures m.Valid() && m.origin == old(m.origin) && old(m.run) <= m.run
    ensures i == |old(m.now.calls)| < |m.now.calls|
    ensures m.now.calls[i].pid == pid && m.now.calls[i].target == target
    ensures m.now.calls[i].started == old(m.now.time)
    ensures faults.create ==> r == Err(Io)
    ensures !faults.create && faults.write.Some? && faults.write.value < |chunks| ==> r == Err(Io)
    ensures !faults.create && (faults.write.None? || faults.write.value >= |chunks|) ==>
              && (!outcome.Ok? ==> r == outcome)
              && (outcome.Ok? && (faults.flush || faults.sync || faults.rename) ==> r == Err(Io))
              && (outcome.Ok? && !faults.flush && !faults.sync && !faults.rename ==> r == Ok(()))
    ensures r.Ok? ==>
              && m.now.calls[i].phase == ReturnedOk
              && var k := m.now.calls[i].pub;
              && k < |m.now.log|
              && m.now.log[k] == Publication(i, target, Concat(chunks), m.now.log[k].at)
              && old(m.now.time) < m.now.log[k].at < m.now.calls[i].returned
    ensures r.Ok? ==> m.now.calls[i].dirSynced == !faults.syncDir && m.now.calls[i].tmp !in m.now.dir
    ensures !r.Ok? ==> forall k :: 0 <= k < |m.now.log| ==> m.now.log[k].call != i
    ensures r.Err? ==>
              && m.now.calls[i].phase == ReturnedErr
              && var tmp := m.now.calls[i].tmp;
              (tmp in m.now.dir <==> faults.remove && (!faults.create || tmp in m.now.stale))
    ensures r.Panic? ==> Is(m.now, i, Opened) && m.now.calls[i].tmp in m.now.dir
  {
    hide Step, Enabled, ReachedBy, Inv;
    i := |m.now.calls|;
    Begins(m.now, pid, target, nanos);
    m.Do(Start(pid, target, nanos));
    r := Replace(m, i, chunks, outcome, faults);
    m.Others(i);
    if r.Err? {
      CleanUp(m, i, faults.remove);
    } else if r.Ok? {
      Returns(m.now, i);
      m.Do(ReturnOk(i));
      RenameWithinCall(m.origin, m.run, m.now, i);
    }
    Outcomes(m.origin, m.run, m.now, i);
  }
}
