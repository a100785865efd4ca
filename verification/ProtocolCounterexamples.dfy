/** Runs that show why the protocol is as it is: what goes wrong without one of its parts. */
module ProtocolCounterexamples {
  import opened Bytes
  import opened Prelude
  import opened TempNames
  import opened Protocol
  import opened ProtocolTheorems

  const DATA: Name := "data"

  /** An empty directory and one target in it that does not exist yet. */
  function Empty(scheme: Scheme): State {
    State(scheme, {DATA}, map[], {}, map[], map[], {}, 0, [Snapshot(map[], 0)], map[], [], [], [], 0)
  }

  lemma RunStep(s: State, a: Action, rest: seq<Action>)
    requires Enabled(s, a) && Legal(Step(s, a), rest)
    ensures Legal(s, [a] + rest) && Exec(s, [a] + rest) == Exec(Step(s, a), rest)
  {
    hide Enabled, Step;
    assert ([a] + rest)[1..] == rest;
  }

  lemma TwoOldStarts(pid: nat, nanos: nat, nanos': nat) returns (s: State)
    requires nanos < U64_LIMIT && nanos' < U64_LIMIT
    ensures Legal(Empty(PerProcess), [Start(pid, DATA, nanos)] + [Start(pid, DATA, nanos')])
    ensures s == Exec(Empty(PerProcess), [Start(pid, DATA, nanos)] + [Start(pid, DATA, nanos')])
    ensures s.dir == map[] && |s.calls| == 2 && Is(s, 0, Named) && Is(s, 1, Named)
    ensures s.calls[0].tmp == s.calls[1].tmp
  {
    hide OldTempName, TempName;
    var s0 := Empty(PerProcess);
    var s1 := Step(s0, Start(pid, DATA, nanos));
    s := Step(s1, Start(pid, DATA, nanos'));
    assert Legal(s, []) && Exec(s, []) == s;
    RunStep(s1, Start(pid, DATA, nanos'), []);
    assert [Start(pid, DATA, nanos')] + [] == [Start(pid, DATA, nanos')];
    RunStep(s0, Start(pid, DATA, nanos), [Start(pid, DATA, nanos')]);
  }

  /**
    With one temporary name per process: while one call is at work, another call's exclusive creation
    cannot succeed, and its cleanup then removes the first call's temporary file, which that call can
    no longer rename.
   */
  lemma OldSchemeRemovesAnothersFile(pid: nat, nanos: nat, nanos': nat)
    requires nanos < U64_LIMIT && nanos' < U64_LIMIT
    ensures var starts := [Start(pid, DATA, nanos)] + [Start(pid, DATA, nanos')];
            && Legal(Empty(PerProcess), starts)
            && var s := Exec(Empty(PerProcess), starts);
            && Enabled(s, CreateNew(0))
            && var t := Step(s, CreateNew(0));
            && !Enabled(t, CreateNew(1)) && Enabled(t, Fail(1))
            && Enabled(Step(t, Fail(1)), RemoveFile(1))
            && var u := Step(Step(t, Fail(1)), RemoveFile(1));
            && Is(u, 0, Opened) && u.calls[0].tmp !in u.dir
  {
    hide Legal, Exec, Empty;
    var s := TwoOldStarts(pid, nanos, nanos');
  }

  // ----- A leftover in the way -----

  /** The file an earlier run has left behind is in the directory, and nothing else. */
  function WithLeftover(tmp: Name): State {
    State(PerCall, {DATA}, map[], {tmp}, map[tmp := 0], map[0 := []], {0}, 1, [Snapshot(map[tmp := 0], 0)],
          map[], [], [], [], 0)
  }

  lemma TempHasDot(name: Name)
    requires TempShaped(name)
    ensures '.' in name
  {
    hide Decimal;
    var file: Name, pid: nat, nanos: nat, counter: nat :| name == TempName(file, pid, nanos, counter);
    assert name[|file|] == '.';
  }

  lemma IsTempName(file: Name, pid: nat, nanos: nat, counter: nat)
    ensures TempShaped(TempName(file, pid, nanos, counter))
  {
    hide TempName;
  }

  lemma LeftoverIsInitial(tmp: Name)
    requires TempShaped(tmp)
    ensures Init(WithLeftover(tmp)) && DATA != tmp
  {
    hide TempShaped;
    TempHasDot(tmp);
    if TempShaped(DATA) { TempHasDot(DATA); }
    var s := WithLeftover(tmp);
    assert forall t :: t in s.targets ==> t !in s.dir;
  }

  lemma LeftoverBlocks(tmp: Name, pid: nat, nanos: nat)
    requires nanos < U64_LIMIT && tmp == TempName(DATA, pid, nanos, 0)
    ensures var s0 := WithLeftover(tmp);
            && Enabled(s0, Start(pid, DATA, nanos))
            && var s := Step(s0, Start(pid, DATA, nanos));
            && Is(s, 0, Named) && s.calls[0].tmp == tmp && s.stale == {tmp} && s.dir == map[tmp := 0]
  {
    hide TempName, TempShaped;
  }

  lemma BlockedCleansUp(s: State, tmp: Name)
    requires Is(s, 0, Named) && s.calls[0].tmp == tmp && s.dir == map[tmp := 0]
    ensures !Enabled(s, CreateNew(0)) && Enabled(s, Fail(0))
    ensures Enabled(Step(s, Fail(0)), RemoveFile(0))
    ensures Step(Step(s, Fail(0)), RemoveFile(0)).dir == map[]
  {
  }

  /**
    The first call of a process can draw that file's name, when the pid and the clock reading are those
    of the call that left it. It cannot create its file, and its cleanup removes the leftover.
   */
  lemma LeftoverInTheWay(pid: nat, nanos: nat)
    requires nanos < U64_LIMIT
    ensures var s0 := WithLeftover(TempName(DATA, pid, nanos, 0));
            && Init(s0) && Enabled(s0, Start(pid, DATA, nanos))
            && var s := Step(s0, Start(pid, DATA, nanos));
            && Is(s, 0, Named) && s.calls[0].tmp in s.stale
            && !Enabled(s, CreateNew(0)) && Enabled(s, Fail(0))
            && Enabled(Step(s, Fail(0)), RemoveFile(0))
            && Step(Step(s, Fail(0)), RemoveFile(0)).dir == map[]
  {
    hide TempName, TempShaped, Init, Enabled, Step, WithLeftover;
    var tmp := TempName(DATA, pid, nanos, 0);
    IsTempName(DATA, pid, nanos, 0);
    LeftoverIsInitial(tmp);
    LeftoverBlocks(tmp, pid, nanos);
    BlockedCleansUp(Step(WithLeftover(tmp), Start(pid, DATA, nanos)), tmp);
  }
}
