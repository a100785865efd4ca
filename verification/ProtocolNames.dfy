/** Counters keep temporary names apart, as long as they have not wrapped. */
module ProtocolNames {
  import opened Prelude
  import opened Bytes
  import opened TempNames
  import opened Protocol
  import opened ProtocolHistory
  import opened ProtocolSteps

  /** Each call's name is made of its process's counter, which no other call of that process has had. */
  ghost predicate NumberedCall(s: State, c: Call) {
    && c.tmp == TempName(c.target, c.pid, c.nanos, c.counter)
    && c.counter < Count(s.counters, c.pid)
  }

  ghost predicate Numbered(s: State) {
    && s.scheme == PerCall
    && (forall i :: 0 <= i < |s.calls| ==> NumberedCall(s, s.calls[i]))
    && (forall i, j :: 0 <= i < j < |s.calls| ==> Apart(s.calls[i], s.calls[j]))
  }

  predicate Apart(c: Call, d: Call) {
    c.pid == d.pid ==> c.counter != d.counter
  }

  lemma StartNumbered(s: State, pid: nat, target: Name, nanos: nat)
    requires Numbered(s) && Enabled(s, Start(pid, target, nanos)) && Count(s.counters, pid) < U64_LIMIT
    ensures Numbered(Step(s, Start(pid, target, nanos)))
  {
    hide TempName;
    var t := Step(s, Start(pid, target, nanos));
    forall i | 0 <= i < |t.calls|
      ensures NumberedCall(t, t.calls[i])
    {
      if i < |s.calls| { assert NumberedCall(s, s.calls[i]); }
    }
    forall i, j | 0 <= i < j < |t.calls|
      ensures Apart(t.calls[i], t.calls[j])
    {
      assert NumberedCall(s, s.calls[i]);
    }
  }

  lemma OtherStep(s: State, a: Action)
    requires Enabled(s, a) && !a.Start?
    ensures var t := Step(s, a);
            t.scheme == s.scheme && t.counters == s.counters && |t.calls| == |s.calls|
  {
    hide TempFor, Count;
  }

  lemma StepNumbered(s: State, a: Action)
    requires Numbered(s) && Enabled(s, a) && NotWrapped(Step(s, a))
    ensures Numbered(Step(s, a))
  {
    hide Enabled, Step, TempName;
    var t := Step(s, a);
    if a.Start? {
      StartCounts(s, a.pid, a.target, a.nanos);
      StartNumbered(s, a.pid, a.target, a.nanos);
    } else {
      OtherStep(s, a);
      forall i | 0 <= i < |s.calls|
        ensures SameCall(s.calls[i], t.calls[i]) && NumberedCall(t, t.calls[i])
      {
        OldCallSame(s, a, i);
        assert NumberedCall(s, s.calls[i]);
      }
      forall i, j | 0 <= i < j < |t.calls|
        ensures Apart(t.calls[i], t.calls[j])
      {
        assert Apart(s.calls[i], s.calls[j]);
      }
    }
  }

  lemma StartCounts(s: State, pid: nat, target: Name, nanos: nat)
    requires Enabled(s, Start(pid, target, nanos))
    ensures var t := Step(s, Start(pid, target, nanos));
            Count(t.counters, pid) == Count(s.counters, pid) + 1
  {
    hide TempFor;
  }

  lemma {:induction false} CountersGrow(s: State, run: seq<Action>)
    requires Legal(s, run)
    ensures forall p: nat :: Count(s.counters, p) <= Count(Exec(s, run).counters, p)
    decreases |run|
  {
    hide Enabled, Step;
    if run != [] {
      StepCounts(s, run[0]);
      CountersGrow(Step(s, run[0]), run[1..]);
    }
  }

  lemma StepCounts(s: State, a: Action)
    requires Enabled(s, a)
    ensures forall p: nat :: Count(s.counters, p) <= Count(Step(s, a).counters, p)
  {
    hide TempFor;
    if !a.Start? { OtherStep(s, a); }
  }

  lemma {:induction false} RunNumbered(s: State, run: seq<Action>)
    requires Numbered(s) && Legal(s, run) && NotWrapped(Exec(s, run))
    ensures Numbered(Exec(s, run))
    decreases |run|
  {
    hide Enabled, Step, Numbered;
    if run != [] {
      CountersGrow(Step(s, run[0]), run[1..]);
      StepNumbered(s, run[0]);
      RunNumbered(Step(s, run[0]), run[1..]);
    }
  }

  lemma NumberedApart(s: State)
    requires Numbered(s)
    ensures NamesApart(s)
  {
    hide TempName;
    forall i, j | 0 <= i < j < |s.calls|
      ensures s.calls[i].tmp != s.calls[j].tmp
    {
      var c, d := s.calls[i], s.calls[j];
      assert NumberedCall(s, c) && NumberedCall(s, d) && Apart(c, d);
      TempNameInjective(c.target, c.pid, c.nanos, c.counter, d.target, d.pid, d.nanos, d.counter);
    }
  }

  /** While no counter has wrapped, no two calls have the same name, whatever the clock says. */
  lemma UnwrappedIsReached(s0: State, run: seq<Action>, s: State)
    requires Init(s0) && Legal(s0, run) && s == Exec(s0, run) && NotWrapped(s)
    ensures ReachedBy(s0, run, s)
  {
    hide Legal, Exec;
    RunNumbered(s0, run);
    NumberedApart(s);
  }

  /** And a process that has counter values left will draw a new one, whatever the clock says then. */
  lemma UnwrappedNameIsNew(s0: State, run: seq<Action>, s: State, target: Name, pid: nat, nanos: nat)
    requires Init(s0) && Legal(s0, run) && s == Exec(s0, run) && NotWrapped(s)
    requires Count(s.counters, pid) < U64_LIMIT
    ensures NewName(s, NextTemp(s, target, pid, nanos))
  {
    hide Legal, Exec, TempName;
    RunNumbered(s0, run);
    forall i | 0 <= i < |s.calls|
      ensures s.calls[i].tmp != NextTemp(s, target, pid, nanos)
    {
      var c := s.calls[i];
      assert NumberedCall(s, c);
      TempNameInjective(c.target, c.pid, c.nanos, c.counter, target, pid, nanos, Count(s.counters, pid));
    }
  }
}
