/** The log and the times in a state are a true account of the run that led to it. */
module ProtocolHistory {
  import opened Bytes
  import opened Prelude
  import opened TempNames
  import opened Protocol

  /** The renames a run makes, with the times they happen at. */
  function Renames(run: seq<Action>, time: nat): seq<(nat, nat)> {
    if run == [] then []
    else (if run[0].Rename? then [(run[0].c, time)] else []) + Renames(run[1..], time + 1)
  }

  function Entries(log: seq<Publication>): seq<(nat, nat)> {
    seq(|log|, k requires 0 <= k < |log| => (log[k].call, log[k].at))
  }

  lemma StepLog(s: State, a: Action)
    requires Enabled(s, a)
    ensures Step(s, a).time == s.time + 1
    ensures Entries(Step(s, a).log) == Entries(s.log) + if a.Rename? then [(a.c, s.time)] else []
  {
    hide TempName;
  }

  /** The log holds the renames that happened: each of them, in order, and nothing else. */
  lemma {:induction false} LogIsTheRenames(s: State, run: seq<Action>)
    requires Legal(s, run)
    ensures Entries(Exec(s, run).log) == Entries(s.log) + Renames(run, s.time)
    ensures Exec(s, run).time == s.time + |run|
    decreases |run|
  {
    hide Enabled, Step, Entries;
    if run != [] {
      StepLog(s, run[0]);
      LogIsTheRenames(Step(s, run[0]), run[1..]);
    }
  }

  /** The same call, perhaps further on. */
  predicate SameCall(c: Call, d: Call) {
    && c.pid == d.pid && c.target == d.target && c.nanos == d.nanos && c.counter == d.counter
    && c.tmp == d.tmp && c.started == d.started
  }

  ghost predicate ReturnTold(s: State, run: seq<Action>, c: Call, i: nat) {
    c.phase == ReturnedOk ==> s.time <= c.returned < s.time + |run| && run[c.returned - s.time] == ReturnOk(i)
  }

  /** From `s`, after `run`, to `t`: call `i` started and returned when its record says. */
  ghost predicate Told(s: State, run: seq<Action>, t: State, i: nat) {
    i < |t.calls| ==>
      var c := t.calls[i];
      if i < |s.calls| then
        && SameCall(s.calls[i], c)
        && (if s.calls[i].phase == ReturnedOk then c.phase == ReturnedOk && c.returned == s.calls[i].returned
            else ReturnTold(s, run, c, i))
      else
        && s.time <= c.started < s.time + |run|
        && run[c.started - s.time] == Start(c.pid, c.target, c.nanos)
        && ReturnTold(s, run, c, i)
  }

  lemma OldCallSame(s: State, a: Action, i: nat)
    requires Enabled(s, a) && i < |s.calls|
    ensures |s.calls| <= |Step(s, a).calls| && SameCall(s.calls[i], Step(s, a).calls[i])
  {
    hide TempFor, Count, Unread, AtEnd, Free;
  }

  lemma OldCallReturned(s: State, a: Action, i: nat)
    requires Enabled(s, a) && i < |s.calls| && i < |Step(s, a).calls|
    ensures var c, d := s.calls[i], Step(s, a).calls[i];
            if c.phase == ReturnedOk then d.phase == ReturnedOk && d.returned == c.returned
            else d.phase == ReturnedOk ==> d.returned == s.time && a == ReturnOk(i)
  {
    hide TempFor, Count, SameCall;
  }

  lemma StepTold(s: State, a: Action, i: nat)
    requires Enabled(s, a)
    ensures Told(s, [a], Step(s, a), i) && |s.calls| <= |Step(s, a).calls|
  {
    hide TempFor, Count;
    if i < |s.calls| {
      OldCallSame(s, a, i);
      OldCallReturned(s, a, i);
    }
  }

  /** The times in a call's record are those of its first and last steps. */
  lemma {:induction false} RecordsAreHistory(s: State, run: seq<Action>, i: nat)
    requires Legal(s, run)
    ensures Told(s, run, Exec(s, run), i) && |s.calls| <= |Exec(s, run).calls|
    decreases |run|
  {
    hide Enabled, Step;
    if run != [] {
      StepLog(s, run[0]);
      StepTold(s, run[0], i);
      RecordsAreHistory(Step(s, run[0]), run[1..], i);
      assert run == [run[0]] + run[1..];
    }
  }
}
