// Which file-transfer jobs report to Studio (src/abi_ft.cpp:262-346): exactly
// when the result callback has run by the time the thread has ended.
module JobOutcome {
  import opened Text
  import opened JobRunner

  // The thread of job i throws while the result is marked as delivered and the
  // callback is still to come.
  predicate ThrowsInBetween(s: State, l: Label, i: nat) {
    l == Run(i, Throw) && i < |s.jobs| && s.jobs[i].pc == Marked
  }

  // It does so somewhere in the run.
  predicate ThrewInBetween(s: State, labels: seq<Label>, i: nat)
    decreases |labels|
  {
    labels != [] &&
    (ThrowsInBetween(s, labels[0], i) ||
     (Step(s, labels[0]).Some? && ThrewInBetween(Step(s, labels[0]).value, labels[1..], i)))
  }

  // Behind such an exception, and only there, a finished job has not called.
  predicate Told(j: Job, lost: bool) {
    && (lost ==> j.finished && j.inCatch && j.calls == 0)
    && (j.hasCallback && j.finished && j.calls == 0 ==> lost || j.pc == Marked)
  }

  predicate AllTold(s: State, i: nat, lost: bool) {
    if i < |s.jobs| then Told(s.jobs[i], lost) && (lost ==> s.jobs[i].pc != Marked) else !lost
  }

  lemma OwnStepTold(s: State, i: nat, act: Act, lost: bool)
    requires Kept(s) && i < |s.jobs| && AllTold(s, i, lost) && Step(s, Run(i, act)).Some?
    requires !Step(s, Run(i, act)).value.terminated
    ensures AllTold(Step(s, Run(i, act)).value, i, lost || ThrowsInBetween(s, Run(i, act), i))
  {
    assert JobKept(s.jobs[i]);
  }

  lemma StepTold(s: State, l: Label, i: nat, lost: bool)
    requires Kept(s) && AllTold(s, i, lost) && Step(s, l).Some? && !Step(s, l).value.terminated
    ensures AllTold(Step(s, l).value, i, lost || ThrowsInBetween(s, l, i))
  {
    if l.Run? && l.job == i && i < |s.jobs| {
      OwnStepTold(s, i, l.act, lost);
    } else {
      OthersStep(s, l, i);
    }
  }

  // What the other steps leave of a job.
  lemma OthersStep(s: State, l: Label, i: nat)
    requires Kept(s) && Step(s, l).Some? && !Step(s, l).value.terminated && !(l.Run? && l.job == i && i < |s.jobs|)
    ensures var t := Step(s, l).value;
      if i < |s.jobs| then
        i < |t.jobs| && t.jobs[i].finished == s.jobs[i].finished && t.jobs[i].inCatch == s.jobs[i].inCatch &&
        t.jobs[i].calls == s.jobs[i].calls && t.jobs[i].hasCallback == s.jobs[i].hasCallback &&
        (t.jobs[i].pc == s.jobs[i].pc || (s.jobs[i].pc == Created && t.jobs[i].pc == Entering))
      else i < |t.jobs| ==> !t.jobs[i].finished
  {
    if i < |s.jobs| { assert JobKept(s.jobs[i]); }
  }

  lemma {:induction false} RunTold(s: State, labels: seq<Label>, i: nat, lost: bool)
    requires Kept(s) && !s.terminated && AllTold(s, i, lost) && After(s, labels).Some? && !After(s, labels).value.terminated
    ensures AllTold(After(s, labels).value, i, lost || ThrewInBetween(s, labels, i))
    decreases |labels|
  {
    hide Kept, AllTold, Step, ThrowsInBetween;
    if labels != [] {
      var t := Step(s, labels[0]).value;
      StillRunning(t, labels[1..]);
      StepKeeps(s, labels[0]);
      StepTold(s, labels[0], i, lost);
      RunTold(t, labels[1..], i, lost || ThrowsInBetween(s, labels[0], i));
    }
  }

  lemma StillRunning(s: State, labels: seq<Label>)
    requires After(s, labels).Some? && !After(s, labels).value.terminated
    ensures !s.terminated
  {
  }

  // When a thread has ended, its callback has run exactly once, unless there is
  // none, or the thread threw between marking the result as delivered and
  // calling; in particular exceptions before that are reported.
  lemma ReportedExactlyWhen(handles: nat, labels: seq<Label>, s: State, i: nat)
    requires handles > 0 && After(Initial(handles), labels) == Some(s) && !s.terminated && i < |s.jobs|
    requires s.jobs[i].pc == Ended
    ensures s.jobs[i].calls ==
      if s.jobs[i].hasCallback && !ThrewInBetween(Initial(handles), labels, i) then 1 else 0
  {
    RunKeeps(Initial(handles), labels);
    RunTold(Initial(handles), labels, i, false);
    assert JobKept(s.jobs[i]);
  }
}
