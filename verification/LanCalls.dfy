// What one call of connect_printer, disconnect_printer or shutdown_lan_session
// (src/agent.cpp:178-358) has done by the time it returns, whatever the timer and CONNACKs do meanwhile.
module LanCalls {
  import opened Text
  import opened LanOwnership

  // The steps up to the first state in which the call has returned.
  predicate Finishes(s: State, labels: seq<Label>)
    decreases |labels|
  {
    if s.call == Idle then labels == []
    else labels != [] && Step(s, labels[0]).Some? && Finishes(Step(s, labels[0]).value, labels[1..])
  }

  // On the way the call came to this point and the outside answered so.
  predicate Answered(s: State, labels: seq<Label>, point: Call, choice: bool)
    decreases |labels|
  {
    labels != [] && Step(s, labels[0]).Some? &&
    ((s.call == point && labels[0] == Proceed(choice)) ||
     Answered(Step(s, labels[0]).value, labels[1..], point, choice))
  }

  function After(s: State, labels: seq<Label>): (t: State)
    requires Finishes(s, labels)
    ensures t.call == Idle
    decreases |labels|
  {
    if s.call == Idle then s else After(Step(s, labels[0]).value, labels[1..])
  }

  lemma {:induction false} AfterIsRun(s: State, labels: seq<Label>)
    requires Finishes(s, labels)
    ensures Run(s, labels) == Some(After(s, labels))
    decreases |labels|
  {
    if labels != [] {
      AfterIsRun(Step(s, labels[0]).value, labels[1..]);
    }
  }

  // The session x was taken once, and is disconnected, or the timer thread is
  // about to do that.
  ghost predicate Released(s: State, x: Session) {
    s.slot != Some(x) && s.takes[x] == 1 && s.drops[x] == (if s.timer == Holding(x) then 0 else 1)
  }

  lemma ReleasedUnlessHeld(s: State, x: Session)
    requires Ownership(s) && s.call == Idle && x in s.stored && s.slot != Some(x)
    ensures Released(s, x)
  {
    assert OwnedOnce(s, x);
  }

  lemma {:induction false} StoredStays(s: State, labels: seq<Label>, x: Session)
    requires Finishes(s, labels) && x in s.stored
    ensures x in After(s, labels).stored
    decreases |labels|
  {
    if labels != [] {
      StoredStays(Step(s, labels[0]).value, labels[1..], x);
    }
  }

  // What was in the slot before the call and is not there behind it.
  lemma OldSession(s: State, l: Label, labels: seq<Label>, x: Session)
    requires Ownership(s) && Discipline(s) && Step(s, l).Some? && Finishes(Step(s, l).value, labels)
    requires s.slot == Some(x) && After(Step(s, l).value, labels).slot != Some(x)
    ensures x < s.next && Released(After(Step(s, l).value, labels), x)
  {
    assert OwnedOnce(s, x);
    CallKeeps(s, l, labels);
    hide Ownership, Discipline;
    StoredStays(Step(s, l).value, labels, x);
    ReleasedUnlessHeld(After(Step(s, l).value, labels), x);
  }

  // ---- disconnect_printer ----

  // The end of a disconnect that does not wait, and of one whose thread cannot
  // be created.
  predicate Taking(s: State) { s.call == DisconnectTake || s.call == SpawnFailedTake || s.call.DisconnectDrop? || s.call == SpawnFailed }

  lemma {:induction false} TakingEmpties(s: State, labels: seq<Label>)
    requires Discipline(s) && Taking(s) && Finishes(s, labels)
    ensures After(s, labels).slot == None
    decreases |labels|
  {
    var t := Step(s, labels[0]).value;
    StepKeepsDiscipline(s, labels[0]);
    if t.call != Idle { TakingEmpties(t, labels[1..]); }
  }

  // With mqtt_keep_connection off a disconnect empties the slot, and the session
  // that was in it is disconnected, exactly once.
  lemma DisconnectEmpties(before: seq<Label>, labels: seq<Label>)
    requires Run(Start(), before).Some? && Run(Start(), before).value.call == Idle
    requires Finishes(Step(Run(Start(), before).value, CallDisconnect(false)).value, labels)
    ensures var s := Run(Start(), before).value;
      var t := After(Step(s, CallDisconnect(false)).value, labels);
      t.slot == None && (s.slot.Some? ==> Released(t, s.slot.value))
  {
    var s := Run(Start(), before).value;
    var s1 := Step(s, CallDisconnect(false)).value;
    RunKeeps(Start(), before);
    CallKeeps(s, CallDisconnect(false), labels);
    TakingEmpties(s1, labels);
    if s.slot.Some? {
      OldSession(s, CallDisconnect(false), labels, s.slot.value);
    }
  }

  lemma CallKeeps(s: State, l: Label, labels: seq<Label>)
    requires Ownership(s) && Discipline(s) && Step(s, l).Some? && Finishes(Step(s, l).value, labels)
    ensures var s1 := Step(s, l).value;
      Discipline(s1) && Ownership(After(s1, labels)) && Discipline(After(s1, labels))
  {
    StepKeepsOwnership(s, l);
    StepKeepsDiscipline(s, l);
    AfterIsRun(Step(s, l).value, labels);
    RunKeeps(Step(s, l).value, labels);
  }

  // Until the thread is created only an old timer takes the session; `lost` if
  // it did.
  predicate Deferring(s: State, slot: Option<Session>, lost: bool) {
    && (s.call == DisconnectCheck || s.call == ArmFlag || s.call == ArmJoin || s.call == Arm || s.call == Spawn)
    && (s.slot == slot || (lost && s.slot == None))
    && (s.call != DisconnectCheck ==> slot != None)
  }

  lemma {:induction false} DeferringLeads(s: State, labels: seq<Label>, slot: Option<Session>, lost: bool)
    requires Discipline(s) && Deferring(s, slot, lost) && Finishes(s, labels)
    ensures var t := After(s, labels);
      if t.slot == None then slot == None || lost || TimerTakes in labels || Answered(s, labels, Spawn, false)
      else t.slot == slot && t.timer == Waiting && Answered(s, labels, Spawn, true)
    decreases |labels|
  {
    var t, lost' := Step(s, labels[0]).value, lost || labels[0] == TimerTakes;
    StepKeepsDiscipline(s, labels[0]);
    assert labels == [labels[0]] + labels[1..];
    if Deferring(t, slot, lost') {
      DeferringLeads(t, labels[1..], slot, lost');
    } else if t.call != Idle {
      TakingEmpties(t, labels[1..]);
    }
  }

  // With it on, a disconnect returns with a new timer waiting for the session
  // that was there; the slot is empty only if it was, or an old timer took the
  // session, or the thread could not be created.
  lemma DisconnectDefers(before: seq<Label>, labels: seq<Label>)
    requires Run(Start(), before).Some? && Run(Start(), before).value.call == Idle
    requires Finishes(Step(Run(Start(), before).value, CallDisconnect(true)).value, labels)
    ensures var s := Run(Start(), before).value;
      var s1 := Step(s, CallDisconnect(true)).value;
      var t := After(s1, labels);
      if t.slot == None then
        s.slot.Some? ==> Released(t, s.slot.value) && (TimerTakes in labels || Answered(s1, labels, Spawn, false))
      else t.slot == s.slot && t.timer == Waiting && Answered(s1, labels, Spawn, true)
  {
    var s := Run(Start(), before).value;
    var s1 := Step(s, CallDisconnect(true)).value;
    RunKeeps(Start(), before);
    CallKeeps(s, CallDisconnect(true), labels);
    DeferringLeads(s1, labels, s.slot, false);
    if s.slot.Some? && After(s1, labels).slot == None {
      OldSession(s, CallDisconnect(true), labels, s.slot.value);
    }
  }

  // ---- shutdown_lan_session ----

  predicate ShuttingDown(s: State) {
    s.call == ShutdownFlag || s.call == ShutdownJoin ||
    ((s.call == ShutdownTake || (s.call.ShutdownDrop? && s.slot == None)) && s.timer == NoTimer)
  }

  lemma {:induction false} ShutdownLeads(s: State, labels: seq<Label>)
    requires Discipline(s) && ShuttingDown(s) && Finishes(s, labels)
    ensures var t := After(s, labels); t.slot == None && t.timer == NoTimer
    decreases |labels|
  {
    var t := Step(s, labels[0]).value;
    StepKeepsDiscipline(s, labels[0]);
    if t.call != Idle { ShutdownLeads(t, labels[1..]); }
  }

  // A shutdown returns with an empty slot, no timer thread, and every session
  // that ever was in the slot disconnected, exactly once.
  lemma ShutdownEmpties(before: seq<Label>, labels: seq<Label>, x: Session)
    requires Run(Start(), before).Some? && Run(Start(), before).value.call == Idle
    requires Finishes(Step(Run(Start(), before).value, CallShutdown).value, labels)
    ensures var t := After(Step(Run(Start(), before).value, CallShutdown).value, labels);
      t.slot == None && t.timer == NoTimer && (x in t.stored ==> t.takes[x] == 1 && t.drops[x] == 1)
  {
    var s := Run(Start(), before).value;
    RunKeeps(Start(), before);
    CallKeeps(s, CallShutdown, labels);
    var t := After(Step(s, CallShutdown).value, labels);
    ShutdownLeads(Step(s, CallShutdown).value, labels);
    if x in t.stored { ReleasedUnlessHeld(t, x); }
  }

  // ---- connect_printer ----

  datatype Outcome = Reused | Refused | Started

  // The state a connect leaves, from the one it found.
  ghost predicate Connected(s0: State, t: State, keep: bool, o: Outcome) {
    match o
    case Reused => keep && s0.slot.Some? && t.slot == s0.slot && t.next == s0.next && t.stored == s0.stored
    case Refused => t.slot == None && t.next == s0.next + 1 && t.stored == s0.stored
    case Started =>
      t.next == s0.next + 1 && t.stored == s0.stored + {s0.next} &&
      (t.slot == Some(s0.next) || (!keep && t.slot == None))
  }

  predicate Stopping(c: Call) { c == ConnectFlag || c == ConnectJoin || c == ConnectCheck }

  // Where the connect stands on the way there; `lost` if the timer has taken
  // the old session.
  ghost predicate OnTheWay(s0: State, s: State, keep: bool, lost: bool) {
    && (Stopping(s.call) ==> keep && (s.slot == s0.slot || (lost && s.slot == None)))
    && (s.call.ConnectReuse? ==> keep && s.slot == s0.slot)
    && (s.call.ConnectStore? ==> s.call.started == s0.next)
    && (keep ==> s.call == ConnectFlag || s.call == ConnectJoin || Quiet(s))
    && (s.call.ConnectDropDisplaced? ==>
          s.stored == s0.stored + {s0.next} && (s.slot == Some(s0.next) || (!keep && s.slot == None)))
    && (!s.call.ConnectDropDisplaced? ==> s.stored == s0.stored)
    && s.next == s0.next + (if s.call.ConnectStore? || s.call.ConnectDropDisplaced? then 1 else 0)
  }

  lemma OneStep(s0: State, s: State, keep: bool, lost: bool, l: Label)
    requires Discipline(s) && Connecting(s.call) && OnTheWay(s0, s, keep, lost) && Step(s, l).Some?
    ensures var t := Step(s, l).value;
      if t.call != Idle then Connecting(t.call) && OnTheWay(s0, t, keep, lost || l == TimerTakes)
      else if s.call.ConnectReuse? then Connected(s0, t, keep, Reused)
      else if s.call == ConnectStart then l == Proceed(false) && Connected(s0, t, keep, Refused)
      else s.call.ConnectDropDisplaced? && Connected(s0, t, keep, Started)
    ensures Step(s, l).value.call.ConnectReuse? && !s.call.ConnectReuse? ==> s.call == ConnectCheck && l == Proceed(true)
    ensures Step(s, l).value.call.ConnectStore? && !s.call.ConnectStore? ==> s.call == ConnectStart && l == Proceed(true)
    ensures Step(s, l).value.call.ConnectDropDisplaced? && !s.call.ConnectDropDisplaced? ==> s.call.ConnectStore?
    ensures !Stopping(s.call) ==> !Stopping(Step(s, l).value.call)
    ensures s.call == ConnectCheck && l == Proceed(true) && s0.slot.Some? && !lost ==> Step(s, l).value.call.ConnectReuse?
    ensures s.call.ConnectReuse? ==> Step(s, l).value.call == Idle || Step(s, l).value.call == s.call
  {
  }

  // The answer on which the outcome hangs; past it, the call only has to finish.
  ghost predicate Because(s: State, labels: seq<Label>, o: Outcome) {
    match o
    case Reused => s.call.ConnectReuse? || Answered(s, labels, ConnectCheck, true)
    case Refused => Answered(s, labels, ConnectStart, false)
    case Started => s.call.ConnectStore? || s.call.ConnectDropDisplaced? || Answered(s, labels, ConnectStart, true)
  }

  lemma {:induction false} ConnectLeads(s0: State, s: State, keep: bool, lost: bool, labels: seq<Label>)
    returns (o: Outcome)
    requires Discipline(s) && Connecting(s.call) && OnTheWay(s0, s, keep, lost) && Finishes(s, labels)
    ensures Connected(s0, After(s, labels), keep, o) && Because(s, labels, o)
    ensures !Stopping(s.call) ==> !Answered(s, labels, ConnectCheck, true)
    ensures s.call.ConnectReuse? ==> o == Reused
    ensures Answered(s, labels, ConnectCheck, true) && s0.slot.Some? && !lost && TimerTakes !in labels ==> o == Reused
    decreases |labels|
  {
    hide Step, OnTheWay, Connected, Discipline;
    var t := Step(s, labels[0]).value;
    StepKeepsDiscipline(s, labels[0]);
    OneStep(s0, s, keep, lost, labels[0]);
    assert labels == [labels[0]] + labels[1..];
    if t.call != Idle {
      o := ConnectLeads(s0, t, keep, lost || labels[0] == TimerTakes, labels[1..]);
    } else {
      o := if s.call.ConnectReuse? then Reused else if s.call == ConnectStart then Refused else Started;
    }
  }

  // A connect returns in one of three states: the old session was kept, which
  // takes the setting and a session connected to the same printer, and then is
  // what happens unless the timer takes it first; the new
  // session did not start and the slot is empty; or it did and is in the slot,
  // out of which only an old timer can have taken it, with the setting off.
  // The old session is gone and disconnected unless it was kept.
  lemma ConnectOutcome(before: seq<Label>, keep: bool, labels: seq<Label>) returns (o: Outcome)
    requires Run(Start(), before).Some? && Run(Start(), before).value.call == Idle
    requires Finishes(Step(Run(Start(), before).value, CallConnect(keep)).value, labels)
    ensures var s := Run(Start(), before).value;
      var s1 := Step(s, CallConnect(keep)).value;
      var t := After(s1, labels);
      && Connected(s, t, keep, o)
      && (o == Reused ==> Answered(s1, labels, ConnectCheck, true))
      && (o == Refused ==> Answered(s1, labels, ConnectStart, false))
      && (o == Started ==> Answered(s1, labels, ConnectStart, true))
      && (Answered(s1, labels, ConnectCheck, true) && s.slot.Some? && TimerTakes !in labels ==> o == Reused)
      && (o != Reused && s.slot.Some? ==> Released(t, s.slot.value))
  {
    var s := Run(Start(), before).value;
    var s1 := Step(s, CallConnect(keep)).value;
    RunKeeps(Start(), before);
    CallKeeps(s, CallConnect(keep), labels);
    assert s.slot.Some? ==> s.slot.value < s.next by {
      if s.slot.Some? { assert OwnedOnce(s, s.slot.value); }
    }
    o := ConnectLeads(s, s1, keep, false, labels);
    hide Ownership, Discipline, Released, Answered, Run, OnTheWay;
    if s.slot.Some? && o != Reused {
      OldSession(s, CallConnect(keep), labels, s.slot.value);
    }
  }
}
