// Who owns the LAN session (src/agent.cpp:120-198, 200-356, 552-567). The slot
// lan_session_, the flag deferred_dc_active_ and the grace-timer thread change
// in steps, each one critical section or one action between two of them. One
// call of connect, disconnect or shutdown runs at a time; timer and CONNACK
// steps come in between at any point.
module LanOwnership {
  import opened Text

  type Session = nat

  // The timer thread: its program point, Finished until it is joined.
  datatype Timer = NoTimer | Waiting | Expired | Holding(session: Session) | Finished

  // What the running call does next.
  datatype Call =
    | Idle
    // connect_printer
    | ConnectFlag | ConnectJoin | ConnectCheck | ConnectReuse(session: Session)
    | ConnectTake | ConnectDrop(prev: Option<Session>) | ConnectStart
    | ConnectStore(started: Session) | ConnectDropDisplaced(displaced: Option<Session>)
    // disconnect_printer, with schedule_deferred_disconnect
    | DisconnectCheck | ArmFlag | ArmJoin | Arm | Spawn | SpawnFailed | SpawnFailedTake
    | DisconnectTake | DisconnectDrop(prev: Option<Session>)
    // shutdown_lan_session
    | ShutdownFlag | ShutdownJoin | ShutdownTake | ShutdownDrop(prev: Option<Session>)

  // takes and drops are the history: how often a session was moved out of the
  // slot and how often it was disconnected; stored, which were ever in it.
  datatype State = State(
    slot: Option<Session>, active: bool, timer: Timer, call: Call, next: Session,
    takes: multiset<Session>, drops: multiset<Session>, stored: set<Session>)

  function Start(): State {
    State(None, false, NoTimer, Idle, 0, multiset{}, multiset{}, {})
  }

  // A step; `choice` is what the outside decides: whether the session in the
  // slot is connected to the same printer, whether start() succeeds, whether
  // the thread can be created.
  datatype Label =
    | CallConnect(keep: bool) | CallDisconnect(keep: bool) | CallShutdown
    | Proceed(choice: bool)
    | TimerWakes | TimerExpires | TimerTakes | TimerDrops
    | Connack

  function Taken(s: State): State {
    s.(slot := None, takes := if s.slot.Some? then s.takes + multiset{s.slot.value} else s.takes)
  }

  function Dropped(s: State, x: Option<Session>): State {
    if x.Some? then s.(drops := s.drops + multiset{x.value}) else s
  }

  // join(): possible once the thread has finished, or when there is none.
  predicate Joinable(t: Timer) { t == NoTimer || t == Finished }

  // The next step of the running call; None when it has to wait.
  function ProceedStep(s: State, choice: bool): Option<State> {
    match s.call
    case Idle => None
    case ConnectFlag => Some(s.(active := false, call := ConnectJoin))
    case ConnectJoin => if Joinable(s.timer) then Some(s.(timer := NoTimer, call := ConnectCheck)) else None
    case ConnectCheck =>
      Some(s.(call := if s.slot.Some? && choice then ConnectReuse(s.slot.value) else ConnectTake))
    case ConnectReuse(_) => Some(s.(active := false, call := Idle))
    case ConnectTake => Some(Taken(s).(call := ConnectDrop(s.slot)))
    case ConnectDrop(prev) => Some(Dropped(s, prev).(call := ConnectStart))
    case ConnectStart =>
      Some(s.(next := s.next + 1, call := if choice then ConnectStore(s.next) else Idle))
    case ConnectStore(x) =>
      Some(Taken(s).(slot := Some(x), stored := s.stored + {x}, call := ConnectDropDisplaced(s.slot)))
    case ConnectDropDisplaced(displaced) => Some(Dropped(s, displaced).(call := Idle))
    case DisconnectCheck => Some(s.(call := if s.slot.Some? then ArmFlag else DisconnectTake))
    case ArmFlag => Some(s.(active := false, call := ArmJoin))
    case ArmJoin => if Joinable(s.timer) then Some(s.(timer := NoTimer, call := Arm)) else None
    case Arm => Some(s.(active := true, call := Spawn))
    case Spawn => Some(if choice then s.(timer := Waiting, call := Idle) else s.(call := SpawnFailed))
    case SpawnFailed => Some(s.(active := false, call := SpawnFailedTake))
    case SpawnFailedTake => Some(Taken(s).(call := DisconnectDrop(s.slot)))
    case DisconnectTake => Some(Taken(s).(call := DisconnectDrop(s.slot)))
    case DisconnectDrop(prev) => Some(Dropped(s, prev).(call := Idle))
    case ShutdownFlag => Some(s.(active := false, call := ShutdownJoin))
    case ShutdownJoin => if Joinable(s.timer) then Some(s.(timer := NoTimer, call := ShutdownTake)) else None
    case ShutdownTake => Some(Taken(s).(call := ShutdownDrop(s.slot)))
    case ShutdownDrop(prev) => Some(Dropped(s, prev).(call := Idle))
  }

  function TimerStep(s: State, l: Label): Option<State> {
    match (l, s.timer)
    case (TimerWakes, Waiting) => if s.active then None else Some(s.(timer := Finished))
    case (TimerExpires, Waiting) => if s.active then Some(s.(active := false, timer := Expired)) else None
    case (TimerTakes, Expired) =>
      Some(Taken(s).(timer := if s.slot.Some? then Holding(s.slot.value) else Finished))
    case (TimerDrops, Holding(x)) => Some(Dropped(s, Some(x)).(timer := Finished))
    case _ => None
  }

  function Step(s: State, l: Label): Option<State> {
    match l
    case CallConnect(keep) => if s.call == Idle then Some(s.(call := if keep then ConnectFlag else ConnectTake)) else None
    case CallDisconnect(keep) => if s.call == Idle then Some(s.(call := if keep then DisconnectCheck else DisconnectTake)) else None
    case CallShutdown => if s.call == Idle then Some(s.(call := ShutdownFlag)) else None
    case Proceed(choice) => ProceedStep(s, choice)
    case Connack => Some(s.(active := false))
    case _ => TimerStep(s, l)
  }

  // The state after a sequence of steps; None when one of them cannot happen.
  function Run(s: State, labels: seq<Label>): Option<State>
    decreases |labels|
  {
    if labels == [] then Some(s)
    else
      match Step(s, labels[0])
      case None => None
      case Some(s') => Run(s', labels[1..])
  }

  // ---- Ownership ----

  predicate CallHolds(c: Call, x: Session) {
    match c
    case ConnectDrop(p) => p == Some(x)
    case ConnectDropDisplaced(p) => p == Some(x)
    case DisconnectDrop(p) => p == Some(x)
    case ShutdownDrop(p) => p == Some(x)
    case _ => false
  }

  predicate TimerHolds(t: Timer, x: Session) { t == Holding(x) }

  function Count(b: bool): nat { if b then 1 else 0 }

  // Every session is in the slot, with exactly one party that took it out, or
  // taken out and disconnected, once each.
  ghost predicate OwnedOnce(s: State, x: Session) {
    s.takes[x] == s.drops[x] + Count(CallHolds(s.call, x)) + Count(TimerHolds(s.timer, x)) &&
    s.takes[x] + Count(s.slot == Some(x)) == Count(x in s.stored)
  }

  ghost predicate Ownership(s: State) {
    && (forall x :: OwnedOnce(s, x))
    && (forall x :: x in s.stored ==> x < s.next)
    && (s.call.ConnectStore? ==> s.call.started < s.next && s.call.started !in s.stored)
  }

  // Where the timer can be while a call runs.
  predicate AfterJoin(c: Call) {
    c.ConnectCheck? || c.ConnectReuse? || c.Arm? || c.Spawn? || c.SpawnFailed? || c.SpawnFailedTake? ||
    c.ShutdownTake? || c.ShutdownDrop?
  }

  predicate Discipline(s: State) {
    && (AfterJoin(s.call) ==> s.timer == NoTimer)
    && (s.call.DisconnectDrop? ==> s.slot == None)
    && (s.call.ConnectDrop? || s.call.ConnectStart? || s.call.ConnectStore? ==> s.slot == None)
    && (s.call.ConnectDropDisplaced? ==> s.call.displaced == None)
    && (s.call.ConnectReuse? ==> s.slot == Some(s.call.session) && !s.active)
    && (s.call.ShutdownDrop? ==> s.slot == None)
    && (s.timer == Expired || s.timer.Holding? ==> !s.active)
    && (s.active ==> s.timer == Waiting || s.call == Spawn || s.call == SpawnFailed)
  }

  lemma ProceedOwns(s: State, choice: bool, x: Session)
    requires Ownership(s) && Discipline(s) && ProceedStep(s, choice).Some? && OwnedOnce(s, x)
    ensures OwnedOnce(ProceedStep(s, choice).value, x)
  {
    if Connecting(s.call) {
      ConnectOwns(s, choice, x);
    }
  }

  lemma ConnectOwns(s: State, choice: bool, x: Session)
    requires Ownership(s) && Discipline(s) && ProceedStep(s, choice).Some? && OwnedOnce(s, x) && Connecting(s.call)
    ensures OwnedOnce(ProceedStep(s, choice).value, x)
  {
  }

  lemma TimerOwns(s: State, l: Label, x: Session)
    requires TimerStep(s, l).Some? && OwnedOnce(s, x)
    ensures OwnedOnce(TimerStep(s, l).value, x)
  {
  }

  lemma StepKeepsOwnership(s: State, l: Label)
    requires Ownership(s) && Discipline(s) && Step(s, l).Some?
    ensures Ownership(Step(s, l).value)
  {
    var s' := Step(s, l).value;
    forall x ensures OwnedOnce(s', x) {
      assert OwnedOnce(s, x);
      if l.Proceed? {
        ProceedOwns(s, l.choice, x);
      } else if TimerStep(s, l).Some? {
        TimerOwns(s, l, x);
      }
    }
  }

  lemma StepKeepsDiscipline(s: State, l: Label)
    requires Discipline(s) && Step(s, l).Some?
    ensures Discipline(Step(s, l).value)
  {
    if l.Proceed? {
      ProceedKeepsDiscipline(s, l.choice);
    }
  }

  predicate Connecting(c: Call) {
    c.ConnectFlag? || c.ConnectJoin? || c.ConnectCheck? || c.ConnectReuse? || c.ConnectTake? || c.ConnectDrop? ||
    c.ConnectStart? || c.ConnectStore? || c.ConnectDropDisplaced?
  }

  lemma ProceedKeepsDiscipline(s: State, choice: bool)
    requires Discipline(s) && ProceedStep(s, choice).Some?
    ensures Discipline(ProceedStep(s, choice).value)
  {
    if Connecting(s.call) {
      ConnectKeepsDiscipline(s, choice);
    } else {
      OthersKeepDiscipline(s, choice);
    }
  }

  lemma ConnectKeepsDiscipline(s: State, choice: bool)
    requires Discipline(s) && ProceedStep(s, choice).Some? && Connecting(s.call)
    ensures Discipline(ProceedStep(s, choice).value)
  {
  }

  lemma OthersKeepDiscipline(s: State, choice: bool)
    requires Discipline(s) && ProceedStep(s, choice).Some? && !Connecting(s.call)
    ensures Discipline(ProceedStep(s, choice).value)
  {
  }

  lemma {:induction false} RunKeeps(s: State, labels: seq<Label>)
    requires Ownership(s) && Discipline(s) && Run(s, labels).Some?
    ensures var t := Run(s, labels).value; Ownership(t) && Discipline(t)
    decreases |labels|
  {
    if labels != [] {
      StepKeepsOwnership(s, labels[0]);
      StepKeepsDiscipline(s, labels[0]);
      RunKeeps(Step(s, labels[0]).value, labels[1..]);
    }
  }

  // Over every run: a session that left the slot was taken by exactly one
  // party, and has been disconnected exactly once unless that party is about
  // to do so; a session in the slot was neither taken nor disconnected.
  lemma EveryRun(labels: seq<Label>, x: Session)
    requires Run(Start(), labels).Some?
    ensures var s := Run(Start(), labels).value;
      x in s.stored ==>
        if s.slot == Some(x) then s.takes[x] == 0 && s.drops[x] == 0
        else s.takes[x] == 1 && s.drops[x] == 1 - Count(CallHolds(s.call, x) || TimerHolds(s.timer, x))
    ensures var s := Run(Start(), labels).value;
      x !in s.stored ==> s.takes[x] == 0 && s.drops[x] == 0
  {
    RunKeeps(Start(), labels);
    var s := Run(Start(), labels).value;
    assert OwnedOnce(s, x);
  }

  // shutdown_lan_session returns with an empty slot, no timer thread, and
  // every session that was ever in the slot disconnected exactly once.
  lemma ShutdownReleasesAll(labels: seq<Label>, x: Session)
    requires Run(Start(), labels).Some? && Run(Start(), labels).value.call.ShutdownDrop?
    ensures var s := Dropped(Run(Start(), labels).value, Run(Start(), labels).value.call.prev);
      s.slot == None && s.timer == NoTimer && (x in s.stored ==> s.takes[x] == 1 && s.drops[x] == 1)
  {
    RunKeeps(Start(), labels);
    assert OwnedOnce(Run(Start(), labels).value, x);
  }

  // With one call at a time nothing is ever displaced from the slot, and a
  // new timer thread is never assigned over one that was not joined.
  lemma CallsDoNotCollide(labels: seq<Label>)
    requires Run(Start(), labels).Some?
    ensures var s := Run(Start(), labels).value;
      (s.call.ConnectDropDisplaced? ==> s.call.displaced == None) && (s.call.Spawn? ==> s.timer == NoTimer)
  {
    RunKeeps(Start(), labels);
  }

  // ---- The grace timer ----

  // No timer is created along the way.
  predicate NoSpawn(s: State, labels: seq<Label>)
    decreases |labels|
  {
    labels == [] ||
    (!(labels[0].Proceed? && s.call.Spawn?) &&
     (Step(s, labels[0]).Some? ==> NoSpawn(Step(s, labels[0]).value, labels[1..])))
  }

  // No timer thread has anything left to take.
  predicate Quiet(s: State) {
    s.timer == NoTimer || s.timer == Finished || (s.timer == Waiting && !s.active && s.call != Spawn)
  }

  lemma {:induction false} QuietStays(s: State, labels: seq<Label>)
    requires Discipline(s) && Quiet(s) && NoSpawn(s, labels) && Run(s, labels).Some?
    ensures Quiet(Run(s, labels).value) && Discipline(Run(s, labels).value)
    decreases |labels|
  {
    if labels != [] {
      StepKeepsDiscipline(s, labels[0]);
      QuietStep(s, labels[0]);
      QuietStays(Step(s, labels[0]).value, labels[1..]);
    }
  }

  lemma QuietStep(s: State, l: Label)
    requires Discipline(s) && Quiet(s) && !(l.Proceed? && s.call.Spawn?) && Step(s, l).Some?
    ensures Quiet(Step(s, l).value)
  {
  }

  // A session reported as reused is in the slot, and no timer armed earlier
  // can take it: until a new timer is created no timer holds any session or
  // is able to take one.
  lemma ReusedIsSafe(before: seq<Label>, after: seq<Label>)
    requires Run(Start(), before).Some? && Run(Start(), before).value.call.ConnectReuse?
    requires NoSpawn(Run(Start(), before).value, after) && Run(Run(Start(), before).value, after).Some?
    ensures var s := Run(Start(), before).value;
      var t := Run(s, after).value;
      s.slot == Some(s.call.session) &&
      TimerStep(t, TimerTakes) == None && !t.timer.Holding?
  {
    RunKeeps(Start(), before);
    QuietStays(Run(Start(), before).value, after);
  }

  // Along the run, with no new timer, the present one takes x.
  ghost predicate TimerMayTake(s: State, x: Session) {
    exists labels :: NoSpawn(s, labels) && Run(s, labels).Some? && Run(s, labels).value.timer == Holding(x)
  }

  // A CONNACK disarms a pending teardown exactly when the timer has not run
  // out: in between its running out and its taking the session, the session
  // that has just connected is still torn down.
  lemma ConnackDisarmsExactlyWhen(s: State, x: Session)
    requires Discipline(s) && s.slot == Some(x) && s.call == Idle && (s.timer == Waiting || s.timer == Expired)
    ensures !TimerMayTake(Step(s, Connack).value, x) <==> s.timer == Waiting
  {
    var t := Step(s, Connack).value;
    StepKeepsDiscipline(s, Connack);
    if s.timer == Waiting {
      forall labels | NoSpawn(t, labels) && Run(t, labels).Some? ensures Run(t, labels).value.timer != Holding(x) {
        QuietStays(t, labels);
      }
    } else {
      var take := [TimerTakes];
      assert take[1..] == [] && Run(t, take) == TimerStep(t, TimerTakes);
      assert NoSpawn(t, take);
    }
  }

  // The second case is reachable: connect, disconnect, the timer runs out,
  // CONNACK arrives, and the session is disconnected nevertheless.
  lemma ConnackCanComeTooLate() returns (labels: seq<Label>)
    ensures Run(Start(), labels).Some?
    ensures var s := Run(Start(), labels).value;
      s.call == Idle && s.timer == Expired && s.slot == Some(0) && Discipline(s)
    ensures var s := Step(Run(Start(), labels).value, Connack).value;
      Step(s, TimerTakes).Some? && Step(Step(s, TimerTakes).value, TimerDrops).Some? &&
      Step(Step(s, TimerTakes).value, TimerDrops).value.drops[0] == 1
  {
    var s;
    labels, s := FirstConnect();
    labels, s := ThenExpiry(labels, s);
    RunKeeps(Start(), labels);
  }

  lemma FirstConnect() returns (labels: seq<Label>, s: State)
    ensures Run(Start(), labels) == Some(s) && s == Start().(slot := Some(0), next := 1, stored := {0})
  {
    labels, s := FirstStart();
    labels, s := Then(Start(), labels, s, Proceed(true));
    labels, s := Then(Start(), labels, s, Proceed(true));
    labels, s := Then(Start(), labels, s, Proceed(true));
  }

  lemma FirstStart() returns (labels: seq<Label>, s: State)
    ensures Run(Start(), labels) == Some(s) && s == Start().(call := ConnectStart)
  {
    labels, s := [], Start();
    labels, s := Then(Start(), labels, s, CallConnect(true));
    labels, s := Then(Start(), labels, s, Proceed(true));
    labels, s := Then(Start(), labels, s, Proceed(true));
    labels, s := Then(Start(), labels, s, Proceed(true));
    labels, s := Then(Start(), labels, s, Proceed(true));
    labels, s := Then(Start(), labels, s, Proceed(true));
  }

  lemma ThenExpiry(before: seq<Label>, connected: State) returns (labels: seq<Label>, s: State)
    requires Run(Start(), before) == Some(connected)
    requires connected.call == Idle && connected.timer == NoTimer && connected.slot.Some?
    ensures Run(Start(), labels) == Some(s) && s == connected.(timer := Expired, active := false)
  {
    labels, s := ThenArmed(before, connected);
    labels, s := Then(Start(), labels, s, Proceed(true));
    labels, s := Then(Start(), labels, s, Proceed(true));
    labels, s := Then(Start(), labels, s, TimerExpires);
  }

  lemma ThenArmed(before: seq<Label>, connected: State) returns (labels: seq<Label>, s: State)
    requires Run(Start(), before) == Some(connected)
    requires connected.call == Idle && connected.timer == NoTimer && connected.slot.Some?
    ensures Run(Start(), labels) == Some(s) && s == connected.(call := Arm, active := false)
  {
    labels, s := Then(Start(), before, connected, CallDisconnect(true));
    labels, s := Then(Start(), labels, s, Proceed(true));
    labels, s := Then(Start(), labels, s, Proceed(true));
    labels, s := Then(Start(), labels, s, Proceed(true));
  }

  lemma Then(s0: State, labels: seq<Label>, s: State, l: Label) returns (more: seq<Label>, t: State)
    requires Run(s0, labels) == Some(s) && Step(s, l).Some?
    ensures Run(s0, more) == Some(t) && t == Step(s, l).value
  {
    more, t := labels + [l], Step(s, l).value;
    RunConcat(s0, labels, [l]);
    assert [l][1..] == [];
  }

  // ---- A connect after the configuration has changed ----

  // A session started from now on can be taken by the timer there is.
  ghost predicate NewSessionMayBeTaken(s: State) {
    exists labels :: NoSpawn(s, labels) && Run(s, labels).Some? && TakesSince(Run(s, labels).value, s.next)
  }

  predicate TakesSince(s: State, n: Session) { s.timer.Holding? && s.timer.session >= n }

  // With mqtt_keep_connection a connect first stops and joins the timer, without
  // it does not: when a timer is armed, the session about to be connected is
  // out of its reach exactly when the setting is still on.
  lemma ConnectIsSafeExactlyWhen(labels: seq<Label>, keep: bool)
    requires Run(Start(), labels).Some?
    requires var s := Run(Start(), labels).value; s.call == Idle && s.timer == Waiting && s.active
    ensures !NewSessionMayBeTaken(Step(Run(Start(), labels).value, CallConnect(keep)).value) <==> keep
  {
    var s := Run(Start(), labels).value;
    var t := Step(s, CallConnect(keep)).value;
    RunKeeps(Start(), labels);
    StepKeepsOwnership(s, CallConnect(keep));
    StepKeepsDiscipline(s, CallConnect(keep));
    if keep {
      forall more | NoSpawn(t, more) && Run(t, more).Some? ensures !TakesSince(Run(t, more).value, t.next) {
        JoiningProtects(t, more, t.next);
      }
    } else {
      var more := TimerTakesNew(t);
      assert TakesSince(Run(t, more).value, t.next);
    }
  }

  // Until the timer is joined there is no new session it could take.
  predicate Stopping(s: State, n: Session) {
    (s.call == ConnectFlag || s.call == ConnectJoin) && s.next == n
  }

  lemma {:induction false} JoiningProtects(s: State, labels: seq<Label>, n: Session)
    requires Ownership(s) && Discipline(s) && (Stopping(s, n) || Quiet(s)) && !TakesSince(s, n)
    requires NoSpawn(s, labels) && Run(s, labels).Some?
    ensures !TakesSince(Run(s, labels).value, n)
    decreases |labels|
  {
    if labels != [] {
      var t := Step(s, labels[0]).value;
      StepKeepsOwnership(s, labels[0]);
      StepKeepsDiscipline(s, labels[0]);
      if Quiet(s) { QuietStep(s, labels[0]); }
      if s.slot.Some? { assert OwnedOnce(s, s.slot.value); }
      JoiningProtects(t, labels[1..], n);
    }
  }

  lemma TimerTakesNew(s: State) returns (labels: seq<Label>)
    requires s.call == ConnectTake && s.timer == Waiting && s.active
    ensures NoSpawn(s, labels) && Run(s, labels).Some? && Run(s, labels).value.timer == Holding(s.next)
  {
    var t;
    labels, t := NewSessionStored(s);
    labels, t := Next(s, labels, t, TimerExpires);
    labels, t := Next(s, labels, t, TimerTakes);
  }

  lemma NewSessionStored(s: State) returns (labels: seq<Label>, t: State)
    requires s.call == ConnectTake && s.timer == Waiting && s.active
    ensures Run(s, labels) == Some(t) && NoSpawn(s, labels)
    ensures t.slot == Some(s.next) && t.timer == Waiting && t.active && t.call.ConnectDropDisplaced?
  {
    labels, t := [], s;
    labels, t := Next(s, labels, t, Proceed(true));
    labels, t := Next(s, labels, t, Proceed(true));
    labels, t := Next(s, labels, t, Proceed(true));
    labels, t := Next(s, labels, t, Proceed(true));
  }

  lemma Next(s0: State, labels: seq<Label>, s: State, l: Label) returns (more: seq<Label>, t: State)
    requires Run(s0, labels) == Some(s) && NoSpawn(s0, labels) && Step(s, l).Some? && !s.call.Spawn?
    ensures Run(s0, more) == Some(t) && NoSpawn(s0, more) && t == Step(s, l).value
  {
    more, t := labels + [l], Step(s, l).value;
    NoSpawnThen(s0, labels, s, l);
    RunConcat(s0, labels, [l]);
    assert [l][1..] == [];
  }

  lemma {:induction false} NoSpawnThen(s0: State, labels: seq<Label>, s: State, l: Label)
    requires Run(s0, labels) == Some(s) && NoSpawn(s0, labels) && !s.call.Spawn?
    ensures NoSpawn(s0, labels + [l])
    decreases |labels|
  {
    if labels == [] {
      assert labels + [l] == [l] && [l][1..] == [];
    } else {
      assert (labels + [l])[1..] == labels[1..] + [l];
      NoSpawnThen(Step(s0, labels[0]).value, labels[1..], s, l);
    }
  }

  lemma {:induction false} RunConcat(s: State, a: seq<Label>, b: seq<Label>)
    requires Run(s, a).Some?
    ensures Run(s, a + b) == Run(Run(s, a).value, b)
    decreases |a|
  {
    if a == [] {
      assert a + b == b;
    } else {
      assert (a + b)[1..] == a[1..] + b;
      RunConcat(Step(s, a[0]).value, a[1..], b);
    }
  }
}
