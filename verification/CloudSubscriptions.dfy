// The cloud session's subscriptions (src/cloud_session.cpp:82-317): what is
// wanted (subscribed_), what is believed active (active_), and what the present
// clean-session connection was asked for. connected_ is stored outside the
// mutex, so each callback of the network loop is a store and, later, a locked
// section; add and del come in between. start and stop come one at a time.
module CloudSubscriptions {

  type Device = string

  // Where the network loop thread is: no thread; waiting; or in a callback,
  // before its store of connected_ or between the store and the locked section.
  datatype Loop = NoLoop | Waiting | Accepted | AcceptedStored | Refused | Lost | LostStored

  datatype Stopping = NotStopping | Taking | Joining | Storing | Clearing

  datatype State = State(
    wanted: set<Device>, active: set<Device>, connected: bool, client: bool,
    started: bool, loop: Loop, stopping: Stopping,
    // The network's side: is the link up, what was subscribed on this
    // connection, and which devices' last attempt failed.
    link: bool, broker: set<Device>, failed: set<Device>)

  function Initial(): State {
    State({}, {}, false, false, false, NoLoop, NotStopping, false, {}, {})
  }

  datatype Label =
    | StartBegins | ConnectWorks | ConnectFails
    | LinkUp | LinkRefused | LinkLost | CallbackStores | CallbackLocks(refused: set<Device>)
    | Add(devices: set<Device>, refused: set<Device>) | Del(devices: set<Device>)
    | StopBegins | StopTakes | StopJoins | StopStores | StopClears

  // apply_subscriptions_locked_: subscribe to everything wanted and not active;
  // `refused` are the devices for which the call fails.
  function Apply(s: State, refused: set<Device>): State {
    if !s.client then s
    else
      var todo := s.wanted - s.active;
      var now := todo - refused;
      s.(active := s.active + now, broker := if s.link then s.broker + now else s.broker, failed := todo * refused)
  }

  function AddStep(s: State, devices: set<Device>, refused: set<Device>): State {
    var t := s.(wanted := s.wanted + (devices - {""}));
    if t.connected then Apply(t, refused) else t
  }

  function DelStep(s: State, devices: set<Device>): State {
    s.(wanted := s.wanted - devices, active := s.active - devices, failed := s.failed - devices,
       broker := if s.client then s.broker - s.active * devices else s.broker)
  }

  predicate Enabled(s: State, l: Label) {
    match l
    case StartBegins => !s.started && s.stopping == NotStopping
    case ConnectWorks => s.started && s.loop == NoLoop && s.stopping == NotStopping
    case ConnectFails => s.started && s.loop == NoLoop && s.stopping == NotStopping
    case LinkUp => s.loop == Waiting && !s.link
    case LinkRefused => s.loop == Waiting && !s.link
    case LinkLost => s.loop == Waiting && s.link
    case CallbackStores => s.loop == Accepted || s.loop == Refused || s.loop == Lost
    case CallbackLocks(_) => s.loop == AcceptedStored || s.loop == LostStored
    case Add(_, _) => true
    case Del(_) => true
    case StopBegins => s.started && s.loop != NoLoop && s.stopping == NotStopping
    case StopTakes => s.stopping == Taking
    case StopJoins => s.stopping == Joining && s.loop == Waiting
    case StopStores => s.stopping == Storing
    case StopClears => s.stopping == Clearing
  }

  function Next(s: State, l: Label): State
    requires Enabled(s, l)
  {
    match l
    case StartBegins => s.(started := true, client := true)
    case ConnectWorks => s.(loop := Waiting)
    case ConnectFails => s.(client := false, started := false)
    case LinkUp => s.(link := true, broker := {}, loop := Accepted)
    case LinkRefused => s.(loop := Refused)
    case LinkLost => s.(link := false, broker := {}, loop := Lost)
    case CallbackStores =>
      if s.loop == Accepted then s.(connected := true, loop := AcceptedStored)
      else s.(connected := false, loop := if s.loop == Lost then LostStored else Waiting)
    case CallbackLocks(refused) =>
      var t := s.(active := {}, loop := Waiting);
      if s.loop == AcceptedStored then Apply(t, refused) else t
    case Add(devices, refused) => AddStep(s, devices, refused)
    case Del(devices) => DelStep(s, devices)
    case StopBegins => s.(started := false, stopping := Taking)
    case StopTakes => s.(client := false, stopping := Joining)
    case StopJoins => s.(loop := NoLoop, link := false, broker := {}, stopping := Storing)
    case StopStores => s.(connected := false, stopping := Clearing)
    case StopClears => s.(active := {}, stopping := NotStopping)
  }

  // ---- What every step keeps ----

  // No link event waits for its callback's locked section, and stop() has not
  // yet ended the connection without clearing the set.
  predicate Settled(s: State) {
    (s.loop == Waiting || s.loop == NoLoop || s.loop == Refused) && s.stopping != Storing && s.stopping != Clearing
  }

  predicate Reconciled(s: State) {
    // Only what is wanted is active.
    && s.active <= s.wanted
    // What is active was subscribed on the present connection.
    && (Settled(s) || s.loop == AcceptedStored ==> s.active <= s.broker)
    // While connected, a wanted device is active or its last attempt failed.
    && (s.loop == Waiting && s.connected && s.client ==> s.wanted == s.active + s.failed)
  }

  predicate Phases(s: State) {
    && (s.connected ==> s.link || s.loop == Lost || s.stopping == Storing)
    && (s.link ==> s.loop == Accepted || (s.connected && (s.loop == Waiting || s.loop == AcceptedStored)))
    && (s.loop == Accepted || s.loop == AcceptedStored ==> s.link)
    && (s.loop == Accepted ==> s.active == {} && !s.connected)
    && (s.loop == LostStored ==> !s.connected)
    && (!s.connected && Settled(s) ==> s.active == {})
    && (s.loop == NoLoop && s.stopping != Storing ==> !s.connected)
    && (s.stopping == Storing || s.stopping == Clearing ==> s.loop == NoLoop && !s.client && !s.started)
    && (s.stopping == Taking || s.stopping == Joining ==> s.loop != NoLoop && !s.started)
    && (s.stopping == NotStopping && !s.started ==> s.loop == NoLoop)
    && (s.stopping == Joining ==> !s.client)
    && (s.client <==> s.started || s.stopping == Taking)
    && (!s.link ==> s.broker == {})
  }

  lemma InitialHolds()
    ensures Reconciled(Initial()) && Phases(Initial())
  {
  }

  lemma StepKeeps(s: State, l: Label)
    requires Reconciled(s) && Phases(s) && Enabled(s, l)
    ensures Reconciled(Next(s, l)) && Phases(Next(s, l))
  {
  }

  predicate Possible(s: State, labels: seq<Label>)
    decreases |labels|
  {
    labels == [] || (Enabled(s, labels[0]) && Possible(Next(s, labels[0]), labels[1..]))
  }

  function After(s: State, labels: seq<Label>): State
    requires Possible(s, labels)
    decreases |labels|
  {
    if labels == [] then s else After(Next(s, labels[0]), labels[1..])
  }

  lemma {:induction false} RunKeeps(s: State, labels: seq<Label>)
    requires Reconciled(s) && Phases(s) && Possible(s, labels)
    ensures Reconciled(After(s, labels)) && Phases(After(s, labels))
    decreases |labels|
  {
    if labels != [] {
      StepKeeps(s, labels[0]);
      RunKeeps(Next(s, labels[0]), labels[1..]);
    }
  }

  // Over every run: only wanted devices are active; no wanted device is
  // forgotten while connected; and every active device was subscribed on the
  // present connection if and only if there is one or no device is active.
  // That is so whenever no link event waits for its callback's locked section,
  // and also all through the callback of a successful CONNACK.
  lemma EveryRun(labels: seq<Label>)
    requires Possible(Initial(), labels)
    ensures var s := After(Initial(), labels);
      s.active <= s.wanted &&
      (s.loop == Waiting && s.connected && s.client ==> s.wanted == s.active + s.failed) &&
      (s.active <= s.broker <==> s.active == {} || s.link) &&
      (Settled(s) || s.loop == Accepted || s.loop == AcceptedStored ==> s.active == {} || s.link)
  {
    InitialHolds();
    RunKeeps(Initial(), labels);
  }

  // A successful CONNACK, once its callback is done, has subscribed to all
  // that is wanted but what the library refused, on the present connection,
  // and has given up no subscription made while the callback ran.
  lemma ConnackReconciles(labels: seq<Label>, refused: set<Device>)
    requires Possible(Initial(), labels) && After(Initial(), labels).loop == AcceptedStored
    ensures var s := After(Initial(), labels);
      var t := Next(s, CallbackLocks(refused));
      t.connected && t.link && t.wanted == s.wanted && t.active <= t.broker && s.broker <= t.broker &&
      t.active == (if s.client then s.wanted - refused else {}) &&
      (s.client ==> t.failed == t.wanted - t.active)
  {
    EveryRun(labels);
    InitialHolds();
    RunKeeps(Initial(), labels);
  }

  // The other case is reachable: between the loss of a connection and the
  // locked section of its callback a device is active that no connection knows.
  lemma StaleWhileLost(d: Device) returns (labels: seq<Label>)
    requires d != ""
    ensures Possible(Initial(), labels)
    ensures var s := After(Initial(), labels); s.loop == Lost && !s.link && d in s.active && d !in s.broker
  {
    var s0 := Initial();
    labels := [];
    labels := Then(s0, labels, StartBegins);
    labels := Then(s0, labels, ConnectWorks);
    labels := Then(s0, labels, Add({d}, {}));
    labels := Then(s0, labels, LinkUp);
    labels := Then(s0, labels, CallbackStores);
    labels := Then(s0, labels, CallbackLocks({}));
    labels := Then(s0, labels, LinkLost);
  }

  lemma Then(s: State, labels: seq<Label>, l: Label) returns (more: seq<Label>)
    requires Possible(s, labels) && Enabled(After(s, labels), l)
    ensures Possible(s, more) && After(s, more) == Next(After(s, labels), l)
  {
    more := labels + [l];
    assert [l][1..] == [];
    RunConcat(s, labels, [l]);
  }

  lemma {:induction false} RunConcat(s: State, a: seq<Label>, b: seq<Label>)
    requires Possible(s, a) && Possible(After(s, a), b)
    ensures Possible(s, a + b) && After(s, a + b) == After(After(s, a), b)
    decreases |a|
  {
    if a == [] {
      assert a + b == b;
    } else {
      assert (a + b)[1..] == a[1..] + b;
      RunConcat(Next(s, a[0]), a[1..], b);
    }
  }

  // ---- Told from the history ----

  predicate Adds(l: Label, d: Device) { l.Add? && d in l.devices }
  predicate Dels(l: Label, d: Device) { l.Del? && d in l.devices }

  // Some Add names the device and no Del behind it does.
  ghost predicate AddedLast(labels: seq<Label>, d: Device) {
    exists k :: 0 <= k < |labels| && Adds(labels[k], d) && forall j :: k < j < |labels| ==> !Dels(labels[j], d)
  }

  // The history one step shorter.
  lemma LastStep(s: State, labels: seq<Label>)
    requires labels != [] && Possible(s, labels)
    ensures var init, last := labels[..|labels| - 1], labels[|labels| - 1];
      Possible(s, init) && Enabled(After(s, init), last) && After(s, labels) == Next(After(s, init), last)
    decreases |labels|
  {
    if |labels| == 1 {
      assert labels[..0] == [] && labels[1..] == [];
    } else {
      LastStep(Next(s, labels[0]), labels[1..]);
      assert labels[..|labels| - 1][1..] == labels[1..][..|labels| - 2];
    }
  }

  lemma AddedLastStep(labels: seq<Label>, d: Device)
    requires labels != []
    ensures var last := labels[|labels| - 1];
      AddedLast(labels, d) <==> Adds(last, d) || (!Dels(last, d) && AddedLast(labels[..|labels| - 1], d))
  {
    var n, init := |labels| - 1, labels[..|labels| - 1];
    if AddedLast(labels, d) && !Adds(labels[n], d) {
      var k :| 0 <= k < |labels| && Adds(labels[k], d) && forall j :: k < j < |labels| ==> !Dels(labels[j], d);
      assert Adds(init[k], d) && forall j :: k < j < |init| ==> !Dels(init[j], d);
    }
    if !Dels(labels[n], d) && AddedLast(init, d) {
      var k :| 0 <= k < |init| && Adds(init[k], d) && forall j :: k < j < |init| ==> !Dels(init[j], d);
      assert Adds(labels[k], d);
      forall j | k < j < |labels| ensures !Dels(labels[j], d) { if j < n { assert labels[j] == init[j]; } }
    }
  }

  // Over every run: a device is wanted if and only if it has a name and the
  // last add or delete that names it is an add.
  lemma {:induction false} WantedMeans(labels: seq<Label>, d: Device)
    requires Possible(Initial(), labels)
    ensures d in After(Initial(), labels).wanted <==> d != "" && AddedLast(labels, d)
    decreases |labels|
  {
    if labels != [] {
      LastStep(Initial(), labels);
      AddedLastStep(labels, d);
      WantedMeans(labels[..|labels| - 1], d);
    }
  }

  // The connection ends, or a new one begins.
  predicate NewLink(l: Label) { l.LinkUp? || l.LinkLost? || l.StopJoins? }

  // Behind a delete, until the device is added again: it is neither wanted nor
  // active, and the present connection still has it exactly when it had it
  // before the delete and the delete did not unsubscribe it, there being no
  // client or the device not being active then.
  lemma {:induction false} DeletedStaysAway(s: State, devices: set<Device>, later: seq<Label>, d: Device)
    requires Enabled(s, Del(devices)) && Possible(Next(s, Del(devices)), later) && d in devices
    requires s.active <= s.wanted && forall j :: 0 <= j < |later| ==> !Adds(later[j], d)
    ensures var t := After(Next(s, Del(devices)), later);
      d !in t.wanted && d !in t.active &&
      (d in t.broker <==> d in s.broker && (!s.client || d !in s.active) && forall j :: 0 <= j < |later| ==> !NewLink(later[j]))
    decreases |later|
  {
    if later != [] {
      var n := |later| - 1;
      LastStep(Next(s, Del(devices)), later);
      DeletedStaysAway(s, devices, later[..n], d);
      assert forall j :: 0 <= j < n ==> later[..n][j] == later[j];
      assert !Adds(later[n], d);
    }
  }

  // The exception is reachable: a device is subscribed while the callback of
  // the CONNACK runs, subscribing again fails in its locked section, and the
  // delete then takes the device for one that was never subscribed.
  lemma DeletedButSubscribed(d: Device) returns (labels: seq<Label>)
    requires d != ""
    ensures Possible(Initial(), labels) && Enabled(After(Initial(), labels), Del({d}))
    ensures After(Initial(), labels).client && d in Next(After(Initial(), labels), Del({d})).broker
  {
    var s0 := Initial();
    labels := [];
    labels := Then(s0, labels, StartBegins);
    labels := Then(s0, labels, ConnectWorks);
    labels := Then(s0, labels, LinkUp);
    labels := Then(s0, labels, CallbackStores);
    labels := Then(s0, labels, Add({d}, {}));
    labels := Then(s0, labels, CallbackLocks({d}));
  }

  // A delete touches no other device; an add subscribes, while connected, to
  // every wanted device that is not active, and leaves the rest as it is.
  lemma OthersStay(s: State, devices: set<Device>, refused: set<Device>, d: Device)
    requires d !in devices
    ensures var t := Next(s, Del(devices));
      (d in t.wanted <==> d in s.wanted) && (d in t.active <==> d in s.active) && (d in t.broker <==> d in s.broker)
    ensures var t := Next(s, Add(devices, refused));
      (d in t.wanted <==> d in s.wanted) &&
      (d in t.active <==> d in s.active || (d in s.wanted && s.connected && s.client && d !in refused))
  {
  }

  // ---- The locked sections, in place ----

  class CloudSession {
    var subscribed: set<Device>
    var active: set<Device>
    var connected: bool
    var client: bool
    // Subscriptions the connection was asked for, and failed attempts.
    ghost var broker: set<Device>
    ghost var failed: set<Device>

    ghost predicate Represents(s: State)
      reads this
    {
      s.wanted == subscribed && s.active == active && s.connected == connected && s.client == client &&
      s.broker == broker && s.failed == failed
    }

    method ApplySubscriptions(ghost s: State, refused: set<Device>) returns (failures: set<Device>)
      requires Represents(s) && (s.client ==> s.link)
      modifies this
      ensures Represents(Apply(s, refused))
      ensures subscribed == old(subscribed) && connected == old(connected) && client == old(client)
      ensures active == if client then old(active) + (subscribed - refused) else old(active)
      ensures broker == if client then old(broker) + (subscribed - old(active) - refused) else old(broker)
      ensures failures == if client then (subscribed - old(active)) * refused else {}
    {
      failures := {};
      if !client { return; }
      var now;
      now, failures := SubscribeEach(subscribed - active, refused);
      active := active + now;
      broker := broker + now;
      failed := failures;
    }

    method AddSubscribe(ghost s: State, devices: seq<Device>, refused: set<Device>) returns (failures: set<Device>)
      requires Represents(s) && (s.connected && s.client ==> s.link)
      modifies this
      ensures Represents(AddStep(s, Members(devices), refused))
      ensures subscribed == old(subscribed) + (Members(devices) - {""})
      ensures connected == old(connected) && client == old(client)
      ensures active == if connected && client then old(active) + (subscribed - refused) else old(active)
      ensures broker == if connected && client then old(broker) + (subscribed - old(active) - refused) else old(broker)
      ensures failures == if connected && client then (subscribed - old(active)) * refused else {}
    {
      failures := {};
      for i := 0 to |devices|
        invariant Represents(s.(wanted := s.wanted + (Members(devices[..i]) - {""})))
      {
        MembersGrow(devices, i);
        if devices[i] == "" { continue; }
        subscribed := subscribed + {devices[i]};
      }
      assert devices[..|devices|] == devices;
      if connected {
        failures := ApplySubscriptions(s.(wanted := subscribed), refused);
      }
    }

    method DelSubscribe(ghost s: State, devices: seq<Device>)
      requires Represents(s)
      modifies this
      ensures Represents(DelStep(s, Members(devices)))
      ensures subscribed == old(subscribed) - Members(devices) && active == old(active) - Members(devices)
      ensures broker == if client then old(broker) - old(active) * Members(devices) else old(broker)
      ensures connected == old(connected) && client == old(client)
    {
      for i := 0 to |devices|
        invariant Without(Members(devices[..i]), old(subscribed), old(active), old(broker), old(failed))
        invariant connected == old(connected) && client == old(client)
      {
        MembersGrow(devices, i);
        DropOne(devices[i]);
      }
      assert devices[..|devices|] == devices;
    }

    // The state is the given one without the devices.
    ghost predicate Without(devices: set<Device>, subscribed0: set<Device>, active0: set<Device>, broker0: set<Device>,
                            failed0: set<Device>)
      reads this
    {
      subscribed == subscribed0 - devices && active == active0 - devices && failed == failed0 - devices &&
      broker == if client then broker0 - active0 * devices else broker0
    }

    method DropOne(d: Device)
      modifies this
      ensures subscribed == old(subscribed) - {d} && active == old(active) - {d} && failed == old(failed) - {d}
      ensures broker == if client then old(broker) - old(active) * {d} else old(broker)
      ensures connected == old(connected) && client == old(client)
    {
      subscribed := subscribed - {d};
      failed := failed - {d};
      if d in active {
        active := active - {d};
        if client { broker := broker - {d}; }
      }
    }

    // The locked section of the CONNACK callback.
    method Reconnected(ghost s: State, refused: set<Device>)
      requires Represents(s) && s.loop == AcceptedStored && s.link
      modifies this
      ensures Represents(Next(s, CallbackLocks(refused)))
      ensures subscribed == old(subscribed) && connected == old(connected) && client == old(client)
      ensures active == (if client then subscribed - refused else {})
      ensures broker == if client then old(broker) + (subscribed - refused) else old(broker)
    {
      active := {};
      var _ := ApplySubscriptions(s.(active := {}, loop := Waiting), refused);
    }
  }

  // One subscribe call a device; those that worked and those that failed.
  method SubscribeEach(devices: set<Device>, refused: set<Device>) returns (now: set<Device>, failures: set<Device>)
    ensures now == devices - refused && failures == devices * refused
  {
    now, failures := {}, {};
    var todo := devices;
    while todo != {}
      invariant todo <= devices && now == (devices - todo) - refused && failures == (devices - todo) * refused
      decreases |todo|
    {
      var d :| d in todo;
      todo := todo - {d};
      if d in refused { failures := failures + {d}; } else { now := now + {d}; }
    }
  }

  lemma MembersGrow(devices: seq<Device>, i: nat)
    requires i < |devices|
    ensures Members(devices[..i + 1]) == Members(devices[..i]) + {devices[i]}
  {
    assert devices[..i + 1] == devices[..i] + [devices[i]];
  }

  function Members(devices: seq<Device>): set<Device> { set d | d in devices }
}
