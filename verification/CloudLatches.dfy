// The cloud report latches (src/agent.cpp:3301-3322, 3353-3363, 3437-3447):
// which devices have been seen this session, and which Studio has been told of.
module CloudLatches {
  import opened Text

  type Device = string

  // What happens to the agent. A report that is filtered out returns before
  // it reaches the latches; disconnect_cloud resets all devices and
  // cloud_del_subscribe those it names.
  datatype Event =
    | Register(callback: bool)
    | Report(device: Device, filtered: bool)
    | DisconnectCloud
    | DelSubscribe(devices: seq<Device>)

  class Agent {
    var callback: bool
    var seen: set<Device>
    var notified: set<Device>
    // All that has happened, in order.
    ghost var history: seq<Event>

    ghost predicate Valid()
      reads this
    {
      callback == Registered(history) && notified <= seen &&
      (forall d :: d in notified <==> Due(history, d))
    }

    constructor ()
      ensures Valid() && history == []
    {
      callback, seen, notified, history := false, {}, {}, [];
    }

    method SetCallback(on: bool)
      requires Valid()
      modifies this
      ensures Valid() && history == old(history) + [Register(on)]
    {
      Recorded(history, Register(on));
      callback := on;
      history := history + [Register(on)];
    }

    // The end of the message callback: the report is latched, and Studio told
    // of the device if it is the first time it can be.
    method OnReport(device: Device, filtered: bool) returns (notify: bool)
      requires Valid()
      modifies this
      ensures Valid() && history == old(history) + [Report(device, filtered)]
      ensures notify == Fires(old(history), Report(device, filtered))
    {
      Recorded(history, Report(device, filtered));
      history := history + [Report(device, filtered)];
      if filtered { return false; }
      seen := seen + {device};
      notify := callback && device !in notified;
      if callback { notified := notified + {device}; }
    }

    method Disconnect()
      requires Valid()
      modifies this
      ensures Valid() && history == old(history) + [DisconnectCloud] && seen == {} && notified == {}
    {
      Recorded(history, DisconnectCloud);
      seen, notified := {}, {};
      history := history + [DisconnectCloud];
    }

    method DelDevices(devices: seq<Device>)
      requires Valid()
      modifies this
      ensures Valid() && history == old(history) + [DelSubscribe(devices)]
      ensures seen == old(seen) - Members(devices) && notified == old(notified) - Members(devices)
    {
      Recorded(history, DelSubscribe(devices));
      for i := 0 to |devices|
        invariant seen == old(seen) - Members(devices[..i]) && notified == old(notified) - Members(devices[..i])
        invariant callback == old(callback) && history == old(history)
      {
        assert devices[..i + 1] == devices[..i] + [devices[i]];
        seen, notified := seen - {devices[i]}, notified - {devices[i]};
      }
      assert devices[..|devices|] == devices;
      history := history + [DelSubscribe(devices)];
    }
  }

  function Members(devices: seq<Device>): set<Device> { set d | d in devices }

  function Count(b: bool): nat { if b then 1 else 0 }

  // ---- What a history says, event by event ----

  predicate Registered(h: seq<Event>) {
    h != [] && if Last(h).Register? then Last(h).callback else Registered(Init(h))
  }

  predicate Resets(e: Event, d: Device) {
    e.DisconnectCloud? || (e.DelSubscribe? && d in e.devices)
  }

  predicate Counts(e: Event, d: Device) { e.Report? && e.device == d && !e.filtered }

  // Since its last reset, an unfiltered report of d came while a callback was
  // registered.
  predicate Due(h: seq<Event>, d: Device) {
    h != [] &&
    if Resets(Last(h), d) then false
    else Due(Init(h), d) || (Counts(Last(h), d) && Registered(Init(h)))
  }

  // Whether the event, after h, makes a call.
  predicate Fires(h: seq<Event>, e: Event) {
    e.Report? && !e.filtered && Registered(h) && !Due(h, e.device)
  }

  // The calls for d since its last reset.
  function Calls(h: seq<Event>, d: Device): nat {
    if h == [] then 0
    else if Resets(Last(h), d) then 0
    else Calls(Init(h), d) + Count(Fires(Init(h), Last(h)) && Last(h).device == d)
  }

  lemma Recorded(h: seq<Event>, e: Event)
    ensures Registered(h + [e]) == if e.Register? then e.callback else Registered(h)
    ensures forall d :: Due(h + [e], d) == (!Resets(e, d) && (Due(h, d) || (Counts(e, d) && Registered(h))))
  {
    assert Init(h + [e]) == h && Last(h + [e]) == e;
  }

  // ---- What it means ----

  // Position k is a report of d that can be told of, and no reset of d follows.
  predicate Witness(h: seq<Event>, d: Device, k: nat)
    requires k < |h|
  {
    Counts(h[k], d) && Registered(h[..k]) && forall n :: k < n < |h| ==> !Resets(h[n], d)
  }

  lemma {:induction false} DueMeans(h: seq<Event>, d: Device)
    ensures Due(h, d) <==> exists k: nat :: k < |h| && Witness(h, d, k)
  {
    if h != [] {
      var p := Init(h);
      DueMeans(p, d);
      if Due(h, d) {
        if Due(p, d) {
          var k: nat :| k < |p| && Witness(p, d, k);
          WitnessStays(h, d, k);
        } else {
          assert Witness(h, d, |h| - 1);
        }
      }
      if k: nat :| k < |h| && Witness(h, d, k) {
        if k < |p| {
          assert h[..k] == p[..k];
          assert Witness(p, d, k) by {
            forall n | k < n < |p| ensures !Resets(p[n], d) { assert p[n] == h[n]; }
          }
        } else {
          assert h[..k] == p;
        }
      }
    }
  }

  lemma WitnessStays(h: seq<Event>, d: Device, k: nat)
    requires h != [] && k < |Init(h)| && Witness(Init(h), d, k) && !Resets(Last(h), d)
    ensures Witness(h, d, k)
  {
    var p := Init(h);
    assert p[..k] == h[..k] && p[k] == h[k];
    forall n | k < n < |h| ensures !Resets(h[n], d) {
      if n < |p| { assert h[n] == p[n]; }
    }
  }

  // Between resets of a device Studio is told of it at most once; exactly once
  // if an unfiltered report came while a callback was registered, so reports
  // before that do not use the notification up.
  lemma {:induction false} ToldExactlyOnce(h: seq<Event>, d: Device)
    ensures Calls(h, d) == Count(exists k: nat :: k < |h| && Witness(h, d, k))
  {
    DueMeans(h, d);
    CallsAreDue(h, d);
  }

  lemma {:induction false} CallsAreDue(h: seq<Event>, d: Device)
    ensures Calls(h, d) == Count(Due(h, d))
  {
    if h != [] {
      CallsAreDue(Init(h), d);
    }
  }
}
