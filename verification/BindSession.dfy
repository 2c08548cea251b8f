// The login half of the bind protocol (src/lan_bind_tcp.cpp:356-478): one TCP
// session fed in chunks, a cloud call on the printer's ticket, and every way
// out. The socket, the clock and the cloud are inputs; what the session does
// to the outside is its trace.
module BindSession {
  import opened Text
  import opened FrameCodec
  import opened FrameStream

  const SUCCESS: int := 0
  const CONNECT_FAILED: int := -1020
  const PUBLISH_FAILED: int := -1030
  const PRINTER_TICKET_TIMEOUT: int := -1040
  const CLOUD_TICKET_TIMEOUT: int := -1050
  const REPORT_WITHOUT_CODE: int := -1070
  const REPORT_WITH_CODE: int := -1080

  datatype Report = Report(status: string, ticket: string, reason: string, errCode: int, hasErrCode: bool)

  // One pass of the receive loop: what arrived, and whether less than 800 ms
  // were left when it ended. The deadline passes after the last round.
  datatype Round = Round(chunk: seq<byte>, almostOver: bool)

  datatype Call = Call(ticket: string, answer: int)

  datatype Event = Heard(report: Report) | CloudCalled(call: Call) | Closed

  // ---- Reading a trace and a list of reports ----

  function HeardIn(trace: seq<Event>): seq<Report> {
    if trace == [] then []
    else HeardIn(Init(trace)) + if Last(trace).Heard? then [Last(trace).report] else []
  }

  function CallsIn(trace: seq<Event>): seq<Call> {
    if trace == [] then []
    else CallsIn(Init(trace)) + if Last(trace).CloudCalled? then [Last(trace).call] else []
  }

  function ClosesIn(trace: seq<Event>): nat {
    if trace == [] then 0 else ClosesIn(Init(trace)) + if Last(trace).Closed? then 1 else 0
  }

  lemma Recorded(trace: seq<Event>, e: Event)
    ensures HeardIn(trace + [e]) == HeardIn(trace) + if e.Heard? then [e.report] else []
    ensures CallsIn(trace + [e]) == CallsIn(trace) + if e.CloudCalled? then [e.call] else []
    ensures ClosesIn(trace + [e]) == ClosesIn(trace) + if e.Closed? then 1 else 0
  {
    assert Init(trace + [e]) == trace;
  }

  predicate Failed(reports: seq<Report>) {
    reports != [] && (Failed(Init(reports)) || Last(reports).status == "FAILURE")
  }

  predicate Succeeded(reports: seq<Report>) {
    reports != [] && (Succeeded(Init(reports)) || Last(reports).status == "SUCCESS")
  }

  // The first non-empty ticket of a wait_auth report; "" if there is none.
  function FirstTicket(reports: seq<Report>): string {
    if reports == [] then ""
    else
      var t := FirstTicket(Init(reports));
      if t == "" && Last(reports).status == "wait_auth" then Last(reports).ticket else t
  }

  lemma {:induction false} FailedMeans(reports: seq<Report>)
    ensures Failed(reports) <==> exists k :: 0 <= k < |reports| && reports[k].status == "FAILURE"
  {
    if reports != [] {
      FailedMeans(Init(reports));
      if k :| 0 <= k < |reports| && reports[k].status == "FAILURE" {
        assert k < |reports| - 1 ==> Init(reports)[k].status == "FAILURE";
      }
    }
  }

  lemma {:induction false} SucceededMeans(reports: seq<Report>)
    ensures Succeeded(reports) <==> exists k :: 0 <= k < |reports| && reports[k].status == "SUCCESS"
  {
    if reports != [] {
      SucceededMeans(Init(reports));
      if k :| 0 <= k < |reports| && reports[k].status == "SUCCESS" {
        assert k < |reports| - 1 ==> Init(reports)[k].status == "SUCCESS";
      }
    }
  }

  predicate GivesTicket(r: Report, ticket: string) {
    r.status == "wait_auth" && r.ticket == ticket && ticket != ""
  }

  lemma {:induction false} FirstTicketMeans(reports: seq<Report>, k: nat)
    requires k < |reports| && GivesTicket(reports[k], reports[k].ticket)
    requires forall j :: 0 <= j < k ==> !GivesTicket(reports[j], reports[j].ticket)
    ensures FirstTicket(reports) == reports[k].ticket
  {
    if k < |reports| - 1 {
      FirstTicketMeans(Init(reports), k);
    } else {
      NoTicket(Init(reports));
    }
  }

  lemma {:induction false} NoTicket(reports: seq<Report>)
    requires forall j :: 0 <= j < |reports| ==> !GivesTicket(reports[j], reports[j].ticket)
    ensures FirstTicket(reports) == ""
  {
    if reports != [] {
      NoTicket(Init(reports));
    }
  }

  // Reports without a status are skipped.
  function Reports(read: seq<byte> -> Report, payloads: seq<seq<byte>>): seq<Report> {
    if payloads == [] then []
    else
      var r := read(Last(payloads));
      Reports(read, Init(payloads)) + if r.status != "" then [r] else []
  }

  lemma {:induction false} ReportsConcat(read: seq<byte> -> Report, a: seq<seq<byte>>, b: seq<seq<byte>>)
    ensures Reports(read, a + b) == Reports(read, a) + Reports(read, b)
  {
    if b == [] {
      assert a + b == a;
    } else {
      assert Init(a + b) == a + Init(b) && Last(a + b) == Last(b);
      ReportsConcat(read, a, Init(b));
    }
  }

  // One payload is one report, or none when it has no status.
  lemma OneReport(read: seq<byte> -> Report, payload: seq<byte>)
    ensures Reports(read, [payload]) == if read(payload).status == "" then [] else [read(payload)]
  {
    assert Init([payload]) == [];
  }

  // Nothing is heard behind the first FAILURE.
  function ToFirstFailure(reports: seq<Report>): seq<Report> {
    if reports == [] then []
    else if Failed(Init(reports)) then ToFirstFailure(Init(reports))
    else reports
  }

  lemma {:induction false} StopsAtFailure(a: seq<Report>, r: Report, b: seq<Report>)
    requires !Failed(a) && r.status == "FAILURE"
    ensures ToFirstFailure(a + [r] + b) == a + [r]
    ensures Failed(a + [r] + b)
  {
    if b == [] {
      assert a + [r] + b == a + [r] && Init(a + [r]) == a;
    } else {
      assert Init(a + [r] + b) == a + [r] + Init(b);
      StopsAtFailure(a, r, Init(b));
    }
  }

  function Chunks(rounds: seq<Round>): seq<seq<byte>> {
    if rounds == [] then [] else Chunks(Init(rounds)) + [Last(rounds).chunk]
  }

  lemma {:induction false} FeedOneMore(rest: seq<byte>, chunks: seq<seq<byte>>, c: seq<byte>)
    ensures Feed(rest, chunks + [c]) == FedThen(Feed(rest, chunks), c)
    decreases |chunks|
  {
    if chunks == [] {
      assert [] + [c] == [c];
      OneChunk(rest, c);
    } else {
      assert (chunks + [c])[0] == chunks[0] && (chunks + [c])[1..] == chunks[1..] + [c];
      var d := Drain(rest + chunks[0]);
      FeedOneMore(d.rest, chunks[1..], c);
      PrependPayloads(d.payloads, Feed(d.rest, chunks[1..]), c);
    }
  }

  function FedThen(d: Drained, c: seq<byte>): Drained {
    Append(Drained(d.payloads, []), Drain(d.rest + c))
  }

  lemma OneChunk(rest: seq<byte>, c: seq<byte>)
    ensures Feed(rest, [c]) == FedThen(Feed(rest, []), c)
  {
    var d := Drain(rest + c);
    assert Feed(d.rest, [c][1..]) == Drained([], d.rest);
  }

  lemma PrependPayloads(p: seq<seq<byte>>, d: Drained, c: seq<byte>)
    ensures Append(Drained(p, []), FedThen(d, c)) == FedThen(Append(Drained(p, []), d), c)
  {
  }

  // What the first n rounds bring, however the transport cut it.
  function Arrived(read: seq<byte> -> Report, rounds: seq<Round>, n: nat): seq<Report>
    requires n <= |rounds|
  {
    Reports(read, Feed([], Chunks(rounds[..n])).payloads)
  }

  // ---- One batch of payloads ----

  method Listen(read: seq<byte> -> Report, payloads: seq<seq<byte>>, before: seq<Event>,
                ticketBefore: string, sawBefore: bool)
    returns (failure: Option<Report>, ticket: string, saw: bool, trace: seq<Event>)
    requires !Failed(HeardIn(before))
    requires ticketBefore == FirstTicket(HeardIn(before)) && sawBefore == Succeeded(HeardIn(before))
    ensures HeardIn(trace) == ToFirstFailure(HeardIn(before) + Reports(read, payloads))
    ensures CallsIn(trace) == CallsIn(before) && ClosesIn(trace) == ClosesIn(before)
    ensures failure.Some? <==> Failed(HeardIn(before) + Reports(read, payloads))
    ensures failure.Some? ==> Failed(HeardIn(trace)) && Last(HeardIn(trace)) == failure.value
    ensures failure.Some? ==> failure.value.status == "FAILURE"
    ensures failure.None? ==> HeardIn(trace) == HeardIn(before) + Reports(read, payloads)
    ensures failure.None? ==> !Failed(HeardIn(trace))
    ensures ticketBefore != "" ==> FirstTicket(HeardIn(trace)) == ticketBefore
    ensures failure.None? ==> ticket == FirstTicket(HeardIn(trace)) && saw == Succeeded(HeardIn(trace))
  {
    hide FirstTicket, Succeeded;
    failure, ticket, saw, trace := None, ticketBefore, sawBefore, before;
    var i := 0;
    ghost var heard := HeardIn(before);
    assert payloads[..0] == [];
    while i < |payloads|
      invariant 0 <= i <= |payloads|
      invariant heard == HeardIn(trace) == HeardIn(before) + Reports(read, payloads[..i])
      invariant !Failed(heard)
      invariant CallsIn(trace) == CallsIn(before) && ClosesIn(trace) == ClosesIn(before)
      invariant ticketBefore != "" ==> ticket == ticketBefore
      invariant ticket == FirstTicket(heard) && saw == Succeeded(heard)
    {
      var r := read(payloads[i]);
      OneMorePayload(read, payloads, i);
      i := i + 1;
      if r.status == "" { continue; }
      ghost var was := heard;
      ticket, saw, trace, heard := Hear(r, trace, ticket, saw, heard);
      if r.status == "FAILURE" {
        FailureFound(read, payloads, i, HeardIn(before), was, r);
        failure := Some(r);
        return;
      }
    }
    assert payloads[..i] == payloads;
    NoFailureKeepsAll(heard);
  }

  // One report with a status.
  method Hear(r: Report, before: seq<Event>, ticketBefore: string, sawBefore: bool, ghost was: seq<Report>)
    returns (ticket: string, saw: bool, trace: seq<Event>, ghost heard: seq<Report>)
    requires was == HeardIn(before) && !Failed(was) && ticketBefore == FirstTicket(was) && sawBefore == Succeeded(was)
    ensures heard == HeardIn(trace) == was + [r]
    ensures Failed(heard) == (r.status == "FAILURE") && Last(heard) == r
    ensures CallsIn(trace) == CallsIn(before) && ClosesIn(trace) == ClosesIn(before)
    ensures ticketBefore != "" ==> ticket == ticketBefore
    ensures ticketBefore != "" ==> FirstTicket(heard) == ticketBefore
    ensures r.status != "FAILURE" ==> ticket == FirstTicket(heard) && saw == Succeeded(heard)
  {
    ticket, saw := ticketBefore, sawBefore;
    heard := was + [r];
    Recorded(before, Heard(r));
    HeardOneMore(was, r);
    trace := before + [Heard(r)];
    if r.status == "FAILURE" { return; }
    if r.status == "wait_auth" && r.ticket != "" && ticket == "" {
      ticket := r.ticket;
    }
    if r.status == "SUCCESS" { saw := true; }
  }

  lemma HeardOneMore(reports: seq<Report>, r: Report)
    ensures Failed(reports + [r]) <==> Failed(reports) || r.status == "FAILURE"
    ensures Succeeded(reports + [r]) <==> Succeeded(reports) || r.status == "SUCCESS"
    ensures FirstTicket(reports + [r]) ==
      if FirstTicket(reports) == "" && r.status == "wait_auth" then r.ticket else FirstTicket(reports)
  {
    assert Init(reports + [r]) == reports;
  }

  lemma FailureFound(read: seq<byte> -> Report, payloads: seq<seq<byte>>, i: nat, before: seq<Report>,
                     was: seq<Report>, r: Report)
    requires i <= |payloads| && was + [r] == before + Reports(read, payloads[..i])
    requires !Failed(was) && r.status == "FAILURE"
    ensures ToFirstFailure(before + Reports(read, payloads)) == was + [r]
    ensures Failed(before + Reports(read, payloads))
  {
    ReportsConcat(read, payloads[..i], payloads[i..]);
    assert payloads[..i] + payloads[i..] == payloads;
    var later := Reports(read, payloads[i..]);
    Assoc(before, Reports(read, payloads[..i]), later);
    StopsAtFailure(was, r, later);
  }

  lemma OneMorePayload(read: seq<byte> -> Report, payloads: seq<seq<byte>>, i: nat)
    requires i < |payloads|
    ensures Reports(read, payloads[..i + 1]) ==
      Reports(read, payloads[..i]) + if read(payloads[i]).status != "" then [read(payloads[i])] else []
  {
    assert Init(payloads[..i + 1]) == payloads[..i];
  }

  lemma NoFailureKeepsAll(reports: seq<Report>)
    requires !Failed(reports)
    ensures ToFirstFailure(reports) == reports
  {
  }

  // ---- The session ----

  // What a published session returns, told from what it heard and called.
  predicate ReturnsWhatItSaw(rc: int, info: string, code: int, heard: seq<Report>, calls: seq<Call>) {
    if Failed(heard) then
      ReturnsFailure(rc, info, code, Last(heard))
    else
      code == 0 &&
      if FirstTicket(heard) == "" then
        rc == PRINTER_TICKET_TIMEOUT && calls == [] && info == "timeout waiting for wait_auth ticket"
      else if calls == [] then
        rc == CLOUD_TICKET_TIMEOUT && info == "timeout before cloud ticket POST"
      else
        rc == calls[0].answer && info == if rc == SUCCESS then "" else "cloud ticket validate failed"
  }

  predicate ReturnsFailure(rc: int, info: string, code: int, r: Report) {
    r.status == "FAILURE" &&
    rc == (if r.hasErrCode then REPORT_WITH_CODE else REPORT_WITHOUT_CODE) &&
    info == (if r.reason == "" then "login_report FAILURE" else r.reason) &&
    code == if r.hasErrCode then r.errCode else 0
  }

  // At most one call, made with the cloud function, on the first ticket; and
  // none only without a cloud function, a ticket, or after a FAILURE.
  predicate CallsOnFirstTicket(heard: seq<Report>, calls: seq<Call>, cloud: Option<string -> int>) {
    var ticket := FirstTicket(heard);
    if calls == [] then Failed(heard) || ticket == "" || cloud.None?
    else cloud.Some? && ticket != "" && calls == [Call(ticket, cloud.value(ticket))]
  }

  // The session is decided once these reports are in: a FAILURE was heard; or
  // there are a ticket and a cloud to ask, and the cloud refuses, the printer
  // has reported SUCCESS, or the time is almost over.
  predicate DecidedBy(reports: seq<Report>, cloud: Option<string -> int>, almostOver: bool) {
    Failed(reports) ||
    (cloud.Some? && FirstTicket(reports) != "" &&
     (cloud.value(FirstTicket(reports)) != SUCCESS || Succeeded(reports) || almostOver))
  }

  // Decided by what the first n rounds bring.
  predicate DecidedAfter(read: seq<byte> -> Report, rounds: seq<Round>, cloud: Option<string -> int>, n: nat)
    requires 0 < n <= |rounds|
  {
    DecidedBy(Arrived(read, rounds, n), cloud, rounds[n - 1].almostOver)
  }

  // The first number of rounds that decides the session, all of them if none
  // does.
  predicate FirstDecided(read: seq<byte> -> Report, rounds: seq<Round>, cloud: Option<string -> int>, used: nat) {
    used <= |rounds| &&
    (used < |rounds| ==> used > 0 && DecidedAfter(read, rounds, cloud, used)) &&
    forall n :: 0 < n < used ==> !DecidedAfter(read, rounds, cloud, n)
  }

  // The cloud is called in the round that brings the ticket, unless that round
  // also brings a FAILURE.
  predicate CalledInTime(read: seq<byte> -> Report, rounds: seq<Round>, cloud: Option<string -> int>, used: nat,
                         calls: seq<Call>)
    requires used <= |rounds|
  {
    calls != [] <==>
      cloud.Some? && used > 0 &&
      FirstTicket(Arrived(read, rounds, if Failed(Arrived(read, rounds, used)) then used - 1 else used)) != ""
  }

  predicate ClosedOnce(trace: seq<Event>) {
    trace != [] && Last(trace) == Closed && ClosesIn(trace) == 1
  }

  // The loop's variables agree with the trace of a session still open.
  predicate Open(heard: seq<Report>, calls: seq<Call>, ticket: string, saw: bool, cloudDone: bool, cloud: Option<string -> int>) {
    !Failed(heard) && ticket == FirstTicket(heard) && saw == Succeeded(heard) &&
    CallsOnFirstTicket(heard, calls, cloud) &&
    (if cloudDone then calls != [] && calls[0].answer == SUCCESS else calls == [])
  }

  method Serve(read: seq<byte> -> Report, payloads: seq<seq<byte>>, almostOver: bool, cloud: Option<string -> int>,
               before: seq<Event>, ticketBefore: string, sawBefore: bool, doneBefore: bool)
    returns (exit: Option<int>, info: string, code: int, ticket: string, saw: bool, cloudDone: bool, trace: seq<Event>)
    requires Open(HeardIn(before), CallsIn(before), ticketBefore, sawBefore, doneBefore, cloud)
    requires ClosesIn(before) == 0
    ensures HeardIn(trace) == ToFirstFailure(HeardIn(before) + Reports(read, payloads))
    ensures if exit.None? then ClosesIn(trace) == 0 else ClosedOnce(trace)
    ensures exit.None? ==> Open(HeardIn(trace), CallsIn(trace), ticket, saw, cloudDone, cloud) && info == "" && code == 0
    ensures exit.None? ==> HeardIn(trace) == HeardIn(before) + Reports(read, payloads)
    ensures exit.Some? ==> CallsOnFirstTicket(HeardIn(trace), CallsIn(trace), cloud)
    ensures exit.Some? ==> ReturnsWhatItSaw(exit.value, info, code, HeardIn(trace), CallsIn(trace))
    ensures exit.Some? <==> DecidedBy(HeardIn(before) + Reports(read, payloads), cloud, almostOver)
    ensures Failed(HeardIn(before) + Reports(read, payloads)) ==> CallsIn(trace) == CallsIn(before)
  {
    hide HeardIn, CallsIn, ClosesIn, ToFirstFailure, Reports;
    exit, info, code, cloudDone := None, "", 0, doneBefore;
    var failure;
    failure, ticket, saw, trace := Listen(read, payloads, before, ticketBefore, sawBefore);
    ghost var heard, calls := HeardIn(trace), CallsIn(trace);
    if failure.Some? {
      var r := failure.value;
      info := if r.reason == "" then "login_report FAILURE" else r.reason;
      if r.hasErrCode { code := r.errCode; }
      trace := Close(trace);
      exit := Some(if r.hasErrCode then REPORT_WITH_CODE else REPORT_WITHOUT_CODE);
      return;
    }
    if ticket != "" && !cloudDone && cloud.Some? {
      var cloudRc := cloud.value(ticket);
      Recorded(trace, CloudCalled(Call(ticket, cloudRc)));
      trace := trace + [CloudCalled(Call(ticket, cloudRc))];
      calls := [Call(ticket, cloudRc)];
      cloudDone := true;
      if cloudRc != SUCCESS {
        trace := Close(trace);
        exit, info := Some(cloudRc), "cloud ticket validate failed";
        return;
      }
    }
    if cloudDone && saw {
      trace := Close(trace);
      exit := Some(SUCCESS);
      return;
    }
    if cloudDone && ticket != "" && almostOver {
      trace := Close(trace);
      exit := Some(SUCCESS);
      return;
    }
  }

  method LoginBindSession(devIp: string, connects: bool, published: bool, rounds: seq<Round>,
                          read: seq<byte> -> Report, cloud: Option<string -> int>)
    returns (rc: int, info: string, code: int, trace: seq<Event>, used: nat)
    ensures devIp == "" || !connects ==> rc == CONNECT_FAILED && trace == []
    ensures devIp != "" && connects ==> ClosedOnce(trace)
    ensures devIp != "" && connects && !published ==> rc == PUBLISH_FAILED && trace == [Closed]
    ensures used <= |rounds|
    ensures devIp != "" && connects && published ==>
      FirstDecided(read, rounds, cloud, used) &&
      HeardIn(trace) == ToFirstFailure(Arrived(read, rounds, used)) &&
      CallsOnFirstTicket(HeardIn(trace), CallsIn(trace), cloud) &&
      CalledInTime(read, rounds, cloud, used, CallsIn(trace)) &&
      ReturnsWhatItSaw(rc, info, code, HeardIn(trace), CallsIn(trace))
  {
    info, code, trace, used := "", 0, [], 0;
    if devIp == "" { rc := CONNECT_FAILED; return; }
    if !connects { rc, info := CONNECT_FAILED, "tcp connect failed"; return; }
    if !published {
      rc, info, trace := PUBLISH_FAILED, "publish login failed", [Closed];
      assert Init(trace) == [];
      return;
    }
    rc, info, code, trace, used := Receive(rounds, read, cloud);
  }

  // Before the first round.
  lemma NothingYet(read: seq<byte> -> Report, rounds: seq<Round>, cloud: Option<string -> int>)
    ensures HeardIn([]) == Arrived(read, rounds, 0) && LeftOver(rounds, 0) == [] && ClosesIn([]) == 0
    ensures Open(HeardIn([]), CallsIn([]), "", false, false, cloud)
  {
    assert rounds[..0] == [];
  }

  // The receive loop of a published session.
  method Receive(rounds: seq<Round>, read: seq<byte> -> Report, cloud: Option<string -> int>)
    returns (rc: int, info: string, code: int, trace: seq<Event>, used: nat)
    ensures FirstDecided(read, rounds, cloud, used) && ClosedOnce(trace)
    ensures HeardIn(trace) == ToFirstFailure(Arrived(read, rounds, used))
    ensures CallsOnFirstTicket(HeardIn(trace), CallsIn(trace), cloud)
    ensures CalledInTime(read, rounds, cloud, used, CallsIn(trace))
    ensures ReturnsWhatItSaw(rc, info, code, HeardIn(trace), CallsIn(trace))
  {
    hide HeardIn, CallsIn, ClosesIn, Reports, Feed, FirstTicket, Succeeded;
    info, code, trace, used := "", 0, [], 0;
    var buf: seq<byte>, ticket, saw, cloudDone := [], "", false, false;
    NothingYet(read, rounds, cloud);
    while used < |rounds|
      invariant 0 <= used <= |rounds|
      invariant HeardIn(trace) == Arrived(read, rounds, used)
      invariant buf == LeftOver(rounds, used)
      invariant Open(HeardIn(trace), CallsIn(trace), ticket, saw, cloudDone, cloud)
      invariant ClosesIn(trace) == 0 && info == "" && code == 0
      invariant forall n :: 0 < n <= used ==> !DecidedAfter(read, rounds, cloud, n)
    {
      var payloads, exit;
      payloads, buf := ReceiveRound(read, rounds, used, buf);
      used := used + 1;
      exit, info, code, ticket, saw, cloudDone, trace :=
        Serve(read, payloads, rounds[used - 1].almostOver, cloud, trace, ticket, saw, cloudDone);
      if exit.Some? { rc := exit.value; return; }
    }
    NoFailureKeepsAll(HeardIn(trace));
    trace := Close(trace);
    if ticket == "" {
      rc, info := PRINTER_TICKET_TIMEOUT, "timeout waiting for wait_auth ticket";
    } else if !cloudDone {
      rc, info := CLOUD_TICKET_TIMEOUT, "timeout before cloud ticket POST";
    } else {
      rc := SUCCESS;
    }
  }

  // What is in the buffer after n rounds.
  function LeftOver(rounds: seq<Round>, n: nat): seq<byte>
    requires n <= |rounds|
  {
    Feed([], Chunks(rounds[..n])).rest
  }

  method ReceiveRound(read: seq<byte> -> Report, rounds: seq<Round>, n: nat, buf: seq<byte>)
    returns (payloads: seq<seq<byte>>, rest: seq<byte>)
    requires n < |rounds| && buf == LeftOver(rounds, n)
    ensures Arrived(read, rounds, n + 1) == Arrived(read, rounds, n) + Reports(read, payloads)
    ensures rest == LeftOver(rounds, n + 1)
  {
    NextRound(read, rounds, n);
    payloads, rest := DrainFrames(buf + rounds[n].chunk);
  }

  // Success means: no FAILURE was heard, and the one cloud call, on the first
  // ticket, was answered with success. Nothing else does.
  lemma SuccessExactlyWhen(rc: int, info: string, code: int, heard: seq<Report>, calls: seq<Call>, cloud: Option<string -> int>)
    requires ReturnsWhatItSaw(rc, info, code, heard, calls) && CallsOnFirstTicket(heard, calls, cloud)
    ensures rc == SUCCESS <==> !Failed(heard) && calls == [Call(FirstTicket(heard), SUCCESS)]
    ensures rc == SUCCESS ==> cloud.Some? && FirstTicket(heard) != "" && cloud.value(FirstTicket(heard)) == SUCCESS
  {
    if Failed(heard) {
      assert rc == REPORT_WITH_CODE || rc == REPORT_WITHOUT_CODE;
    }
  }

  // What is heard depends on the bytes the printer sent, not on how the
  // transport cut them, unless a cut loses a head byte.
  lemma CutsAreNotHeard(read: seq<byte> -> Report, rounds: seq<Round>, n: nat)
    requires n <= |rounds| && NoHeadLost([], Chunks(rounds[..n]))
    ensures Arrived(read, rounds, n) == Reports(read, Drain(Joined(Chunks(rounds[..n]))).payloads)
  {
    ChunkingIsInvisible([], Chunks(rounds[..n]));
    assert [] + Joined(Chunks(rounds[..n])) == Joined(Chunks(rounds[..n]));
  }

  function Close(trace: seq<Event>): (r: seq<Event>)
    ensures HeardIn(r) == HeardIn(trace) && CallsIn(r) == CallsIn(trace)
    ensures ClosesIn(trace) == 0 ==> ClosedOnce(r)
  {
    Recorded(trace, Closed);
    trace + [Closed]
  }

  lemma NextRound(read: seq<byte> -> Report, rounds: seq<Round>, n: nat)
    requires n < |rounds|
    ensures var d := Drain(Feed([], Chunks(rounds[..n])).rest + rounds[n].chunk);
      Arrived(read, rounds, n + 1) == Arrived(read, rounds, n) + Reports(read, d.payloads) &&
      Feed([], Chunks(rounds[..n + 1])).rest == d.rest
  {
    var cs := Chunks(rounds[..n]);
    assert Init(rounds[..n + 1]) == rounds[..n] && Last(rounds[..n + 1]) == rounds[n];
    FeedOneMore([], cs, rounds[n].chunk);
    ReportsConcat(read, Feed([], cs).payloads, Drain(Feed([], cs).rest + rounds[n].chunk).payloads);
  }
}
