// The FTP control channel's line and reply readers (src/ftps.cpp:363-428). The
// transport delivers the stream in pieces of at most 512 bytes and then fails;
// how it cuts the stream makes no difference while lines keep to the cap.
module ControlReply {
  import opened Text

  const MAX_LINE: nat := 16384
  const MAX_REPLY: nat := 262144
  const READ: nat := 512

  predicate Deliverable(chunks: seq<string>) {
    chunks == [] || (0 < |chunks[0]| <= READ && Deliverable(chunks[1..]))
  }

  function Feed(s: string): Option<nat> { IndexOf(s, '\n') }

  function WithoutReturn(line: string): string {
    if line != [] && line[|line| - 1] == '\r' then line[..|line| - 1] else line
  }

  // ---- What the stream says, however it is cut ----

  datatype Line = Line(text: string, rest: string) | NoLine

  function FirstLine(stream: string): Line {
    match Feed(stream)
    case None => NoLine
    case Some(k) => Line(WithoutReturn(stream[..k]), stream[k + 1..])
  }

  function Code(line: string): Option<nat> {
    if |line| >= 4 && IsDigit(line[0]) && IsDigit(line[1]) && IsDigit(line[2]) && line[3] == ' ' then
      Some((line[0] as int - 48) * 100 + (line[1] as int - 48) * 10 + (line[2] as int - 48))
    else None
  }

  function Extended(text: string, line: string): string {
    if text == [] then line else text + "\n" + line
  }

  datatype Reply = Reply(code: int, text: string, rest: string) | Failed

  // The first line that ends a reply ends it, whatever code opened it.
  function ReplyOf(stream: string, text: string): Reply
    decreases |stream|
  {
    match FirstLine(stream)
    case NoLine => Failed
    case Line(line, rest) =>
      var more := Extended(text, line);
      if |more| > MAX_REPLY then Failed
      else
        match Code(line)
        case Some(code) => Reply(code, more, rest)
        case None => ReplyOf(rest, more)
  }

  // Every line of the reply keeps to the cap; what comes behind it may not.
  predicate ReplyFits(stream: string, text: string)
    decreases |stream|
  {
    match Feed(stream)
    case None => true
    case Some(k) =>
      var line := WithoutReturn(stream[..k]);
      k <= MAX_LINE &&
      (|Extended(text, line)| > MAX_REPLY || Code(line).Some? || ReplyFits(stream[k + 1..], Extended(text, line)))
  }

  // ---- The readers ----

  lemma {:induction false} FeedStays(a: string, b: string)
    requires Feed(a).Some?
    ensures Feed(a + b) == Feed(a)
  {
    assert (a + b)[1..] == a[1..] + b;
    if a[0] != '\n' {
      FeedStays(a[1..], b);
    }
  }

  lemma {:induction false} FeedComesLater(a: string, b: string)
    requires Feed(a) == None && Feed(a + b).Some?
    ensures Feed(a + b).value >= |a|
  {
    if a != [] {
      assert (a + b)[1..] == a[1..] + b;
      FeedComesLater(a[1..], b);
    }
  }

  class Reader {
    var ctrlBuf: string
    var incoming: seq<string>

    predicate Valid() reads this {
      Deliverable(incoming) && |ctrlBuf| <= MAX_LINE + READ
    }

    function Stream(): string reads this { ctrlBuf + Joined(incoming) }

    constructor (chunks: seq<string>)
      requires Deliverable(chunks)
      ensures Valid() && Stream() == Joined(chunks)
    {
      ctrlBuf, incoming := [], chunks;
    }

    // One read of the transport; false once it fails.
    method CtrlRead() returns (ok: bool)
      requires Deliverable(incoming)
      modifies this
      ensures ok == (old(incoming) != [])
      ensures !ok ==> ctrlBuf == old(ctrlBuf) && incoming == old(incoming)
      ensures ok ==> ctrlBuf == old(ctrlBuf + incoming[0]) && incoming == old(incoming)[1..]
      ensures Deliverable(incoming) && Stream() == old(Stream()) && |ctrlBuf| <= |old(ctrlBuf)| + READ
    {
      if incoming == [] { return false; }
      Assoc(ctrlBuf, incoming[0], Joined(incoming[1..]));
      ctrlBuf, incoming := ctrlBuf + incoming[0], incoming[1..];
      ok := true;
    }

    method ReadLine() returns (ok: bool, line: string)
      requires Valid()
      modifies this
      ensures Valid()
      // What is read is the first line of the stream, and only that is taken.
      ensures ok ==> FirstLine(old(Stream())) == Line(line, Stream())
      ensures Feed(old(Stream())).None? ==> !ok
      // Whether it is read is decided by the cut.
      ensures ok == Outcome(old(ctrlBuf), old(incoming))
      // A line within the cap is always read.
      ensures Feed(old(Stream())).Some? && Feed(old(Stream())).value <= MAX_LINE ==> ok
    {
      line := [];
      ghost var stream := Stream();
      ghost var outcome := Outcome(ctrlBuf, incoming);
      while true
        invariant Valid() && Stream() == stream && Outcome(ctrlBuf, incoming) == outcome
        decreases |incoming|
      {
        var nl := Feed(ctrlBuf);
        if nl.Some? {
          FeedStays(ctrlBuf, Joined(incoming));
          LineOfBuffer(ctrlBuf, Joined(incoming), nl.value);
          line := WithoutReturn(ctrlBuf[..nl.value]);
          ctrlBuf := ctrlBuf[nl.value + 1..];
          return true, line;
        }
        if Feed(stream).Some? && Feed(stream).value <= MAX_LINE { OutcomeWithinCap(ctrlBuf, incoming); }
        if |ctrlBuf| > MAX_LINE { return false, []; }
        ok := CtrlRead();
        if !ok {
          assert Joined(incoming) == [] && ctrlBuf + [] == ctrlBuf;
          return false, [];
        }
      }
    }

    // The code and text of the reply; the code is -1 when it fails.
    method ReadReply() returns (code: int, text: string)
      requires Valid()
      modifies this
      ensures Valid()
      ensures code >= 0 ==> ReplyOf(old(Stream()), []) == Reply(code, text, Stream())
      ensures ReplyFits(old(Stream()), []) && ReplyOf(old(Stream()), []) != Failed ==> code >= 0
    {
      text := [];
      ghost var stream := Stream();
      while true
        invariant Valid() && ReplyOf(stream, []) == ReplyOf(Stream(), text)
        invariant ReplyFits(stream, []) ==> ReplyFits(Stream(), text)
        decreases |Stream()|
      {
        var ok, line := ReadLine();
        if !ok { return -1, []; }
        text := Extended(text, line);
        if |text| > MAX_REPLY { return -1, []; }
        var c := Code(line);
        if c.Some? { return c.value, text; }
      }
    }
  }

  lemma LineOfBuffer(buf: string, later: string, k: nat)
    requires k < |buf|
    ensures (buf + later)[..k] == buf[..k] && (buf + later)[k + 1..] == buf[k + 1..] + later
  {
  }

  // ---- Which lines are read ----

  // Whether the reader gets its line, cut by cut.
  function Outcome(buf: string, chunks: seq<string>): bool
    decreases |chunks|
  {
    Feed(buf).Some? || (|buf| <= MAX_LINE && chunks != [] && Outcome(buf + chunks[0], chunks[1..]))
  }

  lemma {:induction false} OutcomeWithinCap(buf: string, chunks: seq<string>)
    requires Feed(buf + Joined(chunks)).Some? && Feed(buf + Joined(chunks)).value <= MAX_LINE
    ensures Outcome(buf, chunks)
    decreases |chunks|
  {
    if Feed(buf) == None {
      FeedComesLater(buf, Joined(chunks));
      assert buf + [] == buf;
      if chunks != [] {
        Assoc(buf, chunks[0], Joined(chunks[1..]));
        OutcomeWithinCap(buf + chunks[0], chunks[1..]);
      }
    }
  }

  // A line longer than the cap and one read is refused however it is cut, and
  // so is a stream without a line feed.
  lemma {:induction false} RefusedBeyondRead(buf: string, chunks: seq<string>)
    requires Deliverable(chunks) && Feed(buf) == None
    requires var f := Feed(buf + Joined(chunks)); f == None || f.value >= MAX_LINE + READ
    ensures !Outcome(buf, chunks)
    decreases |chunks|
  {
    if chunks != [] && |buf| <= MAX_LINE {
      var more := buf + chunks[0];
      Assoc(buf, chunks[0], Joined(chunks[1..]));
      if Feed(more).Some? { FeedStays(more, Joined(chunks[1..])); }
      RefusedBeyondRead(more, chunks[1..]);
    }
  }

  // The stream in pieces of one full read each, the last one perhaps shorter.
  function Pieces(s: string): seq<string>
    decreases |s|
  {
    if s == [] then [] else if |s| <= READ then [s] else [s[..READ]] + Pieces(s[READ..])
  }

  lemma {:induction false} PiecesDeliver(s: string)
    ensures Deliverable(Pieces(s)) && Joined(Pieces(s)) == s
    decreases |s|
  {
    if 0 < |s| <= READ {
      assert [s][1..] == [] && s + [] == s;
    } else if s != [] {
      PiecesDeliver(s[READ..]);
      assert s == s[..READ] + s[READ..];
    }
  }

  lemma {:induction false} DeliverBoth(a: seq<string>, b: seq<string>)
    requires Deliverable(a) && Deliverable(b)
    ensures Deliverable(a + b) && Joined(a + b) == Joined(a) + Joined(b)
  {
    if a == [] {
      assert a + b == b;
    } else {
      assert (a + b)[1..] == a[1..] + b;
      DeliverBoth(a[1..], b);
    }
  }

  // Pieces without a line feed that keep to the cap are only collected.
  lemma {:induction false} Collected(buf: string, a: seq<string>, b: seq<string>)
    requires Feed(buf + Joined(a)) == None && |buf + Joined(a)| <= MAX_LINE
    ensures Outcome(buf, a + b) == Outcome(buf + Joined(a), b)
    decreases |a|
  {
    if a == [] {
      assert a + b == b && buf + [] == buf;
    } else {
      if Feed(buf).Some? { FeedStays(buf, Joined(a)); }
      assert (a + b)[1..] == a[1..] + b;
      Assoc(buf, a[0], Joined(a[1..]));
      Collected(buf + a[0], a[1..], b);
    }
  }

  lemma NoFeedBefore(s: string, k: nat, n: nat)
    requires Feed(s) == Some(k) && n <= k
    ensures k < |s| && Feed(s[..n]) == None
  {
    assert s == s[..n] + s[n..];
    if Feed(s[..n]).Some? { FeedStays(s[..n], s[n..]); }
  }

  // The stream cut first behind n bytes, then as long as reads allow.
  function CutAt(stream: string, n: nat): seq<string>
    requires n <= |stream|
  {
    Pieces(stream[..n]) + Pieces(stream[n..])
  }

  lemma CutAtDelivers(stream: string, n: nat)
    requires n <= |stream|
    ensures Deliverable(CutAt(stream, n)) && Joined(CutAt(stream, n)) == stream
  {
    PiecesDeliver(stream[..n]);
    PiecesDeliver(stream[n..]);
    DeliverBoth(Pieces(stream[..n]), Pieces(stream[n..]));
    assert stream == stream[..n] + stream[n..];
  }

  // In between the outcome depends on the cut: every such stream can be cut so
  // that its first line is read, and so that it is refused.
  lemma CapDependsOnTheCut(stream: string, k: nat) returns (a: seq<string>, b: seq<string>)
    requires Feed(stream) == Some(k) && MAX_LINE < k < MAX_LINE + READ
    ensures Deliverable(a) && Joined(a) == stream && Outcome([], a)
    ensures Deliverable(b) && Joined(b) == stream && !Outcome([], b)
  {
    a := CutAt(stream, MAX_LINE);
    CutAtDelivers(stream, MAX_LINE);
    FullReadTakesIt(stream, k);
    b := Pieces(stream[..MAX_LINE]) + ([stream[MAX_LINE..MAX_LINE + 1]] + Pieces(stream[MAX_LINE + 1..]));
    OneByteRefuses(stream, k);
  }

  lemma FullReadTakesIt(stream: string, k: nat)
    requires Feed(stream) == Some(k) && MAX_LINE < k < MAX_LINE + READ
    ensures Outcome([], CutAt(stream, MAX_LINE))
  {
    var front, tail := stream[..MAX_LINE], stream[MAX_LINE..];
    PiecesDeliver(front);
    NoFeedBefore(stream, k, MAX_LINE);
    assert [] + front == front;
    Collected([], Pieces(front), Pieces(tail));
    var piece := if |tail| <= READ then tail else tail[..READ];
    assert Pieces(tail)[0] == piece;
    assert stream == (front + piece) + tail[|piece|..];
    if Feed(front + piece) == None { FeedComesLater(front + piece, tail[|piece|..]); }
  }

  lemma OneByteRefuses(stream: string, k: nat)
    requires Feed(stream) == Some(k) && MAX_LINE < k < |stream|
    ensures var b := Pieces(stream[..MAX_LINE]) + ([stream[MAX_LINE..MAX_LINE + 1]] + Pieces(stream[MAX_LINE + 1..]));
      Deliverable(b) && Joined(b) == stream && !Outcome([], b)
  {
    var front, one, tail := stream[..MAX_LINE], stream[MAX_LINE..MAX_LINE + 1], stream[MAX_LINE + 1..];
    var later := [one] + Pieces(tail);
    PiecesDeliver(front);
    PiecesDeliver(tail);
    assert later[1..] == Pieces(tail) && Joined(later) == one + tail;
    DeliverBoth(Pieces(front), later);
    assert stream == front + (one + tail);
    NoFeedBefore(stream, k, MAX_LINE);
    NoFeedBefore(stream, k, MAX_LINE + 1);
    assert [] + front == front && front + one == stream[..MAX_LINE + 1];
    Collected([], Pieces(front), later);
  }

  // The outcome is the same for every cut.
  ghost predicate SameHoweverCut(stream: string) {
    forall a, b :: Deliverable(a) && Deliverable(b) && Joined(a) == stream && Joined(b) == stream ==>
      Outcome([], a) == Outcome([], b)
  }

  // Exactly which streams are read alike however they are cut: those without a
  // line feed, those whose first line keeps to the cap, which is read, and
  // those whose first line is a full read longer, which is refused.
  lemma CutMattersExactlyWhen(stream: string)
    ensures SameHoweverCut(stream) <==>
      Feed(stream).None? || Feed(stream).value <= MAX_LINE || Feed(stream).value >= MAX_LINE + READ
    ensures forall a :: Deliverable(a) && Joined(a) == stream ==>
      (Feed(stream).Some? && Feed(stream).value <= MAX_LINE ==> Outcome([], a)) &&
      (Feed(stream).None? || Feed(stream).value >= MAX_LINE + READ ==> !Outcome([], a))
  {
    assert [] + stream == stream;
    forall a | Deliverable(a) && Joined(a) == stream
      ensures (Feed(stream).Some? && Feed(stream).value <= MAX_LINE ==> Outcome([], a)) &&
              (Feed(stream).None? || Feed(stream).value >= MAX_LINE + READ ==> !Outcome([], a))
    {
      if Feed(stream).Some? && Feed(stream).value <= MAX_LINE {
        OutcomeWithinCap([], a);
      } else if Feed(stream).None? || Feed(stream).value >= MAX_LINE + READ {
        RefusedBeyondRead([], a);
      }
    }
    if Feed(stream).Some? && MAX_LINE < Feed(stream).value < MAX_LINE + READ {
      var a, b := CapDependsOnTheCut(stream, Feed(stream).value);
    }
  }

  // There are such streams in between: the shortest first line of this kind.
  lemma {:induction false} RunThenFeed(n: nat)
    ensures Feed(seq(n, i => 'x') + "\n") == Some(n)
  {
    var s := seq(n, i => 'x') + "\n";
    if n > 0 {
      assert s[1..] == seq(n - 1, i => 'x') + "\n";
      RunThenFeed(n - 1);
    }
  }

  lemma CutCanMatter()
    ensures !SameHoweverCut(seq(MAX_LINE + 1, i => 'x') + "\n")
  {
    RunThenFeed(MAX_LINE + 1);
    CutMattersExactlyWhen(seq(MAX_LINE + 1, i => 'x') + "\n");
  }

  lemma {:induction false} FeedBehind(line: string, rest: string)
    requires Feed(line) == None
    ensures FirstLine(line + (['\n'] + rest)) == Line(WithoutReturn(line), rest)
  {
    FeedAt(line, rest);
    var s := line + (['\n'] + rest);
    assert s[..|line|] == line && s[|line| + 1..] == rest;
  }

  lemma {:induction false} FeedAt(line: string, rest: string)
    requires Feed(line) == None
    ensures Feed(line + (['\n'] + rest)) == Some(|line|)
  {
    var s := line + (['\n'] + rest);
    if line == [] {
      assert s == ['\n'] + rest;
    } else {
      assert s[1..] == line[1..] + (['\n'] + rest);
      FeedAt(line[1..], rest);
    }
  }

  // The closing line's code is taken whatever the opening line's was, where
  // section 4.2 of RFC 959 wants them equal.
  lemma AnyCodeCloses(opening: string, closing: string, rest: string)
    requires Feed(opening) == None && Feed(closing) == None
    requires WithoutReturn(opening) != [] && Code(WithoutReturn(opening)) == None
    requires Code(WithoutReturn(closing)).Some?
    requires |opening| + |closing| < MAX_REPLY
    ensures ReplyOf(opening + (['\n'] + (closing + (['\n'] + rest))), []) ==
      Reply(Code(WithoutReturn(closing)).value, WithoutReturn(opening) + "\n" + WithoutReturn(closing), rest)
  {
    hide FirstLine, Code;
    FeedBehind(opening, closing + (['\n'] + rest));
    FeedBehind(closing, rest);
  }
}
