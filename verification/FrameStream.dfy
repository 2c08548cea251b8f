// What draining a stream in pieces gives (src/lan_bind_tcp.cpp): when cuts do
// not matter, exactly when they do, and that the payloads are those sent.
module FrameStream {
  import opened Text
  import opened FrameCodec

  function Append(d: Drained, e: Drained): Drained { Drained(d.payloads + e.payloads, e.rest) }

  // The no-match clear dropped a last byte that could have started a frame. A
  // caller sees it after the call: the buffer is empty though the input ended
  // in a head byte.
  predicate LosesHead(a: seq<byte>) {
    a != [] && a[|a| - 1] == HEAD && Drain(a).rest == []
  }

  // Draining a, then the rest with b behind it, is draining a + b.
  predicate CutIsHarmless(a: seq<byte>, b: seq<byte>) {
    Drain(a + b) == Append(Drain(a), Drain(Drain(a).rest + b))
  }

  lemma HeadStep(buf: seq<byte>)
    requires buf != [] && (|buf| == 1 || buf[0] != HEAD || buf[1] != HEAD)
    ensures HeadAt(buf) == Shift(HeadAt(buf[1..]), 1)
  {
  }

  lemma {:induction false} HeadSkips(a: seq<byte>, b: seq<byte>)
    requires HeadAt(a) == None
    requires a == [] || a[|a| - 1] != HEAD || b == [] || b[0] != HEAD
    ensures HeadAt(a + b) == Shift(HeadAt(b), |a|)
  {
    if a == [] {
      assert a + b == b;
    } else {
      var c := a + b;
      assert c[1..] == a[1..] + b;
      HeadStep(a);
      HeadSkips(a[1..], b);
      assert c[0] == a[0] && (|c| > 1 ==> c[1] == if |a| > 1 then a[1] else b[0]);
      HeadStep(c);
    }
  }

  lemma {:induction false} HeadStays(a: seq<byte>, b: seq<byte>)
    requires HeadAt(a).Some?
    ensures HeadAt(a + b) == HeadAt(a)
  {
    assert (a + b)[1..] == a[1..] + b;
    if !(a[0] == HEAD && a[1] == HEAD) {
      HeadStays(a[1..], b);
    }
  }

  lemma DrainFromHead(buf: seq<byte>)
    requires |buf| >= 2 && buf[0] == HEAD && buf[1] == HEAD
    ensures Drain(buf) == Resync(buf)
  {
    assert buf[0..] == buf;
  }

  lemma DropThenConcat(a: seq<byte>, b: seq<byte>, i: nat)
    requires i <= |a|
    ensures (a + b)[i..] == a[i..] + b
    ensures i < |a| ==> a[i..][|a[i..]| - 1] == a[|a| - 1]
  {
  }

  // Chunk invariance, for every cut that does not lose a head byte.
  lemma {:induction false} CutsAreHarmless(a: seq<byte>, b: seq<byte>)
    requires !LosesHead(a) || b == [] || b[0] != HEAD
    ensures CutIsHarmless(a, b)
    decreases |a|, 1
  {
    match HeadAt(a)
    case None => HeadlessCut(a, b);
    case Some(i) =>
      HeadStays(a, b);
      DropThenConcat(a, b, i);
      ResyncCuts(a[i..], b);
  }

  lemma HeadlessCut(a: seq<byte>, b: seq<byte>)
    requires HeadAt(a) == None
    requires a == [] || a[|a| - 1] != HEAD || b == [] || b[0] != HEAD
    ensures CutIsHarmless(a, b)
  {
    HeadSkips(a, b);
    assert [] + b == b;
    SkippedPrefix(a, b);
  }

  lemma SkippedPrefix(a: seq<byte>, b: seq<byte>)
    requires HeadAt(a + b) == Shift(HeadAt(b), |a|)
    ensures Drain(a + b) == Drain(b)
  {
    hide HeadAt;
    if HeadAt(b).Some? {
      assert (a + b)[|a| + HeadAt(b).value..] == b[HeadAt(b).value..];
    }
  }

  predicate Malformed(c: seq<byte>) {
    |c| >= 4 &&
    (TotalAt(c) < MIN_FRAME ||
     (TotalAt(c) <= |c| && (c[TotalAt(c) - 2] != TAIL || c[TotalAt(c) - 1] != TAIL)))
  }

  predicate Complete(c: seq<byte>, total: nat) {
    |c| >= 4 && total == TotalAt(c) && MIN_FRAME <= total <= |c| &&
    c[total - 2] == TAIL && c[total - 1] == TAIL
  }

  function Cons(p: seq<byte>, d: Drained): Drained { Drained([p] + d.payloads, d.rest) }

  lemma MalformedStep(c: seq<byte>)
    requires Malformed(c)
    ensures Resync(c) == Drain(c[2..])
  {
  }

  lemma CompleteStep(c: seq<byte>, total: nat)
    requires Complete(c, total)
    ensures Resync(c) == Cons(c[4..total - 2], Drain(c[total..]))
  {
  }

  lemma AppendAfterCons(p: seq<byte>, d: Drained, e: Drained)
    ensures Append(Cons(p, d), e) == Cons(p, Append(d, e))
  {
  }

  // Bytes behind a malformed head or a complete frame do not change that.
  lemma StepsStay(a: seq<byte>, b: seq<byte>)
    requires |a| >= 4
    ensures Malformed(a) ==> Malformed(a + b)
    ensures Complete(a, TotalAt(a)) ==> Complete(a + b, TotalAt(a))
  {
  }

  lemma {:induction false} ResyncCuts(a: seq<byte>, b: seq<byte>)
    requires |a| >= 2 && a[0] == HEAD && a[1] == HEAD
    requires a[|a| - 1] != HEAD || Resync(a).rest != [] || b == [] || b[0] != HEAD
    ensures Resync(a + b) == Append(Resync(a), Drain(Resync(a).rest + b))
    decreases |a|, 0
  {
    if Malformed(a) {
      StepsStay(a, b);
      MalformedStep(a);
      MalformedStep(a + b);
      DropThenConcat(a, b, 2);
      CutsAreHarmless(a[2..], b);
    } else if |a| >= 4 && TotalAt(a) <= |a| {
      var total := TotalAt(a);
      StepsStay(a, b);
      CompleteStep(a, total);
      DropThenConcat(a, b, total);
      CutsAreHarmless(a[total..], b);
      FrameStays(a, b, total);
    } else {
      DrainFromHead(a + b);
    }
  }

  lemma FrameStays(a: seq<byte>, b: seq<byte>, total: nat)
    requires Complete(a, total) && Complete(a + b, total)
    requires CutIsHarmless(a[total..], b)
    ensures Resync(a + b) == Append(Resync(a), Drain(Resync(a).rest + b))
  {
    CompleteStep(a, total);
    CompleteStep(a + b, total);
    DropThenConcat(a, b, total);
    assert (a + b)[4..total - 2] == a[4..total - 2];
    var d := Drain(a[total..]);
    AppendAfterCons(a[4..total - 2], d, Drain(d.rest + b));
  }

  // A lost head byte shows at once: one more head byte makes a frame start
  // when drained in one piece, and is dropped too when drained in two.
  lemma {:induction false} LostHeadShows(a: seq<byte>)
    requires LosesHead(a)
    ensures Drain(a + [HEAD]).rest == [HEAD, HEAD]
    decreases |a|, 1
  {
    match HeadAt(a)
    case None => LastHeadMatches(a);
    case Some(i) =>
      HeadStays(a, [HEAD]);
      DropThenConcat(a, [HEAD], i);
      ResyncLost(a[i..]);
  }

  lemma {:induction false} ResyncLost(c: seq<byte>)
    requires |c| >= 2 && c[0] == HEAD && c[1] == HEAD
    requires c[|c| - 1] == HEAD && Resync(c).rest == []
    ensures Resync(c + [HEAD]).rest == [HEAD, HEAD]
    decreases |c|, 0
  {
    var total := TotalAt(c);
    var d := c + [HEAD];
    StepsStay(c, [HEAD]);
    if Malformed(c) {
      MalformedStep(c);
      MalformedStep(d);
      DropThenConcat(c, [HEAD], 2);
      LostHeadShows(c[2..]);
    } else {
      CompleteStep(c, total);
      CompleteStep(d, total);
      DropThenConcat(c, [HEAD], total);
      LostHeadShows(c[total..]);
    }
  }

  lemma {:induction false} LastHeadMatches(a: seq<byte>)
    requires HeadAt(a) == None && a != [] && a[|a| - 1] == HEAD
    ensures Drain(a + [HEAD]).rest == [HEAD, HEAD]
    ensures HeadAt(a + [HEAD]) == Some(|a| - 1)
  {
    var s := a + [HEAD];
    if |a| > 1 {
      assert s[1..] == a[1..] + [HEAD];
      LastHeadMatches(a[1..]);
    }
    assert s[|a| - 1..] == [HEAD, HEAD];
  }

  // Exactly when a cut is harmless whatever follows it.
  lemma HarmlessExactlyWhen(a: seq<byte>)
    ensures (forall b :: CutIsHarmless(a, b)) <==> !LosesHead(a)
  {
    if LosesHead(a) {
      LostHeadShows(a);
      assert [] + [HEAD] == [HEAD];
      assert Drain([HEAD]).rest == [];
      assert !CutIsHarmless(a, [HEAD]);
    } else {
      forall b ensures CutIsHarmless(a, b) { CutsAreHarmless(a, b); }
    }
  }

  // ---- Every payload is a genuine frame ----

  // Dropped bytes and frames, alternating.
  function Weave(gaps: seq<seq<byte>>, payloads: seq<seq<byte>>): seq<byte>
    requires |gaps| == |payloads| + 1
  {
    if payloads == [] then gaps[0]
    else gaps[0] + EncodeFrame(payloads[0]) + Weave(gaps[1..], payloads[1..])
  }

  // The input is, in order, dropped bytes, the frame of each payload, more
  // dropped bytes, and the remainder.
  ghost predicate Decomposes(buf: seq<byte>, d: Drained, gaps: seq<seq<byte>>) {
    |gaps| == |d.payloads| + 1 && buf == Weave(gaps, d.payloads) + d.rest
  }

  lemma {:induction false} PayloadsAreFrames(buf: seq<byte>) returns (gaps: seq<seq<byte>>)
    ensures Decomposes(buf, Drain(buf), gaps)
    ensures forall p :: p in Drain(buf).payloads ==> |p| <= MAX_PAYLOAD
    decreases |buf|, 1
  {
    match HeadAt(buf)
    case None =>
      gaps := [buf];
      assert Weave([buf], []) + [] == buf;
    case Some(i) =>
      gaps := ResyncDecomposes(buf[i..]);
      gaps := Widen(buf[..i], buf[i..], Drain(buf), gaps);
      assert buf == buf[..i] + buf[i..];
  }

  lemma {:induction false} ResyncDecomposes(c: seq<byte>) returns (gaps: seq<seq<byte>>)
    requires |c| >= 2 && c[0] == HEAD && c[1] == HEAD
    ensures Decomposes(c, Resync(c), gaps)
    ensures forall p :: p in Resync(c).payloads ==> |p| <= MAX_PAYLOAD
    decreases |c|, 0
  {
    hide Drain, TotalAt;
    if |c| < 4 || (TotalAt(c) >= MIN_FRAME && |c| < TotalAt(c)) {
      gaps := [[]];
      assert Weave([[]], []) + c == c;
    } else if TotalAt(c) < MIN_FRAME || c[TotalAt(c) - 2] != TAIL || c[TotalAt(c) - 1] != TAIL {
      gaps := PayloadsAreFrames(c[2..]);
      gaps := Widen(c[..2], c[2..], Resync(c), gaps);
      assert c == c[..2] + c[2..];
    } else {
      var total := TotalAt(c);
      var d := Drain(c[total..]);
      gaps := PayloadsAreFrames(c[total..]);
      FrameIsEncoded(c);
      WeaveFrame(c[4..total - 2], gaps, d);
      gaps := [[]] + gaps;
      assert c == c[..total] + c[total..];
    }
  }

  lemma WeaveFrame(p: seq<byte>, gaps: seq<seq<byte>>, d: Drained)
    requires |gaps| == |d.payloads| + 1
    ensures Weave([[]] + gaps, [p] + d.payloads) + d.rest == EncodeFrame(p) + (Weave(gaps, d.payloads) + d.rest)
  {
    Weaved([[]] + gaps, [p] + d.payloads, gaps, d.payloads);
    assert [] + EncodeFrame(p) == EncodeFrame(p);
    Assoc(EncodeFrame(p), Weave(gaps, d.payloads), d.rest);
  }

  lemma Weaved(gaps: seq<seq<byte>>, payloads: seq<seq<byte>>, laterGaps: seq<seq<byte>>, later: seq<seq<byte>>)
    requires |gaps| == |payloads| + 1 && payloads != [] && gaps[1..] == laterGaps && payloads[1..] == later
    ensures Weave(gaps, payloads) == gaps[0] + EncodeFrame(payloads[0]) + Weave(laterGaps, later)
  {
  }

  lemma Widen(g: seq<byte>, buf: seq<byte>, d: Drained, gaps: seq<seq<byte>>) returns (wider: seq<seq<byte>>)
    requires Decomposes(buf, d, gaps)
    ensures Decomposes(g + buf, d, wider)
  {
    wider := [g + gaps[0]] + gaps[1..];
    assert wider[1..] == gaps[1..];
    assert Weave(wider, d.payloads) == g + Weave(gaps, d.payloads);
  }

  // A complete frame at the front is the encoding of its payload.
  lemma FrameIsEncoded(c: seq<byte>)
    requires |c| >= 4 && c[0] == HEAD && c[1] == HEAD
    requires MIN_FRAME <= TotalAt(c) <= |c| && c[TotalAt(c) - 2] == TAIL && c[TotalAt(c) - 1] == TAIL
    ensures c[..TotalAt(c)] == EncodeFrame(c[4..TotalAt(c) - 2])
    ensures TotalAt(c) - 6 <= MAX_PAYLOAD
  {
  }

  // ---- What the peer sent is what is drained ----

  predicate Fits(payloads: seq<seq<byte>>) {
    payloads == [] || (|payloads[0]| <= MAX_PAYLOAD && Fits(payloads[1..]))
  }

  function Stream(payloads: seq<seq<byte>>): seq<byte> {
    if payloads == [] then [] else EncodeFrame(payloads[0]) + Stream(payloads[1..])
  }

  lemma EncodedIsComplete(p: seq<byte>, tail: seq<byte>)
    requires |p| <= MAX_PAYLOAD
    ensures Complete(EncodeFrame(p) + tail, |p| + 6)
  {
  }

  lemma EncodedParts(p: seq<byte>, tail: seq<byte>)
    requires |p| <= MAX_PAYLOAD
    ensures |EncodeFrame(p)| == |p| + 6
    ensures (EncodeFrame(p) + tail)[4..|p| + 6 - 2] == p
    ensures (EncodeFrame(p) + tail)[|p| + 6..] == tail
  {
  }

  lemma FrameFirst(p: seq<byte>, tail: seq<byte>)
    requires |p| <= MAX_PAYLOAD
    ensures Drain(EncodeFrame(p) + tail) == Cons(p, Drain(tail))
  {
    var c := EncodeFrame(p) + tail;
    EncodedIsComplete(p, tail);
    EncodedParts(p, tail);
    DrainFromHead(c);
    CompleteStep(c, |p| + 6);
  }

  // Encoded frames drain to exactly their payloads, whatever bytes those
  // hold (head and tail bytes included) and whatever follows.
  lemma {:induction false} FramesDrain(payloads: seq<seq<byte>>, tail: seq<byte>)
    requires Fits(payloads)
    ensures Drain(Stream(payloads) + tail) == Append(Drained(payloads, []), Drain(tail))
  {
    if payloads == [] {
      assert [] + tail == tail;
    } else {
      Assoc(EncodeFrame(payloads[0]), Stream(payloads[1..]), tail);
      FrameFirst(payloads[0], Stream(payloads[1..]) + tail);
      FramesDrain(payloads[1..], tail);
      assert payloads == [payloads[0]] + payloads[1..];
      AppendAfterCons(payloads[0], Drained(payloads[1..], []), Drain(tail));
    }
  }

  // What stays in the buffer: nothing, or the start of one frame, which
  // draining again leaves alone.
  predicate Pending(r: seq<byte>) {
    r == [] ||
    (|r| >= 2 && r[0] == HEAD && r[1] == HEAD &&
     (|r| < 4 || (MIN_FRAME <= TotalAt(r) && |r| < TotalAt(r))))
  }

  lemma {:induction false} RestIsPending(buf: seq<byte>)
    ensures Pending(Drain(buf).rest)
    decreases |buf|, 1
  {
    match HeadAt(buf)
    case None =>
    case Some(i) => ResyncPending(buf[i..]);
  }

  lemma {:induction false} ResyncPending(c: seq<byte>)
    requires |c| >= 2 && c[0] == HEAD && c[1] == HEAD
    ensures Pending(Resync(c).rest)
    decreases |c|, 0
  {
    if Malformed(c) {
      RestIsPending(c[2..]);
    } else if |c| >= 4 && TotalAt(c) <= |c| {
      CompleteStep(c, TotalAt(c));
      RestIsPending(c[TotalAt(c)..]);
    }
  }

  lemma PendingStays(r: seq<byte>)
    requires Pending(r)
    ensures Drain(r) == Drained([], r)
  {
    if r != [] {
      DrainFromHead(r);
    }
  }

  // ---- Any number of chunks ----

  // The receive loop: append a chunk, drain, keep the rest for the next.
  function Feed(rest: seq<byte>, chunks: seq<seq<byte>>): Drained
    decreases |chunks|
  {
    if chunks == [] then Drained([], rest)
    else
      var d := Drain(rest + chunks[0]);
      Append(Drained(d.payloads, []), Feed(d.rest, chunks[1..]))
  }

  predicate NoHeadLost(rest: seq<byte>, chunks: seq<seq<byte>>)
    decreases |chunks|
  {
    chunks == [] ||
    (!LosesHead(rest + chunks[0]) && NoHeadLost(Drain(rest + chunks[0]).rest, chunks[1..]))
  }

  // However the transport cuts the stream, the loop sees what one call on
  // the whole stream would, as long as no cut loses a head byte.
  lemma {:induction false} ChunkingIsInvisible(rest: seq<byte>, chunks: seq<seq<byte>>)
    requires Pending(rest) && NoHeadLost(rest, chunks)
    ensures Feed(rest, chunks) == Drain(rest + Joined(chunks))
    decreases |chunks|
  {
    if chunks == [] {
      assert rest + [] == rest;
      PendingStays(rest);
    } else {
      var a, b := rest + chunks[0], Joined(chunks[1..]);
      RestIsPending(a);
      ChunkingIsInvisible(Drain(a).rest, chunks[1..]);
      Assoc(rest, chunks[0], b);
      CutsAreHarmless(a, b);
    }
  }

  // ---- Which cuts of a genuine stream lose a head byte ----

  // k is exactly one byte into one of the frames.
  predicate OneByteIn(payloads: seq<seq<byte>>, k: int)
    decreases |payloads|
  {
    payloads != [] &&
    (k == 1 || OneByteIn(payloads[1..], k - |EncodeFrame(payloads[0])|))
  }

  lemma {:induction false} OneByteInIsPositive(payloads: seq<seq<byte>>, k: int)
    requires OneByteIn(payloads, k)
    ensures k >= 1
    decreases |payloads|
  {
    if k != 1 {
      OneByteInIsPositive(payloads[1..], k - |EncodeFrame(payloads[0])|);
    }
  }

  lemma PartialFrame(p: seq<byte>, k: nat)
    requires |p| <= MAX_PAYLOAD && k < |p| + 6 == |EncodeFrame(p)|
    ensures LosesHead(EncodeFrame(p)[..k]) <==> k == 1
  {
    var a := EncodeFrame(p)[..k];
    if k >= 2 {
      assert Pending(a);
      PendingStays(a);
    }
  }

  // A cut of a stream of encoded frames loses a head byte exactly when it
  // separates the two head bytes of a frame.
  lemma {:induction false} LossExactlyOneByteIn(payloads: seq<seq<byte>>, k: nat)
    requires Fits(payloads) && k <= |Stream(payloads)|
    ensures LosesHead(Stream(payloads)[..k]) <==> OneByteIn(payloads, k)
    decreases |payloads|
  {
    if payloads != [] {
      var p, e, t := payloads[0], EncodeFrame(payloads[0]), Stream(payloads[1..]);
      EncodedParts(p, t);
      if k < |e| {
        assert Stream(payloads)[..k] == e[..k];
        PartialFrame(p, k);
        if OneByteIn(payloads[1..], k - |e|) {
          OneByteInIsPositive(payloads[1..], k - |e|);
        }
      } else {
        var x := t[..k - |e|];
        assert Stream(payloads)[..k] == e + x;
        FrameFirst(p, x);
        LastByte(p, x);
        LossExactlyOneByteIn(payloads[1..], k - |e|);
      }
    }
  }

  lemma LastByte(p: seq<byte>, x: seq<byte>)
    requires |p| <= MAX_PAYLOAD
    ensures var c := EncodeFrame(p) + x; |c| >= 6 && c[|c| - 1] == if x == [] then TAIL else x[|x| - 1]
  {
  }

  // No chunk boundary, counted from position k, falls one byte into a frame.
  predicate CutsAvoidHeads(payloads: seq<seq<byte>>, k: nat, chunks: seq<seq<byte>>)
    decreases |chunks|
  {
    chunks == [] ||
    (!OneByteIn(payloads, k + |chunks[0]|) && CutsAvoidHeads(payloads, k + |chunks[0]|, chunks[1..]))
  }

  // A peer's messages, cut in any way but between two head bytes, arrive
  // complete, in order, and leave the buffer empty.
  lemma GenuineStreamArrives(payloads: seq<seq<byte>>, chunks: seq<seq<byte>>)
    requires Fits(payloads) && Joined(chunks) == Stream(payloads)
    requires CutsAvoidHeads(payloads, 0, chunks)
    ensures Feed([], chunks) == Drained(payloads, [])
  {
    var s := Stream(payloads);
    assert s[0..] == s && s[..0] == [] && Drain([]).rest == [];
    AvoidingKeepsHeads(payloads, 0, chunks);
    KeptHeads(s, 0, chunks);
    ChunkingIsInvisible([], chunks);
    assert [] + s == s && s + [] == s;
    FramesDrain(payloads, []);
  }

  // The same in terms of what has arrived so far.
  predicate PrefixesKeepHeads(s: seq<byte>, k: nat, chunks: seq<seq<byte>>)
    decreases |chunks|
  {
    chunks == [] ||
    (k + |chunks[0]| <= |s| && !LosesHead(s[..k + |chunks[0]|]) &&
     PrefixesKeepHeads(s, k + |chunks[0]|, chunks[1..]))
  }

  lemma {:induction false} AvoidingKeepsHeads(payloads: seq<seq<byte>>, k: nat, chunks: seq<seq<byte>>)
    requires Fits(payloads) && |Stream(payloads)| == k + |Joined(chunks)|
    requires CutsAvoidHeads(payloads, k, chunks)
    ensures PrefixesKeepHeads(Stream(payloads), k, chunks)
    decreases |chunks|
  {
    if chunks != [] {
      LossExactlyOneByteIn(payloads, k + |chunks[0]|);
      AvoidingKeepsHeads(payloads, k + |chunks[0]|, chunks[1..]);
    }
  }

  lemma {:induction false} KeptHeads(s: seq<byte>, k: nat, chunks: seq<seq<byte>>)
    requires k <= |s| && s[k..] == Joined(chunks)
    requires PrefixesKeepHeads(s, k, chunks) && !LosesHead(s[..k])
    ensures NoHeadLost(Drain(s[..k]).rest, chunks)
    decreases |chunks|
  {
    if chunks != [] {
      var c, later := chunks[0], Joined(chunks[1..]);
      AdvanceCut(s, k, c, later);
      KeepStep(s[..k], c, s[..k + |c|]);
      KeptHeads(s, k + |c|, chunks[1..]);
    }
  }

  lemma AdvanceCut(s: seq<byte>, k: nat, c: seq<byte>, later: seq<byte>)
    requires k <= |s| && s[k..] == c + later
    ensures k + |c| <= |s| && s[..k + |c|] == s[..k] + c && s[k + |c|..] == later
  {
    assert |c + later| == |s| - k;
    assert s[k + |c|..] == s[k..][|c|..];
    assert s[k..k + |c|] == s[k..][..|c|];
  }

  lemma KeepStep(a: seq<byte>, c: seq<byte>, ac: seq<byte>)
    requires ac == a + c && !LosesHead(a) && !LosesHead(ac)
    ensures !LosesHead(Drain(a).rest + c)
    ensures Drain(Drain(a).rest + c).rest == Drain(ac).rest
  {
    CutsAreHarmless(a, c);
    RestIsPending(a);
    PendingStays(Drain(a).rest);
    assert Drain(a).rest + [] == Drain(a).rest;
  }
}
