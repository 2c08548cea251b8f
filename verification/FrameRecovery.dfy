// How the receive buffer of the bind protocol recovers from bytes that are no
// frame (src/lan_bind_tcp.cpp:243-271), said by the bytes alone: what is thrown
// away, what is taken and what waits.
module FrameRecovery {
  import opened Text
  import opened FrameCodec
  import opened FrameStream

  predicate PairAt(s: seq<byte>, k: nat) { k + 1 < |s| && s[k] == 0xA5 && s[k + 1] == 0xA5 }

  // The first two head bytes stand at k.
  ghost predicate FirstPair(s: seq<byte>, k: nat) { PairAt(s, k) && forall j: nat :: j < k ==> !PairAt(s, j) }

  ghost predicate NoPair(s: seq<byte>) { forall j: nat :: !PairAt(s, j) }

  lemma {:induction false} HeadMeans(s: seq<byte>)
    ensures match HeadAt(s)
      case None => NoPair(s)
      case Some(k) => FirstPair(s, k)
  {
    if |s| >= 2 && !PairAt(s, 0) {
      HeadMeans(s[1..]);
      forall j: nat | j > 0 ensures PairAt(s, j) == PairAt(s[1..], j - 1) { }
    }
  }

  // The length the start at k announces.
  predicate Announces(s: seq<byte>, k: nat, total: nat) {
    k + 3 < |s| && s[k + 2] as int + 0x100 * s[k + 3] as int == total
  }

  predicate Ends(s: seq<byte>, end: nat) { 2 <= end <= |s| && s[end - 2] == 0xA7 && s[end - 1] == 0xA7 }

  // On a start at k there is a whole frame of this length.
  predicate FrameStands(s: seq<byte>, k: nat, total: nat) {
    Announces(s, k, total) && total >= 6 && k + total <= |s| && Ends(s, k + total)
  }

  // The start at k is none: the length is too small for a frame, or its last
  // two bytes are there and are not the tail.
  predicate FalseStart(s: seq<byte>, k: nat, total: nat) {
    Announces(s, k, total) && (total < 6 || (k + total <= |s| && !Ends(s, k + total)))
  }

  // Its length, or bytes of it, are still to come.
  ghost predicate Unfinished(s: seq<byte>, k: nat) {
    k + 4 > |s| || exists total: nat :: Announces(s, k, total) && total >= 6 && k + total > |s|
  }

  // Nothing is kept of a buffer without two head bytes. Otherwise everything
  // before the first two goes; and then a whole frame is taken, of a false start
  // only the two head bytes go, and an unfinished one waits. These are all cases.
  lemma DrainExactly(s: seq<byte>, k: nat, total: nat)
    ensures NoPair(s) ==> Drain(s) == Drained([], [])
    ensures FirstPair(s, k) && FrameStands(s, k, total) ==>
      Drain(s) == Cons(s[k + 4..k + total - 2], Drain(s[k + total..]))
    ensures FirstPair(s, k) && FalseStart(s, k, total) ==> Drain(s) == Drain(s[k + 2..])
    ensures FirstPair(s, k) && Unfinished(s, k) ==> Drain(s) == Drained([], s[k..])
    ensures FirstPair(s, k) ==>
      Unfinished(s, k) || exists n: nat :: FrameStands(s, k, n) || FalseStart(s, k, n)
  {
    HeadMeans(s);
    if FirstPair(s, k) {
      FirstIsUnique(s, k);
      assert HeadAt(s) == Some(k);
      StartExactly(s, k, total);
    }
  }

  lemma FirstIsUnique(s: seq<byte>, k: nat)
    requires FirstPair(s, k)
    ensures forall j: nat :: FirstPair(s, j) ==> j == k
    ensures !NoPair(s)
  {
    forall j: nat | FirstPair(s, j) ensures j == k { assert !(j < k) && !(k < j); }
  }

  lemma StartExactly(s: seq<byte>, k: nat, total: nat)
    requires HeadAt(s) == Some(k) && PairAt(s, k)
    ensures FrameStands(s, k, total) ==> Drain(s) == Cons(s[k + 4..k + total - 2], Drain(s[k + total..]))
    ensures FalseStart(s, k, total) ==> Drain(s) == Drain(s[k + 2..])
    ensures Unfinished(s, k) ==> Drain(s) == Drained([], s[k..])
    ensures Unfinished(s, k) || exists n: nat :: FrameStands(s, k, n) || FalseStart(s, k, n)
  {
    var c := s[k..];
    assert Drain(s) == Resync(c);
    if |c| >= 4 {
      var n := TotalAt(c);
      assert Announces(s, k, n);
      assert c[2..] == s[k + 2..];
      if n <= |c| {
        assert c[n..] == s[k + n..];
        if n >= 6 { assert c[4..n - 2] == s[k + 4..k + n - 2]; }
      }
      assert FrameStands(s, k, n) || FalseStart(s, k, n) || Unfinished(s, k);
    }
  }

  // Bytes without two head bytes, the last of them none, do not hide the frames
  // behind them.
  lemma FramesBehindNoise(noise: seq<byte>, payloads: seq<seq<byte>>, tail: seq<byte>)
    requires NoPair(noise) && (noise == [] || noise[|noise| - 1] != 0xA5) && Fits(payloads)
    ensures Drain(noise + (Stream(payloads) + tail)) == Append(Drained(payloads, []), Drain(tail))
  {
    var b := Stream(payloads) + tail;
    HeadMeans(noise);
    if HeadAt(noise).Some? { assert PairAt(noise, HeadAt(noise).value); }
    HeadSkips(noise, b);
    SkippedPrefix(noise, b);
    FramesDrain(payloads, tail);
  }

  // A head byte at their end does: with it the pair is found one byte early, and
  // the length is read from the wrong place.
  lemma NoiseCanHideFrame()
    ensures FrameStands([0xA5] + EncodeFrame([]), 1, 6) && Drain([0xA5] + EncodeFrame([])).payloads == []
  {
    var s: seq<byte> := [0xA5] + EncodeFrame([]);
    assert EncodeFrame([]) == [0xA5, 0xA5, 6, 0, 0xA7, 0xA7];
    assert s == [0xA5, 0xA5, 0xA5, 6, 0, 0xA7, 0xA7];
    assert FirstPair(s, 0) && Announces(s, 0, 0x6A5);
    DrainExactly(s, 0, 0x6A5);
  }
}
