// The length-framed stream of the bind protocol (src/lan_bind_tcp.cpp):
// A5 A5 | total length, 16-bit little endian | payload | A7 A7.
module FrameCodec {
  import opened Text

  const HEAD: byte := 0xA5
  const TAIL: byte := 0xA7
  const MIN_FRAME: nat := 6
  const MAX_PAYLOAD: nat := 0xFFFF - 6

  // Empty when the frame would not fit its 16-bit length.
  function EncodeFrame(payload: seq<byte>): seq<byte> {
    var total := |payload| + 6;
    if total > 0xFFFF then []
    else [HEAD, HEAD, total % 256, total / 256] + payload + [TAIL, TAIL]
  }

  datatype Drained = Drained(payloads: seq<seq<byte>>, rest: seq<byte>)

  function TotalAt(buf: seq<byte>): nat
    requires |buf| >= 4
  {
    var lo: int, hi: int := buf[2], buf[3];
    lo + 256 * hi
  }

  // Position of the first pair of head bytes.
  function HeadAt(buf: seq<byte>): (r: Option<nat>)
    ensures r.Some? ==> r.value + 2 <= |buf| && buf[r.value] == HEAD && buf[r.value + 1] == HEAD
  {
    if |buf| < 2 then None
    else if buf[0] == HEAD && buf[1] == HEAD then Some(0)
    else
      match HeadAt(buf[1..])
      case None => None
      case Some(k) => Some(k + 1)
  }

  // drain_frames: the payloads taken and what stays in the buffer.
  function Drain(buf: seq<byte>): Drained
    decreases |buf|
  {
    match HeadAt(buf)
    case None => Drained([], [])
    case Some(i) => Resync(buf[i..])
  }

  // From a buffer that starts with the head bytes.
  function Resync(buf: seq<byte>): Drained
    requires |buf| >= 2
    decreases |buf|, 0
  {
    if |buf| < 4 then Drained([], buf)
    else
      var total := TotalAt(buf);
      if total < MIN_FRAME then Drain(buf[2..])
      else if |buf| < total then Drained([], buf)
      else if buf[total - 2] != TAIL || buf[total - 1] != TAIL then Drain(buf[2..])
      else
        var d := Drain(buf[total..]);
        Drained([buf[4..total - 2]] + d.payloads, d.rest)
  }

  method DrainFrames(input: seq<byte>) returns (out: seq<seq<byte>>, buf: seq<byte>)
    ensures Drained(out, buf) == Drain(input)
  {
    hide HeadAt, TotalAt;
    out, buf := [], input;
    while true
      invariant Drain(input) == Drained(out + Drain(buf).payloads, Drain(buf).rest)
      decreases |buf|
    {
      var i := HeadAt(buf);
      if i.None? { buf := []; break; }
      if i.value > 0 { buf := buf[i.value..]; }
      if |buf| < 4 { break; }
      var total := TotalAt(buf);
      if total < MIN_FRAME { buf := buf[2..]; continue; }
      if |buf| < total { break; }
      if buf[total - 2] != TAIL || buf[total - 1] != TAIL { buf := buf[2..]; continue; }
      out := out + [buf[4..total - 2]];
      buf := buf[total..];
    }
  }
}
