// CTR mode and the framed key blob (src/appcert_cipher.cpp:232-244, 353-411).
// The key is a parameter.
module KeyBlob {
  import opened Text
  import opened BlockCipher
  import opened CipherSchedule
  import opened CipherInPlace
  import Base64

  const NONCE: nat := 12
  const TAG: nat := 16
  const BLOB_HEADER: nat := 32
  const TEXT_HEADER: nat := 32
  const FIRST_COUNTER: nat := 2
  const LIMBS: nat := 5
  const MAGIC: seq<byte> := [0x59, 0x45, 0x4B, 0x53]

  // ---- CTR mode ----

  function Bits(a: byte): bv8 { a as bv8 }
  function Value(x: bv8): byte { x as byte }

  lemma BitsOfValue(x: bv8)
    ensures Bits(Value(x)) == x
  {
  }

  // A byte is found from its two halves.
  lemma HalfAndBack(a: int)
    requires 0 <= a < 16
    ensures (a as bv8) as int == a
  {
  }

  lemma TwoHalves(h: bv8, l: bv8)
    requires h < 16 && l < 16
    ensures (h * 16 + l) as int == h as int * 16 + l as int
  {
  }

  lemma ByteOfHalves(a: byte) returns (x: bv8)
    ensures Value(x) == a
  {
    HalfAndBack(a / 16);
    HalfAndBack(a % 16);
    TwoHalves((a / 16) as bv8, (a % 16) as bv8);
    x := ((a / 16) as bv8) * 16 + ((a % 16) as bv8);
  }

  lemma ValueOfBits(a: byte)
    ensures Value(Bits(a)) == a
  {
    var x := ByteOfHalves(a);
    BitsOfValue(x);
    hide *;
  }

  function XorByte(a: byte, k: bv8): byte { Value(Xor(Bits(a), k)) }

  lemma XorByteTwice(a: byte, k: bv8)
    ensures XorByte(XorByte(a, k), k) == a
  {
    BitsOfValue(Xor(Bits(a), k));
    XorUndo(Bits(a), k);
    ValueOfBits(a);
  }

  // The counter block: the nonce, then the 32-bit counter, high byte first.
  function CounterBlock(nonce: seq<byte>, ctr: nat): Block
    requires |nonce| == NONCE && ctr < 0x1_0000_0000
  {
    seq(16, i requires 0 <= i < 16 =>
      Bits(if i < 12 then nonce[i]
           else if i == 12 then ctr / 0x100_0000
           else if i == 13 then ctr / 0x1_0000 % 256
           else if i == 14 then ctr / 0x100 % 256
           else ctr % 256))
  }

  function Counter(i: nat): (r: nat)
    ensures r < 0x1_0000_0000
  {
    (FIRST_COUNTER + i) % 0x1_0000_0000
  }

  // The counter stands in the last four bytes, high byte first.
  lemma CounterBytes(nonce: seq<byte>, ctr: nat)
    requires |nonce| == NONCE && ctr < 0x1_0000_0000
    ensures var b := CounterBlock(nonce, ctr);
      (forall i :: 0 <= i < 12 ==> b[i] == Bits(nonce[i])) &&
      0x100_0000 * Value(b[12]) + 0x1_0000 * Value(b[13]) + 0x100 * Value(b[14]) + Value(b[15]) == ctr
  {
    var b := CounterBlock(nonce, ctr);
    ValueOfBits(ctr / 0x100_0000);
    ValueOfBits(ctr / 0x1_0000 % 256);
    ValueOfBits(ctr / 0x100 % 256);
    ValueOfBits(ctr % 256);
    FourDigits(ctr);
    assert b[12] == Bits(ctr / 0x100_0000) && b[13] == Bits(ctr / 0x1_0000 % 256);
    assert b[14] == Bits(ctr / 0x100 % 256) && b[15] == Bits(ctr % 256);
  }

  // The first block encrypted under a nonce is the nonce and the number two.
  lemma FirstCounterBlock(nonce: seq<byte>)
    requires |nonce| == NONCE
    ensures var b := CounterBlock(nonce, Counter(0));
      (forall i :: 0 <= i < 12 ==> b[i] == Bits(nonce[i])) && b[12] == 0 && b[13] == 0 && b[14] == 0 && b[15] == 2
  {
    hide Bits;
    BitsOfValue(0);
    BitsOfValue(2);
    var b := CounterBlock(nonce, Counter(0));
    assert b[12] == Bits(0) && b[13] == Bits(0) && b[14] == Bits(0) && b[15] == Bits(2);
  }

  function KeyStream(rk: RoundKeys, nonce: seq<byte>, i: nat): Block
    requires |nonce| == NONCE
  {
    Encrypt(CounterBlock(nonce, Counter(i)), rk)
  }

  function StreamOf(rk: RoundKeys, nonce: seq<byte>): nat -> Block
    requires |nonce| == NONCE
  {
    i => KeyStream(rk, nonce, i)
  }

  function StreamXor(stream: nat -> Block, data: seq<byte>): seq<byte> {
    seq<byte>(|data|, j requires 0 <= j < |data| => XorByte(data[j], stream(j / 16)[j % 16]))
  }

  // Empty unless the nonce has 12 bytes.
  function CtrXor(key: Key, nonce: seq<byte>, data: seq<byte>): seq<byte> {
    if |nonce| != NONCE then [] else StreamXor(StreamOf(Schedule(key), nonce), data)
  }

  lemma StreamXorLength(stream: nat -> Block, data: seq<byte>)
    ensures |StreamXor(stream, data)| == |data|
  {
  }

  lemma CtrXorIs(key: Key, nonce: seq<byte>, data: seq<byte>)
    ensures CtrXor(key, nonce, data) == if |nonce| != NONCE then [] else StreamXor(StreamOf(Schedule(key), nonce), data)
  {
    hide StreamXor, StreamOf, Schedule;
  }

  method CtrXorBlocks(key: Key, nonce: seq<byte>, data: seq<byte>) returns (out: seq<byte>)
    ensures out == CtrXor(key, nonce, data)
  {
    hide StreamXor, StreamOf, XorWith, CtrXor, Schedule;
    CtrXorIs(key, nonce, data);
    if |nonce| != NONCE { return []; }
    var rk := KeyExpand(key);
    out := [];
    var i := 0;
    ghost var stream := StreamOf(rk, nonce);
    ghost var all := StreamXor(stream, data);
    StreamXorLength(stream, data);
    while 16 * i < |data|
      invariant 0 <= i && |out| == (if 16 * i < |data| then 16 * i else |data|) && out == all[..|out|]
    {
      var n := if |data| - 16 * i < 16 then |data| - 16 * i else 16;
      var block := XorNextBlock(rk, nonce, data[16 * i..16 * i + n], i);
      StreamXorOfBlock(stream, data, i, n);
      JoinSlices(all, 16 * i, n);
      out := out + block;
      i := i + 1;
    }
  }

  method XorNextBlock(rk: RoundKeys, nonce: seq<byte>, chunk: seq<byte>, i: nat) returns (out: seq<byte>)
    requires |nonce| == NONCE && |chunk| <= 16
    ensures out == XorWith(chunk, StreamOf(rk, nonce)(i))
  {
    var ks := EncryptBlock(CounterBlock(nonce, Counter(i)), rk);
    out := XorBlock(chunk, ks);
  }

  lemma JoinSlices(s: seq<byte>, i: nat, n: nat)
    requires i + n <= |s|
    ensures s[..i] + s[i..i + n] == s[..i + n]
  {
  }

  function XorWith(chunk: seq<byte>, ks: Block): seq<byte>
    requires |chunk| <= 16
  {
    seq(|chunk|, j requires 0 <= j < |chunk| => XorByte(chunk[j], ks[j]))
  }

  method XorBlock(chunk: seq<byte>, ks: Block) returns (out: seq<byte>)
    requires |chunk| <= 16
    ensures out == XorWith(chunk, ks)
  {
    out := [];
    for j := 0 to |chunk|
      invariant out == XorWith(chunk, ks)[..j]
    {
      out := out + [XorByte(chunk[j], ks[j])];
    }
  }

  lemma StreamXorOfBlock(stream: nat -> Block, data: seq<byte>, i: nat, n: nat)
    requires n <= 16 && 16 * i + n <= |data|
    ensures StreamXor(stream, data)[16 * i..16 * i + n] == XorWith(data[16 * i..16 * i + n], stream(i))
  {
    var a, b := StreamXor(stream, data)[16 * i..16 * i + n], XorWith(data[16 * i..16 * i + n], stream(i));
    forall m | 0 <= m < n ensures a[m] == b[m] {
      BlockPosition(i, m);
    }
  }

  lemma BlockPosition(i: nat, m: nat)
    requires m < 16
    ensures (16 * i + m) / 16 == i && (16 * i + m) % 16 == m
  {
  }

  lemma StreamXorTwice(stream: nat -> Block, data: seq<byte>)
    ensures StreamXor(stream, StreamXor(stream, data)) == data
  {
    var once := StreamXor(stream, data);
    forall j | 0 <= j < |data| ensures StreamXor(stream, once)[j] == data[j] {
      XorByteTwice(data[j], stream(j / 16)[j % 16]);
    }
  }

  // The same call decrypts.
  lemma CtrXorTwice(key: Key, nonce: seq<byte>, data: seq<byte>)
    requires |nonce| == NONCE
    ensures |CtrXor(key, nonce, data)| == |data|
    ensures CtrXor(key, nonce, CtrXor(key, nonce, data)) == data
  {
    StreamXorTwice(StreamOf(Schedule(key), nonce), data);
  }

  // What is encrypted depends on the data up to there only.
  lemma CtrXorOfPrefix(key: Key, nonce: seq<byte>, data: seq<byte>, n: nat)
    requires |nonce| == NONCE && n <= |data|
    ensures CtrXor(key, nonce, data[..n]) == CtrXor(key, nonce, data)[..n]
  {
  }

  // Byte j is that of the data, xored with byte j % 16 of the block encrypted
  // from the nonce and the number 2 + j / 16.
  lemma CtrByte(key: Key, nonce: seq<byte>, data: seq<byte>, j: nat)
    requires |nonce| == NONCE && j < |data|
    ensures |CtrXor(key, nonce, data)| == |data|
    ensures CtrXor(key, nonce, data)[j] ==
      XorByte(data[j], Encrypt(CounterBlock(nonce, (2 + j / 16) % 0x1_0000_0000), Schedule(key))[j % 16])
  {
    hide XorByte, Encrypt, CounterBlock, Schedule;
  }

  lemma XorWithZero(k: bv8)
    ensures XorByte(0, k) == Value(k)
  {
  }

  lemma ZerosGiveStream(key: Key, nonce: seq<byte>, zeros: seq<byte>)
    requires |nonce| == NONCE && |zeros| <= 16 && forall j :: 0 <= j < |zeros| ==> zeros[j] == 0
    ensures var out := CtrXor(key, nonce, zeros);
      |out| == |zeros| && forall j :: 0 <= j < |out| ==> out[j] == Value(KeyStream(Schedule(key), nonce, 0)[j])
  {
    hide Schedule, CtrXor, XorByte, Encrypt, CounterBlock;
    CtrXorTwice(key, nonce, zeros);
    forall j: nat | j < |zeros|
      ensures CtrXor(key, nonce, zeros)[j] == Value(KeyStream(Schedule(key), nonce, 0)[j])
    {
      CtrByte(key, nonce, zeros, j);
      XorWithZero(KeyStream(Schedule(key), nonce, 0)[j]);
    }
  }

  lemma CounterBlockSplits(nonce: seq<byte>, a: nat, b: nat)
    requires |nonce| == NONCE && a < 0x1_0000_0000 && b < 0x1_0000_0000
    requires CounterBlock(nonce, a) == CounterBlock(nonce, b)
    ensures a == b
  {
    var x, y := CounterBlock(nonce, a), CounterBlock(nonce, b);
    assert x[12] == y[12] && x[13] == y[13] && x[14] == y[14] && x[15] == y[15];
    ValueOfBits(a / 0x100_0000);
    ValueOfBits(b / 0x100_0000);
    ValueOfBits(a / 0x1_0000 % 256);
    ValueOfBits(b / 0x1_0000 % 256);
    ValueOfBits(a / 0x100 % 256);
    ValueOfBits(b / 0x100 % 256);
    ValueOfBits(a % 256);
    ValueOfBits(b % 256);
    LittleOfBytes(a);
    LittleOfBytes(b);
    assert LittleBytes(a) == LittleBytes(b);
  }

  // Within one nonce no block of the key stream comes twice before the 32-bit
  // counter has gone round.
  lemma KeyStreamDoesNotRepeat(rk: RoundKeys, nonce: seq<byte>, i: nat, j: nat)
    requires |nonce| == NONCE && i < j < i + 0x1_0000_0000
    ensures KeyStream(rk, nonce, i) != KeyStream(rk, nonce, j)
  {
    if KeyStream(rk, nonce, i) == KeyStream(rk, nonce, j) {
      CipherIsPermutation(CounterBlock(nonce, Counter(i)), rk);
      CipherIsPermutation(CounterBlock(nonce, Counter(j)), rk);
      CounterBlockSplits(nonce, Counter(i), Counter(j));
      CountersDiffer(i, j);
    }
  }

  lemma CountersDiffer(i: nat, j: nat)
    requires i < j < i + 0x1_0000_0000
    ensures Counter(i) != Counter(j)
  {
  }

  // ---- The framed blob ----

  datatype DecodedKey = Limbs(limbs: seq<seq<byte>>) | BadBase64 | TooShort | NoMagic | NotFiveLimbs

  function Little(b: seq<byte>): nat
    requires |b| == 4
  {
    var x: int, y: int, z: int, w: int := b[0], b[1], b[2], b[3];
    x + 0x100 * y + 0x1_0000 * z + 0x100_0000 * w
  }

  function LittleBytes(n: nat): seq<byte>
    requires n < 0x1_0000_0000
  {
    [n % 256, n / 0x100 % 256, n / 0x1_0000 % 256, n / 0x100_0000]
  }

  lemma LittleOfBytes(n: nat)
    requires n < 0x1_0000_0000
    ensures Little(LittleBytes(n)) == n
  {
    FourDigits(n);
  }

  // The four digits of a number, base 256.
  lemma FourDigits(n: nat)
    ensures n % 256 + 0x100 * (n / 0x100 % 256) + 0x1_0000 * (n / 0x1_0000 % 256) + 0x100_0000 * (n / 0x100_0000) == n
  {
    assert n / 0x1_0000 == n / 0x100 / 0x100 && n / 0x100_0000 == n / 0x1_0000 / 0x100;
  }

  function Cut(body: seq<byte>, n: nat): seq<seq<byte>>
    requires |body| == LIMBS * n
  {
    [body[..n], body[n..2 * n], body[2 * n..3 * n], body[3 * n..4 * n], body[4 * n..]]
  }

  // The length field, clipped to what is there.
  function TextLength(blob: seq<byte>): nat
    requires |blob| >= BLOB_HEADER
  {
    var n := Little(blob[28..32]);
    if BLOB_HEADER + n > |blob| then |blob| - BLOB_HEADER else n
  }

  // The length stands behind nonce and tag, low byte first.
  lemma LengthField(blob: seq<byte>)
    requires |blob| >= 32
    ensures var a: int, b: int, c: int, d: int := blob[28], blob[29], blob[30], blob[31];
      var n := d * 0x100_0000 + c * 0x1_0000 + b * 0x100 + a;
      TextLength(blob) == if n <= |blob| - 32 then n else |blob| - 32
  {
  }

  function OpenText(text: seq<byte>): DecodedKey {
    if |text| < TEXT_HEADER + LIMBS || text[..4] != MAGIC then NoMagic
    else if (|text| - TEXT_HEADER) % LIMBS != 0 then NotFiveLimbs
    else Limbs(Cut(text[TEXT_HEADER..], (|text| - TEXT_HEADER) / LIMBS))
  }

  function OpenBlob(key: Key, blob: seq<byte>): DecodedKey {
    if |blob| < BLOB_HEADER + TEXT_HEADER + LIMBS then TooShort
    else OpenText(CtrXor(key, blob[..NONCE], blob[BLOB_HEADER..BLOB_HEADER + TextLength(blob)]))
  }

  function DecodeBlob(key: Key, blob64: string): DecodedKey {
    match Base64.Decode(blob64)
    case Bytes(blob) => OpenBlob(key, blob)
    case _ => BadBase64
  }

  method DecodeKeyBlob(key: Key, blob64: string) returns (r: DecodedKey)
    ensures r == DecodeBlob(key, blob64)
  {
    hide OpenBlob, Base64.Decode;
    var d := Base64.DecodeAny(blob64);
    if !d.Bytes? { return BadBase64; }
    r := DecodeFrame(key, d.data);
  }

  method DecodeFrame(key: Key, blob: seq<byte>) returns (r: DecodedKey)
    ensures r == OpenBlob(key, blob)
  {
    hide CtrXor, Little, OpenText;
    if |blob| < BLOB_HEADER + TEXT_HEADER + LIMBS { return TooShort; }
    var len := ReadLength(blob[28..32]);
    if BLOB_HEADER + len > |blob| { len := |blob| - BLOB_HEADER; }
    var text := CtrXorBlocks(key, blob[..NONCE], blob[BLOB_HEADER..BLOB_HEADER + len]);
    r := CutText(text);
  }

  method CutText(text: seq<byte>) returns (r: DecodedKey)
    ensures r == OpenText(text)
  {
    if |text| < TEXT_HEADER + LIMBS || text[..4] != MAGIC { return NoMagic; }
    var body := |text| - TEXT_HEADER;
    if body == 0 || body % LIMBS != 0 { return NotFiveLimbs; }
    var limbs := CutLimbs(text);
    r := Limbs(limbs);
  }

  method ReadLength(b: seq<byte>) returns (len: nat)
    requires |b| == 4
    ensures len == Little(b)
  {
    len := 0;
    var i := 4;
    while i > 0
      invariant 0 <= i <= 4
      invariant len == LittleFrom(b, i)
    {
      i := i - 1;
      var x: int := b[i];
      len := len * 256 + x;
    }
    LittleIsFrom(b);
  }

  lemma LittleIsFrom(b: seq<byte>)
    requires |b| == 4
    ensures LittleFrom(b, 0) == Little(b)
  {
    assert LittleFrom(b, 3) == b[3];
    assert LittleFrom(b, 2) == LittleFrom(b, 3) * 256 + b[2];
    assert LittleFrom(b, 1) == LittleFrom(b, 2) * 256 + b[1];
  }

  method CutLimbs(text: seq<byte>) returns (limbs: seq<seq<byte>>)
    requires |text| > TEXT_HEADER && (|text| - TEXT_HEADER) % LIMBS == 0
    ensures limbs == Cut(text[TEXT_HEADER..], (|text| - TEXT_HEADER) / LIMBS)
  {
    var limb := (|text| - TEXT_HEADER) / LIMBS;
    limbs := [];
    for k := 0 to LIMBS
      invariant limbs == Cut(text[TEXT_HEADER..], limb)[..k]
    {
      CutAt(text, limb, k);
      limbs := limbs + [text[TEXT_HEADER + k * limb..TEXT_HEADER + k * limb + limb]];
    }
  }

  // The bytes from position i on, as the loop reads them.
  function LittleFrom(b: seq<byte>, i: nat): nat
    requires |b| == 4 && i <= 4
    decreases 4 - i
  {
    if i == 4 then 0 else var x: int := b[i]; LittleFrom(b, i + 1) * 256 + x
  }

  lemma CutAt(text: seq<byte>, n: nat, k: nat)
    requires |text| == TEXT_HEADER + LIMBS * n && k < LIMBS
    ensures TEXT_HEADER + k * n + n <= |text|
    ensures Cut(text[TEXT_HEADER..], n)[k] == text[TEXT_HEADER + k * n..TEXT_HEADER + k * n + n]
  {
  }

  // ---- Framing ----

  function Together(limbs: seq<seq<byte>>): seq<byte>
    requires |limbs| == LIMBS
  {
    limbs[0] + limbs[1] + limbs[2] + limbs[3] + limbs[4]
  }

  predicate EqualLimbs(limbs: seq<seq<byte>>, n: nat) {
    |limbs| == LIMBS && |limbs[0]| == n && |limbs[1]| == n && |limbs[2]| == n && |limbs[3]| == n && |limbs[4]| == n
  }

  // The plaintext: magic, the other header bytes, the limbs.
  function PlainText(header: seq<byte>, limbs: seq<seq<byte>>): seq<byte>
    requires |limbs| == LIMBS
  {
    MAGIC + header + Together(limbs)
  }

  // The blob of a plaintext; anything may follow it.
  function Blob(key: Key, nonce: seq<byte>, tag: seq<byte>, text: seq<byte>, extra: seq<byte>): seq<byte>
    requires |text| < 0x1_0000_0000
  {
    nonce + tag + LittleBytes(|text|) + CtrXor(key, nonce, text) + extra
  }

  lemma CutTogether(limbs: seq<seq<byte>>, n: nat)
    requires EqualLimbs(limbs, n)
    ensures |Together(limbs)| == LIMBS * n && Cut(Together(limbs), n) == limbs
  {
    var t := Together(limbs);
    assert t[..n] == limbs[0] && t[n..2 * n] == limbs[1] && t[2 * n..3 * n] == limbs[2];
    assert t[3 * n..4 * n] == limbs[3] && t[4 * n..] == limbs[4];
    assert limbs == [limbs[0], limbs[1], limbs[2], limbs[3], limbs[4]];
  }

  lemma TogetherCut(body: seq<byte>, n: nat)
    requires |body| == LIMBS * n
    ensures Together(Cut(body, n)) == body && EqualLimbs(Cut(body, n), n)
  {
    assert body == body[..n] + body[n..2 * n] + body[2 * n..3 * n] + body[3 * n..4 * n] + body[4 * n..];
  }

  lemma OpenPlainText(header: seq<byte>, limbs: seq<seq<byte>>, n: nat)
    requires |header| == 28 && EqualLimbs(limbs, n) && n > 0
    ensures OpenText(PlainText(header, limbs)) == Limbs(limbs)
  {
    var text := PlainText(header, limbs);
    assert text[..4] == MAGIC;
    assert text[TEXT_HEADER..] == Together(limbs);
    CutTogether(limbs, n);
  }

  lemma BlobParts(nonce: seq<byte>, tag: seq<byte>, len: seq<byte>, ct: seq<byte>, extra: seq<byte>)
    requires |nonce| == NONCE && |tag| == TAG && |len| == 4
    ensures var blob := nonce + tag + len + ct + extra;
      blob[..NONCE] == nonce && blob[28..32] == len && blob[BLOB_HEADER..BLOB_HEADER + |ct|] == ct
  {
  }

  // Framing, encrypting and encoding five equal limbs gives a text that is
  // decoded to exactly those limbs, for every key, nonce, tag and header.
  lemma BlobRoundTrip(key: Key, nonce: seq<byte>, tag: seq<byte>, header: seq<byte>, limbs: seq<seq<byte>>, n: nat,
                      extra: seq<byte>)
    requires |nonce| == NONCE && |tag| == TAG && |header| == 28 && EqualLimbs(limbs, n) && n > 0
    requires TEXT_HEADER + LIMBS * n < 0x1_0000_0000
    ensures var text := PlainText(header, limbs);
      |text| == TEXT_HEADER + LIMBS * n &&
      DecodeBlob(key, Base64.Encode(Blob(key, nonce, tag, text, extra))) == Limbs(limbs)
  {
    var text := PlainText(header, limbs);
    CutTogether(limbs, n);
    Base64.DecodeEncode(Blob(key, nonce, tag, text, extra));
    OpenOfBlob(key, nonce, tag, text, extra);
    OpenPlainText(header, limbs, n);
  }

  lemma OpenOfBlob(key: Key, nonce: seq<byte>, tag: seq<byte>, text: seq<byte>, extra: seq<byte>)
    requires |nonce| == NONCE && |tag| == TAG && TEXT_HEADER + LIMBS <= |text| < 0x1_0000_0000
    ensures OpenBlob(key, Blob(key, nonce, tag, text, extra)) == OpenText(text)
  {
    CtrXorTwice(key, nonce, text);
    LittleOfBytes(|text|);
    BlobParts(nonce, tag, LittleBytes(|text|), CtrXor(key, nonce, text), extra);
  }

  // Nothing else is accepted: limbs come from a plaintext of this form, which
  // encrypts to the blob's ciphertext.
  lemma AcceptedBlobIsFramed(key: Key, blob: seq<byte>)
    requires OpenBlob(key, blob).Limbs?
    ensures var limbs := OpenBlob(key, blob).limbs;
      var ct := blob[BLOB_HEADER..BLOB_HEADER + TextLength(blob)];
      var text := CtrXor(key, blob[..NONCE], ct);
      |text| >= TEXT_HEADER && EqualLimbs(limbs, (|text| - TEXT_HEADER) / LIMBS) && |limbs[0]| > 0 &&
      text == PlainText(text[4..TEXT_HEADER], limbs) && CtrXor(key, blob[..NONCE], text) == ct
  {
    var ct := blob[BLOB_HEADER..BLOB_HEADER + TextLength(blob)];
    var text := CtrXor(key, blob[..NONCE], ct);
    CtrXorTwice(key, blob[..NONCE], ct);
    OpenedText(text);
  }

  lemma OpenedText(text: seq<byte>)
    requires OpenText(text).Limbs?
    ensures var limbs := OpenText(text).limbs;
      EqualLimbs(limbs, (|text| - TEXT_HEADER) / LIMBS) && |limbs[0]| > 0 && text == PlainText(text[4..TEXT_HEADER], limbs)
  {
    TogetherCut(text[TEXT_HEADER..], (|text| - TEXT_HEADER) / LIMBS);
    assert text == text[..4] + text[4..TEXT_HEADER] + text[TEXT_HEADER..];
  }

  // The blob decrypts to the magic, 28 more bytes, and these limbs.
  ghost predicate Frames(key: Key, blob: seq<byte>, limbs: seq<seq<byte>>, header: seq<byte>, n: nat) {
    && |blob| >= 69 && |header| == 28 && n > 0 && EqualLimbs(limbs, n)
    && CtrXor(key, blob[..12], blob[32..32 + TextLength(blob)]) == [0x59, 0x45, 0x4B, 0x53] + header + Together(limbs)
  }

  // A blob is accepted, with these limbs, exactly when it does.
  lemma OpensExactly(key: Key, blob: seq<byte>, limbs: seq<seq<byte>>)
    ensures OpenBlob(key, blob) == Limbs(limbs) <==> exists header, n :: Frames(key, blob, limbs, header, n)
  {
    hide CtrXor;
    if OpenBlob(key, blob) == Limbs(limbs) {
      var text := CtrXor(key, blob[..12], blob[32..32 + TextLength(blob)]);
      OpenedText(text);
      assert Frames(key, blob, limbs, text[4..TEXT_HEADER], (|text| - TEXT_HEADER) / LIMBS);
    }
    if exists header, n :: Frames(key, blob, limbs, header, n) {
      var header, n :| Frames(key, blob, limbs, header, n);
      OpenPlainText(header, limbs, n);
    }
  }
}
