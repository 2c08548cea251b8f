// base64url encoding and the tolerant decoder (src/appcert_cipher.cpp:
// 246-293, 322-351); section 5 of RFC 4648.
module Base64 {
  import opened Text

  datatype Decoded = Bytes(data: seq<byte>) | InvalidCharacter | Truncated

  // ---- Digits ----

  function Letter(d: nat): char
    requires d < 64
  {
    if d < 26 then ('A' as int + d) as char
    else if d < 52 then ('a' as int + (d - 26)) as char
    else if d < 62 then ('0' as int + (d - 52)) as char
    else if d == 62 then '-'
    else '_'
  }

  // Both alphabets.
  function Digit(c: char): (r: Option<nat>)
    ensures r.Some? ==> r.value < 64
  {
    if 'A' <= c <= 'Z' then Some(c as int - 'A' as int)
    else if 'a' <= c <= 'z' then Some(c as int - 'a' as int + 26)
    else if '0' <= c <= '9' then Some(c as int - '0' as int + 52)
    else if c == '+' || c == '-' then Some(62)
    else if c == '/' || c == '_' then Some(63)
    else None
  }

  lemma LetterIsDigit(d: nat)
    requires d < 64
    ensures Digit(Letter(d)) == Some(d) && Letter(d) != '=' && !IsWs(Letter(d))
  {
  }

  // ---- Encoding ----

  function ByteOr0(data: seq<byte>, i: nat): byte { if i < |data| then data[i] else 0 }

  // The four six-bit digits of three bytes.
  function D0(b0: byte): nat { b0 / 4 }
  function D1(b0: byte, b1: byte): nat { b0 % 4 * 16 + b1 / 16 }
  function D2(b1: byte, b2: byte): nat { b1 % 16 * 4 + b2 / 64 }
  function D3(b2: byte): nat { b2 % 64 }

  // The three bytes of four digits.
  function B0(q0: nat, q1: nat): nat { q0 * 4 + q1 / 16 }
  function B1(q1: nat, q2: nat): nat { q1 % 16 * 16 + q2 / 4 }
  function B2(q2: nat, q3: nat): nat { q2 % 4 * 64 + q3 }

  lemma DivIs(w: nat, m: nat, q: nat, r: nat)
    requires w == q * m + r && r < m
    ensures w / m == q && w % m == r
  {
    if w / m > q { Multiples(q + 1, w / m, m); }
    if w / m < q { Multiples(w / m + 1, q, m); }
  }

  lemma Multiples(a: nat, b: nat, m: nat)
    requires a <= b
    ensures a * m <= b * m
  {
  }

  // The 24-bit word the code shifts, and its digits.
  lemma WordDigits(w: nat, b0: byte, b1: byte, b2: byte)
    requires var x: int, y: int, z: int := b0, b1, b2; w == x * 0x10000 + y * 0x100 + z
    ensures w / 0x40000 % 64 == D0(b0) && w / 0x1000 % 64 == D1(b0, b1)
    ensures w / 0x40 % 64 == D2(b1, b2) && w % 64 == D3(b2)
  {
    var x: int, y: int, z: int := b0, b1, b2;
    DivIs(w, 0x40000, x / 4, x % 4 * 0x10000 + y * 0x100 + z);
    DivIs(w, 0x1000, x / 4 * 64 + D1(b0, b1), y % 16 * 0x100 + z);
    DivIs(w, 0x40, (x / 4 * 64 + D1(b0, b1)) * 64 + D2(b1, b2), z % 64);
    DivIs(x / 4 * 64 + D1(b0, b1), 64, x / 4, D1(b0, b1));
    DivIs((x / 4 * 64 + D1(b0, b1)) * 64 + D2(b1, b2), 64, x / 4 * 64 + D1(b0, b1), D2(b1, b2));
  }

  lemma WordBytes(w: nat, q0: nat, q1: nat, q2: nat, q3: nat)
    requires q0 < 64 && q1 < 64 && q2 < 64 && q3 < 64
    requires w == q0 * 0x40000 + q1 * 0x1000 + q2 * 0x40 + q3
    ensures w / 0x10000 % 256 == B0(q0, q1) && w / 0x100 % 256 == B1(q1, q2) && w % 256 == B2(q2, q3)
  {
    DivIs(w, 0x10000, B0(q0, q1), q1 % 16 * 0x1000 + q2 * 0x40 + q3);
    DivIs(w, 0x100, B0(q0, q1) * 256 + B1(q1, q2), B2(q2, q3));
    DivIs(B0(q0, q1) * 256 + B1(q1, q2), 256, B0(q0, q1), B1(q1, q2));
  }

  lemma DigitsOfBytes(b0: byte, b1: byte, b2: byte)
    ensures B0(D0(b0), D1(b0, b1)) == b0 && B1(D1(b0, b1), D2(b1, b2)) == b1 && B2(D2(b1, b2), D3(b2)) == b2
  {
  }

  // Up to three bytes as four characters.
  function Group(g: seq<byte>): string
    requires 1 <= |g| <= 3
  {
    var b0, b1, b2 := ByteOr0(g, 0), ByteOr0(g, 1), ByteOr0(g, 2);
    [Letter(D0(b0)), Letter(D1(b0, b1)),
     if |g| > 1 then Letter(D2(b1, b2)) else '=',
     if |g| > 2 then Letter(D3(b2)) else '=']
  }

  function Encode(data: seq<byte>): string
    decreases |data|
  {
    if data == [] then []
    else if |data| < 3 then Group(data)
    else Group(data[..3]) + Encode(data[3..])
  }

  method EncodeUrl(data: seq<byte>) returns (out: string)
    ensures out == Encode(data)
  {
    out := [];
    var i := 0;
    while i < |data|
      invariant 0 <= i
      invariant out + Encode(if i < |data| then data[i..] else []) == Encode(data)
    {
      var n := if i + 3 <= |data| then 3 else |data| - i;
      NextGroup(data, i, n);
      var c := GroupChars(data, i);
      Text.Assoc(out, c, Encode(data[i + n..]));
      out := out + c;
      i := i + 3;
    }
  }

  method GroupChars(data: seq<byte>, i: nat) returns (c: string)
    requires i < |data|
    ensures c == Group(if i + 3 <= |data| then data[i..i + 3] else data[i..])
  {
    var x: int := data[i];
    var w: int := x * 0x10000;
    if i + 1 < |data| { var y: int := data[i + 1]; w := w + y * 0x100; }
    if i + 2 < |data| { w := w + data[i + 2]; }
    ghost var g := if i + 3 <= |data| then data[i..i + 3] else data[i..];
    WordDigits(w, ByteOr0(g, 0), ByteOr0(g, 1), ByteOr0(g, 2));
    c := [Letter(w / 0x40000 % 64), Letter(w / 0x1000 % 64),
          if i + 1 < |data| then Letter(w / 0x40 % 64) else '=',
          if i + 2 < |data| then Letter(w % 64) else '='];
  }

  lemma NextGroup(data: seq<byte>, i: nat, n: nat)
    requires i < |data| && n == if i + 3 <= |data| then 3 else |data| - i
    ensures Encode(data[i..]) == Group(data[i..i + n]) + Encode(data[i + n..])
  {
    assert data[i..][..n] == data[i..i + n] && data[i..][n..] == data[i + n..];
    if n < 3 {
      assert data[i..i + n] == data[i..] && data[i + n..] == [];
    }
  }

  // ---- Decoding ----

  function Standard(c: char): char { if c == '-' then '+' else if c == '_' then '/' else c }

  // Without white space, in the standard alphabet.
  function Clean(text: string): string {
    if text == [] then []
    else (if IsWs(text[0]) then [] else [Standard(text[0])]) + Clean(text[1..])
  }

  function Padded(s: string): string {
    var n := |s| % 4;
    if n == 0 then s else if n == 1 then s + "===" else if n == 2 then s + "==" else s + "="
  }

  function QuadBytes(q0: nat, q1: nat, q2: Option<nat>, q3: Option<nat>): seq<byte>
    requires q0 < 64 && q1 < 64 && (q2.Some? ==> q2.value < 64) && (q3.Some? ==> q3.value < 64)
  {
    var p2, p3 := if q2.Some? then q2.value else 0, if q3.Some? then q3.value else 0;
    [B0(q0, q1)] + (if q2.Some? then [B1(q1, p2)] else []) + (if q3.Some? then [B2(p2, p3)] else [])
  }

  method QuadWord(q0: nat, q1: nat, q2: Option<nat>, q3: Option<nat>) returns (res: seq<byte>)
    requires q0 < 64 && q1 < 64 && (q2.Some? ==> q2.value < 64) && (q3.Some? ==> q3.value < 64)
    ensures res == QuadBytes(q0, q1, q2, q3)
  {
    var p2, p3 := if q2.Some? then q2.value else 0, if q3.Some? then q3.value else 0;
    var w := q0 * 0x40000 + q1 * 0x1000 + p2 * 0x40 + p3;
    WordBytes(w, q0, q1, p2, p3);
    res := [w / 0x10000 % 256];
    if q2.Some? { res := res + [w / 0x100 % 256]; }
    if q3.Some? { res := res + [w % 256]; }
  }

  predicate BadCharacter(c: char) { c != '=' && Digit(c).None? }

  function Quad(s: string): Decoded
    requires |s| == 4
  {
    if BadCharacter(s[0]) || BadCharacter(s[1]) || BadCharacter(s[2]) || BadCharacter(s[3]) then InvalidCharacter
    else if s[0] == '=' || s[1] == '=' then Truncated
    else
      Bytes(QuadBytes(Digit(s[0]).value, Digit(s[1]).value,
                      if s[2] == '=' then None else Digit(s[2]), if s[3] == '=' then None else Digit(s[3])))
  }

  function Quads(s: string): Decoded
    requires |s| % 4 == 0
    decreases |s|
  {
    if s == [] then Bytes([])
    else
      var first := Quad(s[..4]);
      if !first.Bytes? then first
      else
        var rest := Quads(s[4..]);
        if rest.Bytes? then Bytes(first.data + rest.data) else rest
  }

  function Decode(text: string): Decoded { Quads(Padded(Clean(text))) }

  method DecodeAny(text: string) returns (r: Decoded)
    ensures r == Decode(text)
  {
    hide Digit, QuadBytes, Clean;
    var s := CleanAndPad(text);
    var data: seq<byte> := [];
    var i := 0;
    assert s[0..] == s;
    while i < |s|
      invariant 0 <= i <= |s| && (|s| - i) % 4 == 0 && |s| % 4 == 0
      invariant Quads(s) == Joined(data, Quads(s[i..]))
    {
      QuadsStep(s, i);
      ghost var rest := Quads(s[i + 4..]);
      var bad := BadCharacter(s[i]) || BadCharacter(s[i + 1]) || BadCharacter(s[i + 2]) || BadCharacter(s[i + 3]);
      if bad { return InvalidCharacter; }
      if s[i] == '=' || s[i + 1] == '=' { return Truncated; }
      var res := QuadWord(Digit(s[i]).value, Digit(s[i + 1]).value,
                          if s[i + 2] == '=' then None else Digit(s[i + 2]),
                          if s[i + 3] == '=' then None else Digit(s[i + 3]));
      JoinedTwice(data, res, rest);
      data := data + res;
      i := i + 4;
    }
    assert s[i..] == [];
    r := Bytes(data);
  }

  method CleanAndPad(text: string) returns (s: string)
    ensures s == Padded(Clean(text))
  {
    s := CleanText(text);
    ghost var clean := s;
    while |s| % 4 != 0
      invariant Padded(s) == Padded(clean)
      decreases (4 - |s| % 4) % 4
    {
      PadStep(s);
      s := s + "=";
    }
  }

  method CleanText(text: string) returns (s: string)
    ensures s == Clean(text)
  {
    s := [];
    assert text[0..] == text;
    for i := 0 to |text|
      invariant s + Clean(text[i..]) == Clean(text)
    {
      CleanStep(text, i);
      if IsWs(text[i]) { continue; }
      Text.Assoc(s, [Standard(text[i])], Clean(text[i + 1..]));
      s := s + [Standard(text[i])];
    }
    assert text[|text|..] == [] && s + [] == s;
  }

  function Joined(data: seq<byte>, rest: Decoded): Decoded {
    if rest.Bytes? then Bytes(data + rest.data) else rest
  }

  lemma JoinedTwice(a: seq<byte>, b: seq<byte>, rest: Decoded)
    ensures Joined(a, Joined(b, rest)) == Joined(a + b, rest)
  {
    if rest.Bytes? {
      Text.Assoc(a, b, rest.data);
    }
  }

  lemma CleanStep(text: string, i: nat)
    requires i < |text|
    ensures Clean(text[i..]) == (if IsWs(text[i]) then [] else [Standard(text[i])]) + Clean(text[i + 1..])
  {
    assert text[i..][1..] == text[i + 1..];
  }

  lemma PadStep(s: string)
    requires |s| % 4 != 0
    ensures Padded(s + "=") == Padded(s)
  {
  }

  lemma QuadsStep(s: string, i: nat)
    requires i + 4 <= |s| && (|s| - i) % 4 == 0
    ensures (|s| - (i + 4)) % 4 == 0
    ensures Quads(s[i..]) ==
      var q := Quad(s[i..i + 4]); if q.Bytes? then Joined(q.data, Quads(s[i + 4..])) else q
  {
    assert s[i..][..4] == s[i..i + 4] && s[i..][4..] == s[i + 4..];
  }

  // ---- Round trip ----

  function LetterOr(d: Option<nat>): char
    requires d.Some? ==> d.value < 64
  {
    if d.Some? then Letter(d.value) else '='
  }

  lemma QuadOfLetters(q0: nat, q1: nat, q2: Option<nat>, q3: Option<nat>)
    requires q0 < 64 && q1 < 64 && (q2.Some? ==> q2.value < 64) && (q3.Some? ==> q3.value < 64)
    ensures Quad([Letter(q0), Letter(q1), LetterOr(q2), LetterOr(q3)]) == Bytes(QuadBytes(q0, q1, q2, q3))
  {
    LetterIsDigit(q0);
    LetterIsDigit(q1);
    if q2.Some? { LetterIsDigit(q2.value); }
    if q3.Some? { LetterIsDigit(q3.value); }
  }

  lemma GroupDecodes(g: seq<byte>)
    requires 1 <= |g| <= 3
    ensures Quad(Group(g)) == Bytes(g)
  {
    var b0, b1, b2 := ByteOr0(g, 0), ByteOr0(g, 1), ByteOr0(g, 2);
    var q2, q3 := if |g| > 1 then Some(D2(b1, b2)) else None, if |g| > 2 then Some(D3(b2)) else None;
    QuadOfLetters(D0(b0), D1(b0, b1), q2, q3);
    assert Group(g) == [Letter(D0(b0)), Letter(D1(b0, b1)), LetterOr(q2), LetterOr(q3)];
    BytesOfGroup(g, b0, b1, b2);
  }

  lemma BytesOfGroup(g: seq<byte>, b0: byte, b1: byte, b2: byte)
    requires 1 <= |g| <= 3 && b0 == ByteOr0(g, 0) && b1 == ByteOr0(g, 1) && b2 == ByteOr0(g, 2)
    ensures QuadBytes(D0(b0), D1(b0, b1), if |g| > 1 then Some(D2(b1, b2)) else None,
                      if |g| > 2 then Some(D3(b2)) else None) == g
  {
    DigitsOfBytes(b0, b1, b2);
    QuadBytesAre(D0(b0), D1(b0, b1), D2(b1, b2), D3(b2), b0, b1, b2);
    BytesOf(g);
  }

  lemma BytesOf(g: seq<byte>)
    ensures |g| == 1 ==> g == [ByteOr0(g, 0)]
    ensures |g| == 2 ==> g == [ByteOr0(g, 0), ByteOr0(g, 1)] && ByteOr0(g, 2) == 0
    ensures |g| == 3 ==> g == [ByteOr0(g, 0), ByteOr0(g, 1), ByteOr0(g, 2)]
  {
  }

  lemma QuadBytesAre(q0: nat, q1: nat, q2: nat, q3: nat, b0: byte, b1: byte, b2: byte)
    requires q0 < 64 && q1 < 64 && q2 < 64 && q3 < 64
    requires B0(q0, q1) == b0 && B1(q1, q2) == b1 && B2(q2, q3) == b2
    ensures QuadBytes(q0, q1, None, None) == [b0]
    ensures b2 == 0 ==> QuadBytes(q0, q1, Some(q2), None) == [b0, b1]
    ensures QuadBytes(q0, q1, Some(q2), Some(q3)) == [b0, b1, b2]
  {
  }

  lemma {:induction false} CleanConcat(a: string, b: string)
    ensures Clean(a + b) == Clean(a) + Clean(b)
  {
    if a == [] {
      assert a + b == b;
    } else {
      assert (a + b)[1..] == a[1..] + b;
      CleanConcat(a[1..], b);
    }
  }

  lemma GroupIsClean(g: seq<byte>)
    requires 1 <= |g| <= 3
    ensures |Clean(Group(g))| == 4 && Quad(Clean(Group(g))) == Bytes(g)
  {
    var s := Group(g);
    var b0, b1, b2 := ByteOr0(g, 0), ByteOr0(g, 1), ByteOr0(g, 2);
    LetterIsDigit(D0(b0));
    LetterIsDigit(D1(b0, b1));
    LetterIsDigit(D2(b1, b2));
    LetterIsDigit(D3(b2));
    CleanFour(s);
    GroupDecodes(g);
    SameQuad(s);
  }

  lemma CleanFour(s: string)
    requires |s| == 4 && !IsWs(s[0]) && !IsWs(s[1]) && !IsWs(s[2]) && !IsWs(s[3])
    ensures Clean(s) == [Standard(s[0]), Standard(s[1]), Standard(s[2]), Standard(s[3])]
  {
    assert s[1..][1..] == s[2..] && s[2..][1..] == s[3..] && s[3..][1..] == [];
    assert Clean(s[3..]) == [Standard(s[3])];
    assert Clean(s[2..]) == [Standard(s[2]), Standard(s[3])];
    assert Clean(s[1..]) == [Standard(s[1]), Standard(s[2]), Standard(s[3])];
  }

  // Both alphabets give the same digits.
  lemma SameQuad(s: string)
    requires |s| == 4
    ensures Quad([Standard(s[0]), Standard(s[1]), Standard(s[2]), Standard(s[3])]) == Quad(s)
  {
    SameDigit(s[0]);
    SameDigit(s[1]);
    SameDigit(s[2]);
    SameDigit(s[3]);
  }

  lemma SameDigit(c: char)
    ensures Digit(Standard(c)) == Digit(c) && (Standard(c) == '=' <==> c == '=')
  {
  }

  lemma {:induction false} CleanEncode(data: seq<byte>)
    ensures |Clean(Encode(data))| % 4 == 0 && Quads(Clean(Encode(data))) == Bytes(data)
    decreases |data|
  {
    if data != [] {
      var n := if |data| < 3 then |data| else 3;
      CleanEncode(data[n..]);
      GroupThenRest(data[..n], data[n..], data);
    }
  }

  lemma GroupThenRest(g: seq<byte>, rest: seq<byte>, data: seq<byte>)
    requires data == g + rest && 1 <= |g| <= 3 && (|g| == 3 || rest == [])
    requires |Clean(Encode(rest))| % 4 == 0 && Quads(Clean(Encode(rest))) == Bytes(rest)
    ensures |Clean(Encode(data))| % 4 == 0 && Quads(Clean(Encode(data))) == Bytes(data)
  {
    EncodeFirst(g, rest, data);
    GroupIsClean(g);
    QuadThenRest(Group(g), Encode(rest), g, rest);
  }

  lemma QuadThenRest(quad: string, more: string, g: seq<byte>, rest: seq<byte>)
    requires |Clean(quad)| == 4 && Quad(Clean(quad)) == Bytes(g)
    requires |Clean(more)| % 4 == 0 && Quads(Clean(more)) == Bytes(rest)
    ensures |Clean(quad + more)| % 4 == 0 && Quads(Clean(quad + more)) == Bytes(g + rest)
  {
    hide Clean, Quad;
    CleanConcat(quad, more);
    QuadFirst(Clean(quad), Clean(more));
  }

  lemma EncodeFirst(g: seq<byte>, rest: seq<byte>, data: seq<byte>)
    requires data == g + rest && 1 <= |g| <= 3 && (|g| == 3 || rest == [])
    ensures Encode(data) == Group(g) + Encode(rest)
  {
    if |g| == 3 {
      assert data[..3] == g && data[3..] == rest;
    } else {
      assert data == g;
      assert Encode(rest) == [] && Group(g) + [] == Group(g);
    }
  }

  lemma QuadFirst(s: string, t: string)
    requires |s| == 4 && |t| % 4 == 0 && Quad(s).Bytes? && Quads(t).Bytes?
    ensures Quads(s + t) == Bytes(Quad(s).data + Quads(t).data)
  {
    assert (s + t)[..4] == s && (s + t)[4..] == t;
  }

  // Decoding undoes encoding, for all bytes.
  lemma DecodeEncode(data: seq<byte>)
    ensures Decode(Encode(data)) == Bytes(data)
  {
    CleanEncode(data);
  }

  // White space anywhere and either alphabet make no difference.
  lemma DecodeIgnoresSpelling(text: string, data: seq<byte>)
    requires Clean(text) == Clean(Encode(data))
    ensures Decode(text) == Bytes(data)
  {
    CleanEncode(data);
  }

  function Pads(n: nat): string
    requires n < 4
  {
    if n == 0 then [] else if n == 1 then "=" else if n == 2 then "==" else "==="
  }

  // Nor does padding left out in part or altogether.
  lemma DecodeIgnoresPadding(text: string, n: nat, data: seq<byte>)
    requires n < 4 && Clean(text) + Pads(n) == Clean(Encode(data))
    ensures Decode(text) == Bytes(data)
  {
    CleanEncode(data);
    PadRestores(Clean(text), n);
  }

  lemma PadRestores(s: string, n: nat)
    requires n < 4 && |s + Pads(n)| % 4 == 0
    ensures Padded(s) == s + Pads(n)
  {
    assert s + [] == s;
  }
}
