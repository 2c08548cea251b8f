// Unicode escapes of JSON strings (src/json_lite.cpp:74-119; section 7 of RFC
// 8259): every character written as one \u escape, or as two when it is beyond
// the first plane, is read as its UTF-8 form.
module JsonUnicode {
  import opened Text
  import opened JsonValue
  import opened JsonGrammar

  // Code points that are characters: surrogates are not.
  predicate Scalar(cp: nat) { cp < 0xD800 || 0xE000 <= cp < 0x110000 }

  // ---- UTF-8 ----

  // Reading one character back from its UTF-8 form.
  function CodePoint(u: string): nat
    requires |u| > 0
  {
    var b := u[0] as int;
    if |u| == 1 then b
    else if |u| == 2 then Low6(b) % 32 * 64 + Low6(u[1] as int)
    else if |u| == 3 then Low6(b) % 16 * 4096 + Low6(u[1] as int) * 64 + Low6(u[2] as int)
    else Low6(b) % 8 * 262144 + Low6(u[1] as int) * 4096 + Low6(u[2] as int) * 64 + Low6(u[3] as int)
  }

  function Low6(b: int): int { b % 64 }

  // Section 3 of RFC 3629: the first byte says how many there are, and only it;
  // no character takes more bytes than it needs.
  predicate Formed(u: string, cp: nat) {
    && (|u| == 1 <==> cp < 0x80) && (|u| == 2 <==> 0x80 <= cp < 0x800) && (|u| == 3 <==> 0x800 <= cp < 0x10000)
    && 1 <= |u| <= 4
    && (|u| == 1 ==> u[0] as int < 0x80) && (|u| == 2 ==> 0xC0 <= u[0] as int < 0xE0)
    && (|u| == 3 ==> 0xE0 <= u[0] as int < 0xF0) && (|u| == 4 ==> 0xF0 <= u[0] as int < 0xF8)
    && forall k :: 1 <= k < |u| ==> 0x80 <= u[k] as int < 0xC0
  }

  lemma Utf8IsFormed(cp: nat)
    requires cp < 0x110000
    ensures Formed(Utf8(cp), cp)
  {
  }

  // A character is recovered from its UTF-8 form.
  lemma Utf8Decodes(cp: nat)
    requires cp < 0x110000
    ensures Formed(Utf8(cp), cp) && CodePoint(Utf8(cp)) == cp
  {
    Utf8IsFormed(cp);
    hide Formed;
    if 0x80 <= cp < 0x800 {
      TwoBytes(cp);
    } else if 0x800 <= cp < 0x10000 {
      ThreeBytes(cp);
    } else if cp >= 0x10000 {
      FourBytes(cp);
    }
  }

  lemma TwoBytes(cp: nat)
    requires 0x80 <= cp < 0x800
    ensures |Utf8(cp)| == 2 && CodePoint(Utf8(cp)) == cp
  {
    Sextets(cp);
    Lead2(cp / 64);
    Continuation(cp % 64);
  }

  lemma ThreeBytes(cp: nat)
    requires 0x800 <= cp < 0x10000
    ensures |Utf8(cp)| == 3 && CodePoint(Utf8(cp)) == cp
  {
    Sextets(cp);
    Lead3(cp / 4096);
    Continuation(cp / 64 % 64);
    Continuation(cp % 64);
  }

  // The mark on a byte goes with the bits above.
  lemma Continuation(n: nat)
    requires n < 64
    ensures (0x80 + n) % 64 == n
  {
  }

  lemma Lead2(n: nat)
    requires n < 32
    ensures (0xC0 + n) % 64 % 32 == n
  {
  }

  lemma Lead3(n: nat)
    requires n < 16
    ensures (0xE0 + n) % 64 % 16 == n
  {
  }

  lemma Lead4(n: nat)
    requires n < 8
    ensures (0xF0 + n) % 64 % 8 == n
  {
  }

  lemma Sextets(n: nat)
    ensures n / 64 / 64 == n / 4096 && n / 4096 / 64 == n / 262144
    ensures n == n / 64 * 64 + n % 64 && n / 64 == n / 4096 * 64 + n / 64 % 64
    ensures n / 4096 == n / 262144 * 64 + n / 4096 % 64
  {
  }

  lemma FourBytes(cp: nat)
    requires 0x10000 <= cp < 0x110000
    ensures |Utf8(cp)| == 4 && CodePoint(Utf8(cp)) == cp
  {
    Sextets(cp);
    Lead4(cp / 262144);
    Continuation(cp / 4096 % 64);
    Continuation(cp / 64 % 64);
    Continuation(cp % 64);
  }

  // ---- Escapes ----

  function Hex(n: nat): string
    requires n < 0x10000
  {
    [HexDigit(n / 4096), HexDigit(n / 256 % 16), HexDigit(n / 16 % 16), HexDigit(n % 16)]
  }

  function Unit(n: nat): string
    requires n < 0x10000
  {
    ['\\', 'u'] + Hex(n)
  }

  function High(cp: nat): nat
    requires 0x10000 <= cp < 0x110000
  {
    0xD800 + (cp - 0x10000) / 1024
  }

  function Low(cp: nat): nat
    requires 0x10000 <= cp < 0x110000
  {
    0xDC00 + (cp - 0x10000) % 1024
  }

  // One escape, or a surrogate pair of them.
  function Escaped(cp: nat): string
    requires cp < 0x110000
  {
    if cp < 0x10000 then Unit(cp) else Unit(High(cp)) + Unit(Low(cp))
  }

  predicate Scalars(cps: seq<nat>) { cps == [] || (Scalar(cps[0]) && Scalars(cps[1..])) }

  function EscapedAll(cps: seq<nat>): string
    requires Scalars(cps)
  {
    if cps == [] then [] else Escaped(cps[0]) + EscapedAll(cps[1..])
  }

  function Utf8All(cps: seq<nat>): string
    requires Scalars(cps)
  {
    if cps == [] then [] else Utf8(cps[0]) + Utf8All(cps[1..])
  }

  lemma HexDigitReads(d: nat)
    requires d < 16
    ensures HexValue(HexDigit(d)) == Some(d)
  {
  }

  lemma HexReads(s: string, i: nat, n: nat)
    requires n < 0x10000 && At(s, i, Hex(n))
    ensures i + 4 <= |s| && Hex4(s, i) == Some(n)
  {
    var a, b, c, d := n / 4096, n / 256 % 16, n / 16 % 16, n % 16;
    AtPointwise(s, i, Hex(n));
    FourAt(s, i, Hex(n));
    Hex4Is(s, i, a, b, c, d);
    HexSum(n);
  }

  lemma FourAt(s: string, i: nat, h: string)
    requires |h| == 4 && i + 4 <= |s| && forall k :: 0 <= k < |h| ==> s[i + k] == h[k]
    ensures s[i] == h[0] && s[i + 1] == h[1] && s[i + 2] == h[2] && s[i + 3] == h[3]
  {
    assert s[i + 0] == h[0];
  }

  lemma Hex4Is(s: string, i: nat, a: nat, b: nat, c: nat, d: nat)
    requires i + 4 <= |s| && a < 16 && b < 16 && c < 16 && d < 16
    requires s[i] == HexDigit(a) && s[i + 1] == HexDigit(b) && s[i + 2] == HexDigit(c) && s[i + 3] == HexDigit(d)
    ensures Hex4(s, i) == Some(a * 4096 + b * 256 + c * 16 + d)
  {
    HexDigitReads(a);
    HexDigitReads(b);
    HexDigitReads(c);
    HexDigitReads(d);
  }

  lemma HexSum(n: nat)
    ensures n == n / 4096 * 4096 + n / 256 % 16 * 256 + n / 16 % 16 * 16 + n % 16
  {
    assert n / 16 / 16 == n / 256 && n / 256 / 16 == n / 4096;
  }

  lemma UnitReads(s: string, i: nat, n: nat)
    requires n < 0x10000 && At(s, i, Unit(n))
    ensures i + 6 <= |s| && s[i] == '\\' && s[i + 1] == 'u' && Hex4(s, i + 2) == Some(n)
  {
    AtConcat(s, i, ['\\', 'u'], Hex(n));
    AtPointwise(s, i, ['\\', 'u']);
    var two := ['\\', 'u'];
    assert s[i + 0] == two[0] && s[i + 1] == two[1];
    HexReads(s, i + 2, n);
  }

  lemma EscapedReads(s: string, i: nat, cp: nat)
    requires Scalar(cp) && At(s, i, Escaped(cp))
    ensures i + 2 <= |s| && s[i] == '\\' && s[i + 1] == 'u'
    ensures UnicodeEscape(s, i + 2) == Ok(Read(cp, i + |Escaped(cp)|))
  {
    if cp < 0x10000 {
      UnitReads(s, i, cp);
    } else {
      AtConcat(s, i, Unit(High(cp)), Unit(Low(cp)));
      UnitReads(s, i, High(cp));
      UnitReads(s, i + 6, Low(cp));
    }
  }

  lemma UnicodeStep(s: string, i: nat, out: string, cp: nat, n: nat)
    requires i + 2 <= |s| && s[i] == '\\' && s[i + 1] == 'u' && UnicodeEscape(s, i + 2) == Ok(Read(cp, n))
    ensures StringFrom(s, i, out) == StringFrom(s, n, out + Utf8(cp))
  {
    hide UnicodeEscape, Utf8;
  }

  lemma {:induction false} EscapesRead(s: string, i: nat, out: string, cps: seq<nat>, end: nat)
    requires Scalars(cps) && At(s, i, EscapedAll(cps)) && end == i + |EscapedAll(cps)|
    requires end < |s| && s[end] == '"'
    ensures StringFrom(s, i, out) == Ok(Read(out + Utf8All(cps), end + 1))
    decreases |cps|
  {
    hide UnicodeEscape, Utf8, Escaped, At;
    if cps == [] {
      assert out + [] == out;
    } else {
      AtConcat(s, i, Escaped(cps[0]), EscapedAll(cps[1..]));
      EscapedReads(s, i, cps[0]);
      UnicodeStep(s, i, out, cps[0], i + |Escaped(cps[0])|);
      Assoc(out, Utf8(cps[0]), Utf8All(cps[1..]));
      EscapesRead(s, i + |Escaped(cps[0])|, out + Utf8(cps[0]), cps[1..], end);
    }
  }

  // A string literal of escapes is read as the UTF-8 text of its characters.
  lemma EscapedTextParses(cps: seq<nat>)
    requires Scalars(cps)
    ensures Parse("\"" + EscapedAll(cps) + "\"") == Ok(Str(Utf8All(cps)))
  {
    hide Parse, StringFrom, At, EscapedAll, Utf8All, Scalars;
    var body := EscapedAll(cps);
    var s := "\"" + body + "\"";
    AtMiddle(s, "\"", body, "\"");
    EscapesRead(s, 1, "", cps, 1 + |body|);
    assert "" + Utf8All(cps) == Utf8All(cps);
    LiteralParses(s, Utf8All(cps));
  }

  lemma LiteralParses(s: string, text: string)
    requires s != [] && s[0] == '"' && StringFrom(s, 1, "") == Ok(Read(text, |s|))
    ensures Parse(s) == Ok(Str(text))
  {
    assert WsEnd(s, 0) == 0 && WsEnd(s, |s|) == |s|;
    assert StringAt(s, 0) == Ok(Read(text, |s|));
    assert ValueAt(s, 0, 0) == ValueFrom(s, 0, 0);
  }
}
