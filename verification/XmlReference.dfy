// Character references in XML text, decimal and hexadecimal (src/
// model_metadata.cpp:20-37, 57-64): a reference to a character is decoded to its UTF-8 form, any other
// number stays as it stands.
module XmlReference {
  import opened Text
  import opened JsonValue
  import JsonFind
  import opened XmlScan
  import opened XmlMetadata

  // A number that refers to a character.
  predicate Refers(n: nat) { 0 < n <= 0x10FFFF && !(0xD800 <= n <= 0xDFFF) }

  lemma {:induction false} DecimalToEnd(s: string, sofar: nat)
    requires AllDigits(s)
    ensures DigitsToEnd(s, 10, sofar) == Some(JsonFind.Leading(s, sofar))
    decreases |s|
  {
    if s != [] {
      DecimalToEnd(s[1..], 10 * sofar + (s[0] as int - '0' as int));
    }
  }

  lemma StrtoulOfDigits(n: nat)
    ensures Strtoul(Digits(n), 10) == Some(n)
  {
    var s := Digits(n);
    JsonFind.FirstDigit(n);
    JsonFind.LeadingDigits(n, []);
    DecimalToEnd(s, 0);
    DigitFirst(s);
  }

  lemma DigitFirst(s: string)
    requires s != [] && IsDigit(s[0])
    ensures SkipBlank(s) == s && s[0] != '+' && DigitValue(s[0], 10).Some?
  {
  }

  lemma ReferenceOfDigits(n: nat)
    ensures Reference(['#'] + Digits(n)) == if Refers(n) then Some(Utf8(n)) else None
  {
    var s := Digits(n);
    var ent := ['#'] + s;
    JsonFind.FirstDigit(n);
    assert ent[1..] == s && ent[1] == s[0];
    StrtoulOfDigits(n);
  }

  lemma NotNamed(n: nat)
    ensures Entity(['#'] + Digits(n)) == Reference(['#'] + Digits(n))
  {
    var ent := ['#'] + Digits(n);
    assert ent[0] == '#';
    assert "amp"[0] == 'a' && "lt"[0] == 'l' && "gt"[0] == 'g' && "quot"[0] == 'q' && "apos"[0] == 'a';
  }

  lemma {:induction false} DecimalHasNoSemicolon(s: string)
    requires AllDigits(s)
    ensures Without(s, ';')
  {
    if s != [] {
      DecimalHasNoSemicolon(s[1..]);
    }
  }

  // Every decimal reference of up to ten digits, in any text.
  lemma ReferenceDecodes(n: nat, rest: string)
    requires |Digits(n)| <= 10
    ensures var printed := ['&'] + (['#'] + Digits(n) + ([';'] + rest));
      DecodeText(printed) ==
        (if Refers(n) then Utf8(n) else ['&'] + (['#'] + Digits(n)) + [';']) + DecodeText(rest)
  {
    var ent := ['#'] + Digits(n);
    JsonFind.LeadingDigits(n, []);
    DecimalHasNoSemicolon(Digits(n));
    assert ent[1..] == Digits(n);
    ReferenceOfDigits(n);
    NotNamed(n);
    if Refers(n) {
      EntityDecodes(ent, Utf8(n), rest);
    } else {
      UnknownStays(ent, rest);
    }
  }

  // ---- Hexadecimal references ----

  function HexText(n: nat): string {
    if n < 16 then [HexDigit(n)] else HexText(n / 16) + [HexDigit(n % 16)]
  }

  lemma HexDigitIs(d: nat)
    requires d < 16
    ensures DigitValue(HexDigit(d), 16) == Some(d) && HexDigit(d) != ';' && HexDigit(d) as int > 32
    ensures HexDigit(d) != 'x' && HexDigit(d) != 'X' && HexDigit(d) != '+' && (HexDigit(d) == '0' ==> d == 0)
  {
  }

  predicate AllHex(s: string) { s == [] || (DigitValue(s[0], 16).Some? && s[0] as int > 32 && AllHex(s[1..])) }

  lemma {:induction false} OneMoreDigit(s: string, c: char, sofar: nat)
    requires AllHex(s) && DigitValue(c, 16).Some? && c as int > 32
    ensures AllHex(s + [c]) && DigitsToEnd(s, 16, sofar).Some?
    ensures DigitsToEnd(s + [c], 16, sofar) == Some(DigitsToEnd(s, 16, sofar).value * 16 + DigitValue(c, 16).value)
    decreases |s|
  {
    if s == [] {
      assert s + [c] == [c] && [c][1..] == [];
    } else {
      assert (s + [c])[1..] == s[1..] + [c];
      OneMoreDigit(s[1..], c, sofar * 16 + DigitValue(s[0], 16).value);
    }
  }

  lemma {:induction false} HexReads(n: nat)
    ensures AllHex(HexText(n)) && DigitsToEnd(HexText(n), 16, 0) == Some(n) && Without(HexText(n), ';')
    ensures HexText(n) != [] && (HexText(n)[0] == '0' ==> |HexText(n)| == 1)
    ensures DigitValue(HexText(n)[0], 16).Some? && HexText(n)[0] as int > 32 && HexText(n)[0] != '+'
    decreases n
  {
    HexDigitIs(n % 16);
    var last := [HexDigit(n % 16)];
    assert last[1..] == [] && Without(last, ';');
    if n >= 16 {
      HexReads(n / 16);
      HexLeads(n / 16);
      OneMoreDigit(HexText(n / 16), HexDigit(n % 16), 0);
      WithoutConcat(HexText(n / 16), last, ';');
    }
  }

  lemma {:induction false} HexLeads(n: nat)
    requires n > 0
    ensures HexText(n) != [] && HexText(n)[0] != '0'
    decreases n
  {
    if n < 16 { HexDigitIs(n); } else { HexLeads(n / 16); }
  }

  lemma StrtoulOfHex(n: nat)
    ensures Strtoul(HexText(n), 16) == Some(n)
  {
    HexReads(n);
    NoBlank(HexText(n));
  }

  lemma NoBlank(s: string)
    requires s != [] && s[0] as int > 32
    ensures SkipBlank(s) == s
  {
  }

  lemma ReferenceOfHex(n: nat)
    ensures Reference(['#', 'x'] + HexText(n)) == if Refers(n) then Some(Utf8(n)) else None
  {
    var ent := ['#', 'x'] + HexText(n);
    assert ent[2..] == HexText(n);
    StrtoulOfHex(n);
  }

  lemma HexNotNamed(n: nat)
    ensures Entity(['#', 'x'] + HexText(n)) == Reference(['#', 'x'] + HexText(n))
  {
    var ent := ['#', 'x'] + HexText(n);
    assert ent[0] == '#';
    assert "amp"[0] == 'a' && "lt"[0] == 'l' && "gt"[0] == 'g' && "quot"[0] == 'q' && "apos"[0] == 'a';
  }

  // Every hexadecimal reference of up to nine digits, in any text.
  lemma HexReferenceDecodes(n: nat, rest: string)
    requires |HexText(n)| <= 9
    ensures var ent := ['#', 'x'] + HexText(n);
      DecodeText(['&'] + (ent + ([';'] + rest))) ==
        (if Refers(n) then Utf8(n) else ['&'] + ent + [';']) + DecodeText(rest)
  {
    var ent := ['#', 'x'] + HexText(n);
    HexReads(n);
    assert Without(['#', 'x'], ';') by { assert ['#', 'x'][1..] == ['x'] && ['x'][1..] == []; }
    WithoutConcat(['#', 'x'], HexText(n), ';');
    ReferenceOfHex(n);
    HexNotNamed(n);
    if Refers(n) {
      EntityDecodes(ent, Utf8(n), rest);
    } else {
      UnknownStays(ent, rest);
    }
  }

  lemma UnknownStays(ent: string, rest: string)
    requires Without(ent, ';') && |ent| < MAX_ENTITY && Entity(ent) == None
    ensures DecodeText(['&'] + (ent + ([';'] + rest))) == ['&'] + ent + [';'] + DecodeText(rest)
  {
    hide Entity, Without;
    var s := ['&'] + (ent + ([';'] + rest));
    var semi := |ent| + 1;
    IndexOfChar(ent, ';', rest);
    assert s[1..] == ent + ([';'] + rest);
    Slices(ent, rest);
  }

  lemma Slices(ent: string, rest: string)
    ensures var s := ['&'] + (ent + ([';'] + rest));
      var semi := |ent| + 1;
      s[1..semi] == ent && s[..semi + 1] == ['&'] + ent + [';'] && s[semi + 1..] == rest
  {
  }
}
