// The numbers src/json_lite.cpp reads (lines 131-152), from their parts: a
// sign, digits, a fraction, an exponent. Which texts are numbers, and what they
// stand for as real numbers.
module JsonNumeral {
  import opened Text
  import opened JsonValue
  import opened JsonGrammar
  import opened JsonLocal

  // An exponent may lack its digits, and a fraction too.
  datatype Exponent = Exponent(mark: char, sign: string, digits: string)

  datatype Numeral = Numeral(negative: bool, whole: string, fraction: Option<string>, exponent: Option<Exponent>)

  // Some digit stands before the exponent, and a minus sign or a digit first.
  predicate GoodNumeral(n: Numeral) {
    && AllDigits(n.whole)
    && (n.fraction.Some? ==> AllDigits(n.fraction.value))
    && (n.exponent.Some? ==>
         var e := n.exponent.value;
         (e.mark == 'e' || e.mark == 'E') && (e.sign == "" || e.sign == "+" || e.sign == "-") && AllDigits(e.digits))
    && (n.whole != [] || (n.negative && n.fraction.Some? && n.fraction.value != []))
  }

  function SignText(negative: bool): string { if negative then "-" else "" }

  function FractionThen(f: Option<string>, rest: string): string {
    match f
    case None => rest
    case Some(d) => ['.'] + (d + rest)
  }

  function ExponentThen(e: Option<Exponent>, rest: string): string {
    match e
    case None => rest
    case Some(Exponent(mark, sign, digits)) => [mark] + (sign + (digits + rest))
  }

  // The number, and what stands behind it.
  function NumeralThen(n: Numeral, rest: string): string {
    SignText(n.negative) + (n.whole + FractionThen(n.fraction, ExponentThen(n.exponent, rest)))
  }

  function NumeralText(n: Numeral): string { NumeralThen(n, []) }

  // ---- What it stands for ----

  // Digits in base ten, from the left.
  function Horner(digits: string, sofar: int): int
    decreases |digits|
  {
    if digits == [] then sofar else Horner(digits[1..], 10 * sofar + (digits[0] as int - '0' as int))
  }

  function TenTo(k: int): real {
    if k >= 0 then Pow10(k) as real else 1.0 / Pow10(-k) as real
  }

  function Fraction(n: Numeral): string { if n.fraction.Some? then n.fraction.value else "" }

  function Power(n: Numeral): int {
    match n.exponent
    case None => 0
    case Some(e) => if e.sign == "-" then -Horner(e.digits, 0) else Horner(e.digits, 0)
  }

  function Magnitude(n: Numeral): real {
    Horner(n.whole + Fraction(n), 0) as real * TenTo(Power(n) - |Fraction(n)|)
  }

  // An integer of magnitude at most 2^53 is read as that integer, any other
  // number as its characters.
  function NumeralValue(n: Numeral): Value {
    var m := Magnitude(n);
    if m.Floor as real == m && m.Floor <= MAX_EXACT then Number(if n.negative then -m.Floor else m.Floor)
    else Real(NumeralText(n))
  }

  // ---- Runs of digits ----

  lemma {:induction false} HornerAppends(t: string, c: char, sofar: int)
    ensures Horner(t + [c], sofar) == 10 * Horner(t, sofar) + (c as int - '0' as int)
    decreases |t|
  {
    if t == [] {
      assert [] + [c] == [c] && [c][1..] == [];
    } else {
      assert (t + [c])[1..] == t[1..] + [c];
      HornerAppends(t[1..], c, 10 * sofar + (t[0] as int - '0' as int));
    }
  }

  lemma {:induction false} NatOfIsHorner(t: string)
    ensures NatOf(t) == Horner(t, 0)
  {
    if t != [] {
      var init, c := t[..|t| - 1], t[|t| - 1];
      NatOfIsHorner(init);
      HornerAppends(init, c, 0);
      assert init + [c] == t;
    }
  }

  lemma {:induction false} HornerIsNatural(t: string, sofar: nat)
    requires AllDigits(t)
    ensures Horner(t, sofar) >= 0
    decreases |t|
  {
    if t != [] {
      HornerIsNatural(t[1..], 10 * sofar + (t[0] as int - '0' as int));
    }
  }

  lemma {:induction false} DigitsConcat(a: string, b: string)
    requires AllDigits(a) && AllDigits(b)
    ensures AllDigits(a + b)
  {
    if a == [] {
      assert a + b == b;
    } else {
      assert (a + b)[1..] == a[1..] + b;
      DigitsConcat(a[1..], b);
    }
  }

  // What stands in a text from i on.
  predicate From(s: string, i: nat, t: string) { i <= |s| && s[i..] == t }

  lemma FromHead(s: string, i: nat, c: char, t: string)
    requires From(s, i, [c] + t)
    ensures i < |s| && s[i] == c && From(s, i + 1, t)
  {
    assert s[i..][0] == c && s[i..][1..] == t;
    assert s[i..][1..] == s[i + 1..];
  }

  lemma FromSplit(s: string, i: nat, a: string, b: string)
    requires From(s, i, a + b)
    ensures i + |a| <= |s| && s[i..i + |a|] == a && From(s, i + |a|, b)
  {
    assert s[i..][..|a|] == a && s[i..][|a|..] == b;
    assert s[i..][|a|..] == s[i + |a|..];
  }

  lemma {:induction false} RunEnds(s: string, i: nat, d: string, rest: string)
    requires From(s, i, d + rest) && AllDigits(d) && (rest == [] || !IsDigit(rest[0]))
    ensures i + |d| <= |s| && DigitsEnd(s, i) == i + |d| && From(s, i + |d|, rest)
    decreases |d|
  {
    if d == [] {
      assert d + rest == rest;
      if rest != [] { assert s[i] == s[i..][0]; }
    } else {
      assert d + rest == [d[0]] + (d[1..] + rest);
      FromHead(s, i, d[0], d[1..] + rest);
      RunEnds(s, i + 1, d[1..], rest);
    }
  }

  // No character that continues a number.
  predicate Ended(rest: string) { Delimited(rest, 0) }

  lemma FractionEnds(s: string, i: nat, f: Option<string>, rest: string)
    requires From(s, i, FractionThen(f, rest)) && (f.Some? ==> AllDigits(f.value))
    requires rest == [] || (!IsDigit(rest[0]) && rest[0] != '.')
    ensures FractionEnd(s, i) == |s| - |rest| && From(s, |s| - |rest|, rest)
  {
    match f
    case None => if rest != [] { assert s[i] == s[i..][0]; }
    case Some(d) =>
      FromHead(s, i, '.', d + rest);
      RunEnds(s, i + 1, d, rest);
  }

  lemma ExponentEnds(s: string, i: nat, e: Exponent, rest: string)
    requires From(s, i, ExponentThen(Some(e), rest)) && Ended(rest)
    requires (e.mark == 'e' || e.mark == 'E') && (e.sign == "" || e.sign == "+" || e.sign == "-") && AllDigits(e.digits)
    ensures ExponentEnd(s, i) == |s| - |rest| && From(s, |s| - |rest|, rest)
  {
    hide AllDigits, DigitsEnd, From, ExponentEnd;
    var tail := e.digits + rest;
    FromHead(s, i, e.mark, e.sign + tail);
    FromSplit(s, i + 1, e.sign, tail);
    RunEnds(s, i + 1 + |e.sign|, e.digits, rest);
    SignedExponent(s, i, e.sign, tail);
    if tail != [] { DigitsStart(e.digits, rest); }
    ExponentEndIs(s, i, i + 1 + |e.sign|);
  }

  lemma ExponentEndIs(s: string, i: nat, j: nat)
    requires i < |s| && (s[i] == 'e' || s[i] == 'E')
    requires j == if i + 1 < |s| && (s[i + 1] == '+' || s[i + 1] == '-') then i + 2 else i + 1
    ensures ExponentEnd(s, i) == DigitsEnd(s, j)
  {
    hide DigitsEnd;
  }

  lemma SignedExponent(s: string, i: nat, sign: string, tail: string)
    requires i < |s| && From(s, i + 1, sign + tail) && (sign == "" || sign == "+" || sign == "-")
    ensures sign != "" ==> i + 1 < |s| && s[i + 1] == sign[0]
    ensures sign == "" ==> if tail == [] then i + 1 == |s| else i + 1 < |s| && s[i + 1] == tail[0]
  {
    if sign + tail != [] { assert s[i + 1] == s[i + 1..][0]; }
  }

  lemma DigitsStart(d: string, rest: string)
    requires AllDigits(d) && Ended(rest) && d + rest != []
    ensures (d + rest)[0] != '+' && (d + rest)[0] != '-'
  {
  }

  predicate GoodExponent(e: Option<Exponent>) {
    e.Some? ==>
      (e.value.mark == 'e' || e.value.mark == 'E') && AllDigits(e.value.digits) &&
      (e.value.sign == "" || e.value.sign == "+" || e.value.sign == "-")
  }

  lemma ExponentStarts(e: Option<Exponent>, rest: string)
    requires GoodExponent(e) && Ended(rest)
    ensures var t := ExponentThen(e, rest); t == [] || (!IsDigit(t[0]) && t[0] != '.')
  {
  }

  lemma FractionStarts(f: Option<string>, rest: string)
    requires rest == [] || !IsDigit(rest[0])
    ensures var t := FractionThen(f, rest); t == [] || !IsDigit(t[0])
  {
  }

  lemma ExponentOrNone(s: string, i: nat, e: Option<Exponent>, rest: string)
    requires From(s, i, ExponentThen(e, rest)) && GoodExponent(e) && Ended(rest)
    ensures ExponentEnd(s, i) == |s| - |rest| && From(s, |s| - |rest|, rest)
  {
    if e.Some? {
      ExponentEnds(s, i, e.value, rest);
    } else if rest != [] {
      assert s[i] == s[i..][0];
    }
  }

  lemma NumeralEnds(s: string, i: nat, n: Numeral, rest: string)
    requires GoodNumeral(n) && From(s, i, NumeralThen(n, rest)) && Ended(rest)
    ensures i < |s| && (s[i] == '-' || IsDigit(s[i]))
    ensures NumberEnd(s, i) == |s| - |rest| && From(s, |s| - |rest|, rest)
  {
    hide From, FractionThen, ExponentThen, DigitsEnd, FractionEnd, ExponentEnd, AllDigits, Ended, SignEnd;
    var sign, tail := SignText(n.negative), ExponentThen(n.exponent, rest);
    var more := FractionThen(n.fraction, tail);
    ExponentStarts(n.exponent, rest);
    FractionStarts(n.fraction, tail);
    SignEnds(s, i, n.negative, n.whole, more);
    RunEnds(s, i + |sign|, n.whole, more);
    FractionEnds(s, i + |sign| + |n.whole|, n.fraction, tail);
    ExponentOrNone(s, |s| - |tail|, n.exponent, rest);
  }

  lemma SignEnds(s: string, i: nat, negative: bool, whole: string, more: string)
    requires From(s, i, SignText(negative) + (whole + more)) && (negative || whole != []) && AllDigits(whole)
    ensures i < |s| && (s[i] == '-' || IsDigit(s[i]))
    ensures SignEnd(s, i) == i + |SignText(negative)| && From(s, i + |SignText(negative)|, whole + more)
  {
    FromSplit(s, i, SignText(negative), whole + more);
    if negative {
      assert s[i] == s[i..i + 1][0];
    } else {
      assert s[i] == s[i..][0];
    }
  }

  // ---- Its value ----

  lemma RunOf(d: string, rest: string)
    requires AllDigits(d) && (rest == [] || !IsDigit(rest[0]))
    ensures DigitsEnd(d + rest, 0) == |d|
  {
    assert (d + rest)[0..] == d + rest;
    RunEnds(d + rest, 0, d, rest);
  }

  lemma ExponentIs(e: Option<Exponent>)
    requires GoodExponent(e)
    ensures ExponentOf(ExponentThen(e, [])) ==
      if e.None? then 0 else if e.value.sign == "-" then -NatOf(e.value.digits) else NatOf(e.value.digits)
  {
    if e.Some? {
      var mark, sign, digits := e.value.mark, e.value.sign, e.value.digits;
      var t := [mark] + (sign + (digits + []));
      assert digits + [] == digits && t[1..] == sign + digits;
      if sign == "" {
        assert t[1..] == digits && (digits != [] ==> t[1] == digits[0]);
      } else {
        assert t[1] == sign[0] && t[2..] == digits;
      }
    }
  }

  lemma MantissaHasDigit(n: Numeral)
    requires GoodNumeral(n)
    ensures HasMantissaDigit(n.whole + FractionThen(n.fraction, ExponentThen(n.exponent, [])))
  {
    var tail := ExponentThen(n.exponent, []);
    var body := n.whole + FractionThen(n.fraction, tail);
    if n.whole != [] {
      assert body[0] == n.whole[0];
    } else {
      assert body == ['.'] + (n.fraction.value + tail) && body[1] == n.fraction.value[0];
    }
  }

  lemma DecimalIs(n: Numeral)
    requires GoodNumeral(n)
    ensures var body := n.whole + FractionThen(n.fraction, ExponentThen(n.exponent, []));
      Body(NumeralText(n)) == body && Negative(NumeralText(n)) == n.negative && HasMantissaDigit(body) &&
      DecimalOf(body) == Decimal(Horner(n.whole + Fraction(n), 0), Power(n) - |Fraction(n)|)
  {
    hide ExponentThen, FractionThen, AllDigits, DigitsEnd, FractionEnd, ExponentOf, Horner, NatOf, HasMantissaDigit, Body, Negative;
    var tail := ExponentThen(n.exponent, []);
    var body := n.whole + FractionThen(n.fraction, tail);
    ExponentStarts(n.exponent, []);
    MantissaHasDigit(n);
    ExponentIs(n.exponent);
    if n.exponent.Some? { NatOfIsHorner(n.exponent.value.digits); }
    NatOfIsHorner(n.whole + Fraction(n));
    SignOf(n.negative, n.whole, FractionThen(n.fraction, tail));
    FractionStarts(n.fraction, tail);
    RunOf(n.whole, FractionThen(n.fraction, tail));
    BodyParts(n.whole, n.fraction, tail);
  }

  lemma SignOf(negative: bool, whole: string, more: string)
    requires AllDigits(whole) && (negative || whole != [])
    ensures var t := SignText(negative) + (whole + more); Body(t) == whole + more && Negative(t) == negative
  {
    var t := SignText(negative) + (whole + more);
    if negative {
      assert t[0] == '-' && t[1..] == whole + more;
    } else {
      assert t == whole + more && t[0] == whole[0];
    }
  }

  // Behind the whole digits.
  lemma BodyParts(whole: string, f: Option<string>, tail: string)
    requires f.Some? ==> AllDigits(f.value)
    requires tail == [] || (!IsDigit(tail[0]) && tail[0] != '.')
    ensures var body := whole + FractionThen(f, tail);
      var e := FractionEnd(body, |whole|);
      body[..|whole|] == whole && body[e..] == tail &&
      (if f.Some? then e == |whole| + 1 + |f.value| && body[|whole| + 1..e] == f.value else e == |whole|)
  {
    hide FractionEnd, AllDigits;
    var body := whole + FractionThen(f, tail);
    assert body[|whole|..] == FractionThen(f, tail) && body[..|whole|] == whole;
    FractionEnds(body, |whole|, f, tail);
    if f.Some? { CutOut(whole, f.value, tail, body); }
  }

  lemma CutOut(whole: string, d: string, tail: string, body: string)
    requires body == whole + (['.'] + (d + tail))
    ensures |body| - |tail| == |whole| + 1 + |d| && body[|whole| + 1..|whole| + 1 + |d|] == d
  {
    assert body == whole + ['.'] + d + tail;
  }

  // Truncation and being an integer, as real numbers.
  lemma QuotientFloors(d: int, p: int)
    requires d >= 0 && p > 0
    ensures (d as real / p as real).Floor == d / p
    ensures (d as real / p as real).Floor as real == d as real / p as real <==> d % p == 0
  {
    var q, m := d / p, d % p;
    assert d == q * p + m;
    var r := d as real / p as real;
    assert r == q as real + m as real / p as real by { SplitQuotient(q, m, p); }
    PartOfOne(m, p);
  }

  lemma SplitQuotient(q: int, m: int, p: int)
    requires p > 0
    ensures (q * p + m) as real / p as real == q as real + m as real / p as real
  {
    assert (q * p + m) as real == q as real * p as real + m as real;
  }

  lemma PartOfOne(m: int, p: int)
    requires 0 <= m < p
    ensures 0.0 <= m as real / p as real < 1.0 && (m as real / p as real == 0.0 <==> m == 0)
  {
  }

  lemma ProductIsWhole(digits: int, p: int)
    ensures var r := digits as real * p as real; r.Floor == digits * p && r.Floor as real == r
  {
    assert digits as real * p as real == (digits * p) as real;
  }

  lemma Reciprocal(d: real, p: real)
    requires p != 0.0
    ensures d * (1.0 / p) == d / p
  {
  }

  lemma TruncatedMeans(digits: int, k: int)
    requires digits >= 0
    ensures var d, r := Decimal(digits, k), digits as real * TenTo(k);
      r.Floor == Truncated(d) && (r.Floor as real == r <==> IsInteger(d))
  {
    hide Pow10;
    if k >= 0 {
      ProductIsWhole(digits, Pow10(k));
    } else {
      Reciprocal(digits as real, Pow10(-k) as real);
      QuotientFloors(digits, Pow10(-k));
    }
  }

  lemma MagnitudeIs(n: Numeral, d: Decimal)
    requires GoodNumeral(n) && d == Decimal(Horner(n.whole + Fraction(n), 0), Power(n) - |Fraction(n)|)
    ensures Magnitude(n).Floor == Truncated(d) && (Magnitude(n).Floor as real == Magnitude(n) <==> IsInteger(d))
  {
    hide Truncated, IsInteger, TenTo, Horner;
    DigitsConcat(n.whole, Fraction(n));
    HornerIsNatural(n.whole + Fraction(n), 0);
    TruncatedMeans(d.digits, d.scale);
  }

  // What std::stod makes of it.
  lemma NumeralReads(n: Numeral)
    requires GoodNumeral(n)
    ensures Stod(NumeralText(n)) == Ok(NumeralValue(n))
  {
    hide DecimalOf, HasMantissaDigit, Truncated, IsInteger, Magnitude, NumeralText, Body, Negative;
    var d := Decimal(Horner(n.whole + Fraction(n), 0), Power(n) - |Fraction(n)|);
    DecimalIs(n);
    MagnitudeIs(n, d);
    assert DecimalOf(Body(NumeralText(n))) == d;
  }

  // Its integer part, towards zero, within 64 bits.
  function WholePart(n: Numeral): int {
    var m := Magnitude(n).Floor;
    var i := if n.negative then -m else m;
    if i > INT64_MAX then INT64_MAX else if i < -INT64_MAX - 1 then -INT64_MAX - 1 else i
  }

  lemma IntegerPart(n: Numeral)
    requires GoodNumeral(n)
    ensures AsInt(NumeralValue(n)) == WholePart(n)
  {
    hide DecimalOf, HasMantissaDigit, Truncated, IsInteger, Magnitude, NumeralText, Body, Negative;
    var d := Decimal(Horner(n.whole + Fraction(n), 0), Power(n) - |Fraction(n)|);
    DecimalIs(n);
    MagnitudeIs(n, d);
    MagnitudeIsNatural(n);
    assert DecimalOf(Body(NumeralText(n))) == d;
  }

  lemma MagnitudeIsNatural(n: Numeral)
    requires GoodNumeral(n)
    ensures Magnitude(n).Floor >= 0
  {
    hide Truncated;
    var d := Decimal(Horner(n.whole + Fraction(n), 0), Power(n) - |Fraction(n)|);
    DigitsConcat(n.whole, Fraction(n));
    HornerIsNatural(n.whole + Fraction(n), 0);
    MagnitudeIs(n, d);
    TruncatedIsNatural(d);
  }

  lemma TruncatedIsNatural(d: Decimal)
    requires d.digits >= 0
    ensures Truncated(d) >= 0
  {
    hide Pow10;
    if d.scale >= 0 {
      ProductIsNatural(d.digits, Pow10(d.scale));
    } else {
      QuotientIsNatural(d.digits, Pow10(-d.scale));
    }
  }

  lemma ProductIsNatural(a: nat, b: nat)
    ensures a * b >= 0
  {
  }

  lemma QuotientIsNatural(a: nat, b: nat)
    requires b > 0
    ensures a / b >= 0
  {
  }

  // ---- Every number read has such parts ----

  lemma {:induction false} RunIsDigits(s: string, i: nat)
    requires i <= |s|
    ensures AllDigits(s[i..DigitsEnd(s, i)])
    decreases |s| - i
  {
    if i < |s| && IsDigit(s[i]) {
      RunIsDigits(s, i + 1);
      assert s[i..DigitsEnd(s, i)][1..] == s[i + 1..DigitsEnd(s, i + 1)];
    }
  }

  lemma FractionParts(s: string, i: nat) returns (f: Option<string>)
    requires i <= |s|
    ensures s[i..FractionEnd(s, i)] == FractionThen(f, []) && (f.Some? ==> AllDigits(f.value))
    ensures f.Some? <==> FractionEnd(s, i) > i
  {
    f := None;
    if i < |s| && s[i] == '.' {
      RunIsDigits(s, i + 1);
      f := Some(s[i + 1..DigitsEnd(s, i + 1)]);
      assert s[i..FractionEnd(s, i)] == ['.'] + (f.value + []);
    }
  }

  lemma ExponentParts(s: string, i: nat) returns (e: Option<Exponent>)
    requires i <= |s|
    ensures s[i..ExponentEnd(s, i)] == ExponentThen(e, []) && GoodExponent(e)
  {
    hide DigitsEnd, AllDigits;
    e := None;
    if i < |s| && (s[i] == 'e' || s[i] == 'E') {
      var signed := i + 1 < |s| && (s[i + 1] == '+' || s[i + 1] == '-');
      var j := if signed then i + 2 else i + 1;
      RunIsDigits(s, j);
      e := Some(Exponent(s[i], if signed then [s[i + 1]] else "", s[j..DigitsEnd(s, j)]));
      assert s[i..ExponentEnd(s, i)] == [s[i]] + ((if signed then [s[i + 1]] else "") + (s[j..DigitsEnd(s, j)] + []));
    }
  }

  lemma NumeralParts(s: string, i: nat) returns (n: Numeral)
    requires i < |s| && (s[i] == '-' || IsDigit(s[i])) && NumberAt(s, i).Ok?
    ensures GoodNumeral(n) && s[i..NumberEnd(s, i)] == NumeralText(n)
    ensures NumberAt(s, i) == Ok(Read(NumeralValue(n), NumberEnd(s, i)))
  {
    var a := SignEnd(s, i);
    var d := DigitsEnd(s, a);
    var f := FractionEnd(s, d);
    RunIsDigits(s, a);
    var fraction := FractionParts(s, d);
    var exponent := ExponentParts(s, f);
    n := Numeral(s[i] == '-', s[a..d], fraction, exponent);
    PartsJoin(s, i, n, d, f);
    DigitInParts(s, i, n);
    NumeralReads(n);
  }

  lemma PartsJoin(s: string, i: nat, n: Numeral, d: nat, f: nat)
    requires i < |s| && n.negative == (s[i] == '-') && SignEnd(s, i) <= d <= f <= NumberEnd(s, i)
    requires n.whole == s[SignEnd(s, i)..d] && s[d..f] == FractionThen(n.fraction, [])
    requires s[f..NumberEnd(s, i)] == ExponentThen(n.exponent, [])
    ensures s[i..NumberEnd(s, i)] == NumeralText(n)
  {
    hide SignEnd, NumberEnd, ExponentThen;
    var a, e := SignEnd(s, i), NumberEnd(s, i);
    var tail := ExponentThen(n.exponent, []);
    assert s[d..e] == s[d..f] + s[f..e];
    FractionJoins(n.fraction, tail);
    assert s[a..e] == s[a..d] + s[d..e];
    SignJoins(s, i, e);
  }

  lemma FractionJoins(f: Option<string>, tail: string)
    ensures FractionThen(f, []) + tail == FractionThen(f, tail)
  {
    if f.Some? {
      assert ['.'] + (f.value + []) + tail == ['.'] + (f.value + tail);
    } else {
      assert [] + tail == tail;
    }
  }

  lemma SignJoins(s: string, i: nat, e: nat)
    requires i < |s| && SignEnd(s, i) <= e <= |s|
    ensures SignText(s[i] == '-') + s[SignEnd(s, i)..e] == s[i..e]
  {
  }

  // std::stod took it, so there is a digit.
  lemma DigitInParts(s: string, i: nat, n: Numeral)
    requires i < |s| && (s[i] == '-' || IsDigit(s[i])) && NumberAt(s, i).Ok?
    requires n.negative == (s[i] == '-') && s[i..NumberEnd(s, i)] == NumeralText(n)
    requires AllDigits(n.whole) && (n.fraction.Some? ==> AllDigits(n.fraction.value)) && GoodExponent(n.exponent)
    ensures GoodNumeral(n)
  {
    var t := NumeralText(n);
    var tail := ExponentThen(n.exponent, []);
    var body := n.whole + FractionThen(n.fraction, tail);
    if n.whole == [] {
      assert t[0] == s[i];
      SignOfAny(n.negative, body);
      assert HasMantissaDigit(body);
      assert body == FractionThen(n.fraction, tail);
      ExponentStarts(n.exponent, []);
      if n.fraction == Some("") { PointAlone(tail); }
    }
  }

  lemma PointAlone(tail: string)
    requires tail == [] || !IsDigit(tail[0])
    ensures !HasMantissaDigit(['.'] + ("" + tail))
  {
    assert "" + tail == tail;
  }

  lemma SignOfAny(negative: bool, body: string)
    requires negative || (body != [] && body[0] != '-')
    ensures Body(SignText(negative) + body) == body
  {
    var t := SignText(negative) + body;
    if negative {
      assert t[1..] == body;
    } else {
      assert t == body;
    }
  }
}
