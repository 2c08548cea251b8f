// Multiplication of bytes (src/appcert_cipher.cpp:153-167), that of section
// 4.2 of FIPS 197.
module CipherField {

  // Multiplication by x: shift, and reduce by 0x1B when a bit falls out.
  function Xtime(a: bv8): bv8 {
    (a << 1) ^ ((a >> 7) ^ ((a >> 7) << 1) ^ ((a >> 7) << 3) ^ ((a >> 7) << 4))
  }

  lemma XtimeReduces(a: bv8)
    ensures Xtime(a) == (a << 1) ^ (if a & 0x80 != 0 then 0x1B else 0)
  {
    if a & 0x80 != 0 {
      assert a >> 7 == 1;
    } else {
      assert a >> 7 == 0;
    }
  }

  method XtimeByte(a: bv8) returns (r: bv8)
    ensures r == Xtime(a)
  {
    XtimeReduces(a);
    r := (a << 1) ^ (if a & 0x80 != 0 then 0x1B else 0);
  }

  // a when the lowest bit of b is set, 0 when it is not.
  function Keep(a: bv8, b: bv8): bv8 {
    var t := b & 1;
    var t2 := t | (t << 1);
    var t4 := t2 | (t2 << 2);
    a & (t4 | (t4 << 4))
  }

  lemma KeepMeans(a: bv8, b: bv8)
    ensures Keep(a, b) == if b & 1 != 0 then a else 0
  {
    if b & 1 != 0 {
      assert b & 1 == 1;
    } else {
      assert b & 1 == 0;
    }
  }

  function Gmul(a: bv8, b: bv8): bv8
    decreases b
  {
    if b == 0 then 0 else Keep(a, b) ^ Gmul(Xtime(a), b >> 1)
  }

  method GmulLoop(x: bv8, y: bv8) returns (r: bv8)
    ensures r == Gmul(x, y)
  {
    hide Xtime;
    var a, b := x, y;
    r := 0;
    while b != 0
      invariant r ^ Gmul(a, b) == Gmul(x, y)
      decreases b
    {
      KeepMeans(a, b);
      XorAssoc(r, Keep(a, b), Gmul(Xtime(a), b >> 1));
      if b & 1 != 0 { r := r ^ a; }
      a := XtimeByte(a);
      b := b >> 1;
    }
  }

  lemma XorAssoc(a: bv8, b: bv8, c: bv8)
    ensures a ^ (b ^ c) == (a ^ b) ^ c && a ^ (0 ^ c) == a ^ c
  {
  }

  lemma XtimeLinear(a: bv8, b: bv8)
    ensures Xtime(a ^ b) == Xtime(a) ^ Xtime(b)
  {
  }

  lemma KeepLinear(a: bv8, c: bv8, b: bv8, d: bv8)
    ensures Keep(a ^ c, b) == Keep(a, b) ^ Keep(c, b)
    ensures Keep(a, b ^ d) == Keep(a, b) ^ Keep(a, d)
    ensures Xtime(Keep(a, b)) == Keep(Xtime(a), b)
  {
  }

  lemma GmulUnfold(a: bv8, b: bv8)
    ensures Gmul(a, b) == Keep(a, b) ^ Gmul(Xtime(a), b >> 1)
  {
  }

  // Multiplying a factor by x multiplies the product by x.
  lemma {:induction false} GmulXtime(a: bv8, b: bv8)
    ensures Gmul(Xtime(a), b) == Xtime(Gmul(a, b))
    decreases b
  {
    if b != 0 {
      GmulUnfold(a, b);
      GmulUnfold(Xtime(a), b);
      GmulXtime(Xtime(a), b >> 1);
      KeepLinear(a, a, b, b);
      XtimeLinear(Keep(a, b), Gmul(Xtime(a), b >> 1));
    }
  }

  lemma GmulByOne(a: bv8)
    ensures Gmul(a, 1) == a
  {
    GmulUnfold(a, 1);
  }

  lemma GmulByTwo(a: bv8)
    ensures Gmul(a, 2) == Xtime(a) && Gmul(a, 3) == a ^ Xtime(a)
  {
    GmulByOne(Xtime(a));
    GmulUnfold(a, 2);
    GmulUnfold(a, 3);
  }

  lemma GmulByFour(a: bv8)
    ensures Gmul(a, 4) == Xtime(Xtime(a)) && Gmul(a, 5) == a ^ Xtime(Xtime(a))
    ensures Gmul(a, 6) == Xtime(a) ^ Xtime(Xtime(a)) && Gmul(a, 7) == a ^ Xtime(a) ^ Xtime(Xtime(a))
  {
    GmulByTwo(Xtime(a));
    GmulUnfold(a, 4);
    GmulUnfold(a, 5);
    GmulUnfold(a, 6);
    GmulUnfold(a, 7);
  }

  lemma GmulByEight(a: bv8)
    ensures var x := Xtime(a); var y := Xtime(x); var z := Xtime(y);
      Gmul(a, 9) == a ^ z && Gmul(a, 11) == a ^ x ^ z && Gmul(a, 13) == a ^ y ^ z && Gmul(a, 14) == x ^ y ^ z
  {
    GmulByFour(Xtime(a));
    GmulUnfold(a, 9);
    GmulUnfold(a, 11);
    GmulUnfold(a, 13);
    GmulUnfold(a, 14);
  }
}
