// Encrypting a block in place (src/appcert_cipher.cpp:203-230), against the
// layers of BlockCipher.
module CipherInPlace {
  import opened CipherSbox
  import opened CipherField
  import opened CipherColumn
  import opened BlockCipher

  // ---- Encrypting one block ----

  lemma SumIsXor(a: bv8, b: bv8, c: bv8, d: bv8)
    ensures Sum(Xor, a, b, c, d) == a ^ b ^ c ^ d
  {
  }

  lemma MixSpelledOut(a: Column<bv8>)
    ensures Mix(a).b0 == Sum(Xor, Gmul(a.b0, 2), Gmul(a.b1, 3), a.b2, a.b3)
    ensures Mix(a).b1 == Sum(Xor, a.b0, Gmul(a.b1, 2), Gmul(a.b2, 3), a.b3)
    ensures Mix(a).b2 == Sum(Xor, a.b0, a.b1, Gmul(a.b2, 2), Gmul(a.b3, 3))
    ensures Mix(a).b3 == Sum(Xor, Gmul(a.b0, 3), a.b1, a.b2, Gmul(a.b3, 2))
  {
  }

  method SubInPlace(s: array<bv8>)
    requires s.Length == 16
    modifies s
    ensures s[..] == SubBytes(old(s[..]))
  {
    for i := 0 to 16
      invariant forall j :: 0 <= j < i ==> s[j] == Sub(old(s[j]))
      invariant forall j :: i <= j < 16 ==> s[j] == old(s[j])
    {
      s[i] := Sub(s[i]);
    }
  }

  method AddKeyInPlace(s: array<bv8>, k: Block)
    requires s.Length == 16
    modifies s
    ensures s[..] == AddKey(old(s[..]), k)
  {
    for i := 0 to 16
      invariant forall j :: 0 <= j < i ==> s[j] == Xor(old(s[j]), k[j])
      invariant forall j :: i <= j < 16 ==> s[j] == old(s[j])
    {
      s[i] := s[i] ^ k[i];
    }
  }

  method ShiftInPlace(s: array<bv8>)
    requires s.Length == 16
    modifies s
    ensures s[..] == ShiftRows(old(s[..]))
  {
    ghost var was := s[..];
    var t := new bv8[16];
    for r := 0 to 4
      invariant s[..] == was
      invariant forall k :: 0 <= k < 16 && k % 4 < r ==> t[k] == was[From(k)]
    {
      for c := 0 to 4
        invariant s[..] == was
        invariant forall k :: 0 <= k < 16 && k % 4 < r ==> t[k] == was[From(k)]
        invariant forall k :: 0 <= k < 16 && k % 4 == r && k / 4 < c ==> t[k] == was[From(k)]
      {
        Digits(4 * c + r, c, r);
        t[4 * c + r] := s[4 * ((c + r) % 4) + r];
      }
    }
    for i := 0 to 16
      invariant forall j :: 0 <= j < 16 ==> t[j] == was[From(j)]
      invariant forall j :: 0 <= j < i ==> s[j] == t[j]
    {
      s[i] := t[i];
    }
  }

  method MixInPlace(s: array<bv8>)
    requires s.Length == 16
    modifies s
    ensures s[..] == MixColumns(old(s[..]))
  {
    hide Mix;
    ghost var was := s[..];
    for c := 0 to 4
      invariant forall d :: 0 <= d < c ==> ColumnOf(s[..], d) == Mix(ColumnOf(was, d))
      invariant forall j :: 4 * c <= j < 16 ==> s[j] == was[j]
    {
      MixOneColumn(s, c);
    }
    OfItsColumns(s[..]);
  }

  method MixOneColumn(s: array<bv8>, c: nat)
    requires s.Length == 16 && c < 4
    modifies s
    ensures ColumnOf(s[..], c) == Mix(old(ColumnOf(s[..], c)))
    ensures forall j :: 0 <= j < 16 && !(4 * c <= j < 4 * c + 4) ==> s[j] == old(s[j])
  {
    var a0, a1, a2, a3 := s[4 * c], s[4 * c + 1], s[4 * c + 2], s[4 * c + 3];
    var m0, m1, m2, m3 := MixBytes(a0, a1, a2, a3);
    s[4 * c] := m0;
    s[4 * c + 1] := m1;
    s[4 * c + 2] := m2;
    s[4 * c + 3] := m3;
  }

  method MixBytes(a0: bv8, a1: bv8, a2: bv8, a3: bv8) returns (m0: bv8, m1: bv8, m2: bv8, m3: bv8)
    ensures Column(m0, m1, m2, m3) == Mix(Column(a0, a1, a2, a3))
  {
    var d0 := GmulLoop(a0, 2);
    var t0 := GmulLoop(a0, 3);
    var d1 := GmulLoop(a1, 2);
    var t1 := GmulLoop(a1, 3);
    var d2 := GmulLoop(a2, 2);
    var t2 := GmulLoop(a2, 3);
    var d3 := GmulLoop(a3, 2);
    var t3 := GmulLoop(a3, 3);
    m0 := d0 ^ t1 ^ a2 ^ a3;
    m1 := a0 ^ d1 ^ t2 ^ a3;
    m2 := a0 ^ a1 ^ d2 ^ t3;
    m3 := t0 ^ a1 ^ a2 ^ d3;
    SumIsXor(d0, t1, a2, a3);
    SumIsXor(a0, d1, t2, a3);
    SumIsXor(a0, a1, d2, t3);
    SumIsXor(t0, a1, a2, d3);
    MixSpelledOut(Column(a0, a1, a2, a3));
  }

  method EncryptBlock(input: Block, rk: RoundKeys) returns (out: Block)
    ensures out == Encrypt(input, rk)
  {
    var s := new bv8[16](i requires 0 <= i < 16 => input[i]);
    assert s[..] == input;
    AddKeyInPlace(s, rk[0]);
    for n := 1 to 15
      invariant s[..] == Rounds(input, rk, n - 1)
    {
      SubInPlace(s);
      ShiftInPlace(s);
      if n < 14 { MixInPlace(s); }
      AddKeyInPlace(s, rk[n]);
    }
    out := s[..];
  }
}
