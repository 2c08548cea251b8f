// The block cipher of the app-cert blobs (src/appcert_cipher.cpp:137-230):
// AES-256, sections 5.1 and 5.2 of FIPS 197, with an S-box of its own.
module BlockCipher {
  import opened CipherSbox
  import opened CipherField
  import opened CipherColumn

  type Block = s: seq<bv8> | |s| == 16 witness seq(16, _ => 0)
  const ZERO: Block := seq(16, _ => 0)

  type RoundKeys = s: seq<Block> | |s| == 15 witness seq(15, _ => ZERO)

  function Xor(a: bv8, b: bv8): bv8 { a ^ b }

  // ---- The four layers ----

  function AddKey(s: Block, k: Block): Block { seq(16, i requires 0 <= i < 16 => Xor(s[i], k[i])) }

  function MapBytes(f: bv8 -> bv8, s: Block): Block { seq(16, i requires 0 <= i < 16 => f(s[i])) }

  function SubBytes(s: Block): Block { MapBytes(Sub, s) }
  function InvSubBytes(s: Block): Block { MapBytes(InvSub, s) }

  // Byte i is row i % 4 of column i / 4; row r moves r columns to the left.
  function From(i: int): int { 4 * ((i / 4 + i % 4) % 4) + i % 4 }
  function InvFrom(i: int): int { 4 * ((i / 4 - i % 4) % 4) + i % 4 }

  function ShiftRows(s: Block): Block { seq(16, i requires 0 <= i < 16 => s[From(i)]) }
  function InvShiftRows(s: Block): Block { seq(16, i requires 0 <= i < 16 => s[InvFrom(i)]) }

  function By(): Products<bv8> {
    Products(a => Gmul(a, 2), a => Gmul(a, 3), a => Gmul(a, 9), a => Gmul(a, 11), a => Gmul(a, 13), a => Gmul(a, 14))
  }

  function Mix(a: Column<bv8>): Column<bv8> { MixWith(Xor, By(), a) }
  function Unmix(a: Column<bv8>): Column<bv8> { UnmixWith(Xor, By(), a) }

  function ColumnOf(s: Block, c: int): Column<bv8>
    requires 0 <= c < 4
  {
    Column(s[4 * c], s[4 * c + 1], s[4 * c + 2], s[4 * c + 3])
  }

  function Bytes(a: Column<bv8>): seq<bv8> { [a.b0, a.b1, a.b2, a.b3] }

  function OfColumns(a: Column<bv8>, b: Column<bv8>, c: Column<bv8>, d: Column<bv8>): Block {
    Bytes(a) + Bytes(b) + Bytes(c) + Bytes(d)
  }

  function MixColumns(s: Block): Block {
    OfColumns(Mix(ColumnOf(s, 0)), Mix(ColumnOf(s, 1)), Mix(ColumnOf(s, 2)), Mix(ColumnOf(s, 3)))
  }

  function InvMixColumns(s: Block): Block {
    OfColumns(Unmix(ColumnOf(s, 0)), Unmix(ColumnOf(s, 1)), Unmix(ColumnOf(s, 2)), Unmix(ColumnOf(s, 3)))
  }

  // ---- Rounds ----

  function Round(s: Block, k: Block, last: bool): Block {
    var t := ShiftRows(SubBytes(s));
    AddKey(if last then t else MixColumns(t), k)
  }

  function InvRound(s: Block, k: Block, last: bool): Block {
    var t := AddKey(s, k);
    InvSubBytes(InvShiftRows(if last then t else InvMixColumns(t)))
  }

  // The state after n rounds.
  function Rounds(s: Block, rk: RoundKeys, n: nat): Block
    requires n < |rk|
  {
    if n == 0 then AddKey(s, rk[0]) else Round(Rounds(s, rk, n - 1), rk[n], n == |rk| - 1)
  }

  function Encrypt(s: Block, rk: RoundKeys): Block { Rounds(s, rk, |rk| - 1) }

  // Undoing n rounds.
  function InvRounds(s: Block, rk: RoundKeys, n: nat): Block
    requires n < |rk|
    decreases n
  {
    if n == 0 then AddKey(s, rk[0]) else InvRounds(InvRound(s, rk[n], n == |rk| - 1), rk, n - 1)
  }

  function Decrypt(s: Block, rk: RoundKeys): Block { InvRounds(s, rk, |rk| - 1) }

  // ---- Every layer is undone ----

  lemma XorUndo(a: bv8, k: bv8)
    ensures Xor(Xor(a, k), k) == a
  {
  }

  lemma AddKeyTwice(s: Block, k: Block)
    ensures AddKey(AddKey(s, k), k) == s
  {
    forall i | 0 <= i < 16 ensures AddKey(AddKey(s, k), k)[i] == s[i] {
      XorUndo(s[i], k[i]);
    }
  }

  lemma MapUndone(f: bv8 -> bv8, g: bv8 -> bv8, s: Block)
    requires forall x :: g(f(x)) == x
    ensures MapBytes(g, MapBytes(f, s)) == s
  {
    forall i | 0 <= i < 16 ensures MapBytes(g, MapBytes(f, s))[i] == s[i] {
      assert g(f(s[i])) == s[i];
    }
  }

  lemma SubUndone(s: Block)
    ensures InvSubBytes(SubBytes(s)) == s && SubBytes(InvSubBytes(s)) == s
  {
    forall x ensures InvSub(Sub(x)) == x { SubThenInv(x); }
    forall x ensures Sub(InvSub(x)) == x { InvThenSub(x); }
    MapUndone(Sub, InvSub, s);
    MapUndone(InvSub, Sub, s);
  }

  lemma Digits(i: int, c: int, r: int)
    requires 0 <= c < 4 && 0 <= r < 4 && i == 4 * c + r
    ensures i / 4 == c && i % 4 == r
  {
  }

  lemma FromUndone(i: int)
    requires 0 <= i < 16
    ensures InvFrom(From(i)) == i && From(InvFrom(i)) == i
  {
    InvOfFrom(i / 4, i % 4);
    FromOfInv(i / 4, i % 4);
  }

  lemma InvOfFrom(c: int, r: int)
    requires 0 <= c < 4 && 0 <= r < 4
    ensures InvFrom(From(4 * c + r)) == 4 * c + r
  {
    Digits(4 * c + r, c, r);
    Digits(4 * ((c + r) % 4) + r, (c + r) % 4, r);
  }

  lemma FromOfInv(c: int, r: int)
    requires 0 <= c < 4 && 0 <= r < 4
    ensures From(InvFrom(4 * c + r)) == 4 * c + r
  {
    Digits(4 * c + r, c, r);
    Digits(4 * ((c - r) % 4) + r, (c - r) % 4, r);
  }

  lemma ShiftUndone(s: Block)
    ensures InvShiftRows(ShiftRows(s)) == s && ShiftRows(InvShiftRows(s)) == s
  {
    forall i | 0 <= i < 16 ensures InvShiftRows(ShiftRows(s))[i] == s[i] && ShiftRows(InvShiftRows(s))[i] == s[i] {
      FromUndone(i);
    }
  }

  lemma XorComm(a: bv8, b: bv8) ensures Comm(Xor, a, b) { }
  lemma XorAssociates(a: bv8, b: bv8, c: bv8) ensures Assoc(Xor, a, b, c) { }
  lemma XorUndoes(a: bv8, b: bv8) ensures Undo(Xor, a, b) { }
  lemma XtimeAdds(a: bv8, b: bv8) ensures Additive(Xor, Xtime, a, b) { XtimeLinear(a, b); }

  lemma XorLaws()
    ensures Laws(Xor, Xtime)
  {
    forall a, b ensures Comm(Xor, a, b) { XorComm(a, b); }
    forall a, b, c ensures Assoc(Xor, a, b, c) { XorAssociates(a, b, c); }
    forall a, b ensures Undo(Xor, a, b) { XorUndoes(a, b); }
    forall a, b ensures Additive(Xor, Xtime, a, b) { XtimeAdds(a, b); }
  }

  lemma ProductsOf(a: bv8)
    ensures By().by2(a) == Xtime(a) && By().by3(a) == Xor(a, Xtime(a))
    ensures By().by9(a) == Xor(a, Xtime(Xtime(Xtime(a))))
    ensures By().by11(a) == Xor(Xor(a, Xtime(a)), Xtime(Xtime(Xtime(a))))
    ensures By().by13(a) == Xor(Xor(a, Xtime(Xtime(a))), Xtime(Xtime(Xtime(a))))
    ensures By().by14(a) == Xor(Xor(Xtime(a), Xtime(Xtime(a))), Xtime(Xtime(Xtime(a))))
  {
    GmulByTwo(a);
    GmulByEight(a);
  }

  lemma GmulProducts()
    ensures AreProducts(Xor, Xtime, By())
  {
    hide By, Xtime, Xor;
    LowProducts();
    HighProducts();
  }

  lemma LowProducts()
    ensures forall a :: By().by2(a) == Xtime(a)
    ensures forall a :: By().by3(a) == Xor(a, Xtime(a))
    ensures forall a :: By().by9(a) == Xor(a, Xtime(Xtime(Xtime(a))))
  {
    forall a ensures By().by2(a) == Xtime(a) && By().by3(a) == Xor(a, Xtime(a)) { ProductsOf(a); }
    forall a ensures By().by9(a) == Xor(a, Xtime(Xtime(Xtime(a)))) { ProductsOf(a); }
  }

  lemma HighProducts()
    ensures forall a :: By().by11(a) == Xor(Xor(a, Xtime(a)), Xtime(Xtime(Xtime(a))))
    ensures forall a :: By().by13(a) == Xor(Xor(a, Xtime(Xtime(a))), Xtime(Xtime(Xtime(a))))
    ensures forall a :: By().by14(a) == Xor(Xor(Xtime(a), Xtime(Xtime(a))), Xtime(Xtime(Xtime(a))))
  {
    forall a ensures By().by11(a) == Xor(Xor(a, Xtime(a)), Xtime(Xtime(Xtime(a)))) { ProductsOf(a); }
    forall a ensures By().by13(a) == Xor(Xor(a, Xtime(Xtime(a))), Xtime(Xtime(Xtime(a)))) { ProductsOf(a); }
    forall a ensures By().by14(a) == Xor(Xor(Xtime(a), Xtime(Xtime(a))), Xtime(Xtime(Xtime(a)))) { ProductsOf(a); }
  }

  // The column mix over Gmul and its inverse undo each other.
  lemma MixUndone(a: Column<bv8>)
    ensures Unmix(Mix(a)) == a && Mix(Unmix(a)) == a
  {
    hide By, Xtime, Xor;
    XorLaws();
    GmulProducts();
    MixUnmix(Xor, Xtime, By(), a);
  }

  lemma ColumnsOf(a: Column<bv8>, b: Column<bv8>, c: Column<bv8>, d: Column<bv8>)
    ensures var s := OfColumns(a, b, c, d);
      ColumnOf(s, 0) == a && ColumnOf(s, 1) == b && ColumnOf(s, 2) == c && ColumnOf(s, 3) == d
  {
  }

  lemma OfItsColumns(s: Block)
    ensures OfColumns(ColumnOf(s, 0), ColumnOf(s, 1), ColumnOf(s, 2), ColumnOf(s, 3)) == s
  {
  }

  lemma MixColumnsUndone(s: Block)
    ensures InvMixColumns(MixColumns(s)) == s && MixColumns(InvMixColumns(s)) == s
  {
    hide Mix, Unmix, ColumnOf, OfColumns;
    var a, b, c, d := ColumnOf(s, 0), ColumnOf(s, 1), ColumnOf(s, 2), ColumnOf(s, 3);
    MixUndone(a);
    MixUndone(b);
    MixUndone(c);
    MixUndone(d);
    ColumnsOf(Mix(a), Mix(b), Mix(c), Mix(d));
    ColumnsOf(Unmix(a), Unmix(b), Unmix(c), Unmix(d));
    OfItsColumns(s);
  }

  lemma RoundUndone(s: Block, k: Block, last: bool)
    ensures InvRound(Round(s, k, last), k, last) == s
    ensures Round(InvRound(s, k, last), k, last) == s
  {
    hide Round, InvRound;
    RoundThenInv(s, k, last);
    InvThenRound(s, k, last);
  }

  lemma RoundThenInv(s: Block, k: Block, last: bool)
    ensures InvRound(Round(s, k, last), k, last) == s
  {
    hide ShiftRows, InvShiftRows, SubBytes, InvSubBytes, MixColumns, InvMixColumns, AddKey;
    var t := ShiftRows(SubBytes(s));
    AddKeyTwice(if last then t else MixColumns(t), k);
    MixColumnsUndone(t);
    ShiftUndone(SubBytes(s));
    SubUndone(s);
  }

  lemma InvThenRound(s: Block, k: Block, last: bool)
    ensures Round(InvRound(s, k, last), k, last) == s
  {
    hide ShiftRows, InvShiftRows, SubBytes, InvSubBytes, MixColumns, InvMixColumns, AddKey;
    var u := AddKey(s, k);
    var v := if last then u else InvMixColumns(u);
    AddKeyTwice(s, k);
    MixColumnsUndone(u);
    ShiftUndone(v);
    SubUndone(InvShiftRows(v));
  }

  lemma {:induction false} RoundsUndone(s: Block, rk: RoundKeys, n: nat)
    requires n < |rk|
    ensures InvRounds(Rounds(s, rk, n), rk, n) == s
    decreases n
  {
    hide Round, InvRound, AddKey;
    if n == 0 {
      AddKeyTwice(s, rk[0]);
    } else {
      RoundUndone(Rounds(s, rk, n - 1), rk[n], n == |rk| - 1);
      RoundsUndone(s, rk, n - 1);
    }
  }

  lemma {:induction false} RoundsRedone(s: Block, rk: RoundKeys, n: nat)
    requires n < |rk|
    ensures Rounds(InvRounds(s, rk, n), rk, n) == s
    decreases n
  {
    hide Round, InvRound, AddKey;
    if n == 0 {
      AddKeyTwice(s, rk[0]);
    } else {
      RoundUndone(s, rk[n], n == |rk| - 1);
      RoundsRedone(InvRound(s, rk[n], n == |rk| - 1), rk, n - 1);
    }
  }

  // For every key the cipher is a permutation of the blocks: decryption undoes
  // encryption, and encryption decryption.
  lemma CipherIsPermutation(s: Block, rk: RoundKeys)
    ensures Decrypt(Encrypt(s, rk), rk) == s
    ensures Encrypt(Decrypt(s, rk), rk) == s
  {
    hide Rounds, InvRounds;
    RoundsUndone(s, rk, |rk| - 1);
    RoundsRedone(s, rk, |rk| - 1);
  }
}
