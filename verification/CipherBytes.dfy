// The cipher on flat bytes (src/appcert_cipher.cpp:153-230): what every byte of
// the key schedule and of every round is made of, without words and columns.
module CipherBytes {
  import opened CipherSbox
  import opened CipherField
  import opened CipherColumn
  import opened BlockCipher
  import opened CipherInPlace
  import opened CipherSchedule

  function ByteOf(a: Column<bv8>, j: nat): bv8
    requires j < 4
  {
    if j == 0 then a.b0 else if j == 1 then a.b1 else if j == 2 then a.b2 else a.b3
  }

  lemma ColumnBytes(a: Column<bv8>, b: Column<bv8>, c: Column<bv8>, d: Column<bv8>, k: nat, j: nat)
    requires k < 4 && j < 4
    ensures OfColumns(a, b, c, d)[4 * k + j] ==
      ByteOf(if k == 0 then a else if k == 1 then b else if k == 2 then c else d, j)
  {
  }

  // ---- The schedule ----

  // Byte j of word i of a schedule.
  function WordByte(rk: RoundKeys, i: nat, j: nat): bv8
    requires i < 60 && j < 4
  {
    rk[i / 4][4 * (i % 4) + j]
  }

  lemma WordByteIs(key: Key, i: nat, j: nat)
    requires i < 60 && j < 4
    ensures WordByte(Schedule(key), i, j) == ByteOf(KeyWord(key, i), j)
  {
    hide Word, Sub, KeyColumns, OfColumns, ByteOf;
    var r := i / 4;
    assert i == 4 * r + i % 4;
    ColumnBytes(KeyWord(key, 4 * r), KeyWord(key, 4 * r + 1), KeyWord(key, 4 * r + 2), KeyWord(key, 4 * r + 3), i % 4, j);
  }

  // The first two round keys are the key, byte for byte.
  lemma KeyComesFirst(key: Key, i: nat, j: nat)
    requires i < 8 && j < 4
    ensures WordByte(Schedule(key), i, j) == key[4 * i + j]
  {
    hide Sub, Schedule, WordByte, Turned, AddWords;
    WordByteIs(key, i, j);
    FirstWord(key, i);
  }

  lemma FirstWord(key: Key, i: nat)
    requires i < 8
    ensures KeyWord(key, i) == Column(key[4 * i], key[4 * i + 1], key[4 * i + 2], key[4 * i + 3])
  {
    hide Sub, Turned, AddWords;
  }

  // What is added to the byte eight words back, from the bytes of the word
  // before: at the start of a group of eight words the substituted next byte,
  // the fourth being followed by the first, and for byte 0 the round constant
  // too; halfway through the group the substituted byte; else the byte.
  function Added(before: Column<bv8>, i: nat, j: nat): bv8
    requires 8 <= i < 60 && j < 4
  {
    if i % 8 == 0 then
      if j == 0 then Sub(before.b1) ^ RCON[i / 8 - 1]
      else if j == 1 then Sub(before.b2)
      else if j == 2 then Sub(before.b3)
      else Sub(before.b0)
    else if i % 8 == 4 then Sub(ByteOf(before, j))
    else ByteOf(before, j)
  }

  function WordBytes(rk: RoundKeys, i: nat): Column<bv8>
    requires i < 60
  {
    Column(WordByte(rk, i, 0), WordByte(rk, i, 1), WordByte(rk, i, 2), WordByte(rk, i, 3))
  }

  // Every later byte of the schedule.
  lemma LaterBytes(key: Key, i: nat, j: nat)
    requires 8 <= i < 60 && j < 4
    ensures var rk := Schedule(key);
      WordByte(rk, i, j) == WordByte(rk, i - 8, j) ^ Added(WordBytes(rk, i - 1), i, j)
  {
    hide Sub, KeyColumns, WordByte, Schedule, Added, Turned, Word;
    WordByteIs(key, i, j);
    WordByteIs(key, i - 8, j);
    WordBytesAre(key, i - 1);
    TurnedBytes(i, KeyWord(key, i - 1), j);
    NextWordByte(key, i, j);
  }

  lemma WordBytesAre(key: Key, i: nat)
    requires i < 60
    ensures WordBytes(Schedule(key), i) == KeyWord(key, i)
  {
    hide WordByte, Schedule, KeyWord;
    WordByteIs(key, i, 0);
    WordByteIs(key, i, 1);
    WordByteIs(key, i, 2);
    WordByteIs(key, i, 3);
  }

  lemma NextWordByte(key: Key, i: nat, j: nat)
    requires 8 <= i < 60 && j < 4
    ensures ByteOf(KeyWord(key, i), j) ==
      ByteOf(KeyWord(key, i - 8), j) ^ ByteOf(Turned(Xor, Sub, RCON, i, KeyWord(key, i - 1)), j)
  {
    hide Sub, Turned, KeyColumns;
    SumByte(KeyWord(key, i - 8), Turned(Xor, Sub, RCON, i, KeyWord(key, i - 1)), j);
  }

  lemma SumByte(a: Column<bv8>, b: Column<bv8>, j: nat)
    requires j < 4
    ensures ByteOf(AddWords(Xor, a, b), j) == ByteOf(a, j) ^ ByteOf(b, j)
  {
  }

  lemma TurnedBytes(i: nat, t: Column<bv8>, j: nat)
    requires 8 <= i < 60 && j < 4
    ensures ByteOf(Turned(Xor, Sub, RCON, i, t), j) == Added(t, i, j)
  {
    hide Sub;
  }

  // ---- The rounds ----

  // Twice and three times a byte in the field of section 4.2 of FIPS 197.
  function Doubled(a: bv8): bv8 { (a << 1) ^ (if a & 0x80 != 0 then 0x1B else 0) }
  function Tripled(a: bv8): bv8 { Doubled(a) ^ a }

  lemma SmallProducts(a: bv8)
    ensures Gmul(a, 2) == Doubled(a) && Gmul(a, 3) == Tripled(a)
  {
    GmulByTwo(a);
    XtimeReduces(a);
    XorCommutes(a, Xtime(a));
    hide Gmul, Xtime;
  }

  lemma XorCommutes(a: bv8, b: bv8)
    ensures a ^ b == b ^ a
  {
  }

  function Sum4(a: bv8, b: bv8, c: bv8, d: bv8): bv8 { a ^ b ^ c ^ d }

  // Row r of a mixed column.
  function RowOfMix(a: Column<bv8>, r: nat): bv8
    requires r < 4
  {
    if r == 0 then Sum4(Doubled(a.b0), Tripled(a.b1), a.b2, a.b3)
    else if r == 1 then Sum4(a.b0, Doubled(a.b1), Tripled(a.b2), a.b3)
    else if r == 2 then Sum4(a.b0, a.b1, Doubled(a.b2), Tripled(a.b3))
    else Sum4(Tripled(a.b0), a.b1, a.b2, Doubled(a.b3))
  }

  // What a round adds its key to, at row r of column c: the substituted bytes
  // of the four rows, row k taken from column c + k; mixed but in the last
  // round.
  function Turning(s: Block, c: nat, r: nat, last: bool): bv8
    requires c < 4 && r < 4
  {
    var a := Column(Sub(s[4 * c]), Sub(s[4 * ((c + 1) % 4) + 1]), Sub(s[4 * ((c + 2) % 4) + 2]), Sub(s[4 * ((c + 3) % 4) + 3]));
    if last then ByteOf(a, r) else RowOfMix(a, r)
  }

  lemma SumIsSum4(a: bv8, b: bv8, c: bv8, d: bv8)
    ensures Sum(Xor, a, b, c, d) == Sum4(a, b, c, d)
  {
  }

  lemma MixRows(a: Column<bv8>, r: nat)
    requires r < 4
    ensures ByteOf(Mix(a), r) == RowOfMix(a, r)
  {
    hide Mix, Doubled, Tripled, Gmul, Sum, Sum4;
    MixSpelledOut(a);
    SmallProducts(a.b0);
    SmallProducts(a.b1);
    SmallProducts(a.b2);
    SmallProducts(a.b3);
    SumIsSum4(Doubled(a.b0), Tripled(a.b1), a.b2, a.b3);
    SumIsSum4(a.b0, Doubled(a.b1), Tripled(a.b2), a.b3);
    SumIsSum4(a.b0, a.b1, Doubled(a.b2), Tripled(a.b3));
    SumIsSum4(Tripled(a.b0), a.b1, a.b2, Doubled(a.b3));
  }

  lemma ShiftedColumn(s: Block, c: nat)
    requires c < 4
    ensures ColumnOf(ShiftRows(SubBytes(s)), c) ==
      Column(Sub(s[4 * c]), Sub(s[4 * ((c + 1) % 4) + 1]), Sub(s[4 * ((c + 2) % 4) + 2]), Sub(s[4 * ((c + 3) % 4) + 3]))
  {
    hide Sub;
    Digits(4 * c, c, 0);
    Digits(4 * c + 1, c, 1);
    Digits(4 * c + 2, c, 2);
    Digits(4 * c + 3, c, 3);
  }

  lemma MixedBytes(t: Block, c: nat, r: nat)
    requires c < 4 && r < 4
    ensures MixColumns(t)[4 * c + r] == RowOfMix(ColumnOf(t, c), r)
  {
    hide RowOfMix, Mix, OfColumns, ColumnOf, ByteOf;
    ColumnBytes(Mix(ColumnOf(t, 0)), Mix(ColumnOf(t, 1)), Mix(ColumnOf(t, 2)), Mix(ColumnOf(t, 3)), c, r);
    MixRows(ColumnOf(t, c), r);
  }

  lemma KeyAdded(x: Block, k: Block, p: nat)
    requires p < 16
    ensures AddKey(x, k)[p] == x[p] ^ k[p]
  {
  }

  lemma PlainBytes(t: Block, c: nat, r: nat)
    requires c < 4 && r < 4
    ensures t[4 * c + r] == ByteOf(ColumnOf(t, c), r)
  {
  }

  lemma RoundBytes(s: Block, k: Block, last: bool, c: nat, r: nat)
    requires c < 4 && r < 4
    ensures Round(s, k, last)[4 * c + r] == Turning(s, c, r, last) ^ k[4 * c + r]
  {
    hide Sub, RowOfMix, ShiftRows, SubBytes, MixColumns, OfColumns, AddKey, ColumnOf, ByteOf;
    var t := ShiftRows(SubBytes(s));
    ShiftedColumn(s, c);
    if last { PlainBytes(t, c, r); } else { MixedBytes(t, c, r); }
    KeyAdded(if last then t else MixColumns(t), k, 4 * c + r);
  }

  predicate OneRound(before: Block, after: Block, key: Block, last: bool) {
    forall p :: 0 <= p < 16 ==> after[p] == Turning(before, p / 4, p % 4, last) ^ key[p]
  }

  // A block is encrypted in fourteen such rounds, the last one without the mix.
  lemma EncryptedInRounds(input: Block, rk: RoundKeys) returns (states: seq<Block>)
    ensures |states| == 15 && states[14] == Encrypt(input, rk)
    ensures forall p :: 0 <= p < 16 ==> states[0][p] == input[p] ^ rk[0][p]
    ensures forall n :: 0 <= n < 14 ==> OneRound(states[n], states[n + 1], rk[n + 1], n == 13)
  {
    hide Round, Turning;
    states := seq(15, n requires 0 <= n < 15 => Rounds(input, rk, n));
    forall n | 0 <= n < 14 ensures OneRound(states[n], states[n + 1], rk[n + 1], n == 13) {
      forall p | 0 <= p < 16 ensures states[n + 1][p] == Turning(states[n], p / 4, p % 4, n == 13) ^ rk[n + 1][p] {
        RoundBytes(states[n], rk[n + 1], n == 13, p / 4, p % 4);
      }
    }
  }
}
