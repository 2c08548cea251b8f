// A known answer (tests/appcert_test.cpp:99-113): with the key 00 01 .. 1f and
// that nonce the first block of the key stream is c6bf1cc1 b40dcc16 443034d6
// dabe7b81. The schedule and the fourteen rounds, evaluated.
module CipherKnownAnswer {
  import opened Text
  import opened CipherSbox
  import opened CipherField
  import opened CipherColumn
  import opened BlockCipher
  import opened CipherSchedule
  import opened CipherBytes
  import opened KeyBlob

  const KEY: Key := [
    0x00, 0x01, 0x02, 0x03, 0x04, 0x05, 0x06, 0x07, 0x08, 0x09, 0x0A, 0x0B, 0x0C, 0x0D, 0x0E, 0x0F,
    0x10, 0x11, 0x12, 0x13, 0x14, 0x15, 0x16, 0x17, 0x18, 0x19, 0x1A, 0x1B, 0x1C, 0x1D, 0x1E, 0x1F]

  const KNOWN_NONCE: seq<byte> := [0x30, 0x3C, 0x8F, 0x52, 0x2A, 0x17, 0x1B, 0x9A, 0x40, 0xDC, 0x89, 0x01]

  // ---- The schedule ----

  lemma NextWordIs(key: Key, i: nat)
    requires 8 <= i < 60
    ensures KeyWord(key, i) == AddWords(Xor, KeyWord(key, i - 8), Turned(Xor, Sub, RCON, i, KeyWord(key, i - 1)))
  {
    hide Sub, Turned, KeyColumns;
  }

  lemma PlainWordIs(key: Key, i: nat)
    requires 8 <= i < 60 && i % 4 != 0
    ensures KeyWord(key, i) == AddWords(Xor, KeyWord(key, i - 8), KeyWord(key, i - 1))
  {
    hide Sub, AddWords, KeyWord;
    NextWordIs(key, i);
  }

  lemma SubstitutedWordIs(key: Key, i: nat)
    requires 8 <= i < 60 && i % 8 == 4
    ensures KeyWord(key, i) == AddWords(Xor, KeyWord(key, i - 8), SubWord(Sub, KeyWord(key, i - 1)))
  {
    hide Sub, AddWords, KeyWord, SubWord;
    NextWordIs(key, i);
  }

  // Eight words of the schedule.
  ghost predicate WordsAre(from: nat, a: Column<bv8>, b: Column<bv8>, c: Column<bv8>, d: Column<bv8>,
                           e: Column<bv8>, f: Column<bv8>, g: Column<bv8>, h: Column<bv8>)
    requires from + 8 <= 60
  {
    KeyWord(KEY, from) == a && KeyWord(KEY, from + 1) == b && KeyWord(KEY, from + 2) == c && KeyWord(KEY, from + 3) == d &&
    KeyWord(KEY, from + 4) == e && KeyWord(KEY, from + 5) == f && KeyWord(KEY, from + 6) == g && KeyWord(KEY, from + 7) == h
  }

  lemma FirstWordIs(i: nat, a: bv8, b: bv8, c: bv8, d: bv8)
    requires i < 8 && KEY[4 * i] == a && KEY[4 * i + 1] == b && KEY[4 * i + 2] == c && KEY[4 * i + 3] == d
    ensures KeyWord(KEY, i) == Column(a, b, c, d)
  {
    hide KeyWord;
    FirstWord(KEY, i);
  }

  lemma FirstWord0()
    ensures KeyWord(KEY, 0) == Column(0x00, 0x01, 0x02, 0x03)
  {
    FirstWordIs(0, 0x00, 0x01, 0x02, 0x03);
    hide *;
  }

  lemma FirstWord1()
    ensures KeyWord(KEY, 1) == Column(0x04, 0x05, 0x06, 0x07)
  {
    FirstWordIs(1, 0x04, 0x05, 0x06, 0x07);
    hide *;
  }

  lemma FirstWord2()
    ensures KeyWord(KEY, 2) == Column(0x08, 0x09, 0x0A, 0x0B)
  {
    FirstWordIs(2, 0x08, 0x09, 0x0A, 0x0B);
    hide *;
  }

  lemma FirstWord3()
    ensures KeyWord(KEY, 3) == Column(0x0C, 0x0D, 0x0E, 0x0F)
  {
    FirstWordIs(3, 0x0C, 0x0D, 0x0E, 0x0F);
    hide *;
  }

  lemma FirstWord4()
    ensures KeyWord(KEY, 4) == Column(0x10, 0x11, 0x12, 0x13)
  {
    FirstWordIs(4, 0x10, 0x11, 0x12, 0x13);
    hide *;
  }

  lemma FirstWord5()
    ensures KeyWord(KEY, 5) == Column(0x14, 0x15, 0x16, 0x17)
  {
    FirstWordIs(5, 0x14, 0x15, 0x16, 0x17);
    hide *;
  }

  lemma FirstWord6()
    ensures KeyWord(KEY, 6) == Column(0x18, 0x19, 0x1A, 0x1B)
  {
    FirstWordIs(6, 0x18, 0x19, 0x1A, 0x1B);
    hide *;
  }

  lemma FirstWord7()
    ensures KeyWord(KEY, 7) == Column(0x1C, 0x1D, 0x1E, 0x1F)
  {
    FirstWordIs(7, 0x1C, 0x1D, 0x1E, 0x1F);
    hide *;
  }

  lemma Words0()
    ensures WordsAre(0,
      Column(0x00, 0x01, 0x02, 0x03), Column(0x04, 0x05, 0x06, 0x07), Column(0x08, 0x09, 0x0A, 0x0B), Column(0x0C, 0x0D, 0x0E, 0x0F),
      Column(0x10, 0x11, 0x12, 0x13), Column(0x14, 0x15, 0x16, 0x17), Column(0x18, 0x19, 0x1A, 0x1B), Column(0x1C, 0x1D, 0x1E, 0x1F))
  {
    hide KeyWord;
    FirstWord0();
    FirstWord1();
    FirstWord2();
    FirstWord3();
    FirstWord4();
    FirstWord5();
    FirstWord6();
    FirstWord7();
  }

  // The next words, one by one.
  lemma NextWords(from: nat, a: Column<bv8>, b: Column<bv8>, c: Column<bv8>, d: Column<bv8>,
                  e: Column<bv8>, f: Column<bv8>, g: Column<bv8>, h: Column<bv8>)
    requires from % 8 == 0 && from + 16 <= 60 && WordsAre(from, a, b, c, d, e, f, g, h)
    ensures var p := AddWords(Xor, a, Turned(Xor, Sub, RCON, from + 8, h));
      var q := AddWords(Xor, b, p);
      var r := AddWords(Xor, c, q);
      var s := AddWords(Xor, d, r);
      var t := AddWords(Xor, e, SubWord(Sub, s));
      var u := AddWords(Xor, f, t);
      var v := AddWords(Xor, g, u);
      WordsAre(from + 8, p, q, r, s, t, u, v, AddWords(Xor, h, v))
  {
    hide Sub, AddWords, KeyWord, SubWord, Turned;
    NextWordIs(KEY, from + 8);
    SubstitutedWordIs(KEY, from + 12);
    PlainWordIs(KEY, from + 9);
    PlainWordIs(KEY, from + 10);
    PlainWordIs(KEY, from + 11);
    PlainWordIs(KEY, from + 13);
    PlainWordIs(KEY, from + 14);
    PlainWordIs(KEY, from + 15);
  }

  lemma Words1()
    ensures WordsAre(8,
      Column(0x8A, 0x29, 0x4B, 0x73), Column(0x8E, 0x2C, 0x4D, 0x74), Column(0x86, 0x25, 0x47, 0x7F), Column(0x8A, 0x28, 0x49, 0x70),
      Column(0x67, 0x1B, 0x8B, 0x8D), Column(0x73, 0x0E, 0x9D, 0x9A), Column(0x6B, 0x17, 0x87, 0x81), Column(0x77, 0x0A, 0x99, 0x9E))
  {
    hide KeyWord;
    Words0();
    NextWords(0,
      Column(0x00, 0x01, 0x02, 0x03), Column(0x04, 0x05, 0x06, 0x07), Column(0x08, 0x09, 0x0A, 0x0B), Column(0x0C, 0x0D, 0x0E, 0x0F),
      Column(0x10, 0x11, 0x12, 0x13), Column(0x14, 0x15, 0x16, 0x17), Column(0x18, 0x19, 0x1A, 0x1B), Column(0x1C, 0x1D, 0x1E, 0x1F));
  }

  lemma Words2()
    ensures WordsAre(16,
      Column(0xBE, 0x50, 0xF2, 0xAF), Column(0x30, 0x7C, 0xBF, 0xDB), Column(0xB6, 0x59, 0xF8, 0xA4), Column(0x3C, 0x71, 0xB1, 0xD4),
      Column(0xEB, 0xEA, 0xE6, 0x3C), Column(0x98, 0xE4, 0x7B, 0xA6), Column(0xF3, 0xF3, 0xFC, 0x27), Column(0x84, 0xF9, 0x65, 0xB9))
  {
    hide KeyWord;
    Words1();
    NextWords(8,
      Column(0x8A, 0x29, 0x4B, 0x73), Column(0x8E, 0x2C, 0x4D, 0x74), Column(0x86, 0x25, 0x47, 0x7F), Column(0x8A, 0x28, 0x49, 0x70),
      Column(0x67, 0x1B, 0x8B, 0x8D), Column(0x73, 0x0E, 0x9D, 0x9A), Column(0x6B, 0x17, 0x87, 0x81), Column(0x77, 0x0A, 0x99, 0x9E));
  }

  lemma Words3()
    ensures WordsAre(24,
      Column(0x86, 0x25, 0xF4, 0x72), Column(0xB6, 0x59, 0x4B, 0xA9), Column(0x00, 0x00, 0xB3, 0x0D), Column(0x3C, 0x71, 0x02, 0xD9),
      Column(0x67, 0x1B, 0xAB, 0x64), Column(0xFF, 0xFF, 0xD0, 0xC2), Column(0x0C, 0x0C, 0x2C, 0xE5), Column(0x88, 0xF5, 0x49, 0x5C))
  {
    hide KeyWord;
    Words2();
    NextWords(16,
      Column(0xBE, 0x50, 0xF2, 0xAF), Column(0x30, 0x7C, 0xBF, 0xDB), Column(0xB6, 0x59, 0xF8, 0xA4), Column(0x3C, 0x71, 0xB1, 0xD4),
      Column(0xEB, 0xEA, 0xE6, 0x3C), Column(0x98, 0xE4, 0x7B, 0xA6), Column(0xF3, 0xF3, 0xFC, 0x27), Column(0x84, 0xF9, 0x65, 0xB9));
  }

  lemma Words4()
    ensures WordsAre(32,
      Column(0x4A, 0xBC, 0xE1, 0x03), Column(0xFC, 0xE5, 0xAA, 0xAA), Column(0xFC, 0xE5, 0x19, 0xA7), Column(0xC0, 0x94, 0x1B, 0x7E),
      Column(0x33, 0x92, 0x86, 0x6C), Column(0xCC, 0x6D, 0x56, 0xAE), Column(0xC0, 0x61, 0x7A, 0x4B), Column(0x48, 0x94, 0x33, 0x17))
  {
    hide KeyWord;
    Words3();
    NextWords(24,
      Column(0x86, 0x25, 0xF4, 0x72), Column(0xB6, 0x59, 0x4B, 0xA9), Column(0x00, 0x00, 0xB3, 0x0D), Column(0x3C, 0x71, 0x02, 0xD9),
      Column(0x67, 0x1B, 0xAB, 0x64), Column(0xFF, 0xFF, 0xD0, 0xC2), Column(0x0C, 0x0C, 0x2C, 0xE5), Column(0x88, 0xF5, 0x49, 0x5C));
  }

  lemma Words5()
    ensures WordsAre(40,
      Column(0xD3, 0xAA, 0x09, 0x00), Column(0x2F, 0x4F, 0xA3, 0xAA), Column(0xD3, 0xAA, 0xBA, 0x0D), Column(0x13, 0x3E, 0xA1, 0x73),
      Column(0x57, 0x35, 0x47, 0x89), Column(0x9B, 0x58, 0x11, 0x27), Column(0x5B, 0x39, 0x6B, 0x6C), Column(0x13, 0xAD, 0x58, 0x7B))
  {
    hide KeyWord;
    Words4();
    NextWords(32,
      Column(0x4A, 0xBC, 0xE1, 0x03), Column(0xFC, 0xE5, 0xAA, 0xAA), Column(0xFC, 0xE5, 0x19, 0xA7), Column(0xC0, 0x94, 0x1B, 0x7E),
      Column(0x33, 0x92, 0x86, 0x6C), Column(0xCC, 0x6D, 0x56, 0xAE), Column(0xC0, 0x61, 0x7A, 0x4B), Column(0x48, 0x94, 0x33, 0x17));
  }

  lemma Words6()
    ensures WordsAre(48,
      Column(0xA6, 0xBB, 0x29, 0x64), Column(0x89, 0xF4, 0x8A, 0xCE), Column(0x5A, 0x5E, 0x30, 0xC3), Column(0x49, 0x60, 0x91, 0xB0),
      Column(0xCE, 0xBD, 0x97, 0xFF), Column(0x55, 0xE5, 0x86, 0xD8), Column(0x0E, 0xDC, 0xED, 0xB4), Column(0x1D, 0x71, 0xB5, 0xCF))
  {
    hide KeyWord;
    Words5();
    NextWords(40,
      Column(0xD3, 0xAA, 0x09, 0x00), Column(0x2F, 0x4F, 0xA3, 0xAA), Column(0xD3, 0xAA, 0xBA, 0x0D), Column(0x13, 0x3E, 0xA1, 0x73),
      Column(0x57, 0x35, 0x47, 0x89), Column(0x9B, 0x58, 0x11, 0x27), Column(0x5B, 0x39, 0x6B, 0x6C), Column(0x13, 0xAD, 0x58, 0x7B));
  }

  lemma Words7()
    ensures KeyWord(KEY, 56) == Column(0x17, 0xE1, 0xDD, 0xEF) && KeyWord(KEY, 57) == Column(0x9E, 0x15, 0x57, 0x21)
    ensures KeyWord(KEY, 58) == Column(0xC4, 0x4B, 0x67, 0xE2) && KeyWord(KEY, 59) == Column(0x8D, 0x2B, 0xF6, 0x52)
  {
    hide KeyWord;
    Words6();
    NextWordIs(KEY, 56);
    PlainWordIs(KEY, 57);
    PlainWordIs(KEY, 58);
    PlainWordIs(KEY, 59);
  }

  // ---- The rounds ----

  // A column of the state after a round, from the four columns it comes from.
  function RoundColumn(a: Column<bv8>, b: Column<bv8>, c: Column<bv8>, d: Column<bv8>, k: Column<bv8>, last: bool): Column<bv8> {
    var t := Column(Sub(a.b0), Sub(b.b1), Sub(c.b2), Sub(d.b3));
    var m := if last then t else Column(RowOfMix(t, 0), RowOfMix(t, 1), RowOfMix(t, 2), RowOfMix(t, 3));
    Column(m.b0 ^ k.b0, m.b1 ^ k.b1, m.b2 ^ k.b2, m.b3 ^ k.b3)
  }

  lemma RoundInColumns(s: Block, key: Block, last: bool, c: nat, c1: nat, c2: nat, c3: nat)
    requires c < 4 && c1 == (c + 1) % 4 && c2 == (c + 2) % 4 && c3 == (c + 3) % 4
    ensures ColumnOf(Round(s, key, last), c) ==
      RoundColumn(ColumnOf(s, c), ColumnOf(s, c1), ColumnOf(s, c2), ColumnOf(s, c3), ColumnOf(key, c), last)
  {
    hide Sub, RowOfMix, Round;
    RoundBytes(s, key, last, c, 0);
    RoundBytes(s, key, last, c, 1);
    RoundBytes(s, key, last, c, 2);
    RoundBytes(s, key, last, c, 3);
  }

  // The state after n rounds is these columns.
  ghost predicate StateIs(n: nat, a: Column<bv8>, b: Column<bv8>, c: Column<bv8>, d: Column<bv8>)
    requires n < 15
  {
    var s := Rounds(CounterBlock(KNOWN_NONCE, Counter(0)), Schedule(KEY), n);
    ColumnOf(s, 0) == a && ColumnOf(s, 1) == b && ColumnOf(s, 2) == c && ColumnOf(s, 3) == d
  }

  lemma RoundKeyIs(r: nat, c: nat)
    requires r < 15 && c < 4
    ensures ColumnOf(Schedule(KEY)[r], c) == KeyWord(KEY, 4 * r + c)
  {
    hide KeyWord, Schedule;
    WordByteIs(KEY, 4 * r + c, 0);
    WordByteIs(KEY, 4 * r + c, 1);
    WordByteIs(KEY, 4 * r + c, 2);
    WordByteIs(KEY, 4 * r + c, 3);
  }

  lemma NextState(n: nat, a: Column<bv8>, b: Column<bv8>, c: Column<bv8>, d: Column<bv8>,
                  k: Column<bv8>, l: Column<bv8>, m: Column<bv8>, o: Column<bv8>, last: bool)
    requires 0 < n < 15 && StateIs(n - 1, a, b, c, d) && last == (n == 14)
    requires KeyWord(KEY, 4 * n) == k && KeyWord(KEY, 4 * n + 1) == l && KeyWord(KEY, 4 * n + 2) == m && KeyWord(KEY, 4 * n + 3) == o
    ensures StateIs(n, RoundColumn(a, b, c, d, k, last), RoundColumn(b, c, d, a, l, last),
                    RoundColumn(c, d, a, b, m, last), RoundColumn(d, a, b, c, o, last))
  {
    hide RoundColumn, KeyWord, Schedule, CounterBlock, Round, ColumnOf;
    var rk := Schedule(KEY);
    var s := Rounds(CounterBlock(KNOWN_NONCE, Counter(0)), rk, n - 1);
    RoundInColumns(s, rk[n], last, 0, 1, 2, 3);
    RoundInColumns(s, rk[n], last, 1, 2, 3, 0);
    RoundInColumns(s, rk[n], last, 2, 3, 0, 1);
    RoundInColumns(s, rk[n], last, 3, 0, 1, 2);
    RoundKeyIs(n, 0);
    RoundKeyIs(n, 1);
    RoundKeyIs(n, 2);
    RoundKeyIs(n, 3);
  }

  lemma FirstBlockIs()
    ensures var s := CounterBlock(KNOWN_NONCE, Counter(0));
      ColumnOf(s, 0) == Column(0x30, 0x3C, 0x8F, 0x52) && ColumnOf(s, 1) == Column(0x2A, 0x17, 0x1B, 0x9A) &&
      ColumnOf(s, 2) == Column(0x40, 0xDC, 0x89, 0x01) && ColumnOf(s, 3) == Column(0x00, 0x00, 0x00, 0x02)
  {
    hide CounterBlock, Bits, Value;
    FirstCounterBlock(KNOWN_NONCE);
    NonceBits();
  }

  lemma NonceBits()
    ensures var n := KNOWN_NONCE;
      Bits(n[0]) == 0x30 && Bits(n[1]) == 0x3C && Bits(n[2]) == 0x8F && Bits(n[3]) == 0x52 &&
      Bits(n[4]) == 0x2A && Bits(n[5]) == 0x17 && Bits(n[6]) == 0x1B && Bits(n[7]) == 0x9A &&
      Bits(n[8]) == 0x40 && Bits(n[9]) == 0xDC && Bits(n[10]) == 0x89 && Bits(n[11]) == 0x01
  {
    hide Bits;
    BitsOfValue(0x30); BitsOfValue(0x3C); BitsOfValue(0x8F); BitsOfValue(0x52);
    BitsOfValue(0x2A); BitsOfValue(0x17); BitsOfValue(0x1B); BitsOfValue(0x9A);
    BitsOfValue(0x40); BitsOfValue(0xDC); BitsOfValue(0x89); BitsOfValue(0x01);
  }

  lemma AddKeyColumn(s: Block, k: Block, c: nat)
    requires c < 4
    ensures ColumnOf(AddKey(s, k), c) == AddWords(Xor, ColumnOf(s, c), ColumnOf(k, c))
  {
  }

  lemma State0()
    ensures StateIs(0,
      Column(0x30, 0x3D, 0x8D, 0x51), Column(0x2E, 0x12, 0x1D, 0x9D), Column(0x48, 0xD5, 0x83, 0x0A), Column(0x0C, 0x0D, 0x0E, 0x0D))
  {
    hide KeyWord, Schedule, CounterBlock, AddKey, ColumnOf;
    FirstBlockIs();
    Words0();
    var s, k := CounterBlock(KNOWN_NONCE, Counter(0)), Schedule(KEY)[0];
    RoundKeyIs(0, 0);
    AddKeyColumn(s, k, 0);
    RoundKeyIs(0, 1);
    AddKeyColumn(s, k, 1);
    RoundKeyIs(0, 2);
    AddKeyColumn(s, k, 2);
    RoundKeyIs(0, 3);
    AddKeyColumn(s, k, 3);
  }

  lemma State1()
    ensures StateIs(1,
      Column(0x06, 0xB6, 0xDE, 0x2D), Column(0x99, 0xE7, 0xDF, 0x18), Column(0x07, 0xF5, 0xB3, 0xF9), Column(0xBF, 0xD9, 0xEC, 0x92))
  {
    hide KeyWord, StateIs;
    State0();
    Words0();
    NextState(1, Column(0x30, 0x3D, 0x8D, 0x51), Column(0x2E, 0x12, 0x1D, 0x9D), Column(0x48, 0xD5, 0x83, 0x0A), Column(0x0C, 0x0D, 0x0E, 0x0D),
              Column(0x10, 0x11, 0x12, 0x13), Column(0x14, 0x15, 0x16, 0x17), Column(0x18, 0x19, 0x1A, 0x1B), Column(0x1C, 0x1D, 0x1E, 0x1F), false);
  }

  lemma State2()
    ensures StateIs(2,
      Column(0x12, 0xF9, 0x38, 0xAD), Column(0x50, 0xAC, 0xF8, 0x59), Column(0x47, 0xBC, 0x62, 0x48), Column(0x05, 0x37, 0x30, 0x59))
  {
    hide KeyWord, StateIs;
    State1();
    Words1();
    NextState(2, Column(0x06, 0xB6, 0xDE, 0x2D), Column(0x99, 0xE7, 0xDF, 0x18), Column(0x07, 0xF5, 0xB3, 0xF9), Column(0xBF, 0xD9, 0xEC, 0x92),
              Column(0x8A, 0x29, 0x4B, 0x73), Column(0x8E, 0x2C, 0x4D, 0x74), Column(0x86, 0x25, 0x47, 0x7F), Column(0x8A, 0x28, 0x49, 0x70), false);
  }

  lemma State3()
    ensures StateIs(3,
      Column(0xAF, 0x0B, 0x0B, 0xF0), Column(0xA3, 0x3B, 0x1A, 0x1C), Column(0x10, 0xDD, 0xC0, 0x01), Column(0x15, 0xD8, 0x1D, 0x14))
  {
    hide KeyWord, StateIs;
    State2();
    Words1();
    NextState(3, Column(0x12, 0xF9, 0x38, 0xAD), Column(0x50, 0xAC, 0xF8, 0x59), Column(0x47, 0xBC, 0x62, 0x48), Column(0x05, 0x37, 0x30, 0x59),
              Column(0x67, 0x1B, 0x8B, 0x8D), Column(0x73, 0x0E, 0x9D, 0x9A), Column(0x6B, 0x17, 0x87, 0x81), Column(0x77, 0x0A, 0x99, 0x9E), false);
  }

  lemma State4()
    ensures StateIs(4,
      Column(0xDF, 0xFA, 0x43, 0x38), Column(0x28, 0x5A, 0x07, 0x31), Column(0x73, 0x2B, 0xC3, 0xD2), Column(0xDD, 0xA6, 0x76, 0xF6))
  {
    hide KeyWord, StateIs;
    State3();
    Words2();
    NextState(4, Column(0xAF, 0x0B, 0x0B, 0xF0), Column(0xA3, 0x3B, 0x1A, 0x1C), Column(0x10, 0xDD, 0xC0, 0x01), Column(0x15, 0xD8, 0x1D, 0x14),
              Column(0xBE, 0x50, 0xF2, 0xAF), Column(0x30, 0x7C, 0xBF, 0xDB), Column(0xB6, 0x59, 0xF8, 0xA4), Column(0x3C, 0x71, 0xB1, 0xD4), false);
  }

  lemma State5()
    ensures StateIs(5,
      Column(0x91, 0xAC, 0xDC, 0x2D), Column(0x68, 0x30, 0x0B, 0x59), Column(0xD0, 0x37, 0x4B, 0xE6), Column(0x55, 0xDF, 0xE9, 0x82))
  {
    hide KeyWord, StateIs;
    State4();
    Words2();
    NextState(5, Column(0xDF, 0xFA, 0x43, 0x38), Column(0x28, 0x5A, 0x07, 0x31), Column(0x73, 0x2B, 0xC3, 0xD2), Column(0xDD, 0xA6, 0x76, 0xF6),
              Column(0xEB, 0xEA, 0xE6, 0x3C), Column(0x98, 0xE4, 0x7B, 0xA6), Column(0xF3, 0xF3, 0xFC, 0x27), Column(0x84, 0xF9, 0x65, 0xB9), false);
  }

  lemma State6()
    ensures StateIs(6,
      Column(0x78, 0x92, 0x53, 0x87), Column(0x2A, 0xA6, 0xDA, 0xF2), Column(0x50, 0x15, 0xF7, 0x01), Column(0x8D, 0x3A, 0x35, 0xCC))
  {
    hide KeyWord, StateIs;
    State5();
    Words3();
    NextState(6, Column(0x91, 0xAC, 0xDC, 0x2D), Column(0x68, 0x30, 0x0B, 0x59), Column(0xD0, 0x37, 0x4B, 0xE6), Column(0x55, 0xDF, 0xE9, 0x82),
              Column(0x86, 0x25, 0xF4, 0x72), Column(0xB6, 0x59, 0x4B, 0xA9), Column(0x00, 0x00, 0xB3, 0x0D), Column(0x3C, 0x71, 0x02, 0xD9), false);
  }

  lemma State7()
    ensures StateIs(7,
      Column(0xB6, 0x84, 0x9A, 0xC6), Column(0x5B, 0x22, 0xD7, 0xDE), Column(0xF9, 0xA0, 0xCF, 0x60), Column(0xE1, 0x48, 0xC3, 0xC5))
  {
    hide KeyWord, StateIs;
    State6();
    Words3();
    NextState(7, Column(0x78, 0x92, 0x53, 0x87), Column(0x2A, 0xA6, 0xDA, 0xF2), Column(0x50, 0x15, 0xF7, 0x01), Column(0x8D, 0x3A, 0x35, 0xCC),
              Column(0x67, 0x1B, 0xAB, 0x64), Column(0xFF, 0xFF, 0xD0, 0xC2), Column(0x0C, 0x0C, 0x2C, 0xE5), Column(0x88, 0xF5, 0x49, 0x5C), false);
  }

  lemma State8()
    ensures StateIs(8,
      Column(0xC6, 0x0E, 0xCF, 0xFD), Column(0xEA, 0x01, 0xA7, 0x05), Column(0x87, 0xEE, 0xBA, 0x4D), Column(0xB7, 0x3D, 0x27, 0x96))
  {
    hide KeyWord, StateIs;
    State7();
    Words4();
    NextState(8, Column(0xB6, 0x84, 0x9A, 0xC6), Column(0x5B, 0x22, 0xD7, 0xDE), Column(0xF9, 0xA0, 0xCF, 0x60), Column(0xE1, 0x48, 0xC3, 0xC5),
              Column(0x4A, 0xBC, 0xE1, 0x03), Column(0xFC, 0xE5, 0xAA, 0xAA), Column(0xFC, 0xE5, 0x19, 0xA7), Column(0xC0, 0x94, 0x1B, 0x7E), false);
  }

  lemma State9()
    ensures StateIs(9,
      Column(0xD3, 0xF9, 0x60, 0x76), Column(0x61, 0xA1, 0x35, 0x28), Column(0x72, 0x6C, 0x63, 0xC2), Column(0x3D, 0x58, 0xB9, 0x7F))
  {
    hide KeyWord, StateIs;
    State8();
    Words4();
    NextState(9, Column(0xC6, 0x0E, 0xCF, 0xFD), Column(0xEA, 0x01, 0xA7, 0x05), Column(0x87, 0xEE, 0xBA, 0x4D), Column(0xB7, 0x3D, 0x27, 0x96),
              Column(0x33, 0x92, 0x86, 0x6C), Column(0xCC, 0x6D, 0x56, 0xAE), Column(0xC0, 0x61, 0x7A, 0x4B), Column(0x48, 0x94, 0x33, 0x17), false);
  }

  lemma State10()
    ensures StateIs(10,
      Column(0xE5, 0x9F, 0xEB, 0xAC), Column(0x21, 0x0C, 0xD1, 0x78), Column(0xDC, 0x5E, 0xE1, 0x61), Column(0x81, 0xF2, 0xDE, 0x69))
  {
    hide KeyWord, StateIs;
    State9();
    Words5();
    NextState(10, Column(0xD3, 0xF9, 0x60, 0x76), Column(0x61, 0xA1, 0x35, 0x28), Column(0x72, 0x6C, 0x63, 0xC2), Column(0x3D, 0x58, 0xB9, 0x7F),
              Column(0xD3, 0xAA, 0x09, 0x00), Column(0x2F, 0x4F, 0xA3, 0xAA), Column(0xD3, 0xAA, 0xBA, 0x0D), Column(0x13, 0x3E, 0xA1, 0x73), false);
  }

  lemma State11()
    ensures StateIs(11,
      Column(0x5D, 0x49, 0x22, 0xA2), Column(0xCB, 0x4A, 0x17, 0xF1), Column(0xDD, 0x6F, 0xE8, 0xBB), Column(0x05, 0x02, 0x25, 0x3A))
  {
    hide KeyWord, StateIs;
    State10();
    Words5();
    NextState(11, Column(0xE5, 0x9F, 0xEB, 0xAC), Column(0x21, 0x0C, 0xD1, 0x78), Column(0xDC, 0x5E, 0xE1, 0x61), Column(0x81, 0xF2, 0xDE, 0x69),
              Column(0x57, 0x35, 0x47, 0x89), Column(0x9B, 0x58, 0x11, 0x27), Column(0x5B, 0x39, 0x6B, 0x6C), Column(0x13, 0xAD, 0x58, 0x7B), false);
  }

  lemma State12()
    ensures StateIs(12,
      Column(0x24, 0x16, 0x8F, 0xD4), Column(0xCB, 0x92, 0x92, 0x15), Column(0x2A, 0xEE, 0x59, 0xC7), Column(0xF9, 0x26, 0x26, 0xCC))
  {
    hide KeyWord, StateIs;
    State11();
    Words6();
    NextState(12, Column(0x5D, 0x49, 0x22, 0xA2), Column(0xCB, 0x4A, 0x17, 0xF1), Column(0xDD, 0x6F, 0xE8, 0xBB), Column(0x05, 0x02, 0x25, 0x3A),
              Column(0xA6, 0xBB, 0x29, 0x64), Column(0x89, 0xF4, 0x8A, 0xCE), Column(0x5A, 0x5E, 0x30, 0xC3), Column(0x49, 0x60, 0x91, 0xB0), false);
  }

  lemma State13()
    ensures StateIs(13,
      Column(0x7D, 0x05, 0x0E, 0x95), Column(0xDB, 0xD3, 0x23, 0x9D), Column(0x39, 0xD6, 0xA1, 0xC4), Column(0x01, 0xBE, 0xD8, 0xA9))
  {
    hide KeyWord, StateIs;
    State12();
    Words6();
    NextState(13, Column(0x24, 0x16, 0x8F, 0xD4), Column(0xCB, 0x92, 0x92, 0x15), Column(0x2A, 0xEE, 0x59, 0xC7), Column(0xF9, 0x26, 0x26, 0xCC),
              Column(0xCE, 0xBD, 0x97, 0xFF), Column(0x55, 0xE5, 0x86, 0xD8), Column(0x0E, 0xDC, 0xED, 0xB4), Column(0x1D, 0x71, 0xB5, 0xCF), false);
  }

  lemma State14()
    ensures StateIs(14,
      Column(0xC6, 0xBF, 0x1C, 0xC1), Column(0xB4, 0x0D, 0xCC, 0x16), Column(0x44, 0x30, 0x34, 0xD6), Column(0xDA, 0xBE, 0x7B, 0x81))
  {
    hide KeyWord, StateIs;
    State13();
    Words7();
    NextState(14, Column(0x7D, 0x05, 0x0E, 0x95), Column(0xDB, 0xD3, 0x23, 0x9D), Column(0x39, 0xD6, 0xA1, 0xC4), Column(0x01, 0xBE, 0xD8, 0xA9),
              Column(0x17, 0xE1, 0xDD, 0xEF), Column(0x9E, 0x15, 0x57, 0x21), Column(0xC4, 0x4B, 0x67, 0xE2), Column(0x8D, 0x2B, 0xF6, 0x52), true);
  }

  // The first block of the key stream.
  lemma KnownKeyStream()
    ensures KeyStream(Schedule(KEY), KNOWN_NONCE, 0) == [
      0xC6, 0xBF, 0x1C, 0xC1, 0xB4, 0x0D, 0xCC, 0x16,
      0x44, 0x30, 0x34, 0xD6, 0xDA, 0xBE, 0x7B, 0x81]
  {
    hide Rounds, Schedule, CounterBlock, ColumnOf;
    State14();
    FromColumns(Rounds(CounterBlock(KNOWN_NONCE, Counter(0)), Schedule(KEY), 14));
  }

  // A block told from its columns.
  lemma FromColumns(s: Block)
    ensures var a, b, c, d := ColumnOf(s, 0), ColumnOf(s, 1), ColumnOf(s, 2), ColumnOf(s, 3);
      s == [a.b0, a.b1, a.b2, a.b3, b.b0, b.b1, b.b2, b.b3, c.b0, c.b1, c.b2, c.b3, d.b0, d.b1, d.b2, d.b3]
  {
  }

  const KNOWN_BLOCK: Block := [
    0xC6, 0xBF, 0x1C, 0xC1, 0xB4, 0x0D, 0xCC, 0x16,
    0x44, 0x30, 0x34, 0xD6, 0xDA, 0xBE, 0x7B, 0x81]

  // So it is what sixteen zero bytes are encrypted to.
  lemma KnownCiphertext(zeros: seq<byte>)
    requires zeros == seq(16, i => 0)
    ensures var out := CtrXor(KEY, KNOWN_NONCE, zeros);
      |out| == 16 && forall j :: 0 <= j < 16 ==> out[j] == Value(KNOWN_BLOCK[j])
  {
    hide Schedule, CtrXor, KeyStream;
    KnownKeyStream();
    ZerosGiveStream(KEY, KNOWN_NONCE, zeros);
  }
}
