// The key schedule (src/appcert_cipher.cpp:137-141, 169-199), section 5.2 of
// FIPS 197 with the cipher's S-box. The recurrence is stated over any sum and
// any substitution: that a schedule can be run backwards needs only that
// adding twice changes nothing.
module CipherSchedule {
  import opened CipherSbox
  import opened CipherField
  import opened CipherColumn
  import opened BlockCipher

  type Key = s: seq<bv8> | |s| == 32 witness seq(32, _ => 0)

  const RCON: seq<bv8> :=
    [0x01, 0x02, 0x04, 0x08, 0x10, 0x20, 0x40, 0x80, 0x1B, 0x36, 0x6C, 0xD8, 0xAB, 0x4D]

  // The round constants are the powers of x.
  lemma RconIsPowers(i: nat)
    requires i < |RCON| - 1
    ensures RCON[0] == 1 && RCON[i + 1] == Xtime(RCON[i])
  {
  }

  // ---- The recurrence ----

  function AddWords<T>(f: Op<T>, a: Column<T>, b: Column<T>): Column<T> {
    Column(f(a.b0, b.b0), f(a.b1, b.b1), f(a.b2, b.b2), f(a.b3, b.b3))
  }

  function SubWord<T>(sub: Map<T>, t: Column<T>): Column<T> {
    Column(sub(t.b0), sub(t.b1), sub(t.b2), sub(t.b3))
  }

  // What is added to the word eight back to give word i, from the word before.
  function Turned<T>(f: Op<T>, sub: Map<T>, rcon: seq<T>, i: nat, t: Column<T>): Column<T>
    requires 8 <= i < 60 && |rcon| == 14
  {
    if i % 8 == 0 then Column(f(sub(t.b1), rcon[i / 8 - 1]), sub(t.b2), sub(t.b3), sub(t.b0))
    else if i % 8 == 4 then SubWord(sub, t)
    else t
  }

  function Word<T>(f: Op<T>, sub: Map<T>, rcon: seq<T>, key: seq<Column<T>>, i: nat): Column<T>
    requires i < 60 && |key| == 8 && |rcon| == 14
  {
    if i < 8 then key[i]
    else AddWords(f, Word(f, sub, rcon, key, i - 8), Turned(f, sub, rcon, i, Word(f, sub, rcon, key, i - 1)))
  }

  // ---- Any eight consecutive words determine the key ----

  ghost predicate SameWords<T(!new)>(f: Op<T>, sub: Map<T>, rcon: seq<T>, k1: seq<Column<T>>, k2: seq<Column<T>>, from: nat)
    requires from + 8 <= 60 && |k1| == 8 && |k2| == 8 && |rcon| == 14
  {
    forall j :: from <= j < from + 8 ==> Word(f, sub, rcon, k1, j) == Word(f, sub, rcon, k2, j)
  }

  // Word i is recovered from words i + 7 and i + 8.
  lemma WordBefore<T(!new)>(f: Op<T>, sub: Map<T>, rcon: seq<T>, key: seq<Column<T>>, i: nat)
    requires i + 8 < 60 && |key| == 8 && |rcon| == 14 && forall a, b :: Undo(f, a, b)
    ensures Word(f, sub, rcon, key, i) ==
      AddWords(f, Word(f, sub, rcon, key, i + 8), Turned(f, sub, rcon, i + 8, Word(f, sub, rcon, key, i + 7)))
  {
    var w, t := Word(f, sub, rcon, key, i), Turned(f, sub, rcon, i + 8, Word(f, sub, rcon, key, i + 7));
    assert Undo(f, w.b0, t.b0) && Undo(f, w.b1, t.b1) && Undo(f, w.b2, t.b2) && Undo(f, w.b3, t.b3);
  }

  lemma SameWordBefore<T(!new)>(f: Op<T>, sub: Map<T>, rcon: seq<T>, k1: seq<Column<T>>, k2: seq<Column<T>>, i: nat)
    requires i + 9 <= 60 && |k1| == 8 && |k2| == 8 && |rcon| == 14 && forall a, b :: Undo(f, a, b)
    requires Word(f, sub, rcon, k1, i + 7) == Word(f, sub, rcon, k2, i + 7)
    requires Word(f, sub, rcon, k1, i + 8) == Word(f, sub, rcon, k2, i + 8)
    ensures Word(f, sub, rcon, k1, i) == Word(f, sub, rcon, k2, i)
  {
    WordBefore(f, sub, rcon, k1, i);
    WordBefore(f, sub, rcon, k2, i);
  }

  lemma {:induction false} WindowDeterminesWords<T(!new)>(f: Op<T>, sub: Map<T>, rcon: seq<T>, k1: seq<Column<T>>, k2: seq<Column<T>>, from: nat)
    requires from + 8 <= 60 && |k1| == 8 && |k2| == 8 && |rcon| == 14 && forall a, b :: Undo(f, a, b)
    requires SameWords(f, sub, rcon, k1, k2, from)
    ensures k1 == k2
    decreases from
  {
    if from == 0 {
      forall i | 0 <= i < 8 ensures k1[i] == k2[i] {
        assert Word(f, sub, rcon, k1, i) == Word(f, sub, rcon, k2, i);
      }
    } else {
      SameWordBefore(f, sub, rcon, k1, k2, from - 1);
      WindowDeterminesWords(f, sub, rcon, k1, k2, from - 1);
    }
  }

  // ---- Filling the schedule ----

  function Words<T>(f: Op<T>, sub: Map<T>, rcon: seq<T>, key: seq<Column<T>>, n: nat): seq<Column<T>>
    requires n <= 60 && |key| == 8 && |rcon| == 14
  {
    seq(n, i requires 0 <= i < n => Word(f, sub, rcon, key, i))
  }

  lemma NextWord<T>(f: Op<T>, sub: Map<T>, rcon: seq<T>, key: seq<Column<T>>, w: seq<Column<T>>)
    requires |w| < 60 && |key| == 8 && |rcon| == 14 && w == Words(f, sub, rcon, key, |w|)
    ensures |w| < 8 ==> w + [key[|w|]] == Words(f, sub, rcon, key, |w| + 1)
    ensures |w| >= 8 ==>
      w + [AddWords(f, w[|w| - 8], Turned(f, sub, rcon, |w|, w[|w| - 1]))] == Words(f, sub, rcon, key, |w| + 1)
  {
  }

  method ExpandWords<T>(f: Op<T>, sub: Map<T>, rcon: seq<T>, key: seq<Column<T>>) returns (w: seq<Column<T>>)
    requires |key| == 8 && |rcon| == 14
    ensures w == Words(f, sub, rcon, key, 60)
  {
    w := [];
    for i := 0 to 8
      invariant |w| == i && w == Words(f, sub, rcon, key, i)
    {
      NextWord(f, sub, rcon, key, w);
      w := w + [key[i]];
    }
    for i := 8 to 60
      invariant |w| == i && w == Words(f, sub, rcon, key, i)
    {
      var t := w[i - 1];
      if i % 8 == 0 {
        t := Column(f(sub(t.b1), rcon[i / 8 - 1]), sub(t.b2), sub(t.b3), sub(t.b0));
      } else if i % 8 == 4 {
        t := Column(sub(t.b0), sub(t.b1), sub(t.b2), sub(t.b3));
      }
      NextWord(f, sub, rcon, key, w);
      w := w + [AddWords(f, w[i - 8], t)];
    }
  }

  // ---- The schedule of a key ----

  function KeyColumns(key: Key): seq<Column<bv8>> {
    seq(8, i requires 0 <= i < 8 => Column(key[4 * i], key[4 * i + 1], key[4 * i + 2], key[4 * i + 3]))
  }

  function KeyWord(key: Key, i: nat): Column<bv8>
    requires i < 60
  {
    Word(Xor, Sub, RCON, KeyColumns(key), i)
  }

  function InBlocks(w: seq<Column<bv8>>): RoundKeys
    requires |w| == 60
  {
    seq(15, r requires 0 <= r < 15 => OfColumns(w[4 * r], w[4 * r + 1], w[4 * r + 2], w[4 * r + 3]))
  }

  function Schedule(key: Key): RoundKeys { InBlocks(Words(Xor, Sub, RCON, KeyColumns(key), 60)) }

  method KeyExpand(key: Key) returns (rk: RoundKeys)
    ensures rk == Schedule(key)
  {
    var w := ExpandWords(Xor, Sub, RCON, KeyColumns(key));
    rk := FillBlocks(w);
  }

  method FillBlocks(w: seq<Column<bv8>>) returns (rk: RoundKeys)
    requires |w| == 60
    ensures rk == InBlocks(w)
  {
    var keys: seq<Block> := [];
    for r := 0 to 15
      invariant |keys| == r && forall q :: 0 <= q < r ==> keys[q] == InBlocks(w)[q]
    {
      keys := keys + [OfColumns(w[4 * r], w[4 * r + 1], w[4 * r + 2], w[4 * r + 3])];
    }
    rk := keys;
  }

  // No two keys share their last two round keys, or any other eight
  // consecutive words of their schedules.
  lemma WindowDeterminesKey(k1: Key, k2: Key, from: nat)
    requires from + 8 <= 60
    requires forall j :: from <= j < from + 8 ==> KeyWord(k1, j) == KeyWord(k2, j)
    ensures k1 == k2
  {
    forall a, b ensures Undo(Xor, a, b) { XorUndoes(a, b); }
    forall j | from <= j < from + 8
      ensures Word(Xor, Sub, RCON, KeyColumns(k1), j) == Word(Xor, Sub, RCON, KeyColumns(k2), j)
    {
      assert KeyWord(k1, j) == KeyWord(k2, j);
    }
    WindowDeterminesWords(Xor, Sub, RCON, KeyColumns(k1), KeyColumns(k2), from);
    forall k | 0 <= k < 32 ensures k1[k] == k2[k] {
      assert KeyColumns(k1)[k / 4] == KeyColumns(k2)[k / 4];
    }
  }
}
