// The characters of base64url text, place by place (src/appcert_cipher.cpp:
// 322-348; sections 4 and 5 of RFC 4648).
module Base64Text {
  import opened Text
  import opened Base64

  // Three bytes as one number, the first one highest.
  function Word(b0: byte, b1: byte, b2: byte): nat {
    var x: int, y: int, z: int := b0, b1, b2;
    x * 0x10000 + y * 0x100 + z
  }

  // The four characters are the digits of that number in base 64, the highest
  // first; without the last bytes, padding takes the place of the last digits.
  predicate Spells(quad: string, w: nat, bytes: nat) {
    && |quad| == 4
    && quad[0] == Letter(w / 0x40000 % 64) && quad[1] == Letter(w / 0x1000 % 64)
    && quad[2] == (if bytes > 1 then Letter(w / 0x40 % 64) else '=')
    && quad[3] == (if bytes > 2 then Letter(w % 64) else '=')
  }

  lemma GroupSpells(g: seq<byte>)
    requires 1 <= |g| <= 3
    ensures Spells(Group(g), Word(ByteOr0(g, 0), ByteOr0(g, 1), ByteOr0(g, 2)), |g|)
  {
    WordDigits(Word(ByteOr0(g, 0), ByteOr0(g, 1), ByteOr0(g, 2)), ByteOr0(g, 0), ByteOr0(g, 1), ByteOr0(g, 2));
    hide Letter, D0, D1, D2, D3, Word, ByteOr0;
  }

  function Groups(n: nat): nat { (n + 2) / 3 }

  // The k-th four characters of the text spell the k-th three bytes, or what is
  // left of them.
  lemma {:induction false} EncodeAt(data: seq<byte>, k: nat)
    requires 3 * k < |data|
    ensures 4 * k + 4 <= |Encode(data)| == 4 * Groups(|data|)
    ensures var n := if |data| - 3 * k < 3 then |data| - 3 * k else 3;
      Spells(Encode(data)[4 * k..4 * k + 4],
             Word(data[3 * k], ByteOr0(data, 3 * k + 1), ByteOr0(data, 3 * k + 2)), n)
    decreases |data|
  {
    hide Letter, Group, Word;
    EncodeLength(data);
    if |data| <= 3 {
      GroupSpells(data);
      OneGroup(data);
    } else {
      GroupSpells(data[..3]);
      if k > 0 { EncodeAt(data[3..], k - 1); }
      FirstOrLater(Group(data[..3]), Encode(data[3..]), k);
    }
  }

  lemma OneGroup(data: seq<byte>)
    requires 1 <= |data| <= 3
    ensures Encode(data) == Group(data) && Group(data)[0..4] == Group(data)
  {
    if |data| == 3 {
      assert data[..3] == data && data[3..] == [];
      assert Group(data) + [] == Group(data);
    }
  }

  lemma FirstOrLater(first: string, rest: string, k: nat)
    requires |first| == 4
    ensures k == 0 ==> (first + rest)[0..4] == first
    ensures k > 0 && 4 * k <= |rest| ==> (first + rest)[4 * k..4 * k + 4] == rest[4 * (k - 1)..4 * (k - 1) + 4]
  {
  }

  lemma {:induction false} EncodeLength(data: seq<byte>)
    ensures |Encode(data)| == 4 * Groups(|data|)
    decreases |data|
  {
    hide Group;
    if |data| >= 3 {
      EncodeLength(data[3..]);
      FourLetters(data[..3]);
    } else if data != [] {
      FourLetters(data);
    }
  }

  lemma FourLetters(g: seq<byte>)
    requires 1 <= |g| <= 3
    ensures |Group(g)| == 4
  {
  }

  const UPPER := "ABCDEFGHIJKLMNOPQRSTUVWXYZ"
  const LOWER := "abcdefghijklmnopqrstuvwxyz"
  const FIGURES := "0123456789-_"
  const ALPHABET := UPPER + LOWER + FIGURES

  // Table 2 of RFC 4648.
  lemma LetterIs(d: nat)
    requires d < 64
    ensures |ALPHABET| == 64 && Letter(d) == ALPHABET[d]
  {
    UpperIs(if d < 26 then d else 0);
    LowerIs(if 26 <= d < 52 then d - 26 else 0);
    FigureIs(if d >= 52 then d - 52 else 0);
    hide Letter;
  }

  lemma UpperIs(d: nat)
    requires d < 26
    ensures |UPPER| == 26 && Letter(d) == UPPER[d]
  {
  }

  lemma LowerIs(d: nat)
    requires d < 26
    ensures |LOWER| == 26 && Letter(26 + d) == LOWER[d]
  {
  }

  lemma FigureIs(d: nat)
    requires d < 12
    ensures |FIGURES| == 12 && Letter(52 + d) == FIGURES[d]
  {
  }

  // ---- What is decoded at all ----

  predicate IsLetter(c: char) { Digit(c).Some? }

  // Four characters at 4 * k: two letters, then letters or padding.
  predicate GoodQuad(s: string, k: nat) {
    4 * k + 4 <= |s| && IsLetter(s[4 * k]) && IsLetter(s[4 * k + 1]) &&
    (IsLetter(s[4 * k + 2]) || s[4 * k + 2] == '=') && (IsLetter(s[4 * k + 3]) || s[4 * k + 3] == '=')
  }

  predicate HasStranger(s: string, k: nat) {
    exists j :: 4 * k <= j < 4 * k + 4 && j < |s| && !IsLetter(s[j]) && s[j] != '='
  }

  ghost predicate FirstBad(s: string, k: nat) {
    4 * k < |s| && !GoodQuad(s, k) && forall j: nat :: j < k ==> GoodQuad(s, j)
  }

  lemma QuadVerdict(s: string)
    requires |s| == 4
    ensures Quad(s).Bytes? <==> GoodQuad(s, 0)
    ensures !GoodQuad(s, 0) ==> Quad(s) == if HasStranger(s, 0) then InvalidCharacter else Truncated
  {
    hide QuadBytes;
    assert HasStranger(s, 0) <==> BadCharacter(s[0]) || BadCharacter(s[1]) || BadCharacter(s[2]) || BadCharacter(s[3]);
    assert Digit('=') == None;
  }

  lemma ShiftQuad(s: string, k: nat)
    requires |s| >= 4 && k > 0
    ensures GoodQuad(s, k) <==> GoodQuad(s[4..], k - 1)
    ensures HasStranger(s, k) <==> HasStranger(s[4..], k - 1)
  {
    hide Digit;
    if j :| 4 * k <= j < 4 * k + 4 && j < |s| && !IsLetter(s[j]) && s[j] != '=' {
      assert s[4..][j - 4] == s[j];
    }
    if j :| 4 * (k - 1) <= j < 4 * k && j < |s[4..]| && !IsLetter(s[4..][j]) && s[4..][j] != '=' {
      assert s[4..][j] == s[j + 4];
    }
  }

  lemma FirstQuad(s: string)
    requires |s| >= 4
    ensures GoodQuad(s, 0) <==> GoodQuad(s[..4], 0)
    ensures HasStranger(s, 0) <==> HasStranger(s[..4], 0)
  {
    hide Digit;
    if j :| 0 <= j < 4 && j < |s| && !IsLetter(s[j]) && s[j] != '=' {
      assert s[..4][j] == s[j];
    }
    if j :| 0 <= j < 4 && j < |s[..4]| && !IsLetter(s[..4][j]) && s[..4][j] != '=' {
      assert s[..4][j] == s[j];
    }
  }

  // A text of whole quads is decoded when all are good; otherwise the first bad
  // one says why not.
  lemma {:induction false} QuadsVerdict(s: string, k: nat)
    requires |s| % 4 == 0
    ensures Quads(s).Bytes? <==> forall j: nat :: 4 * j < |s| ==> GoodQuad(s, j)
    ensures FirstBad(s, k) ==> Quads(s) == if HasStranger(s, k) then InvalidCharacter else Truncated
    decreases |s|
  {
    hide Quad, GoodQuad, HasStranger;
    if s != [] {
      var rest := s[4..];
      QuadVerdict(s[..4]);
      FirstQuad(s);
      forall j: nat | j > 0 ensures GoodQuad(s, j) <==> GoodQuad(rest, j - 1) { ShiftQuad(s, j); }
      QuadsVerdict(rest, if k > 0 then k - 1 else 0);
      if k > 0 {
        ShiftQuad(s, k);
        if FirstBad(s, k) {
          forall j: nat | j < k - 1 ensures GoodQuad(rest, j) { assert GoodQuad(s, j + 1); }
          assert FirstBad(rest, k - 1);
        }
      }
      if Quads(s).Bytes? {
        forall j: nat | 4 * j < |s| ensures GoodQuad(s, j) {
          if j > 0 { assert GoodQuad(rest, j - 1); }
        }
      }
      if forall j: nat :: 4 * j < |s| ==> GoodQuad(s, j) {
        forall j: nat | 4 * j < |rest| ensures GoodQuad(rest, j) { assert GoodQuad(s, j + 1); }
      }
    }
  }
}
