// The vector of lines while it is repaired (src/config.cpp:205-303, 341-395):
// its elements stay single lines, but for the appended header, which is three.
module ConfigVector {
  import opened Text
  import opened ConfigText
  import opened ConfigFixer

  // ---- Terminators ----

  predicate IsEol(s: string) { s == [] || ((s[0] == '\n' || s[0] == '\r') && IsEol(s[1..])) }

  // The last character is not part of a terminator.
  predicate Content(s: string) { s == [] || (s[|s| - 1] != '\n' && s[|s| - 1] != '\r') }

  lemma {:induction false} EolInit(e: string)
    requires IsEol(e) && e != []
    ensures IsEol(e[..|e| - 1]) && (e[|e| - 1] == '\n' || e[|e| - 1] == '\r')
  {
    if |e| > 1 {
      EolInit(e[1..]);
      assert e[..|e| - 1][1..] == e[1..][..|e| - 2];
    }
  }

  lemma {:induction false} EolConcat(a: string, b: string)
    requires IsEol(a) && IsEol(b)
    ensures IsEol(a + b)
  {
    if a == [] {
      assert a + b == b;
    } else {
      assert (a + b)[1..] == a[1..] + b;
      EolConcat(a[1..], b);
    }
  }

  lemma {:induction false} StripEolIs(x: string, e: string)
    requires Content(x) && IsEol(e)
    ensures StripEol(x + e) == x
    decreases |e|
  {
    if e == [] {
      assert x + e == x;
    } else {
      EolInit(e);
      assert (x + e)[..|x + e| - 1] == x + e[..|e| - 1];
      StripEolIs(x, e[..|e| - 1]);
    }
  }

  lemma {:induction false} LineParts(line: string) returns (eol: string)
    ensures line == StripEol(line) + eol && IsEol(eol) && Content(StripEol(line))
  {
    if line != [] && (line[|line| - 1] == '\n' || line[|line| - 1] == '\r') {
      var last := [line[|line| - 1]];
      eol := LineParts(line[..|line| - 1]);
      EolConcat(eol, last);
      assert line == line[..|line| - 1] + last;
      Assoc(StripEol(line), eol, last);
      eol := eol + last;
    } else {
      eol := [];
    }
  }

  lemma EolOfParts(line: string, eol: string)
    requires line == StripEol(line) + eol
    ensures eol != [] ==> EolOf(line) == eol
    ensures eol == [] ==> EolOf(line) == "\n"
  {
  }

  // Ending a line does not change what the fixers see of it.
  lemma ClosedContent(line: string)
    ensures StripEol(Closed(line)) == StripEol(line)
  {
    var eol := LineParts(line);
    EolConcat(eol, "\n");
    assert line + "\n" == StripEol(line) + (eol + "\n");
    StripEolIs(StripEol(line), eol + "\n");
  }

  // ---- Single lines ----

  predicate NoFeed(s: string) { s == [] || (s[0] != '\n' && NoFeed(s[1..])) }

  lemma {:induction false} LineOf(x: string, y: string)
    requires NoFeed(x)
    ensures FirstLine(x + y) == x + FirstLine(y)
  {
    if x == [] {
      assert x + y == y;
    } else {
      assert (x + y)[1..] == x[1..] + y;
      LineOf(x[1..], y);
    }
  }

  lemma {:induction false} NoFeedIsLine(x: string)
    requires NoFeed(x)
    ensures FirstLine(x) == x
  {
    if x != [] {
      NoFeedIsLine(x[1..]);
    }
  }

  lemma {:induction false} NoFeedConcat(a: string, b: string)
    ensures NoFeed(a + b) <==> NoFeed(a) && NoFeed(b)
  {
    if a == [] {
      assert a + b == b;
    } else {
      assert (a + b)[1..] == a[1..] + b;
      NoFeedConcat(a[1..], b);
    }
  }

  // Whatever stands before the end of a line holds no line feed.
  lemma {:induction false} LineHasOneFeed(x: string, y: string)
    requires IsLine(x + y) && y != []
    ensures NoFeed(x) && IsLine(y)
  {
    if x == [] {
      assert x + y == y;
    } else {
      assert (x + y)[1..] == x[1..] + y;
      assert x[0] == '\n' ==> |x + y| == 1;
      LineHasOneFeed(x[1..], y);
    }
  }

  lemma UnendedHasNoFeed(line: string)
    requires IsLine(line) && !Ended(line)
    ensures NoFeed(line)
  {
    var n := |line| - 1;
    assert line == line[..n] + line[n..] && line[n..] == [line[n]];
    LineHasOneFeed(line[..n], line[n..]);
    NoFeedConcat(line[..n], line[n..]);
  }

  lemma LineWithFeed(x: string)
    requires NoFeed(x)
    ensures IsLine(x + "\n") && Ended(x + "\n")
  {
    LineOf(x, "\n");
  }

  // Replacing the content of a line leaves one line.
  lemma Respelled(x: string, y: string, eol: string)
    requires IsLine(x + eol) && IsEol(eol) && NoFeed(y) && y != [] && Content(x)
    ensures IsLine(y + eol) && (Ended(y + eol) <==> Ended(x + eol))
  {
    if eol == [] {
      assert y + eol == y && x + eol == x;
      NoFeedIsLine(y);
      NoFeedHasNone(y);
    } else {
      LineHasOneFeed(x, eol);
      LineOf(y, eol);
      assert Ended(x + eol) == Ended(eol) == Ended(y + eol);
    }
  }

  lemma {:induction false} NoFeedHasNone(y: string)
    requires NoFeed(y)
    ensures !Ended(y)
  {
    if |y| > 1 {
      NoFeedHasNone(y[1..]);
    }
  }

  lemma ContentHasNoFeed(line: string)
    requires IsLine(line)
    ensures NoFeed(StripEol(line))
  {
    var eol := LineParts(line);
    if eol == [] {
      UnendedHasNoFeed(line);
    } else {
      LineHasOneFeed(StripEol(line), eol);
    }
  }

  // ---- Rewriting one value ----

  // Usable as a value: one word without a comment sign.
  predicate PlainWord(s: string) {
    s == [] || (!IsSpace(s[0]) && s[0] != '#' && PlainWord(s[1..]))
  }

  lemma {:induction false} PlainWordFacts(s: string)
    requires PlainWord(s)
    ensures NoFeed(s) && (s != [] ==> !IsSpace(s[|s| - 1]))
  {
    if s != [] {
      PlainWordFacts(s[1..]);
    }
  }

  lemma {:induction false} HashWordIs(value: string, rest: string)
    requires PlainWord(value) && HashWord(rest) == []
    ensures HashWord(value + rest) == value
  {
    if value == [] {
      assert value + rest == rest;
    } else {
      assert (value + rest)[1..] == value[1..] + rest;
      HashWordIs(value[1..], rest);
    }
  }

  lemma {:induction false} HashWordStops(s: string)
    ensures |HashWord(s)| <= |s| && HashWord(s[|HashWord(s)|..]) == []
  {
    HashWordFits(s);
    if s != [] && !IsSpace(s[0]) && s[0] != '#' {
      HashWordFits(s[1..]);
      HashWordStops(s[1..]);
      assert s[|HashWord(s)|..] == s[1..][|HashWord(s[1..])|..];
    }
  }

  // ---- From elements to the lines of the written file ----

  predicate Piece(e: string) { IsLine(e) || e == HEADER }

  predicate Shaped(lines: seq<string>) {
    lines == [] ||
    (Piece(lines[0]) && (|lines| == 1 || Ended(lines[0])) && Shaped(lines[1..]))
  }

  predicate AllEnded(lines: seq<string>) {
    lines == [] || (Ended(lines[0]) && AllEnded(lines[1..]))
  }

  function Flat(lines: seq<string>): seq<string> {
    if lines == [] then [] else Split(lines[0]) + Flat(lines[1..])
  }

  lemma {:induction false} LinedIsShaped(lines: seq<string>)
    requires Lined(lines)
    ensures Shaped(lines)
  {
    if lines != [] {
      LinedIsShaped(lines[1..]);
    }
  }

  lemma {:induction false} FirstLineStays(a: string, b: string)
    requires Ended(a)
    ensures FirstLine(a + b) == FirstLine(a)
  {
    assert (a + b)[1..] == a[1..] + b;
    if a[0] != '\n' {
      FirstLineStays(a[1..], b);
    }
  }

  lemma {:induction false} SplitConcat(a: string, b: string)
    requires a == [] || Ended(a)
    ensures Split(a + b) == Split(a) + Split(b)
    decreases |a|
  {
    if a == [] {
      assert a + b == b;
    } else {
      FirstLineStays(a, b);
      var n := |FirstLine(a)|;
      DropFrom(a, b, n);
      SplitConcat(a[n..], b);
      Assoc([FirstLine(a)], Split(a[n..]), Split(b));
    }
  }

  lemma DropFrom(a: string, b: string, n: nat)
    requires n <= |a|
    ensures (a + b)[n..] == a[n..] + b
    ensures Ended(a) && n < |a| ==> Ended(a[n..])
  {
  }

  // What reading the written file back gives.
  lemma {:induction false} FlatJoin(lines: seq<string>)
    requires Shaped(lines)
    ensures Split(Join(lines)) == Flat(lines)
  {
    if lines != [] {
      FlatJoin(lines[1..]);
      if |lines| == 1 {
        assert lines[0] + [] == lines[0] && Split(lines[0]) + [] == Split(lines[0]);
      } else {
        SplitConcat(lines[0], Join(lines[1..]));
      }
    }
  }

  lemma LineSplits(line: string)
    requires IsLine(line)
    ensures Split(line) == [line]
  {
    assert line[|line|..] == [];
  }

  function HeaderLines(): seq<string> {
    [HEADER_TEXT1 + "\n", HEADER_TEXT2 + "\n", BLOCK_OFF + "\n"]
  }

  lemma {:induction false} AbsentFeed(s: string)
    requires '\n' !in s
    ensures NoFeed(s)
  {
    if s != [] {
      AbsentFeed(s[1..]);
    }
  }

  lemma HeaderTextsHaveNoFeed()
    ensures '\n' !in HEADER_TEXT1 && '\n' !in HEADER_TEXT2 && '\n' !in BLOCK_OFF
  {
  }

  lemma HeaderSplits()
    ensures Split(HEADER) == HeaderLines() && Ended(HEADER)
  {
    HeaderTextsHaveNoFeed();
    HeaderOfTexts(HEADER_TEXT1, HEADER_TEXT2, BLOCK_OFF);
  }

  lemma HeaderOfTexts(a: string, b: string, c: string)
    requires '\n' !in a && '\n' !in b && '\n' !in c
    ensures Split(a + "\n" + (b + "\n") + (c + "\n")) == [a + "\n", b + "\n", c + "\n"]
    ensures Ended(a + "\n" + (b + "\n") + (c + "\n"))
  {
    AbsentFeed(a);
    AbsentFeed(b);
    AbsentFeed(c);
    LineWithFeed(a);
    LineWithFeed(b);
    LineWithFeed(c);
    ThreeLines(a + "\n", b + "\n", c + "\n");
  }

  lemma ThreeLines(a: string, b: string, c: string)
    requires IsLine(a) && IsLine(b) && IsLine(c) && Ended(a) && Ended(b) && Ended(c)
    ensures Split(a + b + c) == [a, b, c] && Ended(a + b + c)
  {
    SplitConcat(a + b, c);
    SplitConcat(a, b);
    LineSplits(a);
    LineSplits(b);
    LineSplits(c);
  }

  lemma {:induction false} FlatConcat(a: seq<string>, b: seq<string>)
    ensures Flat(a + b) == Flat(a) + Flat(b)
  {
    if a == [] {
      assert a + b == b;
    } else {
      assert (a + b)[1..] == a[1..] + b;
      FlatConcat(a[1..], b);
      Assoc(Split(a[0]), Flat(a[1..]), Flat(b));
    }
  }

  // ---- Every fix keeps the shape ----

  lemma {:induction false} AppendShaped(lines: seq<string>, e: string)
    requires Shaped(lines) && AllEnded(lines) && Piece(e)
    ensures Shaped(lines + [e])
  {
    if lines != [] {
      assert (lines + [e])[1..] == lines[1..] + [e];
      AppendShaped(lines[1..], e);
    }
  }

  lemma ClosedPiece(e: string)
    requires Piece(e)
    ensures Piece(Closed(e)) && Ended(Closed(e))
  {
    if !Ended(e) {
      HeaderSplits();
      UnendedHasNoFeed(e);
      LineWithFeed(e);
    }
  }

  lemma {:induction false} RoomShaped(lines: seq<string>)
    requires Shaped(lines)
    ensures Shaped(Room(lines)) && AllEnded(Room(lines))
  {
    if |lines| == 1 {
      ClosedPiece(lines[0]);
      assert IsLine("\n");
      assert ["\n"][1..] == [];
      assert Room(lines)[1..] == if StripEol(Closed(lines[0])) == [] then [] else ["\n"];
    } else if lines != [] {
      RoomShaped(lines[1..]);
      assert Room(lines)[1..] == Room(lines[1..]);
    }
  }
}
