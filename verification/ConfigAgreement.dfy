// The loader and the fixer read lines with two different grammars
// (src/config.cpp:68-78 and 257-275). On block_cloud they agree: a file loads
// after the fix as it did before, with only block_cloud set to false.
module ConfigAgreement {
  import opened Text
  import opened ConfigText
  import opened ConfigLoader
  import opened ConfigFixer
  import opened ConfigVector

  // ---- The fixer's grammar, by parts ----

  lemma KeyRestSplits(content: string, key: string) returns (w: string, v: string, x: string)
    requires KeyRest(content, key).Some?
    ensures Blank(w) && Blank(v) && Blank(x)
    ensures var r := KeyRest(content, key).value;
      content == Assignment(w + key + v, x + r) && (r == [] || !IsSpace(r[0]))
  {
    var a := TrimLeft(content);
    w := TrimLeftSplits(content);
    v := TrimLeftSplits(a[|key|..]);
    var b := TrimLeft(a[|key|..]);
    x := TrimLeftSplits(b[1..]);
    KeyRestParts(content, a, b, w, key, v, x, TrimLeft(b[1..]));
  }

  lemma KeyRestParts(content: string, a: string, b: string, w: string, key: string, v: string, x: string, r: string)
    requires content == w + a && |a| >= |key| && a[..|key|] == key && a[|key|..] == v + b
    requires b != [] && b[0] == '=' && b[1..] == x + r
    ensures content == Assignment(w + key + v, x + r)
  {
    assert b == ['='] + (x + r);
    assert a == key + (v + b);
  }

  lemma KeyRestIs(w: string, key: string, v: string, x: string, r: string)
    requires KeyWord(key) && Blank(w) && Blank(v) && Blank(x) && (r == [] || !IsSpace(r[0]))
    ensures KeyRest(Assignment(w + key + v, x + r), key) == Some(r)
  {
    var b := ['='] + (x + r);
    var a := key + (v + b);
    PartsOfKeyRest(w, key, v, x, r);
    TrimLeftIs(w, a);
    TrimLeftIs(v, b);
    TrimLeftIs(x, r);
  }

  lemma PartsOfKeyRest(w: string, key: string, v: string, x: string, r: string)
    ensures var b := ['='] + (x + r);
      var a := key + (v + b);
      Assignment(w + key + v, x + r) == w + a && a[..|key|] == key && a[|key|..] == v + b && b[1..] == x + r
  {
    var b := ['='] + (x + r);
    assert w + key + v + b == w + (key + (v + b));
  }

  // ---- Where the grammars agree ----

  // A line the fixer recognises is an entry of the same key to the loader,
  // and a value on which they differ is not truthy to the loader.
  lemma FixerThenLoader(line: string, key: string)
    requires KeyWord(key) && KeyRest(StripEol(line), key).Some?
    ensures var r := KeyRest(StripEol(line), key).value;
      ParseLine(line) == Some(Entry(key, TrimRight(r))) &&
      (Truthy(TrimRight(r)) ==> Word(r) == TrimRight(r))
  {
    var r := KeyRest(StripEol(line), key).value;
    var w, v, x := KeyRestSplits(StripEol(line), key);
    var eol := StripEolSplits(line);
    var y := TrimRightSplits(r);
    var t := TrimRight(r);
    BlankConcat(y, eol);
    MoreOnTheRight(w + key + v, x, t, y, eol);
    AssignmentParses(w, key, v, x, t, y + eol);
    if Truthy(t) {
      TruthyIsSolid(t);
      WordIs(t, y);
    }
  }

  lemma MoreOnTheRight(left: string, x: string, t: string, y: string, z: string)
    ensures Assignment(left, x + (t + y)) + z == Assignment(left, x + t + (y + z))
  {
  }

  // An entry whose value is one word is recognised by the fixer, with that
  // word as its value.
  lemma LoaderThenFixer(line: string, key: string)
    requires ParseLine(line).Some? && ParseLine(line).value.key == key && KeyWord(key)
    requires ParseLine(line).value.val != [] && Solid(ParseLine(line).value.val)
    ensures KeyRest(StripEol(line), key).Some?
    ensures Word(KeyRest(StripEol(line), key).value) == ParseLine(line).value.val
  {
    var val := ParseLine(line).value.val;
    var w, v, x, y := EntryHasParts(line);
    var front := Assignment(w + key + v, x + val);
    EndsInValue(w + key + v, x, val, y);
    var z := StripEolKeeps(front, y);
    EndsInValue(w + key + v, x, val, z);
    MoreToTheRight(w + key + v, x, val, z);
    KeyRestIs(w, key, v, x, val + z);
    WordIs(val, z);
  }

  lemma EndsInValue(left: string, x: string, val: string, y: string)
    requires val != [] && Tight(val)
    ensures var front := Assignment(left, x + val);
      front != [] && front[|front| - 1] == val[|val| - 1] && Assignment(left, x + val + y) == front + y
  {
  }

  lemma MoreToTheRight(left: string, x: string, val: string, z: string)
    ensures Assignment(left, x + val + z) == Assignment(left, x + (val + z))
  {
    Assoc(x, val, z);
  }

  // Characters of keys and values: no white space, quote or comment sign, no '='.
  predicate Wordy(c: char) { '$' < c && c != '=' }

  lemma {:induction false} WordyIsWord(s: string)
    requires forall k :: 0 <= k < |s| ==> Wordy(s[k])
    ensures Solid(s) && NoEq(s) && PlainWord(s)
  {
    if s != [] {
      WordyIsWord(s[1..]);
    }
  }

  lemma BlockKeyIsWord()
    ensures KeyWord(BLOCK_KEY)
  {
    WordyIsWord(BLOCK_KEY);
  }

  // A line's effect and the setting a fix gives one member commute, unless
  // the line is about that member.
  lemma OtherKeysKeepFlag(s: Settings, e: Entry, name: string, b: bool)
    requires e.key != name
    ensures ApplyKey(s.WithFlag(name, b), e.key, e.val) == ApplyKey(s, e.key, e.val).WithFlag(name, b)
  {
    if e.key in TEXT_KEYS {
    } else if e.key in FLAG_KEYS {
      UpdatesCommute(s.flags, name, b, e.key, Truthy(e.val));
    } else {
      OtherMembers(s, e, s.texts, s.flags[name := b]);
    }
  }

  lemma UpdatesCommute<K, T>(m: map<K, T>, a: K, x: T, b: K, y: T)
    requires a != b
    ensures m[a := x][b := y] == m[b := y][a := x]
  {
  }

  lemma OtherMembers(s: Settings, e: Entry, texts: map<string, string>, flags: map<string, bool>)
    ensures ApplyOther(s.(texts := texts, flags := flags), e.key, e.val) ==
            ApplyOther(s, e.key, e.val).(texts := texts, flags := flags)
    ensures ApplyOther(s, e.key, e.val).texts == s.texts && ApplyOther(s, e.key, e.val).flags == s.flags
  {
    hide Lower, Truthy, Atoi, PrintMode;
  }

  lemma OtherKeysKeepText(s: Settings, e: Entry, name: string, b: string)
    requires e.key != name
    ensures ApplyKey(s.WithText(name, b), e.key, e.val) == ApplyKey(s, e.key, e.val).WithText(name, b)
  {
    if e.key in TEXT_KEYS {
      UpdatesCommute(s.texts, name, b, e.key, e.val);
    } else if e.key !in FLAG_KEYS {
      OtherMembers(s, e, s.texts[name := b], s.flags);
    }
  }

  // ---- What loading makes of the fixed lines ----

  function Off(s: Settings): Settings { s.WithFlag(BLOCK_KEY, false) }

  lemma BlockKeyIsFlag(s: Settings, val: string)
    ensures ApplyKey(s, BLOCK_KEY, val) == s.WithFlag(BLOCK_KEY, Truthy(val))
  {
    assert BLOCK_KEY[0] == 'b' && "client_name"[0] == 'c' && "log_to_file"[0] == 'l';
    assert BLOCK_KEY !in TEXT_KEYS && BLOCK_KEY in FLAG_KEYS;
  }

  lemma SetTwice(s: Settings, b: bool)
    ensures Off(s.WithFlag(BLOCK_KEY, b)) == Off(s) && Off(s).WithFlag(BLOCK_KEY, b) == s.WithFlag(BLOCK_KEY, b)
  {
    assert s.flags[BLOCK_KEY := b][BLOCK_KEY := false] == s.flags[BLOCK_KEY := false];
    assert s.flags[BLOCK_KEY := false][BLOCK_KEY := b] == s.flags[BLOCK_KEY := b];
  }

  lemma {:induction false} EolIsBlank(e: string)
    requires IsEol(e)
    ensures Blank(e)
  {
    if e != [] {
      EolIsBlank(e[1..]);
    }
  }

  lemma BlockOffParts()
    ensures BLOCK_OFF == Assignment([] + BLOCK_KEY + " ", " " + "0")
  {
  }

  lemma OffLineLoads(s: Settings, eol: string)
    requires IsEol(eol)
    ensures ApplyLine(s, BLOCK_OFF + eol) == Off(s)
  {
    BlockKeyIsWord();
    BlockOffParts();
    EolIsBlank(eol);
    OneWordEntry(BLOCK_OFF, BLOCK_KEY, "0", eol);
    ZeroIsOff();
    BlockKeyIsFlag(s, "0");
  }

  lemma ZeroIsOff()
    ensures !Truthy("0")
  {
    assert Lower("0") == "0";
  }

  // A line "key = value" and its terminator.
  lemma OneWordEntry(text: string, key: string, value: string, eol: string)
    requires text == Assignment([] + key + " ", " " + value) && KeyWord(key) && |value| == 1 && Tight(value) && Blank(eol)
    ensures ParseLine(text + eol) == Some(Entry(key, value))
  {
    var space := " ";
    assert Blank(space) && Blank([]);
    EndsInValue([] + key + space, space, value, eol);
    AssignmentParses([], key, space, space, value, eol);
  }

  lemma EolOfIsEol(line: string)
    ensures IsEol(EolOf(line))
  {
    var eol := LineParts(line);
    EolOfParts(line, eol);
  }

  lemma BlockLineLoads(s: Settings, line: string)
    requires IsBlockLine(line)
    ensures ApplyLine(s, ResetLine(line)) == Off(s)
    ensures Off(ApplyLine(s, line)) == Off(s)
  {
    BlockKeyIsWord();
    FixerThenLoader(line, BLOCK_KEY);
    var val := TrimRight(KeyRest(StripEol(line), BLOCK_KEY).value);
    BlockKeyIsFlag(s, val);
    SetTwice(s, Truthy(val));
    EolOfIsEol(line);
    OffLineLoads(s, EolOf(line));
  }

  lemma OtherLineLoads(s: Settings, line: string)
    requires !IsBlockLine(line)
    ensures ApplyLine(Off(s), line) == Off(ApplyLine(s, line))
  {
    match ParseLine(line)
    case None =>
    case Some(e) =>
      if e.key != BLOCK_KEY {
        OtherKeysKeepFlag(s, e, BLOCK_KEY, false);
      } else {
        UnseenBlockIsOff(line);
        BlockKeyIsFlag(s, e.val);
        BlockKeyIsFlag(Off(s), e.val);
      }
  }

  // A block_cloud entry the fixer does not see is not truthy.
  lemma UnseenBlockIsOff(line: string)
    requires !IsBlockLine(line) && ParseLine(line).Some? && ParseLine(line).value.key == BLOCK_KEY
    ensures !Truthy(ParseLine(line).value.val)
  {
    if Truthy(ParseLine(line).value.val) {
      TruthyIsSolid(ParseLine(line).value.val);
      BlockKeyIsWord();
      LoaderThenFixer(line, BLOCK_KEY);
    }
  }

  lemma {:induction false} ResetFromOff(s: Settings, lines: seq<string>)
    ensures ApplyAll(Off(s), ResetAll(lines)) == Off(ApplyAll(s, lines))
    decreases |lines|
  {
    if lines != [] {
      var line := lines[0];
      if IsBlockLine(line) {
        BlockLineLoads(Off(s), line);
        BlockLineLoads(s, line);
        SetTwice(s, false);
      } else {
        OtherLineLoads(s, line);
      }
      assert ResetAll(lines)[1..] == ResetAll(lines[1..]);
      ResetFromOff(ApplyLine(s, line), lines[1..]);
    }
  }

  lemma {:induction false} ResetLoads(s: Settings, lines: seq<string>)
    requires HasBlock(lines)
    ensures ApplyAll(s, ResetAll(lines)) == Off(ApplyAll(s, lines))
    decreases |lines|
  {
    var line := lines[0];
    assert ResetAll(lines)[1..] == ResetAll(lines[1..]);
    if IsBlockLine(line) {
      BlockLineLoads(s, line);
      ResetFromOff(ApplyLine(s, line), lines[1..]);
    } else {
      ResetLoads(ApplyLine(s, line), lines[1..]);
    }
  }

  lemma BlankLineLoads(s: Settings)
    ensures ApplyLine(s, "\n") == s
  {
  }

  lemma {:induction false} RoomLoads(s: Settings, lines: seq<string>)
    requires Lined(lines)
    ensures ApplyAll(s, Room(lines)) == ApplyAll(s, lines)
    decreases |lines|
  {
    if |lines| == 1 {
      LineFeedAdded(lines[0]);
      BlankLineLoads(ApplyLine(s, lines[0]));
      var last := Closed(lines[0]);
      ApplyAllConcat(s, [last], ["\n"]);
      assert [last] + [] == [last] && lines[1..] == [] && [last][1..] == [] && ["\n"][1..] == [];
    } else if lines != [] {
      RoomLoads(ApplyLine(s, lines[0]), lines[1..]);
      assert Room(lines)[1..] == Room(lines[1..]);
    }
  }

  lemma HeaderLoads(s: Settings)
    ensures ApplyAll(s, HeaderLines()) == Off(s)
  {
    var h := HeaderLines();
    assert h[0][0] == '#' && h[1][0] == '#';
    assert h[1..][1..] == [h[2]] && h[1..][0] == h[1] && h[2..] == [h[2]] && [h[2]][1..] == [];
    assert ApplyAll(s, h) == ApplyAll(s, h[1..]) == ApplyAll(s, [h[2]]);
    OffLineLoads(s, "\n");
  }

  lemma {:induction false} ResetKeepsLines(lines: seq<string>)
    requires Lined(lines)
    ensures Lined(ResetAll(lines))
  {
    if lines != [] {
      ResetKeepsLines(lines[1..]);
      ResetIsLine(lines[0]);
      assert ResetAll(lines)[1..] == ResetAll(lines[1..]);
    }
  }

  lemma ResetIsLine(line: string)
    requires IsLine(line)
    ensures IsLine(ResetLine(line)) && (Ended(line) ==> Ended(ResetLine(line)))
  {
    if TurnsCloudOff(line) {
      var eol := LineParts(line);
      EolOfParts(line, eol);
      HeaderTextsHaveNoFeed();
      AbsentFeed(BLOCK_OFF);
      if eol == [] {
        LineWithFeed(BLOCK_OFF);
      } else {
        Respelled(StripEol(line), BLOCK_OFF, eol);
      }
    }
  }

  lemma {:induction false} LinedFlat(lines: seq<string>)
    requires Lined(lines)
    ensures Flat(lines) == lines
  {
    if lines != [] {
      LineSplits(lines[0]);
      LinedFlat(lines[1..]);
    }
  }

  // The lines of the fixed file.
  lemma FixedFileLines(lines: seq<string>)
    requires Lined(lines)
    ensures Shaped(BlockFixed(lines))
    ensures Flat(BlockFixed(lines)) == if HasBlock(lines) then ResetAll(lines) else Flat(Room(lines)) + HeaderLines()
  {
    LinedIsShaped(lines);
    if HasBlock(lines) {
      ResetKeepsLines(lines);
      LinedIsShaped(ResetAll(lines));
      LinedFlat(ResetAll(lines));
    } else {
      RoomShaped(lines);
      AppendShaped(Room(lines), HEADER);
      HeaderSplits();
      FlatConcat(Room(lines), [HEADER]);
      assert Flat([HEADER]) == Split(HEADER) + [] == Split(HEADER);
    }
  }

  lemma {:induction false} RoomFlat(lines: seq<string>)
    requires Lined(lines)
    ensures Flat(Room(lines)) == Room(lines)
  {
    LinedIsShaped(lines);
    RoomLined(lines);
    LinedFlat(Room(lines));
  }

  lemma {:induction false} RoomLined(lines: seq<string>)
    requires Lined(lines)
    ensures Lined(Room(lines))
  {
    if |lines| == 1 {
      if !Ended(lines[0]) {
        UnendedHasNoFeed(lines[0]);
        LineWithFeed(lines[0]);
      }
      assert IsLine("\n") && ["\n"][1..] == [];
      assert Room(lines)[1..] == if StripEol(Closed(lines[0])) == [] then [] else ["\n"];
    } else if lines != [] {
      RoomLined(lines[1..]);
      assert Room(lines)[1..] == Room(lines[1..]);
    }
  }

  // For every file: loading it after the block_cloud fix is loading it before
  // with block_cloud set to false, all other settings as they were.
  lemma FixedFileLoads(data: string)
    ensures Load(Join(BlockFixed(Split(data)))) == Off(Load(data))
  {
    var lines := Split(data);
    SplitIsLined(data);
    FixedFileLines(lines);
    FlatJoin(BlockFixed(lines));
    if HasBlock(lines) {
      ResetLoads(Defaults(), lines);
    } else {
      RoomFlat(lines);
      RoomLoads(Defaults(), lines);
      ApplyAllConcat(Defaults(), Room(lines), HeaderLines());
      HeaderLoads(ApplyAll(Defaults(), Room(lines)));
    }
  }

  // A file reported unchanged already had block_cloud off.
  lemma UnchangedMeansOff(data: string)
    requires BlockOutcome(Split(data)) == Unchanged
    ensures Join(BlockFixed(Split(data))) == data && Load(data) == Off(Load(data))
  {
    NothingToReset(Split(data));
    JoinSplit(data);
    FixedFileLoads(data);
  }

  lemma {:induction false} NothingToReset(lines: seq<string>)
    requires !AnyOff(lines)
    ensures ResetAll(lines) == lines
  {
    if lines != [] {
      NothingToReset(lines[1..]);
    }
  }
}
