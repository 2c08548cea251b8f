// Whole runs of the repair (src/config.cpp:432-466): a second run finds
// nothing to do, and what the first one may have touched.
module ConfigRuns {
  import opened Text
  import opened ConfigText
  import opened ConfigLoader
  import opened ConfigFixer
  import opened ConfigVector
  import opened ConfigAgreement
  import opened ConfigStability

  // The written file will have a block_cloud line.
  predicate Covered(lines: seq<string>) {
    lines != [] && (IsBlockLine(lines[0]) || lines[0] == HEADER || Covered(lines[1..]))
  }

  // ---- What the fixes see of the lines in the file ----

  lemma Prepended(e: string, rest: seq<string>)
    ensures HasBlock([e] + rest) == (IsBlockLine(e) || HasBlock(rest))
    ensures AnyOff([e] + rest) == (TurnsCloudOff(e) || AnyOff(rest))
    ensures HasKey([e] + rest, LOG_KEY) == (IsLogLine(e) || HasKey(rest, LOG_KEY))
    ensures NeedsClient([e] + rest) == if IsClientLine(e) then ShippedClient(e) else NeedsClient(rest)
  {
    assert ([e] + rest)[1..] == rest;
  }

  lemma CommentUnseen(e: string)
    requires e != [] && e[0] == '#'
    ensures !IsBlockLine(e) && !IsLogLine(e) && !IsClientLine(e)
  {
    CommentIsNoKey(e, BLOCK_KEY);
    CommentIsNoKey(e, LOG_KEY);
    CommentIsNoKey(e, CLIENT_KEY);
  }

  lemma BlankUnseen()
    ensures !IsBlockLine("\n") && !IsLogLine("\n") && !IsClientLine("\n")
  {
    BlankIsNoKey(BLOCK_KEY);
    BlankIsNoKey(LOG_KEY);
    BlankIsNoKey(CLIENT_KEY);
  }

  lemma HeaderStarts()
    ensures HEADER[0] == '#' && (HEADER_TEXT1 + "\n")[0] == '#' && (HEADER_TEXT2 + "\n")[0] == '#'
  {
  }

  lemma ConcatHeader(rest: seq<string>)
    ensures HeaderLines() + rest ==
      [HEADER_TEXT1 + "\n"] + ([HEADER_TEXT2 + "\n"] + ([BLOCK_OFF + "\n"] + rest))
  {
  }

  lemma HeaderPrepended(rest: seq<string>)
    ensures var all := HeaderLines() + rest;
      HasBlock(all) && AnyOff(all) == AnyOff(rest) &&
      HasKey(all, LOG_KEY) == HasKey(rest, LOG_KEY) && NeedsClient(all) == NeedsClient(rest)
  {
    HeaderStarts();
    ConcatHeader(rest);
    var third := [BLOCK_OFF + "\n"] + rest;
    OffLineIsSettled("\n");
    BlockLineIsNoOther(BLOCK_OFF + "\n");
    Prepended(BLOCK_OFF + "\n", rest);
    CommentUnseen(HEADER_TEXT2 + "\n");
    Prepended(HEADER_TEXT2 + "\n", third);
    CommentUnseen(HEADER_TEXT1 + "\n");
    Prepended(HEADER_TEXT1 + "\n", [HEADER_TEXT2 + "\n"] + third);
  }

  // The fixes see the same of the vector and of the file written from it.
  lemma {:induction false} SeenFlat(lines: seq<string>)
    requires Shaped(lines)
    ensures HasBlock(Flat(lines)) == Covered(lines) && AnyOff(Flat(lines)) == AnyOff(lines)
    ensures HasKey(Flat(lines), LOG_KEY) == HasKey(lines, LOG_KEY)
    ensures NeedsClient(Flat(lines)) == NeedsClient(lines)
  {
    if lines != [] {
      var e, rest := lines[0], Flat(lines[1..]);
      SeenFlat(lines[1..]);
      if e == HEADER {
        HeaderSplits();
        HeaderStarts();
        CommentUnseen(HEADER);
        HeaderPrepended(rest);
      } else {
        LineSplits(e);
        Prepended(e, rest);
      }
    }
  }

  // ---- What each fix leaves ----

  lemma {:induction false} ResetSettles(lines: seq<string>)
    ensures HasBlock(ResetAll(lines)) == HasBlock(lines) && !AnyOff(ResetAll(lines))
  {
    if lines != [] {
      ResetSettles(lines[1..]);
      if TurnsCloudOff(lines[0]) {
        EolOfIsEol(lines[0]);
        OffLineIsSettled(EolOf(lines[0]));
      }
      Prepended(ResetLine(lines[0]), ResetAll(lines[1..]));
    }
  }

  lemma {:induction false} BlockIsCovered(lines: seq<string>)
    ensures HasBlock(lines) ==> Covered(lines)
    ensures AnyOff(lines) ==> HasBlock(lines)
  {
    if lines != [] {
      BlockIsCovered(lines[1..]);
    }
  }

  lemma ClosedSeen(e: string)
    ensures IsBlockLine(Closed(e)) == IsBlockLine(e) && TurnsCloudOff(Closed(e)) == TurnsCloudOff(e)
    ensures IsLogLine(Closed(e)) == IsLogLine(e)
    ensures e == HEADER ==> Closed(e) == HEADER
  {
    ClosedContent(e);
    HeaderSplits();
  }

  lemma {:induction false} RoomSeen(lines: seq<string>)
    ensures AnyOff(Room(lines)) == AnyOff(lines) && HasKey(Room(lines), LOG_KEY) == HasKey(lines, LOG_KEY)
    ensures Covered(lines) ==> Covered(Room(lines))
  {
    if |lines| == 1 {
      var last := Closed(lines[0]);
      ClosedSeen(lines[0]);
      BlankUnseen();
      assert lines[1..] == [] && ["\n"][1..] == [];
      assert Room(lines)[1..] == if StripEol(last) == [] then [] else ["\n"];
    } else if lines != [] {
      RoomSeen(lines[1..]);
      assert Room(lines)[1..] == Room(lines[1..]);
    }
  }

  lemma {:induction false} AppendedSeen(lines: seq<string>, e: string)
    ensures AnyOff(lines + [e]) == (AnyOff(lines) || TurnsCloudOff(e))
    ensures HasKey(lines + [e], LOG_KEY) == (HasKey(lines, LOG_KEY) || IsLogLine(e))
    ensures Covered(lines + [e]) == (Covered(lines) || IsBlockLine(e) || e == HEADER)
  {
    if lines == [] {
      assert lines + [e] == [e] && [e][1..] == [];
    } else {
      assert (lines + [e])[1..] == lines[1..] + [e];
      AppendedSeen(lines[1..], e);
    }
  }

  lemma BlockFixSettles(lines: seq<string>)
    requires Lined(lines)
    ensures var out := BlockFixed(lines); Shaped(out) && Covered(out) && !AnyOff(out)
  {
    FixedFileLines(lines);
    BlockIsCovered(lines);
    if HasBlock(lines) {
      ResetSettles(lines);
      BlockIsCovered(ResetAll(lines));
    } else {
      RoomSeen(lines);
      HeaderStarts();
      CommentUnseen(HEADER);
      AppendedSeen(Room(lines), HEADER);
    }
  }

  lemma {:induction false} FirstLogSettles(lines: seq<string>)
    requires Shaped(lines) && HasKey(lines, LOG_KEY)
    ensures var out := FirstLogOn(lines);
      Shaped(out) && HasKey(out, LOG_KEY) && AnyOff(out) == AnyOff(lines) && (Covered(lines) ==> Covered(out))
  {
    var e, rest := lines[0], lines[1..];
    if IsLogLine(e) {
      HeaderStarts();
      LogLineIsLine(e);
      LogValueSettles(e);
      LogLineIsNoOther(e);
      LogLineIsNoOther(LogLineOn(e));
      assert ([LogLineOn(e)] + rest)[1..] == rest;
    } else {
      FirstLogSettles(rest);
      assert ([e] + FirstLogOn(rest))[1..] == FirstLogOn(rest);
    }
  }

  lemma LogLineIsLine(e: string)
    requires Piece(e) && (IsLogLine(e) || IsClientLine(e))
    ensures IsLine(e) && e != HEADER
  {
    HeaderStarts();
    if e == HEADER {
      CommentUnseen(e);
    }
  }

  lemma LogFixSettles(lines: seq<string>, isNew: bool)
    requires Shaped(lines) && Covered(lines) && !AnyOff(lines)
    ensures var out := LogFixed(lines, isNew);
      Shaped(out) && Covered(out) && !AnyOff(out) && HasKey(out, LOG_KEY)
  {
    if !HasKey(lines, LOG_KEY) {
      RoomShaped(lines);
      RoomSeen(lines);
      LogOnIsLogLine();
      LogLineIsNoOther(LOG_ON);
      AppendShaped(Room(lines), LOG_ON);
      AppendedSeen(Room(lines), LOG_ON);
    } else {
      FirstLogSettles(lines);
    }
  }

  lemma {:induction false} ClientFixSettles(lines: seq<string>)
    requires Shaped(lines)
    ensures var out := ClientFixed(lines);
      Shaped(out) && !NeedsClient(out) && AnyOff(out) == AnyOff(lines) &&
      HasKey(out, LOG_KEY) == HasKey(lines, LOG_KEY) && (Covered(lines) ==> Covered(out))
  {
    if lines != [] {
      var e, rest := lines[0], lines[1..];
      if !IsClientLine(e) {
        ClientFixSettles(rest);
        assert ([e] + ClientFixed(rest))[1..] == ClientFixed(rest);
      } else if ShippedClient(e) {
        ClientLineSettles(e, rest);
      }
    }
  }

  lemma ClientLineSettles(e: string, rest: seq<string>)
    requires Piece(e) && (rest == [] || Ended(e)) && Shaped(rest) && ShippedClient(e)
    ensures var out := [WithValue(e, KeySpan(e, CLIENT_KEY).value, STOCK_NAME)] + rest;
      Shaped(out) && !NeedsClient(out) && AnyOff(out) == AnyOff([e] + rest) &&
      HasKey(out, LOG_KEY) == HasKey([e] + rest, LOG_KEY) && (Covered([e] + rest) ==> Covered(out))
  {
    var e' := WithValue(e, KeySpan(e, CLIENT_KEY).value, STOCK_NAME);
    LogLineIsLine(e);
    StockNameSettles(e);
    ClientLineIsNoOther(e);
    ClientLineIsNoOther(e');
    Prepended(e', rest);
    Prepended(e, rest);
    assert ([e'] + rest)[1..] == rest && ([e] + rest)[1..] == rest;
  }

  // ---- Running it again ----

  lemma RepairedShape(data: string, isNew: bool)
    ensures var out := FullyFixed(data, isNew);
      Shaped(out) && Covered(out) && !AnyOff(out) && HasKey(out, LOG_KEY) && !NeedsClient(out)
  {
    SplitIsLined(data);
    BlockFixSettles(Split(data));
    LogFixSettles(BlockFixed(Split(data)), isNew);
    ClientFixSettles(LogFixed(BlockFixed(Split(data)), isNew));
  }

  lemma SettledNeedsNothing(data: string)
    requires HasBlock(Split(data)) && !AnyOff(Split(data)) && HasKey(Split(data), LOG_KEY) && !NeedsClient(Split(data))
    ensures !NeedsFixing(data, false) && ResultCode(data, false) == 0
  {
    NothingToReset(Split(data));
  }

  // Whatever the file held, and whether it was there at all, the next run
  // makes no edit and reports none.
  lemma OnceIsEnough(data: string, isNew: bool)
    ensures var out := if NeedsFixing(data, isNew) then Join(FullyFixed(data, isNew)) else data;
      !NeedsFixing(out, false) && ResultCode(out, false) == 0
  {
    if NeedsFixing(data, isNew) {
      var lines := FullyFixed(data, isNew);
      RepairedShape(data, isNew);
      FlatJoin(lines);
      SeenFlat(lines);
      SettledNeedsNothing(Join(lines));
    } else {
      NothingToReset(Split(data));
      if isNew { LogAlreadyOn(Split(data)); }
    }
  }

  lemma {:induction false} LogAlreadyOn(lines: seq<string>)
    requires !NeedsLog(lines)
    ensures FirstLogOn(lines) == lines
  {
    if lines != [] && !IsLogLine(lines[0]) {
      LogAlreadyOn(lines[1..]);
    }
  }

  lemma {:induction false} ClientAlreadyFine(lines: seq<string>)
    requires !NeedsClient(lines)
    ensures ClientFixed(lines) == lines
  {
    if lines != [] && !IsClientLine(lines[0]) {
      ClientAlreadyFine(lines[1..]);
    }
  }
}
