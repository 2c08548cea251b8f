// What the result of ensure_conf_fixes says (include/obn/config.hpp:175-201),
// byte by byte, by the edits made to the lines of the file.
module ConfigReport {
  import opened Text
  import opened ConfigText
  import opened ConfigFixer
  import opened ConfigVector
  import opened ConfigAgreement
  import opened ConfigRuns

  // ---- A fix that reports an edit has made one ----

  lemma {:induction false} RoomIsLonger(lines: seq<string>)
    ensures |Room(lines)| >= |lines|
  {
    if |lines| > 1 {
      RoomIsLonger(lines[1..]);
    }
  }

  lemma {:induction false} ResetKeepsLength(lines: seq<string>)
    ensures |ResetAll(lines)| == |lines|
  {
    if lines != [] {
      ResetKeepsLength(lines[1..]);
    }
  }

  lemma BlockEdits(lines: seq<string>)
    ensures BlockOutcome(lines) == Appended <==> |BlockFixed(lines)| > |lines|
    ensures BlockOutcome(lines) == Unchanged <==> BlockFixed(lines) == lines
  {
    RoomIsLonger(lines);
    ResetKeepsLength(lines);
    ResetSettles(lines);
    if !AnyOff(lines) { NothingToReset(lines); }
  }

  lemma {:induction false} BlockLines(lines: seq<string>)
    ensures HasBlock(lines) <==> exists i :: 0 <= i < |lines| && IsBlockLine(lines[i])
    ensures AnyOff(lines) <==> exists i :: 0 <= i < |lines| && TurnsCloudOff(lines[i])
  {
    hide IsBlockLine, TurnsCloudOff;
    if lines != [] {
      BlockLines(lines[1..]);
      assert forall i :: 1 <= i < |lines| ==> lines[i] == lines[1..][i - 1];
    }
  }

  lemma OneWritten(line: string, span: Span)
    requires span.start < span.end <= |StripEol(line)|
    ensures var edited := WithValue(line, span, "1");
      |edited| == |line| - (span.end - span.start) + 1 && span.start < |edited| && edited[span.start] == '1'
    ensures span.end == span.start + 1 && WithValue(line, span, "1") == line ==> KeyValue(line, span) == "1"
  {
    StripEolFits(line);
  }

  lemma NewValueShows(line: string)
    requires KeySpan(line, LOG_KEY).Some? && LogLineOn(line) == line
    ensures Truthy(KeyValue(line, KeySpan(line, LOG_KEY).value))
  {
    OneWritten(line, KeySpan(line, LOG_KEY).value);
    assert Lower("1") == "1";
    hide KeySpan, WithValue, KeyValue, StripEol, Lower;
  }

  lemma {:induction false} LogEdits(lines: seq<string>)
    requires NeedsLog(lines)
    ensures FirstLogOn(lines) != lines
  {
    var rest := FirstLogOn(lines[1..]);
    if KeySpan(lines[0], LOG_KEY).Some? {
      if FirstLogOn(lines) == lines { NewValueShows(lines[0]); }
    } else {
      LogEdits(lines[1..]);
      assert ([lines[0]] + rest)[1..] == rest;
    }
  }

  lemma LogReports(lines: seq<string>, isNew: bool)
    ensures LogFixed(lines, isNew) != lines <==> !HasKey(lines, LOG_KEY) || (isNew && NeedsLog(lines))
  {
    RoomIsLonger(lines);
    if HasKey(lines, LOG_KEY) && isNew {
      if NeedsLog(lines) { LogEdits(lines); } else { LogAlreadyOn(lines); }
    }
  }

  lemma ClientReports(lines: seq<string>)
    requires Shaped(lines)
    ensures ClientFixed(lines) != lines <==> NeedsClient(lines)
  {
    ClientFixSettles(lines);
    if !NeedsClient(lines) { ClientAlreadyFine(lines); }
  }

  // ---- The bytes ----

  function Byte(rc: int, k: nat): int {
    if k == 0 then rc % 256 else if k == 1 then rc / 256 % 256 else rc / 65536
  }

  lemma BytesOf(o: int, l: int, c: int)
    requires 0 <= o < 256 && 0 <= l < 256
    ensures var rc := o + 256 * l + 65536 * c; Byte(rc, 0) == o && Byte(rc, 1) == l && Byte(rc, 2) == c
  {
  }

  // Byte 0 is 1 exactly when the call made the file. Otherwise it is 0 when the
  // block fix changed no line, 2 when it rewrote some, 3 when it added some;
  // and that is when there was a line of the key with a truthy value, and when
  // there was no line of the key. Bytes 1 and 2 are 1 exactly when the log fix
  // and the client fix changed the lines they were given, else 0. The file is
  // written exactly when one of the three did.
  lemma ReportSays(data: string, isNew: bool)
    ensures var rc, lines := ResultCode(data, isNew), Split(data);
      var a := BlockFixed(lines);
      var b := LogFixed(a, isNew);
      && (Byte(rc, 0) == 1 <==> isNew)
      && (!isNew ==>
            && (Byte(rc, 0) == 0 <==> a == lines)
            && (Byte(rc, 0) == 2 <==> a != lines && |a| == |lines|)
            && (Byte(rc, 0) == 2 <==> exists i :: 0 <= i < |lines| && TurnsCloudOff(lines[i]))
            && (Byte(rc, 0) == 3 <==> |a| > |lines|)
            && (Byte(rc, 0) == 3 <==> forall i :: 0 <= i < |lines| ==> !IsBlockLine(lines[i])))
      && Byte(rc, 1) == (if b != a then 1 else 0)
      && Byte(rc, 2) == (if ClientFixed(b) != b then 1 else 0)
      && (NeedsFixing(data, isNew) <==> a != lines || b != a || ClientFixed(b) != b)
  {
    var lines := Split(data);
    var a := BlockFixed(lines);
    var b := LogFixed(a, isNew);
    SplitIsLined(data);
    BlockFixSettles(lines);
    LogFixSettles(a, isNew);
    LogReports(a, isNew);
    ClientReports(b);
    BlockEdits(lines);
    ReportParts(data, isNew);
    hide *;
    BlockSays(lines);
  }

  lemma ReportParts(data: string, isNew: bool)
    ensures var rc, lines := ResultCode(data, isNew), Split(data);
      var a := BlockFixed(lines);
      && (Byte(rc, 0) == 1 <==> isNew)
      && (!isNew ==> Byte(rc, 0) == OutcomeCode(BlockOutcome(lines)))
      && Byte(rc, 1) == (if !HasKey(a, LOG_KEY) || (isNew && NeedsLog(a)) then 1 else 0)
      && Byte(rc, 2) == (if NeedsClient(LogFixed(a, isNew)) then 1 else 0)
  {
    hide BlockFixed, LogFixed, HasKey, NeedsLog, NeedsClient, Byte, Split, HasBlock, AnyOff;
    var a := BlockFixed(Split(data));
    BytesOf(OutcomeCode(if isNew then Created else BlockOutcome(Split(data))),
            if !HasKey(a, LOG_KEY) || (isNew && NeedsLog(a)) then 1 else 0,
            if NeedsClient(LogFixed(a, isNew)) then 1 else 0);
  }

  lemma BlockSays(lines: seq<string>)
    ensures var a, code := BlockFixed(lines), OutcomeCode(BlockOutcome(lines));
      && (code == 0 <==> a == lines)
      && (code == 2 <==> a != lines && |a| == |lines|)
      && (code == 2 <==> exists i :: 0 <= i < |lines| && TurnsCloudOff(lines[i]))
      && (code == 3 <==> |a| > |lines|)
      && (code == 3 <==> forall i :: 0 <= i < |lines| ==> !IsBlockLine(lines[i]))
  {
    hide IsBlockLine, TurnsCloudOff, BlockFixed;
    BlockEdits(lines);
    BlockLines(lines);
    BlockIsCovered(lines);
    if HasBlock(lines) { SameLength(lines); }
  }

  lemma SameLength(lines: seq<string>)
    requires HasBlock(lines)
    ensures |BlockFixed(lines)| == |lines|
  {
    ResetKeepsLength(lines);
  }

  // ---- What is appended ----

  // What is put between the old text and a new block: a line feed when the last
  // line has none, and an empty line unless the last one is empty.
  function Bridge(lines: seq<string>): string {
    if lines == [] then ""
    else (if Ended(Last(lines)) then "" else "\n") + (if StripEol(Last(lines)) == "" then "" else "\n")
  }

  lemma {:induction false} RoomJoins(lines: seq<string>)
    ensures Join(Room(lines)) == Join(lines) + Bridge(lines)
  {
    if |lines| == 1 {
      ClosedContent(lines[0]);
      OneLine(lines[0]);
    } else if lines != [] {
      RoomJoins(lines[1..]);
      assert Last(lines) == Last(lines[1..]);
      assert Room(lines)[1..] == Room(lines[1..]);
    }
  }

  lemma OneLine(line: string)
    ensures Join([line]) == line && Join([line, "\n"]) == line + "\n"
  {
    assert [line][1..] == [] && [line, "\n"][1..] == ["\n"] && ["\n"][1..] == [];
    assert line + [] == line && "\n" + [] == "\n";
  }

  lemma {:induction false} JoinConcat(a: seq<string>, b: seq<string>)
    ensures Join(a + b) == Join(a) + Join(b)
  {
    if a == [] {
      assert a + b == b;
    } else {
      assert (a + b)[1..] == a[1..] + b;
      JoinConcat(a[1..], b);
      Assoc(a[0], Join(a[1..]), Join(b));
    }
  }

  // A file without a line of the key keeps its text and gets the block behind it.
  lemma BlockIsAppended(data: string)
    requires forall i :: 0 <= i < |Split(data)| ==> !IsBlockLine(Split(data)[i])
    ensures Join(BlockFixed(Split(data))) == data + Bridge(Split(data)) + HEADER
  {
    hide IsBlockLine, Bridge, Room;
    BlockLines(Split(data));
    JoinSplit(data);
    RoomJoins(Split(data));
    JoinConcat(Room(Split(data)), [HEADER]);
    assert Join([HEADER]) == HEADER by { OneLine(HEADER); }
  }
}
