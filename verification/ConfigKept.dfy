// What one repair of an existing obn.conf keeps (src/config.cpp:279-395): every
// line not about a repaired key byte for byte, and every other setting.
module ConfigKept {
  import opened Text
  import opened ConfigText
  import opened ConfigLoader
  import opened ConfigFixer
  import opened ConfigVector
  import opened ConfigAgreement
  import opened ConfigStability
  import opened ConfigRuns

  // ---- Lines ----

  // All a repair may do to a line of an existing file: nothing, switch
  // block_cloud off, or, in the first line about the client, name the stock
  // client.
  predicate LineEdit(p: string, q: string, first: bool) {
    || q == p
    || (TurnsCloudOff(p) && q == BLOCK_OFF + EolOf(p))
    || (first && ShippedClient(p) && q == WithValue(p, KeySpan(p, CLIENT_KEY).value, STOCK_NAME))
  }

  // The last line may also get the line feed it lacks.
  predicate LastEdit(p: string, q: string, first: bool) {
    LineEdit(p, q, first) || (q != [] && !Ended(q[..|q| - 1]) && LineEdit(p, q[..|q| - 1], first) && Ended(q))
  }

  predicate OnlyNewLines(lines: seq<string>) {
    lines == [] ||
    ((lines[0] == "\n" || lines[0] == HEADER || lines[0] == LOG_ON) && OnlyNewLines(lines[1..]))
  }

  // `after` is `before` with edited lines, and new lines behind it; `first`
  // says that no line before these was about the client.
  predicate Edited(before: seq<string>, after: seq<string>, first: bool)
    decreases |before|
  {
    if before == [] then OnlyNewLines(after)
    else
      after != [] && Edited(before[1..], after[1..], first && !IsClientLine(before[0])) &&
      if |before| == 1 then LastEdit(before[0], after[0], first) else LineEdit(before[0], after[0], first)
  }

  lemma {:induction false} EditedAtFirst(before: seq<string>, after: seq<string>)
    requires Edited(before, after, false)
    ensures Edited(before, after, true)
    decreases |before|
  {
    if before != [] && !IsClientLine(before[0]) {
      EditedAtFirst(before[1..], after[1..]);
    }
  }

  lemma {:induction false} ResetEdits(lines: seq<string>)
    ensures Edited(lines, ResetAll(lines), false)
  {
    if lines != [] {
      ResetEdits(lines[1..]);
      assert ResetAll(lines)[1..] == ResetAll(lines[1..]);
    }
  }

  lemma {:induction false} NewLinesConcat(a: seq<string>, b: seq<string>)
    requires OnlyNewLines(a) && OnlyNewLines(b)
    ensures OnlyNewLines(a + b)
  {
    if a == [] {
      assert a + b == b;
    } else {
      assert (a + b)[1..] == a[1..] + b;
      NewLinesConcat(a[1..], b);
    }
  }

  lemma NewLine(e: string)
    requires e == "\n" || e == HEADER || e == LOG_ON
    ensures OnlyNewLines([e])
  {
    assert [e][1..] == [];
  }

  lemma {:induction false} EditedThenAppended(before: seq<string>, after: seq<string>, e: string)
    requires Edited(before, after, false) && (e == "\n" || e == HEADER || e == LOG_ON)
    ensures Edited(before, after + [e], false)
    decreases |before|
  {
    if before == [] {
      NewLine(e);
      NewLinesConcat(after, [e]);
    } else {
      assert (after + [e])[1..] == after[1..] + [e];
      EditedThenAppended(before[1..], after[1..], e);
    }
  }

  lemma NewLineIsEnded(e: string)
    requires e == "\n" || e == HEADER || e == LOG_ON
    ensures Ended(e)
  {
    HeaderSplits();
  }

  lemma {:induction false} RoomOfNewLines(lines: seq<string>)
    requires OnlyNewLines(lines)
    ensures OnlyNewLines(Room(lines))
  {
    if |lines| == 1 {
      NewLineIsEnded(lines[0]);
      NewLine("\n");
      assert Room(lines)[1..] == [] || Room(lines)[1..] == ["\n"];
    } else if lines != [] {
      RoomOfNewLines(lines[1..]);
      assert Room(lines)[1..] == Room(lines[1..]);
    }
  }

  // A vector whose lines but the last are ended.
  lemma {:induction false} RoomEdits(before: seq<string>, after: seq<string>)
    requires Edited(before, after, false) && Shaped(after)
    ensures Edited(before, Room(after), false)
    decreases |before|
  {
    if before == [] {
      RoomOfNewLines(after);
    } else if |after| > 1 {
      RoomEdits(before[1..], after[1..]);
      assert Room(after)[1..] == Room(after[1..]);
    } else {
      assert after[1..] == [];
      assert before[1..] == [];
      var q := after[0];
      if !Ended(q) {
        assert (q + "\n")[..|q + "\n"| - 1] == q;
        assert LineEdit(before[0], q, false);
      }
      NewLine("\n");
      assert OnlyNewLines([]);
      assert Room(after)[1..] == [] || Room(after)[1..] == ["\n"];
    }
  }

  lemma NewLineIsNoClient(e: string)
    requires e == "\n" || e == HEADER || e == LOG_ON
    ensures !IsClientLine(e)
  {
    BlankUnseen();
    HeaderStarts();
    CommentUnseen(HEADER);
    LogOnIsLogLine();
    LogLineIsNoOther(LOG_ON);
  }

  lemma {:induction false} NewLinesHaveNoClient(lines: seq<string>)
    requires OnlyNewLines(lines)
    ensures ClientFixed(lines) == lines
  {
    if lines != [] {
      NewLineIsNoClient(lines[0]);
      NewLinesHaveNoClient(lines[1..]);
    }
  }

  // Switching block_cloud off makes no line one about the client.
  lemma ClientLineStays(p: string, q: string)
    requires IsLine(p) && LineEdit(p, q, false)
    ensures IsClientLine(q) == IsClientLine(p) && (IsClientLine(q) ==> q == p)
  {
    if q != p {
      EolOfIsEol(p);
      OffLineIsSettled(EolOf(p));
      BlockLineIsNoOther(q);
      BlockLineIsNoOther(p);
    }
  }

  lemma LastClientLineStays(p: string, q: string)
    requires IsLine(p) && LastEdit(p, q, false)
    ensures IsClientLine(q) == IsClientLine(p)
    ensures IsClientLine(q) ==> q == p || (q == Closed(p) && !Ended(p) && StripEol(q) == StripEol(p))
  {
    if LineEdit(p, q, false) {
      ClientLineStays(p, q);
    } else {
      var q' := q[..|q| - 1];
      assert q == q' + "\n" == Closed(q');
      ClosedContent(q');
      ClientLineStays(p, q');
    }
  }

  lemma LineFeedBehindValue(p: string, span: Span, value: string)
    requires span.start <= span.end <= |StripEol(p)| && StripEol(p + "\n") == StripEol(p)
    ensures WithValue(p + "\n", span, value) == WithValue(p, span, value) + "\n"
  {
    StripEolFits(p);
    Tail(p, "\n", span.start, span.end);
  }

  lemma ClientEdit(p: string, q: string, last: bool)
    requires IsLine(p) && ShippedClient(q) && if last then LastEdit(p, q, false) else LineEdit(p, q, false)
    ensures var e := WithValue(q, KeySpan(q, CLIENT_KEY).value, STOCK_NAME);
      if last then LastEdit(p, e, true) else LineEdit(p, e, true)
  {
    if last { LastClientLineStays(p, q); } else { ClientLineStays(p, q); }
    if q != p { ClosedClientEdit(p); }
  }

  lemma ClosedClientEdit(p: string)
    requires IsLine(p) && !Ended(p) && ShippedClient(p) && StripEol(p + "\n") == StripEol(p)
    ensures LastEdit(p, WithValue(p + "\n", KeySpan(p, CLIENT_KEY).value, STOCK_NAME), true)
  {
    LineFeedBehindValue(p, KeySpan(p, CLIENT_KEY).value, STOCK_NAME);
    StockNameSettles(p);
    var e := WithValue(p, KeySpan(p, CLIENT_KEY).value, STOCK_NAME);
    assert (e + "\n")[..|e + "\n"| - 1] == e;
    assert LineEdit(p, e, true);
  }

  lemma {:induction false} ClientEdits(before: seq<string>, after: seq<string>)
    requires Lined(before) && Edited(before, after, false)
    ensures Edited(before, ClientFixed(after), true)
    decreases |before|
  {
    if before == [] {
      NewLinesHaveNoClient(after);
    } else {
      var p, q, rest, last := before[0], after[0], after[1..], |before| == 1;
      if last { LastClientLineStays(p, q); } else { ClientLineStays(p, q); }
      if !IsClientLine(q) {
        ClientEdits(before[1..], rest);
        assert ([q] + ClientFixed(rest))[1..] == ClientFixed(rest);
      } else if ShippedClient(q) {
        ClientEdit(p, q, last);
        var e := WithValue(q, KeySpan(q, CLIENT_KEY).value, STOCK_NAME);
        assert ([e] + rest)[1..] == rest;
      } else {
        EditedAtFirst(before, after);
      }
    }
  }

  // One repair of an existing file, line by line.
  lemma RepairKeepsLines(data: string)
    ensures Edited(Split(data), FullyFixed(data, false), true)
  {
    var lines := Split(data);
    SplitIsLined(data);
    LinedIsShaped(lines);
    BlockFixSettles(lines);
    if HasBlock(lines) {
      ResetEdits(lines);
    } else {
      Unedited(lines);
      RoomEdits(lines, lines);
      EditedThenAppended(lines, Room(lines), HEADER);
    }
    var a := BlockFixed(lines);
    if !HasKey(a, LOG_KEY) {
      RoomEdits(lines, a);
      EditedThenAppended(lines, Room(a), LOG_ON);
    }
    ClientEdits(lines, LogFixed(a, false));
  }

  lemma {:induction false} Unedited(lines: seq<string>)
    ensures Edited(lines, lines, false)
  {
    if lines != [] {
      Unedited(lines[1..]);
    }
  }

  // ---- Settings ----

  // A line that sets the key for the loader.
  predicate SetsText(line: string, key: string) {
    var e := ParseLine(line);
    e.Some? && e.value.key == key
  }

  predicate AnySetsText(lines: seq<string>, key: string) {
    lines != [] && (SetsText(lines[0], key) || AnySetsText(lines[1..], key))
  }

  // The two keys whose values are repaired.
  predicate RepairedKey(key: string) { key == LOG_KEY || key == CLIENT_KEY }

  lemma RepairedKeyIsText(s: Settings, key: string, val: string)
    requires RepairedKey(key)
    ensures KeyWord(key) && ApplyKey(s, key, val) == s.WithText(key, val)
  {
    LogKeyIsWord();
    ClientKeyIsWord();
    assert LOG_KEY in TEXT_KEYS && CLIENT_KEY in TEXT_KEYS;
  }

  lemma SetTwice(s: Settings, key: string, a: string, b: string)
    ensures s.WithText(key, a).WithText(key, b) == s.WithText(key, b)
  {
    assert s.texts[key := a][key := b] == s.texts[key := b];
  }

  lemma TextAtLine(s: Settings, key: string, val: string, line: string)
    requires RepairedKey(key)
    ensures ApplyLine(s.WithText(key, val), line) ==
      if SetsText(line, key) then ApplyLine(s, line) else ApplyLine(s, line).WithText(key, val)
  {
    hide ApplyKey, RepairedKey;
    match ParseLine(line)
    case None =>
    case Some(e) =>
      if e.key == key {
        RepairedKeyIsText(s, key, e.val);
        RepairedKeyIsText(s.WithText(key, val), key, e.val);
        SetTwice(s, key, val, e.val);
      } else {
        OtherKeysKeepText(s, e, key, val);
      }
  }

  // A value set before these lines counts unless one of them sets the key.
  lemma {:induction false} TextCarries(s: Settings, key: string, val: string, lines: seq<string>)
    requires RepairedKey(key)
    ensures ApplyAll(s.WithText(key, val), lines) ==
      if AnySetsText(lines, key) then ApplyAll(s, lines) else ApplyAll(s, lines).WithText(key, val)
    decreases |lines|
  {
    hide ApplyLine, SetsText, RepairedKey;
    if lines != [] {
      TextAtLine(s, key, val, lines[0]);
      if !SetsText(lines[0], key) {
        TextCarries(ApplyLine(s, lines[0]), key, val, lines[1..]);
      }
    }
  }

  lemma KeyLineLoads(s: Settings, key: string, line: string)
    requires RepairedKey(key) && KeyRest(StripEol(line), key).Some?
    ensures ApplyLine(s, line) == s.WithText(key, TrimRight(KeyRest(StripEol(line), key).value))
  {
    hide RepairedKey;
    var val := TrimRight(KeyRest(StripEol(line), key).value);
    RepairedKeyIsText(s, key, val);
    FixerThenLoader(line, key);
  }

  // The first line of the key, and what stands behind it.
  function FirstOf(lines: seq<string>, key: string): (r: string)
    requires HasKey(lines, key)
    ensures KeySpan(r, key).Some?
  {
    if KeySpan(lines[0], key).Some? then lines[0] else FirstOf(lines[1..], key)
  }

  function Behind(lines: seq<string>, key: string): seq<string>
    requires HasKey(lines, key)
  {
    if KeySpan(lines[0], key).Some? then lines[1..] else Behind(lines[1..], key)
  }

  // The value as the loader reads it once another is written over the first
  // word of the old one: what stood behind that word, a comment say, still
  // belongs to it.
  function NewText(line: string, key: string, value: string): string
    requires KeySpan(line, key).Some?
  {
    TrimRight(value + StripEol(line)[KeySpan(line, key).value.end..])
  }

  lemma {:induction false} NeededIsThere(lines: seq<string>)
    ensures NeedsClient(lines) ==> HasKey(lines, CLIENT_KEY)
    ensures NeedsLog(lines) ==> HasKey(lines, LOG_KEY)
  {
    if lines != [] {
      NeededIsThere(lines[1..]);
    }
  }

  // What writing the value over that of the first line of the key makes of the
  // settings.
  function Resettled(t: Settings, lines: seq<string>, key: string, value: string): Settings
    requires HasKey(lines, key)
  {
    if AnySetsText(Flat(Behind(lines, key)), key) then t
    else t.WithText(key, NewText(FirstOf(lines, key), key, value))
  }

  lemma FirstValueLoads(s: Settings, e: string, rest: seq<string>, key: string, value: string)
    requires IsLine(e) && KeySpan(e, key).Some? && RepairedKey(key) && PlainWord(value) && value != []
    ensures ApplyAll(s, Flat([WithValue(e, KeySpan(e, key).value, value)] + rest)) ==
      var t := ApplyAll(s, Flat([e] + rest));
      if AnySetsText(Flat(rest), key) then t else t.WithText(key, NewText(e, key, value))
  {
    hide RepairedKey, ApplyLine, ApplyAll, WithValue, AnySetsText, TrimRight, StripEol, PlainWord;
    var e' := WithValue(e, KeySpan(e, key).value, value);
    var was := TrimRight(KeyRest(StripEol(e), key).value);
    RepairedKeyIsText(s, key, value);
    Rewritten(e, key, value);
    FlatOfLine(e, rest);
    FlatOfLine(e', rest);
    KeyLineLoads(s, key, e);
    KeyLineLoads(s, key, e');
    SameTail(s, e, Flat(rest));
    SameTail(s, e', Flat(rest));
    TextCarries(s, key, was, Flat(rest));
    TextCarries(s, key, NewText(e, key, value), Flat(rest));
    SetTwice(ApplyAll(s, Flat(rest)), key, was, NewText(e, key, value));
  }

  lemma {:induction false} ClientFixLoads(s: Settings, lines: seq<string>)
    requires Shaped(lines) && NeedsClient(lines) && HasKey(lines, CLIENT_KEY)
    ensures ApplyAll(s, Flat(ClientFixed(lines))) ==
      Resettled(ApplyAll(s, Flat(lines)), lines, CLIENT_KEY, STOCK_NAME)
    decreases |lines|
  {
    hide FirstOf, Behind, NewText;
    var e, rest := lines[0], lines[1..];
    FirstOrLater(lines, CLIENT_KEY);
    if IsClientLine(e) {
      LogLineIsLine(e);
      StockNameFacts();
      FirstValueLoads(s, e, rest, CLIENT_KEY, STOCK_NAME);
      assert lines == [e] + rest;
    } else {
      LaterEditLoads(s, e, ClientFixed(rest), rest);
      ClientFixLoads(ApplyAll(s, Split(e)), rest);
    }
  }

  lemma {:induction false} LogOnLineLoads(s: Settings, lines: seq<string>)
    requires Shaped(lines) && NeedsLog(lines) && HasKey(lines, LOG_KEY)
    ensures ApplyAll(s, Flat(FirstLogOn(lines))) == Resettled(ApplyAll(s, Flat(lines)), lines, LOG_KEY, "1")
    decreases |lines|
  {
    hide FirstOf, Behind, NewText;
    var e, rest := lines[0], lines[1..];
    FirstOrLater(lines, LOG_KEY);
    if IsLogLine(e) {
      LogLineIsLine(e);
      assert PlainWord("1");
      FirstValueLoads(s, e, rest, LOG_KEY, "1");
      assert lines == [e] + rest;
    } else {
      LaterEditLoads(s, e, FirstLogOn(rest), rest);
      LogOnLineLoads(ApplyAll(s, Split(e)), rest);
    }
  }

  lemma FirstOrLater(lines: seq<string>, key: string)
    requires HasKey(lines, key)
    ensures KeySpan(lines[0], key).Some? ==> FirstOf(lines, key) == lines[0] && Behind(lines, key) == lines[1..]
    ensures KeySpan(lines[0], key).None? ==>
      HasKey(lines[1..], key) && FirstOf(lines, key) == FirstOf(lines[1..], key) && Behind(lines, key) == Behind(lines[1..], key)
  {
  }

  lemma LaterEditLoads(s: Settings, e: string, after: seq<string>, before: seq<string>)
    ensures ApplyAll(s, Flat([e] + after)) == ApplyAll(ApplyAll(s, Split(e)), Flat(after))
    ensures ApplyAll(s, Flat([e] + before)) == ApplyAll(ApplyAll(s, Split(e)), Flat(before))
  {
    assert ([e] + after)[1..] == after && ([e] + before)[1..] == before;
    ApplyAllConcat(s, Split(e), Flat(after));
    ApplyAllConcat(s, Split(e), Flat(before));
  }

  lemma FlatOfLine(e: string, rest: seq<string>)
    requires IsLine(e)
    ensures Flat([e] + rest) == [e] + Flat(rest)
  {
    LineSplits(e);
    assert ([e] + rest)[1..] == rest;
  }

  lemma SameTail(s: Settings, e: string, rest: seq<string>)
    ensures ApplyAll(s, [e] + rest) == ApplyAll(ApplyLine(s, e), rest)
  {
    assert ([e] + rest)[1..] == rest;
  }

  lemma LogOnLoads(s: Settings)
    ensures ApplyLine(s, LOG_ON) == s.WithText(LOG_KEY, "1")
  {
    LogKeyIsWord();
    LogOnParts();
    OneWordEntry(LOG_ON_TEXT, LOG_KEY, "1", "\n");
    RepairedKeyIsText(s, LOG_KEY, "1");
  }

  lemma {:induction false} RoomFlatLoads(s: Settings, lines: seq<string>)
    requires Shaped(lines)
    ensures ApplyAll(s, Flat(Room(lines))) == ApplyAll(s, Flat(lines))
    decreases |lines|
  {
    if |lines| == 1 {
      PieceClosedLoads(s, lines[0]);
      var last := Closed(lines[0]);
      assert Room(lines)[1..] == [] || Room(lines)[1..] == ["\n"];
      BlankEndLoads(s, last);
      assert lines[1..] == [] && Split(lines[0]) + [] == Split(lines[0]);
      assert Flat([]) == [] && Split(last) + [] == Split(last);
    } else if lines != [] {
      RoomFlatLoads(ApplyAll(s, Split(lines[0])), lines[1..]);
      ApplyAllConcat(s, Split(lines[0]), Flat(Room(lines[1..])));
      ApplyAllConcat(s, Split(lines[0]), Flat(lines[1..]));
      assert Room(lines)[1..] == Room(lines[1..]);
    }
  }

  lemma PieceClosedLoads(s: Settings, e: string)
    requires Piece(e)
    ensures ApplyAll(s, Split(Closed(e))) == ApplyAll(s, Split(e))
  {
    if !Ended(e) {
      HeaderSplits();
      ClosedPiece(e);
      UnendedHasNoFeed(e);
      LineWithFeed(e);
      LineSplits(e);
      LineSplits(e + "\n");
      LineFeedAdded(e);
      SameTail(s, e, []);
      SameTail(s, e + "\n", []);
    }
  }

  lemma BlankEndLoads(s: Settings, last: string)
    ensures ApplyAll(s, Split(last) + Flat(["\n"])) == ApplyAll(s, Split(last))
  {
    var blank := "\n";
    assert IsLine(blank);
    LineSplits(blank);
    assert Flat([blank]) == [blank] + [] == [blank];
    ApplyAllConcat(s, Split(last), [blank]);
    BlankLineLoads(ApplyAll(s, Split(last)));
    SameTail(ApplyAll(s, Split(last)), blank, []);
  }

  // For every file, one repair changes three settings only: it turns block_cloud
  // off; sets log_to_file to 1 when no line of that key is there and, in a file
  // just created, when the first such line has it off, which counts unless a
  // later line sets it again; and, when the first line about the client names
  // the shipped one, puts the stock name there, which counts likewise.
  lemma RepairedFileLoads(data: string, isNew: bool)
    ensures var a := BlockFixed(Split(data));
      var b := LogFixed(a, isNew);
      var off := Off(Load(data));
      && (NeedsLog(a) ==> HasKey(a, LOG_KEY)) && (NeedsClient(b) ==> HasKey(b, CLIENT_KEY))
      && var logged :=
           if !HasKey(a, LOG_KEY) then off.WithText(LOG_KEY, "1")
           else if isNew && NeedsLog(a) then Resettled(off, a, LOG_KEY, "1") else off;
         Load(Join(FullyFixed(data, isNew))) ==
           if NeedsClient(b) then Resettled(logged, b, CLIENT_KEY, STOCK_NAME) else logged
  {
    hide Resettled;
    var a := BlockFixed(Split(data));
    SplitIsLined(data);
    FixedFileLoads(data);
    BlockFixSettles(Split(data));
    FlatJoin(a);
    NeededIsThere(a);
    LogFixLoads(a, isNew);
    var b := LogFixed(a, isNew);
    LogFixSettles(a, isNew);
    ClientFixSettles(b);
    FlatJoin(ClientFixed(b));
    NeededIsThere(b);
    if NeedsClient(b) { ClientFixLoads(Defaults(), b); } else { ClientAlreadyFine(b); }
  }

  lemma LogFixLoads(lines: seq<string>, isNew: bool)
    requires Shaped(lines) && (NeedsLog(lines) ==> HasKey(lines, LOG_KEY))
    ensures ApplyAll(Defaults(), Flat(LogFixed(lines, isNew))) ==
      var s := ApplyAll(Defaults(), Flat(lines));
      if !HasKey(lines, LOG_KEY) then s.WithText(LOG_KEY, "1")
      else if isNew && NeedsLog(lines) then Resettled(s, lines, LOG_KEY, "1") else s
  {
    hide Resettled;
    if !HasKey(lines, LOG_KEY) {
      LogLineAdded(lines);
    } else if isNew {
      if NeedsLog(lines) { LogOnLineLoads(Defaults(), lines); } else { LogAlreadyOn(lines); }
    }
  }

  lemma LogLineAdded(lines: seq<string>)
    requires Shaped(lines)
    ensures ApplyAll(Defaults(), Flat(Room(lines) + [LOG_ON])) == ApplyAll(Defaults(), Flat(lines)).WithText(LOG_KEY, "1")
  {
    var s := ApplyAll(Defaults(), Flat(lines));
    RoomFlatLoads(Defaults(), lines);
    LogOnIsLogLine();
    LineSplits(LOG_ON);
    FlatConcat(Room(lines), [LOG_ON]);
    assert Flat([LOG_ON]) == [LOG_ON] + [] == [LOG_ON];
    ApplyAllConcat(Defaults(), Flat(Room(lines)), [LOG_ON]);
    SameTail(s, LOG_ON, []);
    LogOnLoads(s);
  }
}
