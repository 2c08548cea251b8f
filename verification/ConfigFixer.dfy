// Repairing obn.conf in place (src/config.cpp:205-395, 412-466): three fixes
// over the vector of lines, each with its own line grammar.
module ConfigFixer {
  import opened Text
  import opened ConfigText

  const BLOCK_KEY: string := "block_cloud"
  const LOG_KEY: string := "log_to_file"
  const CLIENT_KEY: string := "client_name"

  const BLOCK_OFF: string := "block_cloud = 0"
  const LOG_ON_TEXT: string := "log_to_file = 1"
  const LOG_ON: string := LOG_ON_TEXT + "\n"
  const SHIPPED_NAME: string := "openbamboonetworking"
  const STOCK_NAME: string := "BambuStudio"

  const HEADER_TEXT1: string :=
    "# 0 = talk to Bambu " + "Cloud (required for " + "cloud printing and " + "for any"
  const HEADER_TEXT2: string :=
    "# printer that is " + "not reachable over " + "LAN). 1 = block " + "cloud traffic."
  const HEADER: string := HEADER_TEXT1 + "\n" + (HEADER_TEXT2 + "\n") + (BLOCK_OFF + "\n")

  datatype EnsureOutcome = Error | Unchanged | Created | Set | Appended

  function OutcomeCode(o: EnsureOutcome): int {
    match o
    case Error => -1
    case Unchanged => 0
    case Created => 1
    case Set => 2
    case Appended => 3
  }

  // ---- The fixer's line grammar ----

  // What stands behind "key =" and white space, on a line of that key.
  function KeyRest(content: string, key: string): (r: Option<string>)
    ensures r.Some? ==> |r.value| <= |content|
  {
    var a := TrimLeft(content);
    if a == [] || a[0] == '#' || |a| < |key| || a[..|key|] != key then None
    else
      var b := TrimLeft(a[|key|..]);
      if b == [] || b[0] != '=' then None
      else
        TrimLeftFits(content);
        TrimLeftFits(a[|key|..]);
        TrimLeftFits(b[1..]);
        Some(TrimLeft(b[1..]))
  }

  function BlockValue(content: string): Option<string> {
    match KeyRest(content, BLOCK_KEY)
    case None => None
    case Some(rest) => if Word(rest) == [] then None else Some(Word(rest))
  }

  datatype Span = Span(start: nat, end: nat)

  function FindKey(content: string, key: string): (r: Option<Span>)
    ensures r.Some? ==> r.value.start < r.value.end <= |content|
  {
    match KeyRest(content, key)
    case None => None
    case Some(rest) =>
      var n := |HashWord(rest)|;
      HashWordFits(rest);
      if n == 0 then None else Some(Span(|content| - |rest|, |content| - |rest| + n))
  }

  lemma {:induction false} HashWordFits(s: string)
    ensures |HashWord(s)| <= |s| && s[..|HashWord(s)|] == HashWord(s)
  {
    if s != [] && !IsSpace(s[0]) && s[0] != '#' {
      HashWordFits(s[1..]);
    }
  }

  method SkipSpaces(s: string, from: nat) returns (i: nat)
    requires from <= |s|
    ensures from <= i <= |s| && s[i..] == TrimLeft(s[from..])
  {
    i := from;
    while i < |s| && IsSpace(s[i])
      invariant from <= i <= |s| && TrimLeft(s[i..]) == TrimLeft(s[from..])
    {
      assert s[i..][1..] == s[i + 1..];
      i := i + 1;
    }
  }

  // The position behind "key =" and white space.
  method SeekValue(content: string, key: string) returns (found: bool, i: nat)
    ensures found == KeyRest(content, key).Some?
    ensures found ==> i <= |content| && content[i..] == KeyRest(content, key).value
  {
    found := false;
    i := SkipSpaces(content, 0);
    assert content[0..] == content;
    if i >= |content| || content[i] == '#' { return; }
    if |content| - i < |key| || content[i..i + |key|] != key {
      assert i + |key| <= |content| ==> content[i..][..|key|] == content[i..i + |key|];
      return;
    }
    assert content[i..][..|key|] == key && content[i..][|key|..] == content[i + |key|..];
    i := SkipSpaces(content, i + |key|);
    if i >= |content| || content[i] != '=' { return; }
    assert content[i..][1..] == content[i + 1..];
    i := SkipSpaces(content, i + 1);
    found := true;
  }

  method ParseBlockCloudLine(content: string) returns (value: Option<string>)
    ensures value == BlockValue(content)
  {
    var found, start := SeekValue(content, BLOCK_KEY);
    if !found { return None; }
    var i := start;
    while i < |content| && !IsSpace(content[i])
      invariant start <= i <= |content|
      invariant Word(content[start..]) == content[start..i] + Word(content[i..])
    {
      assert content[i..][1..] == content[i + 1..];
      MoveOne(content, start, i, Word(content[i + 1..]));
      i := i + 1;
    }
    assert Word(content[i..]) == [] && content[start..i] + [] == content[start..i];
    value := if i == start then None else Some(content[start..i]);
  }

  method FindKeyValue(content: string, key: string) returns (span: Option<Span>)
    ensures span == FindKey(content, key)
  {
    var found, start := SeekValue(content, key);
    if !found { return None; }
    var i := start;
    while i < |content| && !IsSpace(content[i]) && content[i] != '#'
      invariant start <= i <= |content|
      invariant |HashWord(content[start..])| == i - start + |HashWord(content[i..])|
    {
      assert content[i..][1..] == content[i + 1..];
      i := i + 1;
    }
    assert HashWord(content[i..]) == [];
    span := if i > start then Some(Span(start, i)) else None;
  }

  // ---- What each fix makes of the lines ----

  predicate IsBlockLine(line: string) { BlockValue(StripEol(line)).Some? }

  predicate TurnsCloudOff(line: string) {
    var v := BlockValue(StripEol(line));
    v.Some? && Truthy(v.value)
  }

  function ResetLine(line: string): string {
    if TurnsCloudOff(line) then BLOCK_OFF + EolOf(line) else line
  }

  predicate HasBlock(lines: seq<string>) {
    lines != [] && (IsBlockLine(lines[0]) || HasBlock(lines[1..]))
  }

  predicate AnyOff(lines: seq<string>) {
    lines != [] && (TurnsCloudOff(lines[0]) || AnyOff(lines[1..]))
  }

  function ResetAll(lines: seq<string>): seq<string> {
    if lines == [] then [] else [ResetLine(lines[0])] + ResetAll(lines[1..])
  }

  function Closed(line: string): string { if Ended(line) then line else line + "\n" }

  // Room for a new block: the last line ended, and a blank line behind it
  // unless it is blank itself.
  function Room(lines: seq<string>): seq<string> {
    if lines == [] then []
    else if |lines| == 1 then
      [Closed(lines[0])] + if StripEol(Closed(lines[0])) == [] then [] else ["\n"]
    else [lines[0]] + Room(lines[1..])
  }

  function BlockFixed(lines: seq<string>): seq<string> {
    if HasBlock(lines) then ResetAll(lines) else Room(lines) + [HEADER]
  }

  function BlockOutcome(lines: seq<string>): EnsureOutcome {
    if !HasBlock(lines) then Appended else if AnyOff(lines) then Set else Unchanged
  }

  function KeySpan(line: string, key: string): Option<Span> { FindKey(StripEol(line), key) }

  predicate HasKey(lines: seq<string>, key: string) {
    lines != [] && (KeySpan(lines[0], key).Some? || HasKey(lines[1..], key))
  }

  lemma {:induction false} StripEolFits(line: string)
    ensures |StripEol(line)| <= |line| && StripEol(line) == line[..|StripEol(line)|]
  {
    if line != [] && (line[|line| - 1] == '\n' || line[|line| - 1] == '\r') {
      StripEolFits(line[..|line| - 1]);
    }
  }

  function KeyValue(line: string, span: Span): string
    requires span.start <= span.end <= |StripEol(line)|
  {
    StripEol(line)[span.start..span.end]
  }

  function WithValue(line: string, span: Span, value: string): string
    requires span.start <= span.end <= |StripEol(line)|
  {
    StripEolFits(line);
    line[..span.start] + value + line[span.end..]
  }

  function LogLineOn(line: string): string {
    match KeySpan(line, LOG_KEY)
    case None => line
    case Some(span) => if Truthy(KeyValue(line, span)) then line else WithValue(line, span, "1")
  }

  function FirstLogOn(lines: seq<string>): seq<string> {
    if lines == [] then []
    else if KeySpan(lines[0], LOG_KEY).Some? then [LogLineOn(lines[0])] + lines[1..]
    else [lines[0]] + FirstLogOn(lines[1..])
  }

  function LogFixed(lines: seq<string>, installerDefault: bool): seq<string> {
    if !HasKey(lines, LOG_KEY) then Room(lines) + [LOG_ON]
    else if installerDefault then FirstLogOn(lines)
    else lines
  }

  function Unquoted(value: string): string {
    var a := DropQuotes(value);
    if a == [] then value else DropQuotesRight(a)
  }

  function DropQuotes(s: string): string {
    if s != [] && s[0] == '"' then DropQuotes(s[1..]) else s
  }

  function DropQuotesRight(s: string): string {
    if s != [] && s[|s| - 1] == '"' then DropQuotesRight(s[..|s| - 1]) else s
  }

  predicate ShippedClient(line: string) {
    var span := KeySpan(line, CLIENT_KEY);
    span.Some? && Lower(Unquoted(KeyValue(line, span.value))) == SHIPPED_NAME
  }

  function ClientFixed(lines: seq<string>): seq<string> {
    if lines == [] then []
    else if KeySpan(lines[0], CLIENT_KEY).None? then [lines[0]] + ClientFixed(lines[1..])
    else if ShippedClient(lines[0]) then
      [WithValue(lines[0], KeySpan(lines[0], CLIENT_KEY).value, STOCK_NAME)] + lines[1..]
    else lines
  }

  // The first line of the key, if any, has the shipped name.
  predicate NeedsClient(lines: seq<string>) {
    lines != [] &&
    if KeySpan(lines[0], CLIENT_KEY).Some? then ShippedClient(lines[0]) else NeedsClient(lines[1..])
  }

  // The first log_to_file line of a new file is not on yet.
  predicate NeedsLog(lines: seq<string>) {
    lines != [] &&
    if KeySpan(lines[0], LOG_KEY).Some? then !Truthy(KeyValue(lines[0], KeySpan(lines[0], LOG_KEY).value))
    else NeedsLog(lines[1..])
  }

  // ---- The fixes, on a vector they rewrite and append to ----

  class ConfLines {
    var lines: seq<string>

    constructor (data: string)
      ensures lines == Split(data)
    {
      new;
      lines := SplitLinesKeepEnds(data);
    }

    method MakeRoom()
      modifies this
      ensures lines == Room(old(lines))
    {
      if lines == [] { return; }
      var n := |lines| - 1;
      RoomAtEnd(lines);
      if !Ended(lines[n]) { lines := lines[n := lines[n] + "\n"]; }
      if StripEol(lines[n]) != [] { lines := lines + ["\n"]; }
    }

    method FixLines() returns (outcome: EnsureOutcome)
      modifies this
      ensures lines == BlockFixed(old(lines)) && outcome == BlockOutcome(old(lines))
    {
      var haveKey, changed, i := false, false, 0;
      ghost var was := lines;
      while i < |lines|
        invariant 0 <= i <= |lines| == |was| && lines[i..] == was[i..]
        invariant ResetAll(was) == lines[..i] + ResetAll(was[i..])
        invariant HasBlock(was) == (haveKey || HasBlock(was[i..]))
        invariant AnyOff(was) == (changed || AnyOff(was[i..]))
        invariant !haveKey ==> lines == was
      {
        var line := lines[i];
        BlockStep(lines, was, i);
        Assoc(lines[..i], [ResetLine(line)], ResetAll(was[i + 1..]));
        i := i + 1;
        var value := ParseBlockCloudLine(StripEol(line));
        if value.None? { continue; }
        haveKey := true;
        if !Truthy(value.value) { continue; }
        ReplaceAt(lines, i - 1, BLOCK_OFF + EolOf(line));
        lines := lines[i - 1 := BLOCK_OFF + EolOf(line)];
        changed := true;
      }
      assert lines[..i] == lines && was[i..] == [];
      if haveKey {
        outcome := if changed then Set else Unchanged;
        return;
      }
      MakeRoom();
      lines := lines + [HEADER];
      outcome := Appended;
    }

    method FixLogToFile(installerDefault: bool) returns (fixed: int)
      modifies this
      ensures lines == LogFixed(old(lines), installerDefault)
      ensures fixed == if !HasKey(old(lines), LOG_KEY) || (installerDefault && NeedsLog(old(lines))) then 1 else 0
    {
      var i := 0;
      while i < |lines|
        invariant 0 <= i <= |lines| && lines == old(lines)
        invariant HasKey(lines, LOG_KEY) == HasKey(lines[i..], LOG_KEY)
        invariant NeedsLog(lines) == NeedsLog(lines[i..])
        invariant FirstLogOn(lines) == lines[..i] + FirstLogOn(lines[i..])
      {
        var line := lines[i];
        LogStep(lines, i);
        var span := FindKeyValue(StripEol(line), LOG_KEY);
        Assoc(lines[..i], [line], FirstLogOn(lines[i + 1..]));
        if span.Some? {
          if !installerDefault { return 0; }
          if Truthy(KeyValue(line, span.value)) { return 0; }
          ReplaceAt(lines, i, WithValue(line, span.value, "1"));
          lines := lines[i := WithValue(line, span.value, "1")];
          return 1;
        }
        i := i + 1;
      }
      assert lines[i..] == [];
      MakeRoom();
      lines := lines + [LOG_ON];
      fixed := 1;
    }

    method FixClientName() returns (fixed: int)
      modifies this
      ensures lines == ClientFixed(old(lines))
      ensures fixed == if NeedsClient(old(lines)) then 1 else 0
    {
      var i := 0;
      while i < |lines|
        invariant 0 <= i <= |lines| && lines == old(lines)
        invariant ClientFixed(lines) == lines[..i] + ClientFixed(lines[i..])
        invariant NeedsClient(lines) == NeedsClient(lines[i..])
      {
        var line := lines[i];
        ClientStep(lines, i);
        var span := FindKeyValue(StripEol(line), CLIENT_KEY);
        Assoc(lines[..i], [lines[i]], ClientFixed(lines[i + 1..]));
        if span.Some? {
          if Lower(Unquoted(KeyValue(line, span.value))) != SHIPPED_NAME { return 0; }
          ReplaceAt(lines, i, WithValue(line, span.value, STOCK_NAME));
          lines := lines[i := WithValue(line, span.value, STOCK_NAME)];
          return 1;
        }
        i := i + 1;
      }
      assert lines[i..] == [] && lines[..i] == lines;
      fixed := 0;
    }
  }

  lemma NextLine(lines: seq<string>, was: seq<string>, i: nat)
    requires i < |lines| == |was| && lines[i..] == was[i..]
    ensures was[i..][0] == was[i] == lines[i]
    ensures was[i..][1..] == was[i + 1..] == lines[i + 1..]
    ensures lines[..i + 1] == lines[..i] + [lines[i]]
    ensures lines == lines[..i] + was[i..]
  {
    assert lines[i] == lines[i..][0] && was[i] == was[i..][0];
    assert lines[i..][1..] == lines[i + 1..];
  }

  lemma ReplaceAt(lines: seq<string>, i: nat, x: string)
    requires i < |lines|
    ensures lines[i := x] == lines[..i] + [x] + lines[i + 1..]
    ensures lines[i := x] == lines[..i] + ([x] + lines[i + 1..])
    ensures lines[i := x][..i + 1] == lines[..i] + [x] && lines[i := x][i + 1..] == lines[i + 1..]
  {
  }

  // What the three searches make of the line at i.
  lemma BlockStep(lines: seq<string>, was: seq<string>, i: nat)
    requires i < |lines| == |was| && lines[i..] == was[i..]
    ensures lines[i] == was[i] && lines[i + 1..] == was[i + 1..] && lines[..i + 1] == lines[..i] + [lines[i]]
    ensures ResetAll(was[i..]) == [ResetLine(lines[i])] + ResetAll(was[i + 1..])
    ensures HasBlock(was[i..]) == (IsBlockLine(lines[i]) || HasBlock(was[i + 1..]))
    ensures AnyOff(was[i..]) == (TurnsCloudOff(lines[i]) || AnyOff(was[i + 1..]))
  {
    NextLine(lines, was, i);
  }

  lemma LogStep(lines: seq<string>, i: nat)
    requires i < |lines|
    ensures lines == lines[..i] + [lines[i]] + lines[i + 1..] && lines[..i + 1] == lines[..i] + [lines[i]]
    ensures KeySpan(lines[i], LOG_KEY).None? ==>
      HasKey(lines[i..], LOG_KEY) == HasKey(lines[i + 1..], LOG_KEY) &&
      NeedsLog(lines[i..]) == NeedsLog(lines[i + 1..]) &&
      FirstLogOn(lines[i..]) == [lines[i]] + FirstLogOn(lines[i + 1..])
    ensures KeySpan(lines[i], LOG_KEY).Some? ==>
      HasKey(lines[i..], LOG_KEY) &&
      NeedsLog(lines[i..]) == !Truthy(KeyValue(lines[i], KeySpan(lines[i], LOG_KEY).value)) &&
      FirstLogOn(lines[i..]) == [LogLineOn(lines[i])] + lines[i + 1..]
  {
    NextLine(lines, lines, i);
  }

  lemma ClientStep(lines: seq<string>, i: nat)
    requires i < |lines|
    ensures lines == lines[..i] + [lines[i]] + lines[i + 1..] && lines[..i + 1] == lines[..i] + [lines[i]]
    ensures KeySpan(lines[i], CLIENT_KEY).None? ==>
      ClientFixed(lines[i..]) == [lines[i]] + ClientFixed(lines[i + 1..]) &&
      NeedsClient(lines[i..]) == NeedsClient(lines[i + 1..])
    ensures KeySpan(lines[i], CLIENT_KEY).Some? ==>
      NeedsClient(lines[i..]) == ShippedClient(lines[i]) &&
      ClientFixed(lines[i..]) ==
        (if ShippedClient(lines[i]) then [WithValue(lines[i], KeySpan(lines[i], CLIENT_KEY).value, STOCK_NAME)] else [lines[i]])
        + lines[i + 1..]
  {
    NextLine(lines, lines, i);
  }

  lemma {:induction false} RoomAtEnd(lines: seq<string>)
    requires lines != []
    ensures var last := Closed(lines[|lines| - 1]);
      Room(lines) == lines[..|lines| - 1] + [last] + if StripEol(last) == [] then [] else ["\n"]
  {
    if |lines| > 1 {
      RoomAtEnd(lines[1..]);
      assert lines[..|lines| - 1] == [lines[0]] + lines[1..][..|lines| - 2];
    }
  }

  // ---- Whole calls on a file ----

  // What the file system does: the content of the file if it exists, and
  // whether reading and writing it succeed.
  datatype Disk = Disk(file: Option<string>, canRead: bool, canCreate: bool, canWrite: bool)

  function FullyFixed(data: string, isNew: bool): seq<string> {
    ClientFixed(LogFixed(BlockFixed(Split(data)), isNew))
  }

  predicate NeedsFixing(data: string, isNew: bool) {
    var a := BlockFixed(Split(data));
    var b := LogFixed(a, isNew);
    BlockOutcome(Split(data)) != Unchanged || !HasKey(a, LOG_KEY) || (isNew && NeedsLog(a)) || NeedsClient(b)
  }

  // ensure_conf_fixes: the result and the file afterwards.
  method EnsureConfFixes(path: string, disk: Disk, template: string) returns (rc: int, file: Option<string>)
    ensures path == [] ==> rc == -1 && file == disk.file
    ensures rc == -1 ==> file == disk.file || (disk.file.None? && file == Some(template))
    ensures path != [] && disk.file.None? && !disk.canCreate ==> rc == -1
    ensures path != [] && (disk.file.Some? || disk.canCreate) && !disk.canRead ==> rc == -1
    ensures rc != -1 ==>
      var data, isNew := if disk.file.Some? then disk.file.value else template, disk.file.None?;
      file == Some(if NeedsFixing(data, isNew) then Join(FullyFixed(data, isNew)) else data) &&
      rc == ResultCode(data, isNew)
    ensures rc == -1 && path != [] && disk.canRead && disk.canWrite ==> disk.file.None? && !disk.canCreate
  {
    file := disk.file;
    if path == [] { return -1, file; }
    var found := file.Some?;
    if !found {
      if !disk.canCreate { return -1, file; }
      file := Some(template);
    }
    if !disk.canRead { return -1, file; }
    var data := file.value;
    var conf := new ConfLines(data);
    var block := conf.FixLines();
    var changed := block == Set || block == Appended;
    if !found { block := Created; }
    var log := conf.FixLogToFile(!found);
    if log != 0 { changed := true; }
    var client := conf.FixClientName();
    if client != 0 { changed := true; }
    if changed {
      var joined := JoinLines(conf.lines);
      if !disk.canWrite { return -1, file; }
      file := Some(joined);
    }
    rc := OutcomeCode(block) + 256 * log + 65536 * client;
  }

  // Byte 0 the block_cloud outcome, bytes 1 and 2 whether the others changed.
  function ResultCode(data: string, isNew: bool): (rc: int)
    ensures 0 <= rc < 0x20000
  {
    var a := BlockFixed(Split(data));
    var block := if isNew then Created else BlockOutcome(Split(data));
    var log := if !HasKey(a, LOG_KEY) || (isNew && NeedsLog(a)) then 1 else 0;
    var client := if NeedsClient(LogFixed(a, isNew)) then 1 else 0;
    OutcomeCode(block) + 256 * log + 65536 * client
  }

  // ensure_block_cloud_off: the first fix alone.
  method EnsureBlockCloudOff(path: string, disk: Disk, template: string) returns (outcome: EnsureOutcome, file: Option<string>)
    ensures outcome == Error ==> file == disk.file || (disk.file.None? && file == Some(template))
    ensures outcome != Error && disk.file.None? ==>
      outcome == Created &&
      file == Some(if BlockOutcome(Split(template)) == Unchanged then template else Join(BlockFixed(Split(template))))
    ensures outcome != Error && disk.file.Some? ==>
      var data := disk.file.value;
      outcome == BlockOutcome(Split(data)) &&
      file == Some(if outcome == Unchanged then data else Join(BlockFixed(Split(data))))
    ensures path != [] && disk.canCreate && disk.canRead && disk.canWrite ==> outcome != Error
  {
    file := disk.file;
    if path == [] { return Error, file; }
    if file.None? {
      if !disk.canCreate { return Error, file; }
      file := Some(template);
    }
    if !disk.canRead { return Error, file; }
    var conf := new ConfLines(file.value);
    outcome := conf.FixLines();
    if outcome != Unchanged {
      var joined := JoinLines(conf.lines);
      if !disk.canWrite { return Error, file; }
      file := Some(joined);
    }
    if disk.file.None? { outcome := Created; }
  }
}
