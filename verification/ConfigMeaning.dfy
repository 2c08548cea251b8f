// What each line of obn.conf sets (src/config.cpp:80-147): the last entry of a
// key that has an effect decides, for every key and every file.
module ConfigMeaning {
  import opened Text
  import opened ConfigText
  import opened ConfigLoader
  import opened JsonNumeral
  import JsonValue
  import JsonRoundTrip

  // The value spells the word, whatever the case of its letters.
  predicate Spells(val: string, word: string) {
    |val| == |word| &&
    forall k :: 0 <= k < |val| ==> val[k] == word[k] || ('A' <= val[k] <= 'Z' && val[k] as int + 32 == word[k] as int)
  }

  predicate LowerCase(word: string) { forall k :: 0 <= k < |word| ==> !('A' <= word[k] <= 'Z') }

  lemma {:induction false} LowerSpells(val: string, word: string)
    requires LowerCase(word)
    ensures Lower(val) == word <==> Spells(val, word)
  {
    LowerPointwise(val);
    if Spells(val, word) {
      assert Lower(val) == word;
    }
  }

  lemma {:induction false} LowerPointwise(val: string)
    ensures |Lower(val)| == |val| && forall k :: 0 <= k < |val| ==> Lower(val)[k] == LowerChar(val[k])
  {
    if val != [] {
      LowerPointwise(val[1..]);
    }
  }

  // Values that switch something on.
  predicate On(val: string) { Spells(val, "1") || Spells(val, "true") || Spells(val, "yes") }

  lemma TruthyMeans(val: string)
    ensures Truthy(val) <==> On(val)
  {
    hide Lower, Spells;
    LowerSpells(val, "1");
    LowerSpells(val, "true");
    LowerSpells(val, "yes");
  }

  // ---- Numbers ----

  lemma {:induction false} DigitsGoOn(t: string, rest: string, sofar: nat)
    requires AllDigits(t) && (rest == [] || !IsDigit(rest[0]))
    ensures DigitsValue(t + rest, sofar) == Horner(t, sofar)
    decreases |t|
  {
    if t == [] {
      assert t + rest == rest;
    } else {
      assert (t + rest)[0] == t[0] && (t + rest)[1..] == t[1..] + rest;
      DigitsGoOn(t[1..], rest, 10 * sofar + (t[0] as int - '0' as int));
    }
  }

  // The number printed, whatever stands behind its digits.
  lemma AtoiReads(n: nat, rest: string)
    requires rest == [] || !IsDigit(rest[0])
    ensures var d := JsonValue.Digits(n); Atoi(d + rest) == n && Atoi("-" + d + rest) == 0 - n && Atoi("+" + d + rest) == n
  {
    hide DigitsValue, JsonValue.Digits;
    var d := JsonValue.Digits(n);
    JsonRoundTrip.DigitsReadBack(n);
    NatOfIsHorner(d);
    DigitsGoOn(d, rest, 0);
    assert (d + rest)[0] == d[0];
    assert ("-" + d + rest)[1..] == d + rest && ("+" + d + rest)[1..] == d + rest;
  }

  // ---- One entry ----

  const OTHER_KEYS: seq<string> := ["cloud_mqtt_port", "cloud_os_type", "cloud_print", "mytask_pop"]

  ghost predicate Known(key: string) { key in TEXT_KEYS || key in FLAG_KEYS || key in OTHER_KEYS }

  // A port or system that does not exist is passed over.
  predicate HasEffect(key: string, val: string) {
    (key == "cloud_mqtt_port" ==> 1 <= Atoi(val) <= 65535) &&
    (key == "cloud_os_type" ==> Spells(val, "windows") || Spells(val, "macos") || Spells(val, "linux"))
  }

  // The settings say of the key what the value says.
  predicate Shows(s: Settings, key: string, val: string) {
    if key in TEXT_KEYS then key in s.texts && s.texts[key] == val
    else if key in FLAG_KEYS then key in s.flags && s.flags[key] == On(val)
    else
      && (key == "cloud_mqtt_port" ==> s.cloudMqttPort == Atoi(val))
      && (key == "cloud_os_type" ==> s.cloudOsType in ["windows", "macos", "linux"] && Spells(val, s.cloudOsType))
      && (key == "cloud_print" ==> PrintsAs(s.cloudPrint, val))
      && (key == "mytask_pop" ==> s.mytaskPopSet == !Spells(val, "auto") && s.mytaskPop == On(val))
  }

  // An unknown word is the cloud only.
  predicate PrintsAs(mode: CloudPrintMode, val: string) {
    match mode
    case TryLanFirst => Spells(val, "try_lan_first")
    case LanOnly => Spells(val, "lan_only")
    case CloudForMakerWorldOnly => Spells(val, "cloud_for_makerworld_only")
    case CloudOnly =>
      !Spells(val, "try_lan_first") && !Spells(val, "lan_only") && !Spells(val, "cloud_for_makerworld_only")
  }

  // Two settings agree on the key.
  predicate Same(s: Settings, t: Settings, key: string) {
    if key in TEXT_KEYS then key in s.texts && key in t.texts && s.texts[key] == t.texts[key]
    else if key in FLAG_KEYS then key in s.flags && key in t.flags && s.flags[key] == t.flags[key]
    else
      && (key == "cloud_mqtt_port" ==> s.cloudMqttPort == t.cloudMqttPort)
      && (key == "cloud_os_type" ==> s.cloudOsType == t.cloudOsType)
      && (key == "cloud_print" ==> s.cloudPrint == t.cloudPrint)
      && (key == "mytask_pop" ==> s.mytaskPopSet == t.mytaskPopSet && s.mytaskPop == t.mytaskPop)
  }

  predicate Whole(s: Settings) {
    (forall k :: k in TEXT_KEYS ==> k in s.texts) && (forall k :: k in FLAG_KEYS ==> k in s.flags)
  }

  lemma PrintModeShows(val: string)
    ensures PrintsAs(PrintMode(Lower(val)), val)
  {
    hide Lower, Spells;
    LowerSpells(val, "try_lan_first");
    LowerSpells(val, "lan_only");
    LowerSpells(val, "cloud_for_makerworld_only");
  }

  lemma SystemShows(val: string)
    ensures Lower(val) in ["windows", "macos", "linux"] <==>
      Spells(val, "windows") || Spells(val, "macos") || Spells(val, "linux")
    ensures Lower(val) in ["windows", "macos", "linux"] ==> Spells(val, Lower(val))
  {
    hide Lower, Spells;
    LowerSpells(val, "windows");
    LowerSpells(val, "macos");
    LowerSpells(val, "linux");
  }

  lemma AutoIsOff(val: string)
    ensures Lower(val) == "auto" <==> Spells(val, "auto")
    ensures Spells(val, "auto") ==> !On(val)
  {
    hide Lower, Spells;
    LowerSpells(val, "auto");
    TruthyMeans(val);
  }

  lemma OtherShows(s: Settings, key: string, val: string)
    requires key in OTHER_KEYS && HasEffect(key, val) && key !in TEXT_KEYS && key !in FLAG_KEYS
    ensures Shows(ApplyOther(s, key, val), key, val)
  {
    hide Lower, Spells, On, Truthy, Atoi, PrintMode, PrintsAs;
    PrintModeShows(val);
    SystemShows(val);
    AutoIsOff(val);
    TruthyMeans(val);
  }

  // The keys of the three kinds are different keys.
  lemma Kinds(key: string)
    ensures key in OTHER_KEYS ==> key !in TEXT_KEYS && key !in FLAG_KEYS
    ensures key in FLAG_KEYS ==> key !in TEXT_KEYS
  {
    hide *;
    if key in OTHER_KEYS {
      NoText(key);
      NoFlag(key);
    } else if key in FLAG_KEYS {
      NotBoth(key);
    }
  }

  lemma NoText(key: string)
    requires key in OTHER_KEYS
    ensures key !in TEXT_KEYS
  {
  }

  lemma NotBoth(key: string)
    requires key in FLAG_KEYS
    ensures key !in TEXT_KEYS
  {
  }

  lemma NoFlag(key: string)
    requires key in OTHER_KEYS
    ensures key !in FLAG_KEYS
  {
  }

  lemma KeyShows(s: Settings, key: string, val: string)
    requires Known(key) && HasEffect(key, val)
    ensures Shows(ApplyKey(s, key, val), key, val)
  {
    hide ApplyOther, Spells, Truthy, On;
    Kinds(key);
    TruthyMeans(val);
    if key in OTHER_KEYS { OtherShows(s, key, val); }
  }

  // An entry of a key with a grammar of its own leaves every other key alone.
  lemma OtherKeeps(s: Settings, e: Entry, key: string)
    requires Known(key) && e.key in OTHER_KEYS && (e.key != key || !HasEffect(key, e.val)) && Whole(s)
    ensures Same(ApplyOther(s, e.key, e.val), s, key)
  {
    if key in OTHER_KEYS { AmongOthers(s, e, key); } else { ElsewhereOnly(s, e.key, e.val); }
  }

  lemma AmongOthers(s: Settings, e: Entry, key: string)
    requires key in OTHER_KEYS && e.key in OTHER_KEYS && (e.key != key || !HasEffect(key, e.val))
    ensures Same(ApplyOther(s, e.key, e.val), s, key)
  {
    hide Lower, Spells, On, Truthy, Atoi, PrintMode, PrintsAs;
    Kinds(key);
    SystemShows(e.val);
  }

  lemma KeyKeeps(s: Settings, e: Entry, key: string)
    requires Known(key) && (e.key != key || !HasEffect(key, e.val)) && Whole(s)
    ensures Same(ApplyKey(s, e.key, e.val), s, key)
  {
    hide ApplyOther, Spells, Truthy, On;
    Kinds(key);
    Kinds(e.key);
    if e.key in OTHER_KEYS { OtherKeeps(s, e, key); } else { NoOther(s, e); }
    assert "cloud_mqtt_port" in OTHER_KEYS && "cloud_os_type" in OTHER_KEYS;
  }

  lemma NoOther(s: Settings, e: Entry)
    requires e.key !in OTHER_KEYS
    ensures ApplyOther(s, e.key, e.val) == s
  {
    assert "cloud_mqtt_port" in OTHER_KEYS && "cloud_os_type" in OTHER_KEYS;
    assert "cloud_print" in OTHER_KEYS && "mytask_pop" in OTHER_KEYS;
  }

  // ---- Whole files ----

  ghost predicate Sets(line: string, key: string, val: string) {
    ParseLine(line) == Some(Entry(key, val)) && HasEffect(key, val)
  }

  ghost predicate NoneSets(lines: seq<string>, key: string) {
    forall i, val :: 0 <= i < |lines| ==> !Sets(lines[i], key, val)
  }

  // An entry with this value is the last one of the key that has an effect.
  ghost predicate LastSets(lines: seq<string>, key: string, val: string) {
    exists i :: 0 <= i < |lines| && Sets(lines[i], key, val) && NoneSets(lines[i + 1..], key)
  }

  lemma LineKeeps(s: Settings, line: string, key: string)
    requires Known(key) && Whole(s) && forall val :: !Sets(line, key, val)
    ensures Same(ApplyLine(s, line), s, key)
  {
    hide ApplyKey, HasEffect;
    if ParseLine(line).Some? {
      var e := ParseLine(line).value;
      assert e.key == key ==> !Sets(line, key, e.val);
      assert e == Entry(e.key, e.val);
      KeyKeeps(s, e, key);
    }
  }

  lemma LineShows(s: Settings, line: string, key: string, val: string)
    requires Known(key) && Sets(line, key, val)
    ensures Shows(ApplyLine(s, line), key, val)
  {
    hide ApplyKey, HasEffect;
    KeyShows(s, key, val);
  }

  lemma ElsewhereOnly(s: Settings, key: string, val: string)
    ensures ApplyOther(s, key, val).texts == s.texts && ApplyOther(s, key, val).flags == s.flags
  {
    hide Lower, Truthy, Atoi, PrintMode;
  }

  lemma LineIsWhole(s: Settings, line: string)
    requires Whole(s)
    ensures Whole(ApplyLine(s, line))
  {
    hide ApplyOther, Truthy, ParseLine;
    if ParseLine(line).Some? { ElsewhereOnly(s, ParseLine(line).value.key, ParseLine(line).value.val); }
  }

  lemma {:induction false} LinesKeep(s: Settings, lines: seq<string>, key: string)
    requires Known(key) && Whole(s) && NoneSets(lines, key)
    ensures Same(ApplyAll(s, lines), s, key)
    decreases |lines|
  {
    hide ApplyLine, Sets;
    if lines != [] {
      LineKeeps(s, lines[0], key);
      LineIsWhole(s, lines[0]);
      assert forall i :: 0 <= i < |lines[1..]| ==> lines[1..][i] == lines[i + 1];
      LinesKeep(ApplyLine(s, lines[0]), lines[1..], key);
    }
  }

  lemma SameShows(s: Settings, t: Settings, key: string, val: string)
    requires Shows(s, key, val) && Same(t, s, key)
    ensures Shows(t, key, val)
  {
  }

  lemma {:induction false} LinesShow(s: Settings, lines: seq<string>, key: string, val: string)
    requires Known(key) && Whole(s) && LastSets(lines, key, val)
    ensures Shows(ApplyAll(s, lines), key, val)
    decreases |lines|
  {
    hide ApplyLine, Sets, Shows, Same, NoneSets, Whole;
    var i :| 0 <= i < |lines| && Sets(lines[i], key, val) && NoneSets(lines[i + 1..], key);
    var t := ApplyLine(s, lines[0]);
    LineIsWhole(s, lines[0]);
    if i == 0 {
      LineShows(s, lines[0], key, val);
      LinesKeep(t, lines[1..], key);
      SameShows(t, ApplyAll(t, lines[1..]), key, val);
    } else {
      assert lines[1..][i - 1] == lines[i] && lines[1..][i..] == lines[i + 1..];
      LinesShow(t, lines[1..], key, val);
    }
  }

  // For every file and every key: the settings show the value of the last entry
  // of the key that has an effect, or the default when there is none.
  lemma LoadedAsWritten(data: string, key: string)
    requires Known(key)
    ensures forall val :: LastSets(Split(data), key, val) ==> Shows(Load(data), key, val)
    ensures NoneSets(Split(data), key) ==> Same(Load(data), Defaults(), key)
  {
    hide Shows, Same, LastSets, NoneSets;
    DefaultsWhole();
    forall val | LastSets(Split(data), key, val) ensures Shows(Load(data), key, val) {
      LinesShow(Defaults(), Split(data), key, val);
    }
    if NoneSets(Split(data), key) { LinesKeep(Defaults(), Split(data), key); }
  }

  lemma DefaultsWhole()
    ensures Whole(Defaults())
  {
  }

  // The line is "key = value", with white space anywhere around the two, and
  // does not begin with a comment sign.
  ghost predicate Written(
    line: string, w: string, key: string, v: string, x: string, val: string, y: string)
  {
    && line == Assignment(w + key + v, x + val + y) && line[0] != '#'
    && Blank(w) && Blank(v) && Blank(x) && Blank(y)
    && key != [] && Tight(key) && NoEq(key) && Tight(val)
  }

  // Exactly such lines are entries.
  lemma EntryExactly(line: string, key: string, val: string)
    ensures ParseLine(line) == Some(Entry(key, val)) <==> exists w, v, x, y :: Written(line, w, key, v, x, val, y)
  {
    if ParseLine(line) == Some(Entry(key, val)) {
      var w, v, x, y := EntryHasParts(line);
      BeforeSplits(line);
      PartHasNoEq(line, w, key, v);
      assert Written(line, w, key, v, x, val, y);
    }
    if exists w, v, x, y :: Written(line, w, key, v, x, val, y) {
      var w, v, x, y :| Written(line, w, key, v, x, val, y);
      WrittenParses(line, w, key, v, x, val, y);
    }
  }

  lemma WrittenParses(line: string, w: string, key: string, v: string, x: string, val: string, y: string)
    requires Written(line, w, key, v, x, val, y)
    ensures ParseLine(line) == Some(Entry(key, val))
  {
    BlankHasNoEq(w);
    BlankHasNoEq(v);
    NoEqConcat(w, key);
    NoEqConcat(w + key, v);
    AssignmentSplits(w + key + v, x + val + y);
    TrimIs(w, key, v);
    TrimIs(x, val, y);
  }

  lemma PartHasNoEq(line: string, w: string, key: string, v: string)
    requires NoEq(Before(line)) && Before(line) == w + key + v
    ensures NoEq(key)
  {
    NoEqParts(w + key, v);
    NoEqParts(w, key);
  }

  lemma {:induction false} NoEqParts(a: string, b: string)
    requires NoEq(a + b)
    ensures NoEq(a) && NoEq(b)
  {
    if a == [] {
      assert a + b == b;
    } else {
      assert (a + b)[1..] == a[1..] + b;
      NoEqParts(a[1..], b);
    }
  }

  const ON_BY_DEFAULT: seq<string> :=
    ["block_cloud", "cloud_pushall_on_connect", "mqtt_keep_connection", "filter_mqtt_hms_65543"]

  // What a file without entries loads as.
  lemma EmptyFile()
    ensures var s := Load("");
      && (forall key :: key in TEXT_KEYS ==> key in s.texts && s.texts[key] == "")
      && (forall key :: key in FLAG_KEYS ==> key in s.flags && s.flags[key] == (key in ON_BY_DEFAULT))
      && s.cloudMqttPort == 8883 && s.cloudPrint == CloudOnly && s.cloudOsType == "" && !s.mytaskPop && !s.mytaskPopSet
  {
  }
}
