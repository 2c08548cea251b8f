// Loading obn.conf (src/config.cpp:68-174; the defaults are those of
// include/obn/config.hpp).
module ConfigLoader {
  import opened Text
  import opened ConfigText

  datatype CloudPrintMode = CloudOnly | TryLanFirst | LanOnly | CloudForMakerWorldOnly

  const TEXT_KEYS: seq<string> := [
    "log_level", "log_stderr", "log_to_file", "log_file",
    "cloud_global_api_host", "cloud_global_web_host", "cloud_global_mqtt_host",
    "cloud_cn_api_host", "cloud_cn_web_host", "cloud_cn_mqtt_host",
    "slicer_key_pem", "slicer_cert_pem", "slicer_crl_pem",
    "client_name", "executable_info",
    "bambusource_log_level", "bambusource_log_stderr", "bambusource_log_to_file", "bambusource_log_file"]

  const FLAG_KEYS: seq<string> := [
    "lan_tls_skip_verify", "block_cloud", "cloud_hide_history", "cloud_pushall_on_connect",
    "force_timelapse_external", "force_ftps", "disable_camera_preview", "prefer_lan_over_tutk",
    "mqtt_keep_connection", "override_lan_ip", "patch_mqtt_home_flag", "patch_mqtt_ipcam_file",
    "patch_mqtt_internal_storage", "exp_numeric_sequence_id", "filter_mqtt_hms_65543"]

  // The Settings struct: its plain string and bool members under their names,
  // which are also their keys, and the members with a grammar of their own.
  datatype Settings = Settings(
    texts: map<string, string>, flags: map<string, bool>,
    cloudMqttPort: int, cloudPrint: CloudPrintMode, cloudOsType: string,
    mytaskPop: bool, mytaskPopSet: bool)
  {
    function WithText(key: string, val: string): Settings { this.(texts := texts[key := val]) }

    function WithFlag(key: string, val: bool): Settings { this.(flags := flags[key := val]) }
  }

  function Defaults(): Settings {
    Settings(map k | k in TEXT_KEYS :: "",
             map k | k in FLAG_KEYS :: k in {"block_cloud", "cloud_pushall_on_connect",
                                                   "mqtt_keep_connection", "filter_mqtt_hms_65543"},
             8883, CloudOnly, "", false, false)
  }

  // The text before the first '=', all of it when there is none.
  function Before(line: string): (r: string)
    ensures |r| <= |line|
  {
    if line == [] || line[0] == '=' then [] else [line[0]] + Before(line[1..])
  }

  datatype Entry = Entry(key: string, val: string)

  function ParseLine(line: string): Option<Entry> {
    if line == [] || line[0] == '#' then None
    else
      var eq := |Before(line)|;
      if eq == |line| || eq == 0 || Trim(line[..eq]) == [] then None
      else Some(Entry(Trim(line[..eq]), Trim(line[eq + 1..])))
  }

  function Digit(c: char): Option<nat> {
    if '0' <= c <= '9' then Some(c as int - '0' as int) else None
  }

  function DigitsValue(s: string, sofar: nat): nat
    decreases |s|
  {
    if s == [] || Digit(s[0]).None? then sofar else DigitsValue(s[1..], 10 * sofar + Digit(s[0]).value)
  }

  // std::atoi on a trimmed value, without its overflow.
  function Atoi(s: string): int {
    if s != [] && s[0] == '-' then 0 - DigitsValue(s[1..], 0)
    else if s != [] && s[0] == '+' then DigitsValue(s[1..], 0)
    else DigitsValue(s, 0)
  }

  function PrintMode(v: string): CloudPrintMode {
    if v == "try_lan_first" then TryLanFirst
    else if v == "lan_only" then LanOnly
    else if v == "cloud_for_makerworld_only" then CloudForMakerWorldOnly
    else CloudOnly
  }

  function ApplyKey(s: Settings, key: string, val: string): Settings {
    if key in TEXT_KEYS then s.WithText(key, val)
    else if key in FLAG_KEYS then s.WithFlag(key, Truthy(val))
    else ApplyOther(s, key, val)
  }

  function ApplyOther(s: Settings, key: string, val: string): Settings {
    if key == "cloud_mqtt_port" then
      if 0 < Atoi(val) <= 65535 then s.(cloudMqttPort := Atoi(val)) else s
    else if key == "cloud_os_type" then
      var v := Lower(val);
      if v in {"windows", "macos", "linux"} then s.(cloudOsType := v) else s
    else if key == "cloud_print" then s.(cloudPrint := PrintMode(Lower(val)))
    else if key == "mytask_pop" then
      var chosen := Lower(val) != "auto";
      s.(mytaskPopSet := chosen, mytaskPop := chosen && Truthy(val))
    else s
  }

  function ApplyLine(s: Settings, line: string): Settings {
    match ParseLine(line)
    case None => s
    case Some(e) => ApplyKey(s, e.key, e.val)
  }

  function ApplyAll(s: Settings, lines: seq<string>): Settings
    decreases |lines|
  {
    if lines == [] then s else ApplyAll(ApplyLine(s, lines[0]), lines[1..])
  }

  // What the loader makes of a file.
  function Load(data: string): Settings { ApplyAll(Defaults(), Split(data)) }

  // std::getline takes the line feed away; it makes no difference to the
  // loader, so lines may be read with their terminators.
  function WithoutLineFeed(line: string): string {
    if Ended(line) then line[..|line| - 1] else line
  }

  // parse_file: a stream of lines, each without its line feed.
  method ParseFile(data: string) returns (s: Settings)
    ensures s == Load(data)
  {
    s := Defaults();
    var rest := data;
    while rest != []
      invariant ApplyAll(s, Split(rest)) == Load(data)
      decreases |rest|
    {
      var line := FirstLine(rest);
      LineFeedIsIgnored(line);
      var entry := ParseLine(WithoutLineFeed(line));
      if entry.Some? { s := ApplyKey(s, entry.value.key, entry.value.val); }
      rest := rest[|line|..];
    }
  }

  // ---- The loader's grammar ----

  predicate NoEq(s: string) { s == [] || (s[0] != '=' && NoEq(s[1..])) }

  lemma {:induction false} BeforeEq(x: string, rest: string)
    requires NoEq(x) && (rest == [] || rest[0] == '=')
    ensures Before(x + rest) == x
  {
    if x == [] {
      assert x + rest == rest;
    } else {
      assert (x + rest)[1..] == x[1..] + rest;
      BeforeEq(x[1..], rest);
    }
  }

  lemma {:induction false} BeforeSplits(line: string)
    ensures NoEq(Before(line)) && line[..|Before(line)|] == Before(line)
    ensures |Before(line)| < |line| ==> line[|Before(line)|] == '='
  {
    if line != [] && line[0] != '=' {
      BeforeSplits(line[1..]);
    }
  }

  lemma {:induction false} NoEqConcat(a: string, b: string)
    requires NoEq(a) && NoEq(b)
    ensures NoEq(a + b)
  {
    if a == [] {
      assert a + b == b;
    } else {
      assert (a + b)[1..] == a[1..] + b;
      NoEqConcat(a[1..], b);
    }
  }

  lemma {:induction false} BlankHasNoEq(w: string)
    requires Blank(w)
    ensures NoEq(w)
  {
    if w != [] {
      BlankHasNoEq(w[1..]);
    }
  }

  // A word that can be a key.
  predicate KeyWord(key: string) { key != [] && key[0] != '#' && Solid(key) && NoEq(key) }

  function Assignment(left: string, right: string): string { left + (['='] + right) }

  lemma AssignmentSplits(left: string, right: string)
    requires NoEq(left)
    ensures var line := Assignment(left, right);
      |left| < |line| && Before(line) == left && line[..|left|] == left && line[|left| + 1..] == right
  {
    var tail := ['='] + right;
    assert tail[0] == '=' && tail[1..] == right;
    BeforeEq(left, tail);
    CutBehind(left, tail);
  }

  lemma CutBehind(left: string, tail: string)
    requires tail != []
    ensures (left + tail)[..|left|] == left && (left + tail)[|left| + 1..] == tail[1..]
  {
  }

  lemma LeftHasNoEq(w: string, key: string, v: string)
    requires KeyWord(key) && Blank(w) && Blank(v)
    ensures NoEq(w + key + v) && Trim(w + key + v) == key
    ensures |w + key + v| > 0 && (w + key + v)[0] != '#'
  {
    SolidIsTight(key);
    TrimIs(w, key, v);
    BlankHasNoEq(w);
    BlankHasNoEq(v);
    NoEqConcat(w, key);
    NoEqConcat(w + key, v);
  }

  // A line "w key v = x val y", with w v x y blank, is the entry (key, val).
  lemma AssignmentParses(w: string, key: string, v: string, x: string, val: string, y: string)
    requires KeyWord(key) && Tight(val) && Blank(w) && Blank(v) && Blank(x) && Blank(y)
    ensures ParseLine(Assignment(w + key + v, x + val + y)) == Some(Entry(key, val))
  {
    LeftHasNoEq(w, key, v);
    AssignmentSplits(w + key + v, x + val + y);
    TrimIs(x, val, y);
  }

  // Every entry comes from such a line.
  lemma EntryHasParts(line: string)
    returns (w: string, v: string, x: string, y: string)
    requires ParseLine(line).Some?
    ensures var e := ParseLine(line).value;
      line == Assignment(w + e.key + v, x + e.val + y) && e.key != [] && Tight(e.key) && Tight(e.val) && Before(line) == w + e.key + v
    ensures Blank(w) && Blank(v) && Blank(x) && Blank(y)
  {
    var eq := |Before(line)|;
    BeforeSplits(line);
    w, v := TrimSplits(line[..eq]);
    x, y := TrimSplits(line[eq + 1..]);
    CutAt(line, eq);
  }

  lemma CutAt(line: string, eq: nat)
    requires eq < |line| && line[eq] == '='
    ensures line == Assignment(line[..eq], line[eq + 1..])
  {
  }

  lemma LineFeedIsIgnored(line: string)
    ensures ParseLine(WithoutLineFeed(line)) == ParseLine(line)
  {
    if Ended(line) {
      LineFeedAdded(line[..|line| - 1]);
      assert line == line[..|line| - 1] + "\n";
    }
  }

  lemma LineFeedAdded(s: string)
    ensures ParseLine(s + "\n") == ParseLine(s)
  {
    BeforeSplits(s);
    if |Before(s)| == |s| {
      assert s[..|s|] == s;
      NoEqConcat(s, "\n");
      BeforeEq(s + "\n", []);
      assert s + "\n" + [] == s + "\n";
    } else {
      var left, right := s[..|Before(s)|], s[|Before(s)| + 1..];
      assert s == left + ("=" + right) && s + "\n" == left + ("=" + right + "\n");
      BeforeEq(left, "=" + right + "\n");
      assert (s + "\n")[..|left|] == left && (s + "\n")[|left| + 1..] == right + "\n";
      TrimLineFeed(right);
    }
  }

  lemma TrimLineFeed(s: string)
    ensures Trim(s + "\n") == Trim(s)
  {
    var w, v := TrimSplits(s);
    BlankConcat(v, "\n");
    assert s + "\n" == w + Trim(s) + (v + "\n");
    TrimIs(w, Trim(s), v + "\n");
  }

  lemma {:induction false} ApplyAllConcat(s: Settings, a: seq<string>, b: seq<string>)
    ensures ApplyAll(s, a + b) == ApplyAll(ApplyAll(s, a), b)
    decreases |a|
  {
    if a == [] {
      assert a + b == b;
    } else {
      assert (a + b)[1..] == a[1..] + b;
      ApplyAllConcat(ApplyLine(s, a[0]), a[1..], b);
    }
  }
}
