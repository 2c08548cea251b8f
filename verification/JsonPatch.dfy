// The in-place edits of raw JSON text in src/agent.cpp: a hand-written bracket
// matcher, the removal of one HMS code, and the ipcam file injection.
module JsonPatch {
  import opened Text
  import opened JsonValue
  import opened JsonGrammar
  import opened JsonParser
  import opened JsonNumeral
  import opened JsonAccepted
  import opened HmsSearch

  // in_str / esc of the matchers.
  datatype Lex = Outside | Inside | Escaped

  datatype Scanned = Scanned(end: Option<nat>, fileHit: bool)

  const FILE_KEY := "\"file\":"

  // The bracket matcher: the position where `depth` open brackets are closed
  // and, for braces, whether a "file" key was met at depth 1.
  function Scan(s: string, i: nat, open: char, close: char, depth: nat, lex: Lex, hit: bool): (r: Scanned)
    requires depth >= 1
    ensures r.end.Some? ==> i <= r.end.value < |s|
    decreases |s| - i
  {
    if i >= |s| then Scanned(None, hit)
    else
      match lex
      case Escaped => Scan(s, i + 1, open, close, depth, Inside, hit)
      case Inside =>
        Scan(s, i + 1, open, close, depth,
             if s[i] == '\\' then Escaped else if s[i] == '"' then Outside else Inside, hit)
      case Outside =>
        if s[i] == '"' then
          Scan(s, i + 1, open, close, depth, Inside, hit || (open == '{' && depth == 1 && At(s, i, FILE_KEY)))
        else if s[i] == open then Scan(s, i + 1, open, close, depth + 1, Outside, hit)
        else if s[i] != close then Scan(s, i + 1, open, close, depth, Outside, hit)
        else if depth == 1 then Scanned(Some(i), hit)
        else Scan(s, i + 1, open, close, depth - 1, Outside, hit)
  }

  function LexOf(inStr: bool, esc: bool): Lex {
    if !inStr then Outside else if esc then Escaped else Inside
  }

  // matching_array_end. Its `depth < 0` exit cannot be taken: the bracket at
  // `open` is counted first.
  method MatchingArrayEnd(s: string, open: nat) returns (r: Option<nat>)
    ensures r == if open < |s| && s[open] == '[' then Scan(s, open + 1, '[', ']', 1, Outside, false).end else None
  {
    if open >= |s| || s[open] != '[' { return None; }
    var depth: nat := 0;
    var inStr, esc := false, false;
    var i := open;
    ghost var goal := Scan(s, open + 1, '[', ']', 1, Outside, false);
    while i < |s|
      invariant open <= i <= |s|
      invariant i == open ==> depth == 0 && !inStr
      invariant i > open ==> depth >= 1 && Scan(s, i, '[', ']', depth, LexOf(inStr, esc), false) == goal
      invariant esc ==> inStr
    {
      var c := s[i];
      if inStr {
        if esc { esc := false; }
        else if c == '\\' { esc := true; }
        else if c == '"' { inStr := false; }
        i := i + 1;
        continue;
      }
      if c == '"' {
        inStr := true;
      } else if c == '[' {
        depth := depth + 1;
      } else if c == ']' {
        depth := depth - 1;
        if depth == 0 { return Some(i); }
      }
      i := i + 1;
    }
    return None;
  }

  // ---- try_filter_hms_code ----

  // A number whose integer part is the target.
  predicate IsCode(code: Value, target: int) {
    (code.Number? || code.Real?) && AsInt(code) == target
  }

  // An HMS entry with the target code.
  predicate HasCode(item: Value, target: int) {
    item.Object? && IsCode(Lookup(item.fields, "code"), target)
  }

  predicate AnyHasCode(items: seq<Value>, target: int) {
    items != [] && (HasCode(items[0], target) || AnyHasCode(items[1..], target))
  }

  // The same by the fields of the entry: one with the key "code", and a number
  // that is the target or has it as its integer part.
  ghost predicate Bears(item: Value, target: int) {
    item.Object? && exists i :: 0 <= i < |item.fields| && CodeField(item.fields[i], target)
  }

  ghost predicate CodeField(f: Field, target: int) {
    f.key == "code" &&
    match f.value
    case Number(n) => n == target
    case Real(lexeme) => exists n :: GoodNumeral(n) && NumeralText(n) == lexeme && WholePart(n) == target
    case _ => false
  }

  lemma {:induction false} LookupMeans(fields: seq<Field>, key: string, i: nat)
    requires Sorted(fields) && i < |fields| && fields[i].key == key
    ensures Lookup(fields, key) == fields[i].value
  {
    if i > 0 {
      assert Less(fields[0].key, fields[i].key);
      LessIsStrictOrder(key, key, key);
      LookupMeans(fields[1..], key, i - 1);
    }
  }

  lemma {:induction false} LookupFinds(fields: seq<Field>, key: string)
    ensures Lookup(fields, key) == Null || exists i :: 0 <= i < |fields| && fields[i] == Field(key, Lookup(fields, key))
  {
    if fields != [] && fields[0].key == key {
      assert fields[0] == Field(key, Lookup(fields, key));
    } else if fields != [] {
      LookupFinds(fields[1..], key);
      if i :| 0 <= i < |fields[1..]| && fields[1..][i] == Field(key, Lookup(fields, key)) {
        assert fields[i + 1] == Field(key, Lookup(fields, key));
      }
    }
  }

  lemma {:induction false} FieldPrints(fields: seq<Field>, i: nat)
    requires PrintableFields(fields) && i < |fields|
    ensures Printable(fields[i].value)
  {
    if i > 0 { FieldPrints(fields[1..], i - 1); }
  }

  // The characters of a number read as Real are those of a numeral, whose
  // integer part is the number's.
  lemma RealCode(lexeme: string, target: int)
    requires Printable(Real(lexeme))
    ensures AsInt(Real(lexeme)) == target <==> CodeField(Field("code", Real(lexeme)), target)
  {
    hide AsInt, WholePart, NumberEnd, NumeralText, NumeralValue;
    var n := NumeralParts(lexeme, 0);
    assert lexeme[0..|lexeme|] == lexeme;
    IntegerPart(n);
    assert NumeralText(n) == lexeme && NumeralValue(n) == Real(lexeme);
    forall m | GoodNumeral(m) && NumeralText(m) == lexeme ensures WholePart(m) == AsInt(Real(lexeme)) {
      NumeralReads(m);
      IntegerPart(m);
    }
  }

  lemma CodeMeans(v: Value, target: int)
    requires Printable(v)
    ensures IsCode(v, target) <==> CodeField(Field("code", v), target)
  {
    if v.Real? { RealCode(v.lexeme, target); }
  }

  lemma FieldsCode(fields: seq<Field>, target: int)
    requires Sorted(fields) && PrintableFields(fields)
    ensures IsCode(Lookup(fields, "code"), target) <==> exists i :: 0 <= i < |fields| && CodeField(fields[i], target)
  {
    hide AsInt, Printable, Lookup, Sorted;
    LookupFinds(fields, "code");
    forall i | 0 <= i < |fields| && fields[i].key == "code"
      ensures IsCode(Lookup(fields, "code"), target) <==> CodeField(fields[i], target)
    {
      LookupMeans(fields, "code", i);
      FieldPrints(fields, i);
      CodeMeans(fields[i].value, target);
      assert fields[i] == Field("code", fields[i].value);
    }
  }

  lemma HasCodeMeans(item: Value, target: int)
    requires Valid(item) && Printable(item)
    ensures HasCode(item, target) <==> Bears(item, target)
  {
    if item.Object? { FieldsCode(item.fields, target); }
  }

  lemma {:induction false} EachIsSound(items: seq<Value>, i: nat)
    requires ValidItems(items) && PrintableItems(items) && i < |items|
    ensures Valid(items[i]) && Printable(items[i])
  {
    if i > 0 { EachIsSound(items[1..], i - 1); }
  }

  lemma {:induction false} AnyMeans(items: seq<Value>, target: int)
    requires ValidItems(items) && PrintableItems(items)
    ensures AnyHasCode(items, target) <==> exists i :: 0 <= i < |items| && Bears(items[i], target)
  {
    hide Bears, HasCode;
    if items != [] {
      HasCodeMeans(items[0], target);
      AnyMeans(items[1..], target);
      assert forall i :: 1 <= i < |items| ==> items[i] == items[1..][i - 1];
    }
  }

  // The entries that stay, in order.
  function Kept(items: seq<Value>, target: int): seq<Value> {
    if items == [] then []
    else (if HasCode(items[0], target) then [] else [items[0]]) + Kept(items[1..], target)
  }

  datatype Span = Span(open: nat, close: nat)

  // The array the filter works on, its brackets included.
  function HmsSpan(s: string): (r: Option<Span>)
    ensures r.Some? ==> r.value.open < r.value.close < |s|
  {
    match HmsOpen(s, 0)
    case None => None
    case Some(open) =>
      match Scan(s, open + 1, '[', ']', 1, Outside, false).end
      case None => None
      case Some(close) => Some(Span(open, close))
  }

  function HmsItems(s: string): Option<seq<Value>> {
    match HmsSpan(s)
    case None => None
    case Some(Span(open, close)) =>
      match Parse(s[open..close + 1])
      case Ok(Array(items)) => Some(items)
      case _ => None
  }

  // The edited text, or None when the text is left alone.
  function FilterHms(s: string, target: int): Option<string> {
    match HmsItems(s)
    case None => None
    case Some(items) =>
      if !AnyHasCode(items, target) then None
      else
        var span := HmsSpan(s).value;
        Some(s[..span.open] + Dump(Array(Kept(items, target))) + s[span.close + 1..])
  }

  method TryFilterHmsCode(payload: string, target: int) returns (ok: bool, payload': string)
    ensures ok == FilterHms(payload, target).Some?
    ensures payload' == if ok then FilterHms(payload, target).value else payload
    ensures ok <==>
      HmsItems(payload).Some? &&
      exists i :: 0 <= i < |HmsItems(payload).value| && Bears(HmsItems(payload).value[i], target)
  {
    hide HmsOpen, Scan, Parse, Dump, Kept, AnyHasCode, Bears, FirstArray, Sound;
    var open := FindHmsArray(payload);
    if open.None? { return false, payload; }
    var close := MatchingArrayEnd(payload, open.value);
    if close.None? { return false, payload; }
    var parsed := ParseText(payload[open.value..close.value + 1]);
    if parsed.Err? || !parsed.value.Array? { return false, payload; }
    SoundItems(payload[open.value..close.value + 1], parsed.value.items);
    AnyMeans(parsed.value.items, target);
    var kept, dropped := Partition(parsed.value.items, target);
    if !dropped { return false, payload; }
    var text := DumpText(Array(kept));
    return true, payload[..open.value] + text + payload[close.value + 1..];
  }

  lemma SoundItems(text: string, items: seq<Value>)
    requires Parse(text) == Ok(Array(items))
    ensures ValidItems(items) && PrintableItems(items)
  {
    hide Parse;
    AcceptedIsValid(text);
  }

  method Partition(items: seq<Value>, target: int) returns (kept: seq<Value>, dropped: bool)
    ensures kept == Kept(items, target) && dropped == AnyHasCode(items, target)
  {
    hide HasCode;
    kept, dropped := [], false;
    for k := 0 to |items|
      invariant kept + Kept(items[k..], target) == Kept(items, target)
      invariant AnyHasCode(items, target) == (dropped || AnyHasCode(items[k..], target))
    {
      assert items[k..][1..] == items[k + 1..];
      if HasCode(items[k], target) { dropped := true; } else { kept := kept + [items[k]]; }
    }
  }

  // ---- try_inject_ipcam_file_local ----

  const IPCAM_KEY := "\"ipcam\":"

  // The injected text:
  // ,"file":{"local":"local","remote":"none","model_download":"enabled"}
  const INJECT := "," + (FILE_KEY + ("{" + (INJECT_BODY + "}")))
  const INJECT_BODY :=
    Pair("local", "local") + ("," + (Pair("remote", "none") + ("," + Pair("model_download", "enabled"))))

  function Pair(key: string, text: string): string { "\"" + key + "\":\"" + text + "\"" }

  function InjectIpcam(s: string): Option<string> {
    match Find(s, IPCAM_KEY, 0)
    case None => None
    case Some(pos) => InjectBehind(s, pos + |IPCAM_KEY|, INJECT)
  }

  // Into the first object from `from` on, unless it has a "file" key.
  function InjectBehind(s: string, from: nat, insert: string): Option<string> {
    match Find(s, "{", from)
    case None => None
    case Some(brace) =>
      var r := Scan(s, brace + 1, '{', '}', 1, Outside, false);
      if r.end.None? || r.fileHit then None
      else Some(s[..r.end.value] + insert + s[r.end.value..])
  }

  method TryInjectIpcamFileLocal(payload: string) returns (ok: bool, payload': string)
    ensures ok == InjectIpcam(payload).Some?
    ensures payload' == if ok then InjectIpcam(payload).value else payload
  {
    var pos := Find(payload, IPCAM_KEY, 0);
    if pos.None? { return false, payload; }
    var brace := Find(payload, "{", pos.value + |IPCAM_KEY|);
    if brace.None? { return false, payload; }
    var i := brace.value + 1;
    var depth: nat := 1;
    var inStr, esc, fileHit := false, false, false;
    var end: Option<nat> := None;
    ghost var goal := Scan(payload, i, '{', '}', 1, Outside, false);
    while i < |payload|
      invariant brace.value < i <= |payload| && depth >= 1 && end == None
      invariant Scan(payload, i, '{', '}', depth, LexOf(inStr, esc), fileHit) == goal
      invariant esc ==> inStr
    {
      var c := payload[i];
      if inStr {
        if esc { esc := false; }
        else if c == '\\' { esc := true; }
        else if c == '"' { inStr := false; }
        i := i + 1;
        continue;
      }
      if c == '"' {
        inStr := true;
        if depth == 1 && At(payload, i, FILE_KEY) { fileHit := true; }
      } else if c == '{' {
        depth := depth + 1;
      } else if c == '}' {
        depth := depth - 1;
        if depth == 0 { end := Some(i); break; }
      }
      i := i + 1;
    }
    if end.None? { return false, payload; }
    if fileHit { return false, payload; }
    return true, payload[..end.value] + INJECT + payload[end.value..];
  }
}
