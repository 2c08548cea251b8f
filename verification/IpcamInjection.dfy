// What try_inject_ipcam_file_local does to a frame (src/agent.cpp): where the
// reader takes an object behind the ipcam key, it gains one member, or is left
// alone.
module IpcamInjection {
  import opened Text
  import opened JsonValue
  import opened JsonGrammar
  import opened JsonLocal
  import opened JsonRoundTrip
  import opened JsonPatch
  import opened JsonSpan

  // The injected member as written, and as a value.
  const INJECTED_FIELDS := [
    Field("local", Str("local")), Field("remote", Str("none")), Field("model_download", Str("enabled"))]
  const FILE_ENTRY := Object([
    Field("local", Str("local")), Field("model_download", Str("enabled")), Field("remote", Str("none"))])

  predicate NeedsNoEscape(t: string) {
    t == [] || (' ' <= t[0] && t[0] != '"' && t[0] != '\\' && NeedsNoEscape(t[1..]))
  }

  lemma {:induction false} PlainQuoted(t: string)
    requires NeedsNoEscape(t)
    ensures EscapeBody(t) == t
  {
    if t != [] { PlainQuoted(t[1..]); }
  }

  lemma PairIsMember(key: string, text: string, rest: string)
    requires NeedsNoEscape(key) && NeedsNoEscape(text)
    ensures Pair(key, text) + rest == Quoted(key) + (":" + (Quoted(text) + rest))
  {
    PlainQuoted(key);
    PlainQuoted(text);
  }

  lemma Words()
    ensures NeedsNoEscape("local") && NeedsNoEscape("remote") && NeedsNoEscape("none")
    ensures NeedsNoEscape("model_")
  {
  }

  lemma LongWords()
    ensures NeedsNoEscape("enabled") && NeedsNoEscape("download")
  {
  }

  lemma LongestWord()
    ensures NeedsNoEscape("model_download")
  {
    hide NeedsNoEscape;
    Words();
    LongWords();
    PlainConcat("model_", "download");
    assert "model_" + "download" == "model_download";
  }

  lemma {:induction false} PlainConcat(a: string, b: string)
    requires NeedsNoEscape(a) && NeedsNoEscape(b)
    ensures NeedsNoEscape(a + b)
  {
    if a == [] {
      assert a + b == b;
    } else {
      assert (a + b)[1..] == a[1..] + b;
      PlainConcat(a[1..], b);
    }
  }

  function Member(key: string, text: string): Field { Field(key, Str(text)) }

  lemma LastMember(key: string, text: string)
    requires NeedsNoEscape(key) && NeedsNoEscape(text)
    ensures DumpFields([Member(key, text)], false) == "," + Pair(key, text)
  {
    PairIsMember(key, text, "");
    assert [Member(key, text)][1..] == [];
    assert Pair(key, text) + "" == Pair(key, text);
    assert Quoted(text) + "" == Quoted(text);
  }

  lemma MoreMembers(key: string, text: string, rest: seq<Field>, first: bool)
    requires NeedsNoEscape(key) && NeedsNoEscape(text)
    ensures DumpFields([Member(key, text)] + rest, first)
      == (if first then "" else ",") + (Pair(key, text) + DumpFields(rest, false))
  {
    PairIsMember(key, text, DumpFields(rest, false));
    assert ([Member(key, text)] + rest)[1..] == rest;
  }

  lemma ThreeMembers(k0: string, t0: string, k1: string, t1: string, k2: string, t2: string)
    requires NeedsNoEscape(k0) && NeedsNoEscape(t0) && NeedsNoEscape(k1) && NeedsNoEscape(t1)
    requires NeedsNoEscape(k2) && NeedsNoEscape(t2)
    ensures DumpFields([Member(k0, t0), Member(k1, t1), Member(k2, t2)], true)
      == Pair(k0, t0) + ("," + (Pair(k1, t1) + ("," + Pair(k2, t2))))
  {
    LastMember(k2, t2);
    MoreMembers(k1, t1, [Member(k2, t2)], false);
    MoreMembers(k0, t0, [Member(k1, t1)] + [Member(k2, t2)], true);
    assert [Member(k0, t0)] + ([Member(k1, t1)] + [Member(k2, t2)])
        == [Member(k0, t0), Member(k1, t1), Member(k2, t2)];
    var tail := Pair(k1, t1) + ("," + Pair(k2, t2));
    assert "" + (Pair(k0, t0) + ("," + tail)) == Pair(k0, t0) + ("," + tail);
  }

  // The injected members are printed members.
  lemma InjectedBody()
    ensures INJECT_BODY == DumpFields(INJECTED_FIELDS, true)
  {
    Words();
    LongWords();
    LongestWord();
    ThreeMembers("local", "local", "remote", "none", "model_download", "enabled");
  }

  function Braced(inner: seq<Field>): string { "{" + DumpFields(inner, true) + "}" }

  lemma SameInsert(body: string)
    ensures FILE_KEY + ("{" + (body + "}")) == "\"file\"" + (":" + ("{" + body + "}"))
  {
  }

  // The inserted text is a comma and one printed member.
  lemma InjectIsMember()
    ensures INJECT == "," + (Quoted("file") + (":" + Braced(INJECTED_FIELDS)))
  {
    hide Quoted;
    QuotedFile();
    InjectedBody();
    SameInsert(INJECT_BODY);
  }

  lemma InjectedEntry()
    ensures EmplaceAll([], INJECTED_FIELDS) == FILE_ENTRY.fields
    ensures ValidFields(INJECTED_FIELDS) && PrintableFields(INJECTED_FIELDS) && FieldsDepth(INJECTED_FIELDS) == 0
  {
    var f := INJECTED_FIELDS;
    assert f[1..] == [f[1], f[2]] && f[1..][1..] == [f[2]] && f[1..][1..][1..] == [];
    assert Less("local", "remote") && Less("local", "model_download") && Less("model_download", "remote");
    assert Emplace([], "local", Str("local")) == [f[0]];
    assert Emplace([f[0]], "remote", Str("none")) == [f[0], f[1]];
    assert [f[0], f[1]][1..] == [f[1]];
    assert Emplace([f[1]], "model_download", Str("enabled")) == [f[2], f[1]];
    assert Emplace([f[0], f[1]], "model_download", Str("enabled")) == [f[0], f[2], f[1]];
  }

  // ---- Where the edit happens ----

  lemma FirstBrace(s: string, from: nat, brace: nat)
    requires Find(s, "{", from) == Some(brace)
    ensures brace < |s| && s[brace] == '{'
  {
    FindMeans(s, "{", from);
  }

  // On every frame where the reader takes an object from the first brace
  // behind the ipcam key: the frame is left alone when a member of that object
  // is spelled with the key "file":, and otherwise gains the new text in front
  // of the object's own closing brace.
  lemma InjectionIsLocal(s: string, pos: nat, brace: nat, level: nat, fields: seq<Field>, end: nat)
    requires Find(s, IPCAM_KEY, 0) == Some(pos) && Find(s, "{", pos + |IPCAM_KEY|) == Some(brace)
    requires ObjectAt(s, brace, level) == Ok(Read(Object(fields), end + 1))
    ensures InjectIpcam(s) ==
      if ObjectSpellsFile(s, brace, level) then None else Some(s[..end] + INJECT + s[end..])
  {
    hide ObjectAt, ObjectSpellsFile, Find, Scan;
    FirstBrace(s, pos + |IPCAM_KEY|, brace);
    ObjectEnds(s, brace, level);
    BehindKey(s, pos + |IPCAM_KEY|, brace, end, ObjectSpellsFile(s, brace, level), INJECT);
  }

  lemma BehindKey(s: string, from: nat, brace: nat, end: nat, hit: bool, insert: string)
    requires Find(s, "{", from) == Some(brace) && end < |s|
    requires Scan(s, brace + 1, '{', '}', 1, Outside, false) == Scanned(Some(end), hit)
    ensures InjectBehind(s, from, insert) == if hit then None else Some(s[..end] + insert + s[end..])
  {
    hide Find, Scan;
  }

  // ---- Whether there is a file entry ----

  lemma {:induction false} EmplaceKeepsKeys(fields: seq<Field>, key: string, value: Value, k: string)
    ensures HasKey(Emplace(fields, key, value), k) <==> k == key || HasKey(fields, k)
  {
    if fields == [] {
      KeyOfFirst(Field(key, value), [], k);
    } else {
      EmplaceKeepsKeys(fields[1..], key, value, k);
      KeyOfFirst(fields[0], fields[1..], k);
      KeyOfFirst(Field(key, value), fields, k);
      KeyOfFirst(fields[0], Emplace(fields[1..], key, value), k);
      assert fields == [fields[0]] + fields[1..];
    }
  }

  lemma KeyOfFirst(f: Field, rest: seq<Field>, k: string)
    ensures HasKey([f] + rest, k) <==> f.key == k || HasKey(rest, k)
  {
    var all := [f] + rest;
    assert all[0] == f;
    assert forall i :: 0 <= i < |rest| ==> rest[i] == all[i + 1];
  }

  lemma {:induction false} KeysStay(s: string, i: nat, level: nat, obj: seq<Field>, fields: seq<Field>, next: nat, k: string)
    requires i <= |s| && FieldsAt(s, i, level, obj) == Ok(Read(Object(fields), next)) && HasKey(obj, k)
    ensures HasKey(fields, k)
    decreases |s| - i
  {
    hide MemberAt, HasKey, Emplace;
    var m := MemberAt(s, i, level).value;
    var obj' := Emplace(obj, m.value.key, m.value.value);
    EmplaceKeepsKeys(obj, m.value.key, m.value.value, k);
    FieldsStep(s, i, level, obj, m.value, m.next);
    if s[m.next] == ',' {
      KeysStay(s, m.next + 1, level, obj', fields, next, k);
    }
  }

  lemma {:induction false} SpelledIsKey(s: string, i: nat, level: nat, obj: seq<Field>, fields: seq<Field>, next: nat)
    requires i <= |s| && FieldsAt(s, i, level, obj) == Ok(Read(Object(fields), next)) && SpellsFile(s, i, level)
    ensures HasKey(fields, "file")
    decreases |s| - i
  {
    hide At, HasKey, Emplace, ValueAt, StringAt;
    var m := MemberAt(s, i, level).value;
    var obj' := Emplace(obj, m.value.key, m.value.value);
    FieldsStep(s, i, level, obj, m.value, m.next);
    if At(s, WsEnd(s, i), FILE_KEY) {
      FileKeyMeans(s, WsEnd(s, i));
      EmplaceKeepsKeys(obj, m.value.key, m.value.value, "file");
      if s[m.next] == ',' { KeysStay(s, m.next + 1, level, obj', fields, next, "file"); }
    } else {
      SpelledIsKey(s, m.next + 1, level, obj', fields, next);
    }
  }

  // A frame is left alone only when the object does have a file entry.
  lemma LeftAloneHasFile(s: string, brace: nat, level: nat, fields: seq<Field>, next: nat)
    requires brace < |s| && ObjectAt(s, brace, level) == Ok(Read(Object(fields), next))
    requires ObjectSpellsFile(s, brace, level)
    ensures HasKey(fields, "file")
  {
    hide FieldsAt, SpellsFile, WsEnd;
    SpelledIsKey(s, WsEnd(s, brace + 1), level, [], fields, next);
  }

  // An entry that is there stays as it is: a key spelled otherwise, with white
  // space before its colon or with escapes, is not noticed, and the member
  // added behind it counts for nothing.
  lemma {:induction false} EntryStays(fields: seq<Field>, key: string, value: Value)
    requires Sorted(fields) && HasKey(fields, key)
    ensures Emplace(fields, key, value) == fields
  {
    var i :| 0 <= i < |fields| && fields[i].key == key;
    if i > 0 {
      LessIsStrictOrder(fields[0].key, key, key);
      LessIsStrictOrder(key, fields[0].key, key);
      assert fields[1..][i - 1].key == key;
      EntryStays(fields[1..], key, value);
    }
  }

  lemma SpacedMember(s: string)
    requires |s| == 11 && At(s, 1, Quoted("file")) && |Quoted("file")| == 6
    requires s[7] == ' ' && s[8] == ':' && s[9] == '1' && s[10] == '}'
    ensures MemberAt(s, 1, 1) == Ok(Read(Field("file", Number(1)), 10))
  {
    hide Quoted, StringAt, ValueFrom;
    QuotedReadsBack(s, 1, "file");
    OneReadsBack(s, 9);
    assert s[1] == '"' by { hide *; AtPointwise(s, 1, Quoted("file")); QuotedStarts("file"); assert s[1 + 0] == Quoted("file")[0]; }
    assert WsEnd(s, 1) == 1 && WsEnd(s, 7) == 8 && WsEnd(s, 9) == 9 && WsEnd(s, 10) == 10;
  }

  lemma QuotedStarts(t: string)
    ensures |Quoted(t)| > 0 && Quoted(t)[0] == '"'
  {
  }

  lemma OneReadsBack(s: string, i: nat)
    requires i + 1 < |s| && s[i] == '1' && Delimited(s, i + 1)
    ensures ValueFrom(s, i, 1) == Ok(Read(Number(1), i + 1))
  {
    assert Dump(Number(1)) == "1" && At(s, i, "1");
    NumeralReadsBack(s, i, 1, Number(1), i + 1);
  }

  // For example.
  lemma SpacedKeyIsMissed()
    ensures var s := "{\"file\" :1}";
      ObjectAt(s, 0, 1) == Ok(Read(Object([Field("file", Number(1))]), |s|)) && !ObjectSpellsFile(s, 0, 1)
  {
    hide MemberAt;
    var s := "{\"file\" :1}";
    QuotedFile();
    AtMiddle(s, "{", "\"file\"", " :1}");
    SpacedMember(s);
    assert s[1] == '"' && WsEnd(s, 1) == 1;
    AtPointwise(s, 1, FILE_KEY);
    assert FILE_KEY[6] == ':' && s[1 + 6] == ' ';
    FieldsStep(s, 1, 1, [], Field("file", Number(1)), 10);
  }

  // ---- What the edited object means ----

  lemma KeyPiece(s: string, i: nat, key: string, value: string)
    requires At(s, i, key + (":" + value))
    ensures At(s, i, key) && i + |key| < |s| && s[i + |key|] == ':'
    ensures At(s, i + |key| + 1, value)
  {
    AtSplit(s, i, key, ":" + value);
    AtHead(s, i + |key|, ':', value);
  }

  // The added member, wherever it stands: one level further in.
  lemma AddedMemberReadsBack(s: string, comma: nat, level: nat, key: string, inner: seq<Field>, next: nat)
    requires ValidFields(inner) && PrintableFields(inner) && FieldsDepth(inner) == 0
    requires At(s, comma, "," + (Quoted(key) + (":" + Braced(inner))))
    requires next == comma + 2 + |Quoted(key)| + |Braced(inner)| && next < |s| && s[next] == '}'
    ensures s[comma] == ','
    ensures MemberAt(s, comma + 1, level) ==
      if level < MAX_NESTING_DEPTH then Ok(Read(Field(key, Object(EmplaceAll([], inner))), next)) else Err(TooDeep)
  {
    hide At, Quoted, Braced, StringAt, MemberAt, ValueAt, EmplaceAll, FieldsDepth, ValidFields, PrintableFields;
    var colon := comma + 1 + |Quoted(key)|;
    AtHead(s, comma, ',', Quoted(key) + (":" + Braced(inner)));
    KeyPiece(s, comma + 1, Quoted(key), Braced(inner));
    QuotedReadsBack(s, comma + 1, key);
    MemberAssembles(s, comma + 1, level, key, colon);
    BracedReadsBack(s, colon + 1, level, inner);
  }

  lemma BracedReadsBack(s: string, i: nat, level: nat, inner: seq<Field>)
    requires ValidFields(inner) && PrintableFields(inner) && FieldsDepth(inner) == 0
    requires At(s, i, Braced(inner))
    ensures ValueAt(s, i, level) ==
      if level < MAX_NESTING_DEPTH then Ok(Read(Object(EmplaceAll([], inner)), i + |Braced(inner)|)) else Err(TooDeep)
  {
    hide ValueFrom, ObjectAt, EmplaceAll, DumpFields;
    assert s[i] == '{';
    ContainerDispatch(s, i, level);
    assert ValueAt(s, i, level) == ValueFrom(s, i, level);
    if level < MAX_NESTING_DEPTH { ObjectReadsBack(s, i, level + 1, inner); }
  }

  lemma LastMemberCloses(s: string, i: nat, level: nat, fields: seq<Field>, f: Field, next: nat)
    requires i <= |s| && MemberAt(s, i, level) == Ok(Read(f, next)) && next < |s| && s[next] == '}'
    ensures FieldsAt(s, i, level, fields) == Ok(Read(Object(Emplace(fields, f.key, f.value)), next + 1))
  {
    hide MemberAt, Emplace;
    FieldsStep(s, i, level, fields, f, next);
  }

  lemma MemberRefused(s: string, i: nat, level: nat, fields: seq<Field>, e: Error)
    requires i <= |s| && MemberAt(s, i, level) == Err(e)
    ensures FieldsAt(s, i, level, fields) == Err(e)
  {
    hide MemberAt;
  }

  lemma SplicedAgrees(s: string, end: nat, insert: string, s': string)
    requires end < |s| && insert != [] && s' == s[..end] + insert + s[end..]
    ensures Agree(s, s', 0, 0, end) && s'[end] == insert[0] && s'[end + |insert|] == s[end] && At(s', end, insert)
  {
    AtMiddle(s', s[..end], insert, s[end..]);
  }

  // The edited object, as the reader takes it: the old members and one more.
  // An object without members is no longer read, the comma having no member
  // before it; nor is one on the innermost level the reader allows.
  lemma EditedObjectIsRead(s: string, brace: nat, level: nat, fields: seq<Field>, end: nat, s': string)
    requires brace < |s| && ObjectAt(s, brace, level) == Ok(Read(Object(fields), end + 1))
    requires s' == s[..end] + INJECT + s[end..]
    ensures ObjectAt(s', brace, level) ==
      if fields == [] then Err(ExpectedString)
      else if level >= MAX_NESTING_DEPTH then Err(TooDeep)
      else Ok(Read(Object(Emplace(fields, "file", FILE_ENTRY)), end + |INJECT| + 1))
  {
    InjectIsMember();
    InjectedEntry();
    WithMemberIsRead(s, brace, level, fields, end, "file", INJECTED_FIELDS, INJECT, s');
  }

  lemma WithMemberIsRead(
      s: string, brace: nat, level: nat, fields: seq<Field>, end: nat, key: string, inner: seq<Field>, insert: string, s': string)
    requires brace < |s| && ObjectAt(s, brace, level) == Ok(Read(Object(fields), end + 1))
    requires ValidFields(inner) && PrintableFields(inner) && FieldsDepth(inner) == 0
    requires insert == "," + (Quoted(key) + (":" + Braced(inner)))
    requires s' == s[..end] + insert + s[end..]
    ensures ObjectAt(s', brace, level) ==
      if fields == [] then Err(ExpectedString)
      else if level >= MAX_NESTING_DEPTH then Err(TooDeep)
      else Ok(Read(Object(Emplace(fields, key, Object(EmplaceAll([], inner)))), end + |insert| + 1))
  {
    hide *;
    ObjectCloses(s, brace, level);
    MemberLength(insert, Quoted(key), Braced(inner));
    SplicedAgrees(s, end, insert, s');
    MemberGoesOn(s, brace, level, fields, end, key, inner, end + |insert|, s');
  }

  lemma MemberGoesOn(
      s: string, brace: nat, level: nat, fields: seq<Field>, end: nat, key: string, inner: seq<Field>, next: nat, s': string)
    requires brace < end < |s| && ObjectAt(s, brace, level) == Ok(Read(Object(fields), end + 1))
    requires ValidFields(inner) && PrintableFields(inner) && FieldsDepth(inner) == 0
    requires Agree(s, s', 0, 0, end) && At(s', end, "," + (Quoted(key) + (":" + Braced(inner))))
    requires next == end + 2 + |Quoted(key)| + |Braced(inner)| && next < |s'| && s'[next] == '}' && s'[end] == ','
    ensures ObjectAt(s', brace, level) ==
      if fields == [] then Err(ExpectedString)
      else if level >= MAX_NESTING_DEPTH then Err(TooDeep)
      else Ok(Read(Object(Emplace(fields, key, Object(EmplaceAll([], inner)))), next + 1))
  {
    hide *;
    var f := Field(key, Object(EmplaceAll([], inner)));
    ObjectGoesOn(s, s', 0, 0, end, brace, level, fields);
    AddedMemberReadsBack(s', end, level, key, inner, next);
    if level < MAX_NESTING_DEPTH {
      LastMemberCloses(s', end + 1, level, fields, f, next);
    } else {
      MemberRefused(s', end + 1, level, fields, TooDeep);
    }
  }

  lemma MemberLength(insert: string, key: string, value: string)
    requires insert == "," + (key + (":" + value))
    ensures |insert| == 2 + |key| + |value| && insert[0] == ','
  {
  }

  lemma ObjectCloses(s: string, i: nat, level: nat)
    requires i < |s| && ObjectAt(s, i, level).Ok?
    ensures var end := ObjectAt(s, i, level).value.next - 1; i < end && s[end] == '}'
  {
    hide FieldsAt, WsEnd;
    var j := WsEnd(s, i + 1);
    if !(j < |s| && s[j] == '}') {
      FieldsGiveObject(s, j, level, []);
    }
  }

  // ---- Calling it again ----

  lemma {:induction false} HitStays(s: string, i: nat, depth: nat, lex: Lex)
    requires depth >= 1
    ensures Scan(s, i, '{', '}', depth, lex, true).fileHit
    decreases |s| - i
  {
    hide At;
    if i < |s| {
      HitStays(s, i + 1, depth, Outside);
      HitStays(s, i + 1, depth, Inside);
      HitStays(s, i + 1, depth, Escaped);
      HitStays(s, i + 1, depth + 1, Outside);
      if depth > 1 { HitStays(s, i + 1, depth - 1, Outside); }
    }
  }

  // Up to the brace the matcher found, another text with the same characters
  // is matched alike.
  lemma {:induction false} HitCarries(
      s: string, s': string, i: nat, depth: nat, lex: Lex, hit: bool, hit': bool, end: nat)
    requires depth >= 1 && Scan(s, i, '{', '}', depth, lex, hit).end == Some(end)
    requires end <= |s'| && forall x :: 0 <= x < end ==> s'[x] == s[x]
    requires Scan(s', end, '{', '}', 1, Outside, false).fileHit
    ensures Scan(s', i, '{', '}', depth, lex, hit').fileHit
    decreases |s| - i
  {
    hide At;
    match lex
    case Escaped => HitCarries(s, s', i + 1, depth, Inside, hit, hit', end);
    case Inside =>
      HitCarries(s, s', i + 1, depth, if s[i] == '\\' then Escaped else if s[i] == '"' then Outside else Inside, hit, hit', end);
    case Outside =>
      if s[i] == '"' {
        HitCarries(s, s', i + 1, depth, Inside, hit || (depth == 1 && At(s, i, FILE_KEY)),
                   hit' || (depth == 1 && At(s', i, FILE_KEY)), end);
      } else if s[i] == '{' {
        HitCarries(s, s', i + 1, depth + 1, Outside, hit, hit', end);
      } else if s[i] != '}' {
        HitCarries(s, s', i + 1, depth, Outside, hit, hit', end);
      } else if depth > 1 {
        HitCarries(s, s', i + 1, depth - 1, Outside, hit, hit', end);
      } else if hit' {
        HitStays(s', i, 1, Outside);
      }
  }

  lemma HitFromKey(s: string, comma: nat)
    requires At(s, comma, INJECT)
    ensures Scan(s, comma, '{', '}', 1, Outside, false).fileHit
  {
    var tail := FILE_KEY + ("{" + (INJECT_BODY + "}"));
    AtHead(s, comma, ',', tail);
    AtSplit(s, comma + 1, FILE_KEY, "{" + (INJECT_BODY + "}"));
    QuoteHits(s, comma);
  }

  lemma QuoteHits(s: string, comma: nat)
    requires comma < |s| && s[comma] == ',' && At(s, comma + 1, FILE_KEY)
    ensures Scan(s, comma, '{', '}', 1, Outside, false).fileHit
  {
    hide At;
    AtPointwise(s, comma + 1, FILE_KEY);
    assert s[comma + 1 + 0] == FILE_KEY[0];
    HitStays(s, comma + 2, 1, Inside);
  }

  lemma EditIsSplice(s: string) returns (pos: nat, brace: nat, end: nat)
    requires InjectIpcam(s).Some?
    ensures Find(s, IPCAM_KEY, 0) == Some(pos) && Find(s, "{", pos + |IPCAM_KEY|) == Some(brace)
    ensures Scan(s, brace + 1, '{', '}', 1, Outside, false).end == Some(end) && brace < end < |s|
    ensures InjectIpcam(s) == Some(s[..end] + INJECT + s[end..])
  {
    hide Find, Scan;
    pos := Find(s, IPCAM_KEY, 0).value;
    brace := Find(s, "{", pos + |IPCAM_KEY|).value;
    end := Scan(s, brace + 1, '{', '}', 1, Outside, false).end.value;
  }

  // Whatever the frame, an edited one is not edited again: the added key is
  // met at depth 1.
  lemma InjectionTwice(s: string)
    requires InjectIpcam(s).Some?
    ensures InjectIpcam(InjectIpcam(s).value) == None
  {
    hide Find, Scan, At;
    var pos, brace, end := EditIsSplice(s);
    var s' := InjectIpcam(s).value;
    Spliced(s, end, end, INJECT, s');
    FindSeesOnly(s, s', IPCAM_KEY, 0, pos, end);
    FindSeesOnly(s, s', "{", pos + |IPCAM_KEY|, brace, end);
    HitFromKey(s', end);
    assert forall x :: 0 <= x < end ==> s'[..end][x] == s[..end][x];
    HitCarries(s, s', brace + 1, 1, Outside, false, false, end);
  }
}
