// The bracket matcher of src/agent.cpp against the reader of src/json_lite.cpp:
// on every text, where the reader accepts an array or an object, the matcher
// started at its bracket ends exactly where the reader does.
module JsonSpan {
  import opened Text
  import opened JsonValue
  import opened JsonGrammar
  import opened JsonLocal
  import opened JsonRoundTrip
  import opened JsonPatch

  // Which brackets are being matched.
  predicate Brackets(open: char, close: char) {
    (open == '[' && close == ']') || (open == '{' && close == '}')
  }

  // ---- Inside a string ----

  lemma HexIsPlain(c: char)
    requires HexValue(c).Some?
    ensures c != '"' && c != '\\'
  {
  }

  lemma HexSpan(s: string, i: nat, open: char, close: char, depth: nat, hit: bool)
    requires depth >= 1 && i + 4 <= |s| && Hex4(s, i).Some?
    ensures Scan(s, i, open, close, depth, Inside, hit) == Scan(s, i + 4, open, close, depth, Inside, hit)
  {
    HexIsPlain(s[i]);
    HexIsPlain(s[i + 1]);
    HexIsPlain(s[i + 2]);
    HexIsPlain(s[i + 3]);
    assert Scan(s, i, open, close, depth, Inside, hit) == Scan(s, i + 2, open, close, depth, Inside, hit);
  }

  // Over a backslash and what it escapes.
  lemma EscapeSpan(s: string, i: nat, open: char, close: char, depth: nat, hit: bool)
    requires depth >= 1 && i + 2 <= |s| && s[i] == '\\'
    ensures Scan(s, i, open, close, depth, Inside, hit) == Scan(s, i + 2, open, close, depth, Inside, hit)
  {
  }

  lemma UnicodeSpan(s: string, i: nat, open: char, close: char, depth: nat, hit: bool)
    requires depth >= 1 && i <= |s| && UnicodeEscape(s, i).Ok?
    ensures Scan(s, i, open, close, depth, Inside, hit)
         == Scan(s, UnicodeEscape(s, i).value.next, open, close, depth, Inside, hit)
  {
    hide Scan;
    HexSpan(s, i, open, close, depth, hit);
    if UnicodeEscape(s, i).value.next != i + 4 {
      EscapeSpan(s, i + 4, open, close, depth, hit);
      HexSpan(s, i + 6, open, close, depth, hit);
    }
  }

  lemma {:induction false} StringSpan(
      s: string, i: nat, out: string, open: char, close: char, depth: nat, hit: bool)
    requires depth >= 1 && i <= |s| && StringFrom(s, i, out).Ok?
    ensures Scan(s, i, open, close, depth, Inside, hit)
         == Scan(s, StringFrom(s, i, out).value.next, open, close, depth, Outside, hit)
    decreases |s| - i
  {
    hide UnicodeEscape, SimpleEscape, Utf8;
    if s[i] == '"' {
    } else if s[i] != '\\' {
      StringSpan(s, i + 1, out + [s[i]], open, close, depth, hit);
    } else {
      EscapeSpan(s, i, open, close, depth, hit);
      if s[i + 1] == 'u' {
        var u := UnicodeEscape(s, i + 2).value;
        UnicodeSpan(s, i + 2, open, close, depth, hit);
        StringSpan(s, u.next, out + Utf8(u.value), open, close, depth, hit);
      } else {
        StringSpan(s, i + 2, out + [SimpleEscape(s[i + 1]).value], open, close, depth, hit);
      }
    }
  }

  // Over a string literal: braces, brackets and quotes in it do not count.
  lemma QuotedSpan(s: string, i: nat, open: char, close: char, depth: nat, hit: bool)
    requires depth >= 1 && i <= |s| && StringAt(s, i).Ok?
    ensures Scan(s, i, open, close, depth, Outside, hit)
         == Scan(s, StringAt(s, i).value.next, open, close, depth, Outside,
                 hit || (open == '{' && depth == 1 && At(s, i, FILE_KEY)))
  {
    hide StringFrom, At;
    StringSpan(s, i + 1, "", open, close, depth, hit || (open == '{' && depth == 1 && At(s, i, FILE_KEY)));
  }

  // ---- Outside strings ----

  predicate PlainChar(c: char) { c != '"' && c != '[' && c != ']' && c != '{' && c != '}' }

  lemma {:induction false} PlainSpan(
      s: string, i: nat, j: nat, open: char, close: char, depth: nat, hit: bool)
    requires Brackets(open, close) && depth >= 1 && i <= j <= |s|
    requires forall x :: i <= x < j ==> PlainChar(s[x])
    ensures Scan(s, i, open, close, depth, Outside, hit) == Scan(s, j, open, close, depth, Outside, hit)
    decreases j - i
  {
    if i < j {
      assert PlainChar(s[i]);
      PlainSpan(s, i + 1, j, open, close, depth, hit);
    }
  }

  lemma {:induction false} WsIsPlain(s: string, i: nat)
    requires i <= |s|
    ensures forall x :: i <= x < WsEnd(s, i) ==> PlainChar(s[x])
    decreases |s| - i
  {
    if i < |s| && IsWs(s[i]) {
      WsIsPlain(s, i + 1);
    }
  }

  lemma {:induction false} DigitsArePlain(s: string, i: nat)
    requires i <= |s|
    ensures forall x :: i <= x < DigitsEnd(s, i) ==> PlainChar(s[x])
    decreases |s| - i
  {
    if i < |s| && IsDigit(s[i]) {
      DigitsArePlain(s, i + 1);
    }
  }

  lemma NumberIsPlain(s: string, i: nat)
    requires i < |s|
    ensures forall x :: i <= x < NumberEnd(s, i) ==> PlainChar(s[x])
  {
    var d := SignEnd(s, i);
    var f := DigitsEnd(s, d);
    var e := FractionEnd(s, f);
    DigitsArePlain(s, d);
    if e > f { DigitsArePlain(s, f + 1); }
    if ExponentEnd(s, e) > e {
      DigitsArePlain(s, e + 1);
      if e + 2 <= |s| { DigitsArePlain(s, e + 2); }
    }
  }

  lemma WsSpan(s: string, i: nat, open: char, close: char, depth: nat, hit: bool)
    requires Brackets(open, close) && depth >= 1 && i <= |s|
    ensures Scan(s, i, open, close, depth, Outside, hit) == Scan(s, WsEnd(s, i), open, close, depth, Outside, hit)
  {
    hide WsEnd;
    WsIsPlain(s, i);
    PlainSpan(s, i, WsEnd(s, i), open, close, depth, hit);
  }

  lemma LiteralSpan(s: string, i: nat, lit: string, open: char, close: char, depth: nat, hit: bool)
    requires Brackets(open, close) && depth >= 1 && At(s, i, lit)
    requires forall x :: 0 <= x < |lit| ==> PlainChar(lit[x])
    ensures Scan(s, i, open, close, depth, Outside, hit)
         == Scan(s, i + |lit|, open, close, depth, Outside, hit)
  {
    hide At, Scan;
    AtPointwise(s, i, lit);
    forall x | i <= x < i + |lit| ensures PlainChar(s[x]) {
      assert s[i + (x - i)] == lit[x - i];
    }
    PlainSpan(s, i, i + |lit|, open, close, depth, hit);
  }

  lemma LiteralsArePlain()
    ensures forall x :: 0 <= x < |"true"| ==> PlainChar("true"[x])
    ensures forall x :: 0 <= x < |"false"| ==> PlainChar("false"[x])
    ensures forall x :: 0 <= x < |"null"| ==> PlainChar("null"[x])
  {
  }

  // ---- The "file" key ----

  lemma QuotedFile()
    ensures Quoted("file") == "\"file\""
  {
    assert EscapeBody("e") == "e" + EscapeBody("");
    assert EscapeBody("le") == "l" + EscapeBody("e");
    assert EscapeBody("ile") == "i" + EscapeBody("le");
    assert EscapeBody("file") == "f" + EscapeBody("ile");
  }

  // What the seven characters mean to the reader.
  lemma FileKeyMeans(s: string, i: nat)
    requires At(s, i, FILE_KEY)
    ensures i + 6 < |s| && s[i + 6] == ':' && StringAt(s, i) == Ok(Read("file", i + 6))
  {
    hide StringAt;
    QuotedFile();
    assert FILE_KEY == Quoted("file") + ":";
    AtConcat(s, i, Quoted("file"), ":");
    QuotedReadsBack(s, i, "file");
  }

  // Some member, from a key at or behind i on, is written with that key and
  // its colon right behind it.
  predicate SpellsFile(s: string, i: nat, level: nat)
    requires i <= |s|
    decreases |s| - i
  {
    match MemberAt(s, i, level)
    case Err(_) => false
    case Ok(Read(_, j)) =>
      At(s, WsEnd(s, i), FILE_KEY) || (j < |s| && s[j] == ',' && SpellsFile(s, j + 1, level))
  }

  // The same for the object at i.
  predicate ObjectSpellsFile(s: string, i: nat, level: nat)
    requires i < |s|
  {
    var j := WsEnd(s, i + 1);
    !(j < |s| && s[j] == '}') && SpellsFile(s, j, level)
  }

  // ---- Values ----

  // The depth inside a bracket of the given kind.
  function Deeper(open: char, bracket: char, depth: nat): nat {
    if open == bracket then depth + 1 else depth
  }

  lemma OpenStep(s: string, i: nat, open: char, close: char, depth: nat, hit: bool)
    requires Brackets(open, close) && depth >= 1 && i < |s| && (s[i] == '[' || s[i] == '{')
    ensures Scan(s, i, open, close, depth, Outside, hit)
         == Scan(s, i + 1, open, close, Deeper(open, s[i], depth), Outside, hit)
  {
  }

  lemma CloseStep(s: string, i: nat, open: char, close: char, bracket: char, depth: nat, hit: bool)
    requires Brackets(open, close) && depth >= 1 && i < |s|
    requires (bracket == '[' && s[i] == ']') || (bracket == '{' && s[i] == '}')
    ensures Scan(s, i, open, close, Deeper(open, bracket, depth), Outside, hit)
         == Scan(s, i + 1, open, close, depth, Outside, hit)
  {
  }

  lemma {:induction false} ValueSpan(
      s: string, i: nat, level: nat, open: char, close: char, depth: nat, hit: bool)
    requires Brackets(open, close) && depth >= 1 && i <= |s| && ValueAt(s, i, level).Ok?
    requires var next := ValueAt(s, i, level).value.next; next < |s| ==> s[next] != ':'
    ensures Scan(s, i, open, close, depth, Outside, hit)
         == Scan(s, ValueAt(s, i, level).value.next, open, close, depth, Outside, hit)
    decreases |s| - i, 4
  {
    hide Scan, WsEnd, ValueFrom;
    WsSpan(s, i, open, close, depth, hit);
    FromSpan(s, WsEnd(s, i), level, open, close, depth, hit);
  }

  lemma {:induction false} FromSpan(
      s: string, i: nat, level: nat, open: char, close: char, depth: nat, hit: bool)
    requires Brackets(open, close) && depth >= 1 && i <= |s| && ValueFrom(s, i, level).Ok?
    requires var next := ValueFrom(s, i, level).value.next; next < |s| ==> s[next] != ':'
    ensures Scan(s, i, open, close, depth, Outside, hit)
         == Scan(s, ValueFrom(s, i, level).value.next, open, close, depth, Outside, hit)
    decreases |s| - i, 3
  {
    hide Scan, At, StringAt, ObjectAt, ArrayAt, NumberEnd, Stod;
    if s[i] == '"' {
      if At(s, i, FILE_KEY) { FileKeyMeans(s, i); }
      QuotedSpan(s, i, open, close, depth, hit);
    } else if s[i] == '{' {
      ObjectSpan(s, i, level + 1, open, close, depth, hit);
    } else if s[i] == '[' {
      ArraySpan(s, i, level + 1, open, close, depth, hit);
    } else if s[i] == '-' || IsDigit(s[i]) {
      NumberIsPlain(s, i);
      PlainSpan(s, i, NumberEnd(s, i), open, close, depth, hit);
    } else {
      LiteralsArePlain();
      var lit := if s[i] == 't' then "true" else if s[i] == 'f' then "false" else "null";
      LiteralSpan(s, i, lit, open, close, depth, hit);
    }
  }

  lemma {:induction false} ArraySpan(
      s: string, i: nat, level: nat, open: char, close: char, depth: nat, hit: bool)
    requires Brackets(open, close) && depth >= 1 && i < |s| && s[i] == '[' && ArrayAt(s, i, level).Ok?
    ensures Scan(s, i, open, close, depth, Outside, hit)
         == Scan(s, ArrayAt(s, i, level).value.next, open, close, depth, Outside, hit)
    decreases |s| - i, 2
  {
    hide Scan;
    OpenStep(s, i, open, close, depth, hit);
    ElementsSpan(s, i, level, open, close, Deeper(open, '[', depth), hit);
    CloseStep(s, ArrayAt(s, i, level).value.next - 1, open, close, '[', depth, hit);
  }

  // Up to the bracket that closes the array at i.
  lemma {:induction false} ElementsSpan(
      s: string, i: nat, level: nat, open: char, close: char, depth: nat, hit: bool)
    requires Brackets(open, close) && depth >= 1 && i < |s| && ArrayAt(s, i, level).Ok?
    ensures var end := ArrayAt(s, i, level).value.next - 1;
      i < end && s[end] == ']' &&
      Scan(s, i + 1, open, close, depth, Outside, hit) == Scan(s, end, open, close, depth, Outside, hit)
    decreases |s| - i, 1
  {
    hide Scan, ItemsAt, WsEnd;
    var j := WsEnd(s, i + 1);
    WsSpan(s, i + 1, open, close, depth, hit);
    if !(j < |s| && s[j] == ']') {
      ItemsSpan(s, j, level, [], open, close, depth, hit);
    }
  }

  lemma {:induction false} ItemsSpan(
      s: string, i: nat, level: nat, arr: seq<Value>, open: char, close: char, depth: nat, hit: bool)
    requires Brackets(open, close) && depth >= 1 && i <= |s| && ItemsAt(s, i, level, arr).Ok?
    ensures var end := ItemsAt(s, i, level, arr).value.next - 1;
      s[end] == ']' &&
      Scan(s, i, open, close, depth, Outside, hit) == Scan(s, end, open, close, depth, Outside, hit)
    decreases |s| - i, 6
  {
    hide Scan, ItemAt;
    var r := ItemAt(s, i, level).value;
    ItemsStep(s, i, level, arr, r.value, r.next);
    ItemSpan(s, i, level, open, close, depth, hit);
    if s[r.next] == ',' {
      PlainSpan(s, r.next, r.next + 1, open, close, depth, hit);
      ItemsSpan(s, r.next + 1, level, arr + [r.value], open, close, depth, hit);
    }
  }

  lemma {:induction false} ItemSpan(
      s: string, i: nat, level: nat, open: char, close: char, depth: nat, hit: bool)
    requires Brackets(open, close) && depth >= 1 && i <= |s| && ItemAt(s, i, level).Ok?
    requires var next := ItemAt(s, i, level).value.next; next < |s| && (s[next] == ',' || s[next] == ']')
    ensures Scan(s, i, open, close, depth, Outside, hit)
         == Scan(s, ItemAt(s, i, level).value.next, open, close, depth, Outside, hit)
    decreases |s| - i, 5
  {
    hide Scan, ValueAt;
    var next := ValueAt(s, i, level).value.next;
    ValueSpan(s, i, level, open, close, depth, hit);
    WsSpan(s, next, open, close, depth, hit);
  }

  lemma {:induction false} ObjectSpan(
      s: string, i: nat, level: nat, open: char, close: char, depth: nat, hit: bool)
    requires Brackets(open, close) && depth >= 1 && i < |s| && s[i] == '{' && ObjectAt(s, i, level).Ok?
    ensures Scan(s, i, open, close, depth, Outside, hit)
         == Scan(s, ObjectAt(s, i, level).value.next, open, close, depth, Outside, hit)
    decreases |s| - i, 2
  {
    hide Scan, ObjectSpellsFile;
    OpenStep(s, i, open, close, depth, hit);
    MembersSpan(s, i, level, open, close, Deeper(open, '{', depth), hit);
    CloseStep(s, ObjectAt(s, i, level).value.next - 1, open, close, '{', depth, hit);
  }

  // Whether a member written "file": counts: at depth 1 of braces.
  predicate Counts(open: char, depth: nat) { open == '{' && depth == 1 }

  // Up to the brace that closes the object at i.
  lemma {:induction false} MembersSpan(
      s: string, i: nat, level: nat, open: char, close: char, depth: nat, hit: bool)
    requires Brackets(open, close) && depth >= 1 && i < |s| && ObjectAt(s, i, level).Ok?
    ensures var end := ObjectAt(s, i, level).value.next - 1;
      i < end && s[end] == '}' &&
      Scan(s, i + 1, open, close, depth, Outside, hit)
        == Scan(s, end, open, close, depth, Outside, hit || (Counts(open, depth) && ObjectSpellsFile(s, i, level)))
    decreases |s| - i, 1
  {
    hide Scan, FieldsAt, WsEnd, SpellsFile;
    var j := WsEnd(s, i + 1);
    WsSpan(s, i + 1, open, close, depth, hit);
    if !(j < |s| && s[j] == '}') {
      FieldsSpan(s, j, level, [], open, close, depth, hit);
    }
  }

  lemma {:induction false} FieldsSpan(
      s: string, i: nat, level: nat, obj: seq<Field>, open: char, close: char, depth: nat, hit: bool)
    requires Brackets(open, close) && depth >= 1 && i <= |s| && FieldsAt(s, i, level, obj).Ok?
    ensures var end := FieldsAt(s, i, level, obj).value.next - 1;
      s[end] == '}' &&
      Scan(s, i, open, close, depth, Outside, hit)
        == Scan(s, end, open, close, depth, Outside, hit || (Counts(open, depth) && SpellsFile(s, i, level)))
    decreases |s| - i, 6
  {
    hide Scan, MemberAt, At, WsEnd;
    var m := MemberAt(s, i, level).value;
    var hit' := hit || (Counts(open, depth) && At(s, WsEnd(s, i), FILE_KEY));
    FieldsStep(s, i, level, obj, m.value, m.next);
    MemberSpan(s, i, level, open, close, depth, hit);
    if s[m.next] == ',' {
      PlainSpan(s, m.next, m.next + 1, open, close, depth, hit');
      FieldsSpan(s, m.next + 1, level, Emplace(obj, m.value.key, m.value.value), open, close, depth, hit');
    }
  }

  lemma {:induction false} MemberSpan(
      s: string, i: nat, level: nat, open: char, close: char, depth: nat, hit: bool)
    requires Brackets(open, close) && depth >= 1 && i <= |s| && MemberAt(s, i, level).Ok?
    requires var next := MemberAt(s, i, level).value.next; next < |s| && (s[next] == ',' || s[next] == '}')
    ensures Scan(s, i, open, close, depth, Outside, hit)
         == Scan(s, MemberAt(s, i, level).value.next, open, close, depth, Outside,
                 hit || (Counts(open, depth) && At(s, WsEnd(s, i), FILE_KEY)))
    decreases |s| - i, 5
  {
    hide Scan, At, ValueAt, StringAt;
    var q := WsEnd(s, i);
    var afterKey := StringAt(s, q).value.next;
    var colon := WsEnd(s, afterKey);
    var next := ValueAt(s, colon + 1, level).value.next;
    var hit' := hit || (Counts(open, depth) && At(s, q, FILE_KEY));
    WsSpan(s, i, open, close, depth, hit);
    QuotedSpan(s, q, open, close, depth, hit);
    WsSpan(s, afterKey, open, close, depth, hit');
    PlainSpan(s, colon, colon + 1, open, close, depth, hit');
    ValueSpan(s, colon + 1, level, open, close, depth, hit');
    WsSpan(s, next, open, close, depth, hit');
  }

  // ---- The matcher ends with the reader ----

  // On every text: where the reader takes an array, the matcher closes it at
  // its own bracket, whatever its strings hold.
  lemma ArrayEnds(s: string, open: nat, level: nat)
    requires open < |s| && s[open] == '[' && ArrayAt(s, open, level).Ok?
    ensures Scan(s, open + 1, '[', ']', 1, Outside, false)
         == Scanned(Some(ArrayAt(s, open, level).value.next - 1), false)
  {
    hide ArrayAt;
    ElementsSpan(s, open, level, '[', ']', 1, false);
  }

  // Where it takes an object, likewise; a "file" key is met exactly when a
  // member of this very object is spelled with it.
  lemma ObjectEnds(s: string, brace: nat, level: nat)
    requires brace < |s| && s[brace] == '{' && ObjectAt(s, brace, level).Ok?
    ensures Scan(s, brace + 1, '{', '}', 1, Outside, false)
         == Scanned(Some(ObjectAt(s, brace, level).value.next - 1), ObjectSpellsFile(s, brace, level))
  {
    hide ObjectAt, ObjectSpellsFile;
    MembersSpan(s, brace, level, '{', '}', 1, false);
  }
}
