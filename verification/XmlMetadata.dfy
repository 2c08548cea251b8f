// Reading back the printed text of metadata elements (src/model_metadata.cpp:
// 39-72, 126-196): escaped text, comments and CDATA sections, read as a value
// and stepped over by the scan.
module XmlMetadata {
  import opened Text
  import opened XmlScan

  // ---- Printing ----

  function EscapeChar(c: char): string {
    if c == '&' then "&amp;" else if c == '<' then "&lt;" else if c == '>' then "&gt;"
    else if c == '"' then "&quot;" else if c == '\'' then "&apos;" else [c]
  }

  function EscapeText(t: string): string {
    if t == [] then [] else EscapeChar(t[0]) + EscapeText(t[1..])
  }

  // Element content: text, then perhaps a comment or a CDATA section and more.
  datatype Content =
    | Chars(text: string)
    | Noted(text: string, comment: string, rest: Content)
    | Raw(text: string, data: string, rest: Content)

  function PrintContent(c: Content): string {
    match c
    case Chars(t) => EscapeText(t)
    case Noted(t, n, rest) => EscapeText(t) + (COMMENT + (n + (COMMENT_END + PrintContent(rest))))
    case Raw(t, d, rest) => EscapeText(t) + (CDATA + (d + (CDATA_END + PrintContent(rest))))
  }

  // The value of the element: its text, comments left out.
  function ValueOf(c: Content): string {
    match c
    case Chars(t) => t
    case Noted(t, _, rest) => t + ValueOf(rest)
    case Raw(t, d, rest) => t + d + ValueOf(rest)
  }

  // The text can stand before its terminator without containing it.
  predicate EndsAt(text: string, end: string) { Index(text + end, end) == Some(|text|) }

  predicate Without(s: string, c: char) { s == [] || (s[0] != c && Without(s[1..], c)) }

  predicate GoodContent(c: Content) {
    match c
    case Chars(_) => true
    case Noted(_, n, rest) => EndsAt(n, COMMENT_END) && GoodContent(rest)
    case Raw(_, d, rest) => EndsAt(d, CDATA_END) && GoodContent(rest)
  }

  const ELEMENT_END: string := "</metadata>"

  // ---- Searching printed text ----

  lemma {:induction false} IndexOfChar(x: string, c: char, rest: string)
    requires Without(x, c)
    ensures Index(x + ([c] + rest), [c]) == Some(|x|)
  {
    var s := x + ([c] + rest);
    if x == [] {
      assert s == [c] + rest && s[..1] == [c];
    } else {
      assert s[..1] == [x[0]] && s[1..] == x[1..] + ([c] + rest);
      IndexOfChar(x[1..], c, rest);
    }
  }

  lemma {:induction false} IndexWithMore(s: string, t: string, more: string)
    requires Index(s, t).Some?
    ensures Index(s + more, t) == Index(s, t)
  {
    if Starts(s, t) {
      assert (s + more)[..|t|] == s[..|t|];
    } else {
      assert (s + more)[1..] == s[1..] + more;
      assert |t| <= |s + more| && |t| <= |s| ==> (s + more)[..|t|] == s[..|t|];
      IndexWithMore(s[1..], t, more);
    }
  }

  lemma {:induction false} IndexSkips(x: string, c: char, rest: string)
    requires Without(x, c)
    ensures Index(x + rest, [c]) == match Index(rest, [c]) case None => None case Some(k) => Some(|x| + k)
  {
    if x == [] {
      assert x + rest == rest;
    } else {
      assert (x + rest)[..1] == [x[0]] && (x + rest)[1..] == x[1..] + rest;
      IndexSkips(x[1..], c, rest);
    }
  }

  // ---- Entities ----

  lemma EntityDecodes(ent: string, t: string, rest: string)
    requires Without(ent, ';') && |ent| < MAX_ENTITY && Entity(ent) == Some(t)
    ensures DecodeText(['&'] + (ent + ([';'] + rest))) == t + DecodeText(rest)
  {
    var s := ['&'] + (ent + ([';'] + rest));
    assert s[1..] == ent + ([';'] + rest);
    IndexOfChar(ent, ';', rest);
    var semi := |ent| + 1;
    assert s[1..semi] == ent && s[semi + 1..] == rest;
  }

  lemma PlainDecodes(c: char, rest: string)
    requires c != '&'
    ensures DecodeText([c] + rest) == [c] + DecodeText(rest)
  {
    assert ([c] + rest)[1..] == rest;
  }

  lemma EscapedDecodes(c: char, rest: string)
    ensures DecodeText(EscapeChar(c) + rest) == [c] + DecodeText(rest)
  {
    if c == '&' {
      EntityOf("amp", "&", "&amp;", rest);
    } else if c == '<' {
      EntityOf("lt", "<", "&lt;", rest);
    } else if c == '>' {
      EntityOf("gt", ">", "&gt;", rest);
    } else if c == '"' {
      EntityOf("quot", "\"", "&quot;", rest);
    } else if c == '\'' {
      EntityOf("apos", "'", "&apos;", rest);
    } else {
      PlainDecodes(c, rest);
    }
  }

  lemma EntityOf(ent: string, t: string, printed: string, rest: string)
    requires printed == ['&'] + (ent + [';']) && |ent| < MAX_ENTITY && Entity(ent) == Some(t)
    requires ';' !in ent
    ensures DecodeText(printed + rest) == t + DecodeText(rest)
  {
    Absent(ent, ';');
    assert printed + rest == ['&'] + (ent + ([';'] + rest));
    EntityDecodes(ent, t, rest);
  }

  lemma {:induction false} Absent(s: string, c: char)
    requires c !in s
    ensures Without(s, c)
  {
    if s != [] {
      Absent(s[1..], c);
    }
  }

  // Decoding undoes escaping.
  lemma {:induction false} DecodeEscaped(t: string)
    ensures DecodeText(EscapeText(t)) == t
  {
    if t != [] {
      DecodeEscaped(t[1..]);
      EscapedDecodes(t[0], EscapeText(t[1..]));
    }
  }

  lemma {:induction false} WithoutConcat(a: string, b: string, c: char)
    requires Without(a, c) && Without(b, c)
    ensures Without(a + b, c)
  {
    if a == [] {
      assert a + b == b;
    } else {
      assert (a + b)[1..] == a[1..] + b;
      WithoutConcat(a[1..], b, c);
    }
  }

  lemma EscapedHasNoTag(c: char)
    ensures '<' !in EscapeChar(c)
  {
  }

  lemma {:induction false} TextHasNoTag(t: string)
    ensures Without(EscapeText(t), '<')
  {
    if t != [] {
      TextHasNoTag(t[1..]);
      EscapedHasNoTag(t[0]);
      Absent(EscapeChar(t[0]), '<');
      WithoutConcat(EscapeChar(t[0]), EscapeText(t[1..]), '<');
    }
  }

  // ---- Markup ----

  lemma SkipPrinted(start: string, text: string, end: string, more: string)
    requires EndsAt(text, end)
    ensures var s := start + (text + (end + more));
      var e := |start| + |text| + |end|;
      Starts(s, start) && Skip(s, |start|, end) == Some(e) && s[e..] == more && s[|start|..e - |end|] == text
  {
    var s := start + (text + (end + more));
    assert s[|start|..] == (text + end) + more;
    IndexWithMore(text + end, end, more);
  }

  lemma NotStarts(s: string, t: string, i: nat)
    requires i < |t| && i < |s| && s[i] != t[i]
    ensures !Starts(s, t)
  {
  }

  lemma MarkupDiffers()
    ensures COMMENT[0] == CDATA[0] == ELEMENT_END[0] == OPEN[0] == PI[0] == '<'
    ensures COMMENT[1] == CDATA[1] == '!' && ELEMENT_END[1] == '/' && OPEN[1] == 'm' && PI[1] == '?'
    ensures COMMENT[2] == '-' && CDATA[2] == '['
    ensures |COMMENT| > 2 && |CDATA| > 2 && |ELEMENT_END| > 1 && |OPEN| > 1 && |PI| > 1
  {
  }

  lemma CommentPiece(head: string, lt: nat, n: string, more: string)
    requires EndsAt(n, COMMENT_END)
    ensures var t := COMMENT + (n + (COMMENT_END + more));
      var e := |COMMENT| + |n| + |COMMENT_END|;
      TagPiece(head, lt, t, CLOSE) == More(head, lt + e) && e <= |t| && t[e..] == more
  {
    var t := COMMENT + (n + (COMMENT_END + more));
    MarkupDiffers();
    NotStarts(t, CDATA, 2);
    SkipPrinted(COMMENT, n, COMMENT_END, more);
  }

  lemma RawPiece(head: string, lt: nat, d: string, more: string)
    requires EndsAt(d, CDATA_END)
    ensures var t := CDATA + (d + (CDATA_END + more));
      var e := |CDATA| + |d| + |CDATA_END|;
      TagPiece(head, lt, t, CLOSE) == More(head + d, lt + e) && e <= |t| && t[e..] == more
  {
    SkipPrinted(CDATA, d, CDATA_END, more);
  }

  lemma ClosePiece(head: string, lt: nat, more: string)
    ensures TagPiece(head, lt, ELEMENT_END + more, CLOSE) == Last(head)
  {
    var t := ELEMENT_END + more;
    MarkupDiffers();
    NotStarts(t, CDATA, 1);
    NotStarts(t, COMMENT, 1);
    assert ELEMENT_END[..|CLOSE|] == CLOSE;
    assert t[..|CLOSE|] == ELEMENT_END[..|CLOSE|];
  }

  // The piece behind escaped text.
  lemma PieceBehindText(text: string, t: string, close: string)
    requires t != [] && t[0] == '<'
    ensures NextPiece(EscapeText(text) + t, close) == TagPiece(text, |EscapeText(text)|, t, close)
  {
    var e := EscapeText(text);
    TextHasNoTag(text);
    DecodeEscaped(text);
    assert t == ['<'] + t[1..];
    IndexOfChar(e, '<', t[1..]);
    assert (e + t)[..|e|] == e && (e + t)[|e|..] == t;
  }

  lemma LastPiece(s: string, text: string)
    requires NextPiece(s, CLOSE) == Last(text)
    ensures ElementText(s, CLOSE) == Some(text)
  {
    hide NextPiece;
  }

  // The text of a printed element.
  lemma {:induction false} ContentReadsBack(c: Content, more: string)
    requires GoodContent(c)
    ensures ElementText(PrintContent(c) + (ELEMENT_END + more), CLOSE) == Some(ValueOf(c))
    decreases c
  {
    hide ElementText, NextPiece, TagPiece, EscapeText, EndsAt;
    MarkupDiffers();
    var tail := ELEMENT_END + more;
    match c
    case Chars(t) =>
      PieceBehindText(t, tail, CLOSE);
      ClosePiece(t, |EscapeText(t)|, more);
      LastPiece(EscapeText(t) + tail, t);
    case Noted(t, n, rest) =>
      var u := PrintContent(rest) + tail;
      var mark := COMMENT + (n + (COMMENT_END + u));
      ContentReadsBack(rest, more);
      PieceBehindText(t, mark, CLOSE);
      CommentPiece(t, |EscapeText(t)|, n, u);
      Regroup(EscapeText(t), COMMENT, n, COMMENT_END, PrintContent(rest), tail);
      Onwards(EscapeText(t), mark, t, |COMMENT| + |n| + |COMMENT_END|);
    case Raw(t, d, rest) =>
      var u := PrintContent(rest) + tail;
      var mark := CDATA + (d + (CDATA_END + u));
      ContentReadsBack(rest, more);
      PieceBehindText(t, mark, CLOSE);
      RawPiece(t, |EscapeText(t)|, d, u);
      Regroup(EscapeText(t), CDATA, d, CDATA_END, PrintContent(rest), tail);
      Onwards(EscapeText(t), mark, t + d, |CDATA| + |d| + |CDATA_END|);
  }

  lemma Regroup(a: string, b: string, c: string, d: string, e: string, tail: string)
    ensures a + (b + (c + (d + e))) + tail == a + (b + (c + (d + (e + tail))))
  {
  }

  lemma Onwards(e: string, mark: string, text: string, n: nat)
    requires n <= |mark| && NextPiece(e + mark, CLOSE) == More(text, |e| + n)
    ensures ElementText(e + mark, CLOSE) == Before(text, ElementText(mark[n..], CLOSE))
  {
    hide NextPiece;
    assert (e + mark)[|e| + n..] == mark[n..];
  }

  // ---- Scanning past what is not wanted ----

  lemma ScanPastText(x: string, more: string, name: string)
    requires Without(x, '<')
    ensures Scan(x + more, name) == Scan(more, name)
  {
    hide ScanTag;
    IndexSkips(x, '<', more);
    if Index(more, "<").Some? {
      SuffixBehind(x, more, Index(more, "<").value);
    }
  }

  lemma SuffixBehind(x: string, more: string, k: nat)
    requires k <= |more|
    ensures (x + more)[|x| + k..] == more[k..]
  {
  }

  // At a '<' the scan takes that step.
  lemma ScanAt(t: string, name: string)
    requires t != [] && t[0] == '<'
    ensures var step := TagStep(t, name);
      Scan(t, name) == if step.Answer? then step.text else Scan(t[step.n..], name)
  {
    assert t[..1] == "<" && t[0..] == t;
  }

  lemma ScanPastComment(n: string, more: string, name: string)
    requires EndsAt(n, COMMENT_END)
    ensures Scan(COMMENT + (n + (COMMENT_END + more)), name) == Scan(more, name)
  {
    var t := COMMENT + (n + (COMMENT_END + more));
    MarkupDiffers();
    SkipPrinted(COMMENT, n, COMMENT_END, more);
    ScanAt(t, name);
  }

  lemma ScanPastRaw(d: string, more: string, name: string)
    requires EndsAt(d, CDATA_END)
    ensures Scan(CDATA + (d + (CDATA_END + more)), name) == Scan(more, name)
  {
    var t := CDATA + (d + (CDATA_END + more));
    MarkupDiffers();
    NotStarts(t, COMMENT, 2);
    SkipPrinted(CDATA, d, CDATA_END, more);
    ScanAt(t, name);
  }

  lemma ScanPastInstruction(text: string, more: string, name: string)
    requires EndsAt(text, PI_END)
    ensures Scan(PI + (text + (PI_END + more)), name) == Scan(more, name)
  {
    var t := PI + (text + (PI_END + more));
    MarkupDiffers();
    NotStarts(t, COMMENT, 1);
    NotStarts(t, CDATA, 1);
    SkipPrinted(PI, text, PI_END, more);
    ScanAt(t, name);
  }

  lemma ScanPastEnd(more: string, name: string)
    ensures Scan(ELEMENT_END + more, name) == Scan(more, name)
  {
    var t := ELEMENT_END + more;
    MarkupDiffers();
    NotStarts(t, COMMENT, 1);
    NotStarts(t, CDATA, 1);
    NotStarts(t, PI, 1);
    NotStarts(t, OPEN, 1);
    ScanAt(t, name);
    assert t[1..] == ELEMENT_END[1..] + more;
    assert '<' !in ELEMENT_END[1..];
    Absent(ELEMENT_END[1..], '<');
    ScanPastText(ELEMENT_END[1..], more, name);
  }

  lemma {:induction false} ScanPastContent(c: Content, more: string, name: string)
    requires GoodContent(c)
    ensures Scan(PrintContent(c) + more, name) == Scan(more, name)
    decreases c
  {
    match c
    case Chars(t) =>
      TextHasNoTag(t);
      ScanPastText(EscapeText(t), more, name);
    case Noted(t, n, rest) =>
      TextHasNoTag(t);
      Regroup(EscapeText(t), COMMENT, n, COMMENT_END, PrintContent(rest), more);
      ScanPastText(EscapeText(t), COMMENT + (n + (COMMENT_END + (PrintContent(rest) + more))), name);
      ScanPastComment(n, PrintContent(rest) + more, name);
      ScanPastContent(rest, more, name);
    case Raw(t, d, rest) =>
      TextHasNoTag(t);
      Regroup(EscapeText(t), CDATA, d, CDATA_END, PrintContent(rest), more);
      ScanPastText(EscapeText(t), CDATA + (d + (CDATA_END + (PrintContent(rest) + more))), name);
      ScanPastRaw(d, PrintContent(rest) + more, name);
      ScanPastContent(rest, more, name);
  }
}
