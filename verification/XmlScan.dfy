// Reading model metadata (src/model_metadata.cpp:20-196): entity decoding,
// attributes, tag ends, element text and the scan for one metadata element.
module XmlScan {
  import opened Text

  // ---- Text ----

  function DigitValue(c: char, base: nat): Option<nat> {
    var d := if '0' <= c <= '9' then c as int - '0' as int
             else if 'a' <= c <= 'z' then c as int - 'a' as int + 10
             else if 'A' <= c <= 'Z' then c as int - 'A' as int + 10
             else base;
    if d < base then Some(d) else None
  }

  // Digits to the end of the C string; None when another character stops them.
  function DigitsToEnd(s: string, base: nat, sofar: nat): Option<nat>
    decreases |s|
  {
    if s == [] || s[0] == 0 as char then Some(sofar)
    else
      match DigitValue(s[0], base)
      case None => None
      case Some(d) => DigitsToEnd(s[1..], base, sofar * base + d)
  }

  function SkipBlank(s: string): string {
    if s != [] && IsSpace(s[0]) then SkipBlank(s[1..]) else s
  }

  // std::strtoul over the whole C string: white space, a sign, the prefix 0x
  // in base 16, then at least one digit. A minus sign makes the value 0 or too
  // large for a character, so it is treated as no number.
  function Strtoul(s: string, base: nat): Option<nat> {
    var a := SkipBlank(s);
    var b := if a != [] && a[0] == '+' then a[1..] else a;
    var c := if base == 16 && |b| > 2 && b[0] == '0' && (b[1] == 'x' || b[1] == 'X') && DigitValue(b[2], 16).Some?
             then b[2..] else b;
    if c == [] || DigitValue(c[0], base).None? then None else DigitsToEnd(c, base, 0)
  }

  // The character a reference stands for.
  function Reference(ent: string): Option<string> {
    if |ent| <= 1 || ent[0] != '#' then None
    else
      var hex := ent[1] == 'x' || ent[1] == 'X';
      match Strtoul(if hex then ent[2..] else ent[1..], if hex then 16 else 10)
      case None => None
      case Some(cp) =>
        if cp != 0 && cp <= 0x10FFFF && (cp < 0xD800 || cp > 0xDFFF) then Some(Utf8(cp)) else None
  }

  function Entity(ent: string): Option<string> {
    if ent == "amp" then Some("&")
    else if ent == "lt" then Some("<")
    else if ent == "gt" then Some(">")
    else if ent == "quot" then Some("\"")
    else if ent == "apos" then Some("'")
    else Reference(ent)
  }

  const MAX_ENTITY: nat := 12

  // Where the entity that starts s ends, if one does.
  function EntityEnd(s: string): (r: Option<nat>)
    ensures r.Some? ==> 0 < r.value < |s|
  {
    if s == [] || s[0] != '&' then None
    else
      match Index(s[1..], ";")
      case None => None
      case Some(k) => if k + 1 > MAX_ENTITY then None else Some(k + 1)
  }

  function DecodeText(s: string): string
    decreases |s|
  {
    if s == [] then []
    else
      match EntityEnd(s)
      case None => [s[0]] + DecodeText(s[1..])
      case Some(semi) =>
        (match Entity(s[1..semi]) case Some(t) => t case None => s[..semi + 1]) + DecodeText(s[semi + 1..])
  }

  // ---- Tags and attributes ----

  function SkipSpace(s: string): (r: string)
    ensures |r| <= |s|
  {
    if s != [] && IsWs(s[0]) then SkipSpace(s[1..]) else s
  }

  // Up to white space or '='.
  function KeyLength(s: string): (n: nat)
    ensures n <= |s|
  {
    if s == [] || IsWs(s[0]) || s[0] == '=' then 0 else 1 + KeyLength(s[1..])
  }

  // The raw value of the attribute, as it stands between its quotes.
  function Attribute(attrs: string, name: string): Option<string>
    decreases |attrs|
  {
    var a := SkipSpace(attrs);
    var n := KeyLength(a);
    var b := SkipSpace(a[n..]);
    if b == [] then None
    else if b[0] != '=' then
      if n == 0 then None else Attribute(b, name)
    else
      var c := SkipSpace(b[1..]);
      if c == [] || (c[0] != '"' && c[0] != '\'') then None
      else
        match Index(c[1..], [c[0]])
        case None => None
        case Some(k) => if a[..n] == name then Some(c[1..1 + k]) else Attribute(c[k + 2..], name)
  }

  // Where the tag ends: the first '>' outside quotes.
  function TagEnd(s: string, quote: Option<char>): (r: Option<nat>)
    ensures r.Some? ==> r.value < |s|
  {
    if s == [] then None
    else if quote.None? && s[0] == '>' then Some(0)
    else
      var q := if quote.Some? then (if s[0] == quote.value then None else quote)
               else if s[0] == '"' || s[0] == '\'' then Some(s[0]) else None;
      match TagEnd(s[1..], q)
      case None => None
      case Some(k) => Some(k + 1)
  }

  // ---- Elements ----

  const COMMENT: string := "<!--"
  const COMMENT_END: string := "-->"
  const CDATA: string := "<![CDATA["
  const CDATA_END: string := "]]>"
  const PI: string := "<?"
  const PI_END: string := "?>"
  const OPEN: string := "<metadata"
  const CLOSE: string := "</metadata"

  function Skip(s: string, skip: nat, end: string): (r: Option<nat>)
    requires skip <= |s|
    ensures r.Some? ==> skip + |end| <= r.value <= |s|
  {
    match Index(s[skip..], end)
    case None => None
    case Some(k) => Some(skip + k + |end|)
  }

  // One piece of an element's text: more follows n characters on, or the
  // element ends there, or is unterminated or has child elements (None).
  datatype Piece = More(text: string, n: nat) | Last(text: string) | Broken

  function NextPiece(s: string, close: string): (r: Piece)
    ensures r.More? ==> 0 < r.n <= |s|
  {
    match Index(s, "<")
    case None => Broken
    case Some(lt) => TagPiece(DecodeText(s[..lt]), lt, s[lt..], close)
  }

  // From the decoded text before a '<' at position lt, and what stands there.
  function TagPiece(head: string, lt: nat, t: string, close: string): (r: Piece)
    ensures r.More? ==> lt < r.n <= lt + |t|
  {
    if Starts(t, CDATA) then
      match Skip(t, |CDATA|, CDATA_END)
      case None => Broken
      case Some(e) => More(head + t[|CDATA|..e - |CDATA_END|], lt + e)
    else if Starts(t, COMMENT) then
      match Skip(t, |COMMENT|, COMMENT_END)
      case None => Broken
      case Some(e) => More(head, lt + e)
    else if Starts(t, close) then Last(head)
    else Broken
  }

  function ElementText(s: string, close: string): Option<string>
    decreases |s|
  {
    match NextPiece(s, close)
    case Broken => None
    case Last(text) => Some(text)
    case More(text, n) => Before(text, ElementText(s[n..], close))
  }

  function Before(head: string, rest: Option<string>): Option<string> {
    match rest
    case None => None
    case Some(r) => Some(head + r)
  }

  function OrEmpty(r: Option<string>): string { if r.Some? then r.value else [] }

  predicate IsOpenTag(t: string) {
    Starts(t, OPEN) &&
    (|t| == |OPEN| || IsWs(t[|OPEN|]) || t[|OPEN|] == '>' || t[|OPEN|] == '/')
  }

  // What is to be skipped at a '<': how much, and up to where.
  function SkipOver(t: string): Option<(nat, string)> {
    if Starts(t, COMMENT) then Some((|COMMENT|, COMMENT_END))
    else if Starts(t, CDATA) then Some((|CDATA|, CDATA_END))
    else if Starts(t, PI) then Some((|PI|, PI_END))
    else None
  }

  // What one '<' leads to: the scan goes on n characters on, or ends.
  datatype Step = Onward(n: nat) | Answer(text: string)

  function TagStep(t: string, name: string): (r: Step)
    requires t != []
    ensures r.Onward? ==> 0 < r.n <= |t|
  {
    match SkipOver(t)
    case Some((skip, end)) =>
      (match Skip(t, skip, end)
       case None => Answer([])
       case Some(e) => Onward(e))
    case None =>
      if !IsOpenTag(t) then Onward(1)
      else
        match TagEnd(t[|OPEN|..], None)
        case None => Answer([])
        case Some(n) =>
          if !Names(t[|OPEN|..|OPEN| + n], name) then Onward(|OPEN| + n + 1)
          else if SelfClosing(t[|OPEN|..|OPEN| + n]) then Answer([])
          else Answer(OrEmpty(ElementText(t[|OPEN| + n + 1..], CLOSE)))
  }

  predicate SelfClosing(tag: string) { tag != [] && tag[|tag| - 1] == '/' }

  predicate Names(tag: string, name: string) {
    Attribute(if SelfClosing(tag) then tag[..|tag| - 1] else tag, NAME) == Some(name)
  }

  const NAME: string := "name"

  // The text of the first metadata element of that name.
  function Scan(s: string, name: string): string
    decreases |s|, 1
  {
    match Index(s, "<")
    case None => []
    case Some(lt) => ScanTag(s[lt..], name)
  }

  function ScanTag(t: string, name: string): string
    requires t != []
    decreases |t|, 0
  {
    match TagStep(t, name)
    case Answer(text) => text
    case Onward(n) => Scan(t[n..], name)
  }
}
