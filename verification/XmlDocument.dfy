// Reading back printed documents (src/model_metadata.cpp:80-124, 154-196):
// metadata elements with any attributes, and between them text, other tags,
// comments, CDATA sections and processing instructions.
module XmlDocument {
  import opened Text
  import opened XmlScan
  import opened XmlMetadata

  // ---- Tags ----

  // One attribute: the white space before it, and its value between quotes.
  datatype Attr = Attr(gap: string, name: string, quote: char, value: string)

  predicate AllSpace(s: string) { s == [] || (IsWs(s[0]) && AllSpace(s[1..])) }

  // Neither quotes nor '>'.
  predicate PlainTag(x: string) {
    x == [] || (x[0] != '>' && x[0] != '"' && x[0] != '\'' && PlainTag(x[1..]))
  }

  predicate NameChars(s: string) {
    s == [] || (!IsWs(s[0]) && s[0] != '=' && NameChars(s[1..]))
  }

  predicate GoodAttr(a: Attr) {
    a.gap != [] && AllSpace(a.gap) && a.name != [] && NameChars(a.name) && PlainTag(a.name) &&
    (a.quote == '"' || a.quote == '\'') && Without(a.value, a.quote)
  }

  predicate GoodAttrs(attrs: seq<Attr>) { attrs == [] || (GoodAttr(attrs[0]) && GoodAttrs(attrs[1..])) }

  function PrintValue(a: Attr, rest: string): string { [a.quote] + (a.value + ([a.quote] + rest)) }

  function PrintAttrs(attrs: seq<Attr>, rest: string): string {
    if attrs == [] then rest
    else attrs[0].gap + (attrs[0].name + (['='] + PrintValue(attrs[0], PrintAttrs(attrs[1..], rest))))
  }

  // The value of the first attribute of that name.
  function AttrValue(attrs: seq<Attr>, name: string): Option<string> {
    if attrs == [] then None
    else if attrs[0].name == name then Some(attrs[0].value)
    else AttrValue(attrs[1..], name)
  }

  lemma {:induction false} PrintMore(attrs: seq<Attr>, rest: string, more: string)
    ensures PrintAttrs(attrs, rest) + more == PrintAttrs(attrs, rest + more)
  {
    if attrs != [] {
      var a, tail := attrs[0], PrintAttrs(attrs[1..], rest);
      PrintMore(attrs[1..], rest, more);
      Regroup(a.gap, a.name, ['='], [a.quote], a.value + ([a.quote] + tail), more);
      Text.Assoc(a.value, [a.quote] + tail, more);
      Text.Assoc([a.quote], tail, more);
    }
  }

  // ---- Where a printed tag ends ----

  lemma {:induction false} TagEndPlain(x: string, s: string)
    requires PlainTag(x)
    ensures TagEnd(x + s, None) == Shift(TagEnd(s, None), |x|)
  {
    if x == [] {
      assert x + s == s;
    } else {
      assert (x + s)[1..] == x[1..] + s;
      TagEndPlain(x[1..], s);
    }
  }

  lemma {:induction false} SpaceIsPlain(s: string)
    requires AllSpace(s)
    ensures PlainTag(s)
  {
    if s != [] {
      SpaceIsPlain(s[1..]);
    }
  }

  lemma {:induction false} TagEndInQuotes(value: string, quote: char, s: string)
    requires Without(value, quote)
    ensures TagEnd(value + ([quote] + s), Some(quote)) == Shift(TagEnd(s, None), |value| + 1)
  {
    var t := value + ([quote] + s);
    if value == [] {
      assert t == [quote] + s && t[1..] == s;
    } else {
      assert t[1..] == value[1..] + ([quote] + s);
      TagEndInQuotes(value[1..], quote, s);
    }
  }

  lemma TagEndQuoted(a: Attr, s: string)
    requires GoodAttr(a)
    ensures TagEnd(PrintValue(a, s), None) == Shift(TagEnd(s, None), |a.value| + 2)
  {
    var t := PrintValue(a, s);
    assert t[1..] == a.value + ([a.quote] + s);
    TagEndInQuotes(a.value, a.quote, s);
  }

  lemma TagEndOfAttr(a: Attr, s: string)
    requires GoodAttr(a)
    ensures TagEnd(a.gap + (a.name + (['='] + PrintValue(a, s))), None) ==
      Shift(TagEnd(s, None), |a.gap| + |a.name| + |a.value| + 3)
  {
    SpaceIsPlain(a.gap);
    TagEndQuoted(a, s);
    var eq := ['='];
    assert PlainTag(eq);
    TagEndPlain(eq, PrintValue(a, s));
    TagEndPlain(a.name, eq + PrintValue(a, s));
    TagEndPlain(a.gap, a.name + (eq + PrintValue(a, s)));
  }

  lemma {:induction false} TagEndOfAttrs(attrs: seq<Attr>, s: string)
    requires GoodAttrs(attrs)
    ensures |PrintAttrs(attrs, s)| >= |s|
    ensures TagEnd(PrintAttrs(attrs, s), None) == Shift(TagEnd(s, None), |PrintAttrs(attrs, s)| - |s|)
  {
    if attrs != [] {
      TagEndOfAttrs(attrs[1..], s);
      TagEndOfAttr(attrs[0], PrintAttrs(attrs[1..], s));
    }
  }

  // ---- What its attributes are read as ----

  lemma {:induction false} SpaceSkips(gap: string, s: string)
    requires AllSpace(gap) && (s == [] || !IsWs(s[0]))
    ensures SkipSpace(gap + s) == s
  {
    if gap == [] {
      assert gap + s == s;
    } else {
      assert (gap + s)[1..] == gap[1..] + s;
      SpaceSkips(gap[1..], s);
    }
  }

  lemma {:induction false} KeyLengthIs(name: string, rest: string)
    requires NameChars(name)
    ensures KeyLength(name + (['='] + rest)) == |name|
  {
    var t := name + (['='] + rest);
    if name == [] {
      assert t == ['='] + rest;
    } else {
      assert t[1..] == name[1..] + (['='] + rest);
      KeyLengthIs(name[1..], rest);
    }
  }

  lemma AfterName(name: string, q: string)
    ensures var a := name + (['='] + q);
      a[..|name|] == name && a[|name|..] == ['='] + q && (['='] + q)[1..] == q
  {
  }

  lemma AfterValue(a: Attr, rest: string)
    requires GoodAttr(a)
    ensures var q := PrintValue(a, rest);
      SkipSpace(q) == q && q[0] == a.quote && Index(q[1..], [q[0]]) == Some(|a.value|) &&
      q[1..1 + |a.value|] == a.value && q[|a.value| + 2..] == rest
  {
    var q := PrintValue(a, rest);
    assert q[1..] == a.value + ([a.quote] + rest);
    IndexOfChar(a.value, a.quote, rest);
  }

  lemma OneAttribute(a: Attr, rest: string, name: string)
    requires GoodAttr(a)
    ensures Attribute(a.gap + (a.name + (['='] + PrintValue(a, rest))), name) ==
      if a.name == name then Some(a.value) else Attribute(rest, name)
  {
    var q := PrintValue(a, rest);
    var b := a.name + (['='] + q);
    assert b[0] == a.name[0];
    SpaceSkips(a.gap, b);
    KeyLengthIs(a.name, q);
    AfterName(a.name, q);
    AfterValue(a, rest);
    assert SkipSpace(['='] + q) == ['='] + q;
  }

  lemma {:induction false} NoAttribute(s: string, name: string)
    requires AllSpace(s)
    ensures Attribute(s, name) == None
  {
    assert s + [] == s;
    SpaceSkips(s, []);
  }

  // The attributes of a printed tag are read as they were written, whatever
  // their values hold; the first of a name counts.
  lemma {:induction false} AttributesReadBack(attrs: seq<Attr>, tail: string, name: string)
    requires GoodAttrs(attrs) && AllSpace(tail)
    ensures Attribute(PrintAttrs(attrs, tail), name) == AttrValue(attrs, name)
  {
    if attrs == [] {
      NoAttribute(tail, name);
    } else {
      AttributesReadBack(attrs[1..], tail, name);
      OneAttribute(attrs[0], PrintAttrs(attrs[1..], tail), name);
    }
  }

  // ---- Start tags ----

  // How a printed tag goes on behind its name.
  predicate EndsTag(s: string) { s != [] && (s[0] == '>' || s[0] == '/' || IsWs(s[0])) }

  lemma AttrsEndTag(attrs: seq<Attr>, tail: string, s: string)
    requires GoodAttrs(attrs) && AllSpace(tail) && EndsTag(s)
    ensures EndsTag(PrintAttrs(attrs, tail + s))
  {
    if attrs == [] {
      assert (tail + s)[0] == if tail == [] then s[0] else tail[0];
    }
  }

  lemma LooksOpen(s: string)
    requires EndsTag(s)
    ensures var t := OPEN + s; IsOpenTag(t) && SkipOver(t) == None && t[|OPEN|..] == s
  {
    var t := OPEN + s;
    MarkupDiffers();
    NotStarts(t, COMMENT, 1);
    NotStarts(t, CDATA, 1);
    NotStarts(t, PI, 1);
  }

  lemma {:induction false} LastOfSpace(s: string)
    requires AllSpace(s) && s != []
    ensures IsWs(s[|s| - 1])
  {
    if |s| > 1 {
      LastOfSpace(s[1..]);
    }
  }

  lemma {:induction false} NotSelfClosing(attrs: seq<Attr>, tail: string)
    requires GoodAttrs(attrs) && AllSpace(tail)
    ensures !SelfClosing(PrintAttrs(attrs, tail))
  {
    if attrs == [] {
      if tail != [] { LastOfSpace(tail); }
    } else {
      var more := PrintAttrs(attrs[1..], tail);
      NotSelfClosing(attrs[1..], tail);
      var t := PrintAttrs(attrs, tail);
      assert t[|t| - 1] == if more == [] then attrs[0].quote else more[|more| - 1];
    }
  }

  lemma NameOfTag(attrs: seq<Attr>, tail: string, x: string, name: string)
    requires GoodAttrs(attrs) && AllSpace(tail) && (x == [] || x == ['/'])
    ensures var tag := PrintAttrs(attrs, tail) + x;
      SelfClosing(tag) == (x != []) && Names(tag, name) == (AttrValue(attrs, NAME) == Some(name))
  {
    var t := PrintAttrs(attrs, tail);
    AttributesReadBack(attrs, tail, NAME);
    NotSelfClosing(attrs, tail);
    assert t + [] == t && (t + ['/'])[..|t|] == t;
  }

  lemma TagSlices(open: string, tag: string, rest: string, t: string)
    requires t == open + (tag + (['>'] + rest))
    ensures t[|open|..] == tag + (['>'] + rest) && t[|open|..|open| + |tag|] == tag && t[|open| + |tag| + 1..] == rest
  {
    assert t == open + tag + ['>'] + rest;
  }

  lemma StepAtTag(t: string, tag: string, rest: string, name: string)
    requires t == OPEN + (tag + (['>'] + rest)) && IsOpenTag(t) && SkipOver(t) == None
    requires TagEnd(tag + (['>'] + rest), None) == Some(|tag|)
    ensures var step := TagStep(t, name);
      step == (if !Names(tag, name) then Onward(|OPEN| + |tag| + 1)
               else if SelfClosing(tag) then Answer([])
               else Answer(OrEmpty(ElementText(rest, CLOSE)))) &&
      t[|OPEN| + |tag| + 1..] == rest
  {
    TagSlices(OPEN, tag, rest, t);
  }

  // What the scan makes of a printed start tag: x is empty, or the slash of an
  // empty element.
  lemma TagReadsBack(attrs: seq<Attr>, tail: string, x: string, rest: string, name: string)
    requires GoodAttrs(attrs) && AllSpace(tail) && (x == [] || x == ['/'])
    ensures Scan(OPEN + ((PrintAttrs(attrs, tail) + x) + (['>'] + rest)), name) ==
      if AttrValue(attrs, NAME) != Some(name) then Scan(rest, name)
      else if x == [] then OrEmpty(ElementText(rest, CLOSE))
      else []
  {
    var tag := PrintAttrs(attrs, tail) + x;
    var t := OPEN + (tag + (['>'] + rest));
    TagIsOpen(attrs, tail, x, rest);
    NameOfTag(attrs, tail, x, name);
    StepAtTag(t, tag, rest, name);
    MarkupDiffers();
    ScanAt(t, name);
  }

  lemma TagIsOpen(attrs: seq<Attr>, tail: string, x: string, rest: string)
    requires GoodAttrs(attrs) && AllSpace(tail) && (x == [] || x == ['/'])
    ensures var tag := PrintAttrs(attrs, tail) + x;
      var t := OPEN + (tag + (['>'] + rest));
      IsOpenTag(t) && SkipOver(t) == None && TagEnd(tag + (['>'] + rest), None) == Some(|tag|)
  {
    hide IsOpenTag, SkipOver, TagEnd, PrintAttrs, EndsTag;
    var end := ['>'] + rest;
    TagText(attrs, tail, x, rest);
    EndOfTag(x, rest);
    AttrsEndTag(attrs, tail, x + end);
    LooksOpen(PrintAttrs(attrs, tail + (x + end)));
    TagLength(attrs, tail, x, end);
    TagEndOfAttrs(attrs, tail + (x + end));
    TagEndAt(rest);
    SpaceIsPlain(tail);
    SlashIsPlain(x);
    TagEndBehind(tail, x, end);
  }

  lemma EndOfTag(x: string, rest: string)
    requires x == [] || x == ['/']
    ensures EndsTag(x + (['>'] + rest))
  {
  }

  lemma TagLength(attrs: seq<Attr>, tail: string, x: string, end: string)
    ensures |PrintAttrs(attrs, tail + (x + end))| == |PrintAttrs(attrs, tail)| + |x| + |end|
  {
    hide PrintAttrs;
    PrintMore(attrs, tail, x + end);
  }

  lemma TagText(attrs: seq<Attr>, tail: string, x: string, rest: string)
    ensures var end := ['>'] + rest;
      PrintAttrs(attrs, tail) + x + end == PrintAttrs(attrs, tail + (x + end))
  {
    PrintMore(attrs, tail, x);
    PrintMore(attrs, tail + x, ['>'] + rest);
    Text.Assoc(tail, x, ['>'] + rest);
  }

  lemma TagEndAt(rest: string)
    ensures TagEnd(['>'] + rest, None) == Some(0)
  {
  }

  lemma TagEndBehind(tail: string, x: string, end: string)
    requires PlainTag(tail) && PlainTag(x) && TagEnd(end, None) == Some(0)
    ensures TagEnd(tail + (x + end), None) == Some(|tail| + |x|)
  {
    hide *;
    PlainThenEnd(x, end, 0);
    PlainThenEnd(tail, x + end, |x|);
  }

  lemma SlashIsPlain(x: string)
    requires x == [] || x == ['/']
    ensures PlainTag(x)
  {
    if x != [] {
      assert x[1..] == [];
    }
  }

  lemma PlainThenEnd(x: string, s: string, n: nat)
    requires PlainTag(x) && TagEnd(s, None) == Some(n)
    ensures TagEnd(x + s, None) == Some(|x| + n)
  {
    TagEndPlain(x, s);
  }

  // ---- Documents ----

  datatype Item =
    | Gap(text: string)
    | Note(comment: string)
    | Section(data: string)
    | Instruction(text: string)
    // Any other tag, without its first bracket: `model unit="mm">`, `/model>`.
    | Other(tag: string)
    | Meta(attrs: seq<Attr>, tail: string, content: Content)
    | Empty(attrs: seq<Attr>, tail: string)

  predicate OtherTag(tag: string) {
    tag != [] && tag[|tag| - 1] == '>' && Without(tag, '<') && tag[0] != '!' && tag[0] != '?' &&
    !IsOpenTag(['<'] + tag)
  }

  predicate GoodItem(i: Item) {
    match i
    case Gap(t) => Without(t, '<')
    case Note(n) => EndsAt(n, COMMENT_END)
    case Section(d) => EndsAt(d, CDATA_END)
    case Instruction(t) => EndsAt(t, PI_END)
    case Other(t) => OtherTag(t)
    case Meta(attrs, tail, c) => GoodAttrs(attrs) && AllSpace(tail) && GoodContent(c)
    case Empty(attrs, tail) => GoodAttrs(attrs) && AllSpace(tail)
  }

  function PrintItem(i: Item, more: string): string {
    match i
    case Gap(t) => t + more
    case Note(n) => COMMENT + (n + (COMMENT_END + more))
    case Section(d) => CDATA + (d + (CDATA_END + more))
    case Instruction(t) => PI + (t + (PI_END + more))
    case Other(t) => ['<'] + (t + more)
    case Meta(attrs, tail, c) =>
      OPEN + ((PrintAttrs(attrs, tail) + []) + (['>'] + (PrintContent(c) + (ELEMENT_END + more))))
    case Empty(attrs, tail) => OPEN + ((PrintAttrs(attrs, tail) + ['/']) + (['>'] + more))
  }

  function Print(items: seq<Item>): string {
    if items == [] then [] else PrintItem(items[0], Print(items[1..]))
  }

  predicate Good(items: seq<Item>) { items == [] || (GoodItem(items[0]) && Good(items[1..])) }

  // The item is a metadata element of that name.
  predicate IsNamed(i: Item, name: string) {
    (i.Meta? || i.Empty?) && AttrValue(i.attrs, NAME) == Some(name)
  }

  function ItemValue(i: Item): string { if i.Meta? then ValueOf(i.content) else [] }

  // The value of the first element of that name; empty if there is none.
  function FirstValue(items: seq<Item>, name: string): string {
    if items == [] then []
    else if IsNamed(items[0], name) then ItemValue(items[0])
    else FirstValue(items[1..], name)
  }

  lemma ScanPastOther(tag: string, more: string, name: string)
    requires OtherTag(tag)
    ensures Scan(['<'] + (tag + more), name) == Scan(more, name)
  {
    var t := ['<'] + (tag + more);
    MarkupDiffers();
    NotStarts(t, COMMENT, 1);
    NotStarts(t, CDATA, 1);
    NotStarts(t, PI, 1);
    StaysClosed(['<'] + tag, more);
    assert t == (['<'] + tag) + more && t[1..] == tag + more;
    ScanAt(t, name);
    ScanPastText(tag, more, name);
  }

  lemma OpenHasNoEnd()
    ensures '>' !in OPEN
  {
  }

  // What follows a complete tag does not make it a metadata tag.
  lemma StaysClosed(u: string, more: string)
    requires u != [] && u[|u| - 1] == '>' && !IsOpenTag(u)
    ensures !IsOpenTag(u + more)
  {
    OpenHasNoEnd();
    var t := u + more;
    if |u| <= |OPEN| {
      assert OPEN[|u| - 1] in OPEN;
      NotStarts(t, OPEN, |u| - 1);
    } else {
      assert t[..|OPEN|] == u[..|OPEN|];
    }
  }

  lemma ItemReadsBack(i: Item, more: string, name: string)
    requires GoodItem(i)
    ensures Scan(PrintItem(i, more), name) == if IsNamed(i, name) then ItemValue(i) else Scan(more, name)
  {
    match i
    case Gap(t) =>
      ScanPastText(t, more, name);
    case Note(n) =>
      ScanPastComment(n, more, name);
    case Section(d) =>
      ScanPastRaw(d, more, name);
    case Instruction(t) =>
      ScanPastInstruction(t, more, name);
    case Other(t) =>
      ScanPastOther(t, more, name);
    case Meta(attrs, tail, c) =>
      var rest := PrintContent(c) + (ELEMENT_END + more);
      TagReadsBack(attrs, tail, [], rest, name);
      ContentReadsBack(c, more);
      ScanPastContent(c, ELEMENT_END + more, name);
      ScanPastEnd(more, name);
    case Empty(attrs, tail) =>
      TagReadsBack(attrs, tail, ['/'], more, name);
  }

  // For every document the scan gives the value of the first metadata element
  // whose name attribute, as it stands between its quotes, is the name asked for.
  lemma {:induction false} DocumentReadsBack(items: seq<Item>, name: string)
    requires Good(items)
    ensures Scan(Print(items), name) == FirstValue(items, name)
  {
    if items != [] {
      DocumentReadsBack(items[1..], name);
      ItemReadsBack(items[0], Print(items[1..]), name);
    }
  }
}
