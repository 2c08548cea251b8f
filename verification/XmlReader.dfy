// The scanning loops of src/model_metadata.cpp:39-196, against the functions
// of XmlScan. Every loop ends on every input.
module XmlReader {
  import opened Text
  import opened XmlScan

  method DecodeXmlText(s: string) returns (out: string)
    ensures out == DecodeText(s)
  {
    out := [];
    var i := 0;
    assert s[0..] == s;
    while i < |s|
      invariant 0 <= i <= |s| && out + DecodeText(s[i..]) == DecodeText(s)
    {
      var piece, next := DecodeOne(s, i);
      Text.Assoc(out, piece, DecodeText(s[next..]));
      out, i := out + piece, next;
    }
    assert s[i..] == [] && out + [] == out;
  }

  // One character, or one entity.
  method DecodeOne(s: string, i: nat) returns (piece: string, next: nat)
    requires i < |s|
    ensures i < next <= |s| && DecodeText(s[i..]) == piece + DecodeText(s[next..])
  {
    hide DecodeText;
    var n;
    piece, n := DecodeFirst(s[i..]);
    Further(s, i, n);
    next := i + n;
  }

  method DecodeFirst(u: string) returns (piece: string, n: nat)
    requires u != []
    ensures 0 < n <= |u| && DecodeText(u) == piece + DecodeText(u[n..])
  {
    var end := EntityEnd(u);
    if end.None? {
      PlainStep(u);
      return [u[0]], 1;
    }
    var t := Entity(u[1..end.value]);
    piece, n := if t.Some? then t.value else u[..end.value + 1], end.value + 1;
    EntityStep(u, end.value, piece);
  }

  lemma PlainStep(u: string)
    requires u != [] && EntityEnd(u) == None
    ensures DecodeText(u) == [u[0]] + DecodeText(u[1..])
  {
  }

  lemma EntityStep(u: string, end: nat, piece: string)
    requires EntityEnd(u) == Some(end)
    requires piece == match Entity(u[1..end]) case Some(t) => t case None => u[..end + 1]
    ensures DecodeText(u) == piece + DecodeText(u[end + 1..])
  {
  }

  method XmlTagEnd(xml: string, from: nat) returns (pos: Option<nat>)
    requires from <= |xml|
    ensures pos == match TagEnd(xml[from..], None) case None => None case Some(k) => Some(from + k)
  {
    var quote: Option<char>, i := None, from;
    while i < |xml|
      invariant from <= i <= |xml|
      invariant Shift(TagEnd(xml[from..], None), from) == Shift(TagEnd(xml[i..], quote), i)
    {
      var c := xml[i];
      assert xml[i..][1..] == xml[i + 1..];
      if quote.Some? {
        if c == quote.value { quote := None; }
      } else if c == '"' || c == '\'' {
        quote := Some(c);
      } else if c == '>' {
        return Some(i);
      }
      i := i + 1;
    }
    pos := None;
  }

  method SkipXmlSpace(s: string, from: nat) returns (i: nat)
    requires from <= |s|
    ensures from <= i <= |s| && s[i..] == SkipSpace(s[from..])
  {
    i := from;
    while i < |s| && IsWs(s[i])
      invariant from <= i <= |s| && SkipSpace(s[i..]) == SkipSpace(s[from..])
    {
      assert s[i..][1..] == s[i + 1..];
      i := i + 1;
    }
  }

  method SkipKey(s: string, from: nat) returns (i: nat)
    requires from <= |s|
    ensures i == from + KeyLength(s[from..]) <= |s|
  {
    i := from;
    while i < |s| && !IsWs(s[i]) && s[i] != '='
      invariant from <= i <= |s| && i + KeyLength(s[i..]) == from + KeyLength(s[from..])
    {
      assert s[i..][1..] == s[i + 1..];
      i := i + 1;
    }
  }

  method XmlAttribute(attrs: string, name: string) returns (value: Option<string>)
    ensures value == Attribute(attrs, name)
  {
    var i := 0;
    assert attrs[0..] == attrs;
    while i < |attrs|
      invariant 0 <= i <= |attrs| && Attribute(attrs[i..], name) == Attribute(attrs, name)
      decreases |attrs| - i
    {
      var done;
      done, i, value := NextAttribute(attrs, i, name);
      if done { return; }
    }
    assert attrs[i..] == [];
    value := None;
  }

  // One pass of the loop.
  method NextAttribute(attrs: string, from: nat, name: string) returns (done: bool, next: nat, value: Option<string>)
    requires from < |attrs|
    ensures done ==> value == Attribute(attrs[from..], name)
    ensures !done ==> from < next <= |attrs| && Attribute(attrs[next..], name) == Attribute(attrs[from..], name)
  {
    done, value := false, None;
    var keyStart := SkipXmlSpace(attrs, from);
    var keyEnd := SkipKey(attrs, keyStart);
    var eq := SkipXmlSpace(attrs, keyEnd);
    AttributeStep(attrs, from, keyStart, keyEnd, eq, name);
    if eq >= |attrs| || attrs[eq] != '=' {
      // The code's step over a stray character is taken at the end only.
      next := eq;
      return;
    }
    done, next, value := QuotedValue(attrs, eq, attrs[keyStart..keyEnd], name);
  }

  method QuotedValue(attrs: string, eq: nat, key: string, name: string) returns (done: bool, next: nat, value: Option<string>)
    requires eq < |attrs|
    ensures done ==> value == Behind(key, attrs[eq + 1..], name)
    ensures !done ==> eq < next <= |attrs| && Attribute(attrs[next..], name) == Behind(key, attrs[eq + 1..], name)
  {
    hide Index, Attribute, SkipSpace;
    done, next, value := true, eq, None;
    var i := SkipXmlSpace(attrs, eq + 1);
    if i >= |attrs| || (attrs[i] != '"' && attrs[i] != '\'') { return; }
    var k := Index(attrs[i + 1..], [attrs[i]]);
    AttributeValue(attrs, eq, i, key, name);
    if k.None? { return; }
    if key == name {
      value := Some(attrs[i + 1..i + 1 + k.value]);
      return;
    }
    done, next := false, i + k.value + 2;
  }

  // From a position before a key: the key, and what stands behind it.
  lemma AttributeStep(attrs: string, from: nat, keyStart: nat, keyEnd: nat, eq: nat, name: string)
    requires from <= keyStart <= keyEnd <= eq <= |attrs| && from < |attrs|
    requires attrs[keyStart..] == SkipSpace(attrs[from..]) && keyEnd == keyStart + KeyLength(attrs[keyStart..])
    requires attrs[eq..] == SkipSpace(attrs[keyEnd..])
    ensures eq == |attrs| ==> Attribute(attrs[from..], name) == None == Attribute(attrs[eq..], name)
    ensures eq < |attrs| && attrs[eq] != '=' ==>
      keyEnd > keyStart && Attribute(attrs[from..], name) == Attribute(attrs[eq..], name)
    ensures eq < |attrs| && attrs[eq] == '=' ==>
      Attribute(attrs[from..], name) == Behind(attrs[keyStart..keyEnd], attrs[eq + 1..], name)
  {
    hide Attribute, SkipSpace, KeyLength, Behind;
    var a := attrs[keyStart..];
    Further(attrs, keyStart, keyEnd - keyStart);
    assert a[..KeyLength(a)] == attrs[keyStart..keyEnd];
    AttributeFrom(attrs[from..], a, attrs[eq..], name);
    if eq < |attrs| { Further(attrs, eq, 1); }
  }

  lemma AttributeFrom(u: string, a: string, b: string, name: string)
    requires a == SkipSpace(u) && b == SkipSpace(a[KeyLength(a)..])
    ensures b == [] ==> Attribute(u, name) == None == Attribute(b, name)
    ensures b != [] && b[0] != '=' ==> KeyLength(a) > 0 && Attribute(u, name) == Attribute(b, name)
    ensures b != [] && b[0] == '=' ==> Attribute(u, name) == Behind(a[..KeyLength(a)], b[1..], name)
  {
    SpaceSkipped(u);
    SpaceSkipped(a[KeyLength(a)..]);
    if b != [] && b[0] != '=' && KeyLength(a) == 0 {
      KeyStops(a);
    }
  }

  lemma SpaceSkipped(s: string)
    ensures SkipSpace(s) == [] || !IsWs(SkipSpace(s)[0])
  {
  }

  lemma KeyStops(s: string)
    ensures KeyLength(s) == |s| || IsWs(s[KeyLength(s)]) || s[KeyLength(s)] == '='
  {
  }

  // Behind "key =".
  function Behind(key: string, rest: string, name: string): Option<string> {
    var c := SkipSpace(rest);
    if c == [] || (c[0] != '"' && c[0] != '\'') then None else InQuotes(c, key, name)
  }

  function InQuotes(c: string, key: string, name: string): Option<string>
    requires c != []
  {
    match Index(c[1..], [c[0]])
    case None => None
    case Some(k) => if key == name then Some(c[1..1 + k]) else Attribute(c[k + 2..], name)
  }

  lemma AttributeValue(attrs: string, eq: nat, i: nat, key: string, name: string)
    requires eq < i < |attrs| && attrs[i..] == SkipSpace(attrs[eq + 1..]) && (attrs[i] == '"' || attrs[i] == '\'')
    ensures Behind(key, attrs[eq + 1..], name) ==
      match Index(attrs[i + 1..], [attrs[i]])
      case None => None
      case Some(k) => if key == name then Some(attrs[i + 1..i + 1 + k]) else Attribute(attrs[i + k + 2..], name)
  {
    hide Index, Attribute, SkipSpace;
    Further(attrs, i, 1);
    match Index(attrs[i + 1..], [attrs[i]])
    case None =>
    case Some(k) =>
      Suffixes(attrs, i, k);
      QuoteClosed(attrs[i..], key, k, name);
  }

  lemma QuoteClosed(c: string, key: string, k: nat, name: string)
    requires c != [] && Index(c[1..], [c[0]]) == Some(k)
    ensures InQuotes(c, key, name) == if key == name then Some(c[1..1 + k]) else Attribute(c[k + 2..], name)
  {
  }

  lemma Suffixes(s: string, i: nat, k: nat)
    requires i + k + 2 <= |s|
    ensures s[i..][k + 2..] == s[i + k + 2..] && s[i..][1..k + 1] == s[i + 1..i + k + 1]
  {
  }

  method XmlElementText(xml: string, from: nat, close: string) returns (text: string)
    requires from <= |xml|
    ensures text == OrEmpty(ElementText(xml[from..], close))
  {
    var out: string, pos := [], from;
    ghost var whole := ElementText(xml[from..], close);
    BeforeNothing(whole);
    while pos < |xml|
      invariant from <= pos <= |xml| && whole == Before(out, ElementText(xml[pos..], close))
      decreases |xml| - pos
    {
      var done, piece, next := NextText(xml, pos, out, close);
      if done { return piece; }
      out, pos := piece, next;
    }
    NoText(xml[pos..], close);
    text := [];
  }

  lemma BeforeNothing(whole: Option<string>)
    ensures whole == Before([], whole)
  {
    assert whole.Some? ==> [] + whole.value == whole.value;
  }

  lemma NoText(s: string, close: string)
    requires s == []
    ensures ElementText(s, close) == None
  {
  }

  // One pass of the loop: the whole text, or the text so far and where to go on.
  method NextText(xml: string, pos: nat, out: string, close: string) returns (done: bool, text: string, next: nat)
    requires pos < |xml|
    ensures done ==> text == OrEmpty(Before(out, ElementText(xml[pos..], close)))
    ensures !done ==> pos < next <= |xml|
    ensures !done ==> Before(out, ElementText(xml[pos..], close)) == Before(text, ElementText(xml[next..], close))
  {
    var piece := ReadPiece(xml, pos, close);
    done, text, next := true, [], pos;
    match piece
    case Broken => ElementEnds(xml[pos..], close);
    case Last(last) =>
      ElementEnds(xml[pos..], close);
      text := out + last;
    case More(more, n) =>
      ElementStep(xml[pos..], piece, out, close);
      Further(xml, pos, n);
      done, text, next := false, out + more, pos + n;
  }

  lemma ElementEnds(s: string, close: string)
    ensures NextPiece(s, close).Broken? ==> ElementText(s, close) == None
    ensures NextPiece(s, close).Last? ==> ElementText(s, close) == Some(NextPiece(s, close).text)
  {
  }

  lemma ElementStep(s: string, piece: Piece, out: string, close: string)
    requires piece == NextPiece(s, close) && piece.More?
    ensures Before(out, ElementText(s, close)) == Before(out + piece.text, ElementText(s[piece.n..], close))
  {
    Text.Assoc(out, piece.text, OrEmpty(ElementText(s[piece.n..], close)));
  }

  method ReadPiece(xml: string, pos: nat, close: string) returns (piece: Piece)
    requires pos <= |xml|
    ensures piece == NextPiece(xml[pos..], close)
  {
    var s := xml[pos..];
    var k := Index(s, "<");
    if k.None? { return Broken; }
    var t := s[k.value..];
    var head := DecodeXmlText(s[..k.value]);
    if Starts(t, CDATA) {
      var e := Skip(t, |CDATA|, CDATA_END);
      if e.None? { return Broken; }
      return More(head + t[|CDATA|..e.value - |CDATA_END|], k.value + e.value);
    }
    if Starts(t, COMMENT) {
      var e := Skip(t, |COMMENT|, COMMENT_END);
      if e.None? { return Broken; }
      return More(head, k.value + e.value);
    }
    piece := if Starts(t, close) then Last(head) else Broken;
  }

  method Value(xml: string, name: string) returns (r: string)
    ensures r == Scan(xml, name)
  {
    var pos := 0;
    assert xml[0..] == xml;
    while true
      invariant 0 <= pos <= |xml| && Scan(xml[pos..], name) == Scan(xml, name)
      decreases |xml| - pos
    {
      var found, text, next := NextTag(xml, pos, name);
      if found { return text; }
      pos := next;
    }
  }

  // From one '<' to the next place to look, or to the answer.
  method NextTag(xml: string, pos: nat, name: string) returns (found: bool, text: string, next: nat)
    requires pos <= |xml|
    ensures found ==> text == Scan(xml[pos..], name)
    ensures !found ==> pos < next <= |xml| && Scan(xml[next..], name) == Scan(xml[pos..], name)
  {
    hide ScanTag;
    found, text, next := true, [], pos;
    var k := Index(xml[pos..], "<");
    if k.None? { return; }
    Further(xml, pos, k.value);
    found, text, next := FollowTag(xml, pos + k.value, name);
  }

  method FollowTag(xml: string, at: nat, name: string) returns (found: bool, text: string, next: nat)
    requires at < |xml|
    ensures found ==> text == ScanTag(xml[at..], name)
    ensures !found ==> at < next <= |xml| && Scan(xml[next..], name) == ScanTag(xml[at..], name)
  {
    var step := ReadTag(xml, at, name);
    if step.Answer? { return true, step.text, at; }
    Further(xml, at, step.n);
    found, text, next := false, [], at + step.n;
  }

  method ReadTag(xml: string, pos: nat, name: string) returns (step: Step)
    requires pos < |xml|
    ensures step == TagStep(xml[pos..], name)
  {
    var t := xml[pos..];
    var over := SkipOver(t);
    if over.Some? {
      var e := Skip(t, over.value.0, over.value.1);
      return if e.Some? then Onward(e.value) else Answer([]);
    }
    if !IsOpenTag(t) { return Onward(1); }
    var end := XmlTagEnd(t, |OPEN|);
    if end.None? { return Answer([]); }
    var tag := t[|OPEN|..end.value];
    var key := XmlAttribute(if SelfClosing(tag) then tag[..|tag| - 1] else tag, NAME);
    if key != Some(name) { return Onward(end.value + 1); }
    if SelfClosing(tag) { return Answer([]); }
    var text := XmlElementText(t, end.value + 1, CLOSE);
    step := Answer(text);
  }

  lemma Further(xml: string, pos: nat, n: nat)
    requires pos + n <= |xml|
    ensures xml[pos..][n..] == xml[pos + n..]
  {
  }
}
