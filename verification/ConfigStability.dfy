// Repairing obn.conf again changes nothing, and repairing it once keeps every
// line that is not about a repaired key (src/config.cpp:279-395, 432-466).
module ConfigStability {
  import opened Text
  import opened ConfigText
  import opened ConfigLoader
  import opened ConfigFixer
  import opened ConfigVector
  import opened ConfigAgreement

  // ---- Single lines ----

  // A line is about one key only.
  lemma OneKey(content: string, k1: string, k2: string)
    requires k1 != [] && k2 != [] && k1[0] != k2[0] && KeyRest(content, k1).Some?
    ensures KeyRest(content, k2) == None
  {
    var a := TrimLeft(content);
    assert a[0] == a[..|k1|][0];
    assert |k2| <= |a| ==> a[0] == a[..|k2|][0];
  }

  lemma KeysDiffer()
    ensures BLOCK_KEY[0] == 'b' && LOG_KEY[0] == 'l' && CLIENT_KEY[0] == 'c'
  {
  }

  lemma LogKeyIsWord()
    ensures KeyWord(LOG_KEY)
  {
    WordyIsWord(LOG_KEY);
  }

  lemma ClientKeyIsWord()
    ensures KeyWord(CLIENT_KEY)
  {
    WordyIsWord(CLIENT_KEY);
  }

  predicate IsLogLine(line: string) { KeySpan(line, LOG_KEY).Some? }
  predicate IsClientLine(line: string) { KeySpan(line, CLIENT_KEY).Some? }

  lemma LogLineIsNoOther(line: string)
    requires IsLogLine(line)
    ensures !IsBlockLine(line) && !IsClientLine(line)
  {
    KeysDiffer();
    OneKey(StripEol(line), LOG_KEY, BLOCK_KEY);
    OneKey(StripEol(line), LOG_KEY, CLIENT_KEY);
  }

  lemma ClientLineIsNoOther(line: string)
    requires IsClientLine(line)
    ensures !IsBlockLine(line) && !IsLogLine(line)
  {
    KeysDiffer();
    OneKey(StripEol(line), CLIENT_KEY, BLOCK_KEY);
    OneKey(StripEol(line), CLIENT_KEY, LOG_KEY);
  }

  lemma BlockLineIsNoOther(line: string)
    requires IsBlockLine(line)
    ensures !IsLogLine(line) && !IsClientLine(line)
  {
    KeysDiffer();
    OneKey(StripEol(line), BLOCK_KEY, LOG_KEY);
    OneKey(StripEol(line), BLOCK_KEY, CLIENT_KEY);
  }

  lemma CommentIsNoKey(line: string, key: string)
    requires line != [] && line[0] == '#'
    ensures KeyRest(StripEol(line), key) == None
  {
    HeadSurvives(line);
  }

  lemma {:induction false} HeadSurvives(line: string)
    requires line != [] && line[0] == '#'
    ensures StripEol(line) != [] && StripEol(line)[0] == '#'
  {
    if line[|line| - 1] == '\n' || line[|line| - 1] == '\r' {
      HeadSurvives(line[..|line| - 1]);
    }
  }

  lemma BlankIsNoKey(key: string)
    ensures KeyRest(StripEol("\n"), key) == None
  {
    assert StripEol("\n") == [];
  }

  lemma KeyLineParts(key: string, value: string, eol: string)
    requires KeyWord(key) && PlainWord(value) && value != [] && IsEol(eol)
    ensures var content := Assignment([] + key + " ", " " + value);
      StripEol(content + eol) == content && KeyRest(content, key) == Some(value)
  {
    var content := Assignment([] + key + " ", " " + value);
    PlainWordFacts(value);
    StripEolIs(content, eol);
    KeyRestIs([], key, " ", " ", value);
  }

  lemma ZeroIsPlain()
    ensures PlainWord("0") && Word("0") == "0" && !Truthy("0")
  {
    assert Lower("0") == "0";
  }

  lemma OffLineIsSettled(eol: string)
    requires IsEol(eol)
    ensures IsBlockLine(BLOCK_OFF + eol) && !TurnsCloudOff(BLOCK_OFF + eol)
  {
    hide StripEol, KeyRest, PlainWord, Word, Truthy, KeyWord;
    BlockKeyIsWord();
    BlockOffParts();
    ZeroIsPlain();
    KeyLineParts(BLOCK_KEY, "0", eol);
  }

  lemma LogOnParts()
    ensures LOG_ON_TEXT == Assignment([] + LOG_KEY + " ", " " + "1")
    ensures '\n' !in LOG_ON_TEXT
  {
  }

  lemma LogOnIsLogLine()
    ensures IsLogLine(LOG_ON) && IsLine(LOG_ON)
  {
    LogKeyIsWord();
    LogOnParts();
    assert PlainWord("1") && HashWord("1") == "1";
    OneWordLine(LOG_ON_TEXT, LOG_KEY, "1");
  }

  lemma OneWordLine(text: string, key: string, value: string)
    requires text == Assignment([] + key + " ", " " + value) && '\n' !in text
    requires KeyWord(key) && PlainWord(value) && value != [] && HashWord(value) == value
    ensures KeySpan(text + "\n", key).Some? && IsLine(text + "\n")
  {
    var feed := "\n";
    AbsentFeed(text);
    LineWithFeed(text);
    assert IsEol(feed);
    KeyLineParts(key, value, feed);
  }

  // ---- Rewriting a value ----

  lemma WithValueIs(line: string, span: Span, value: string) returns (eol: string)
    requires span.start <= span.end <= |StripEol(line)|
    ensures var c := StripEol(line);
      IsEol(eol) && Content(c) && line == c + eol &&
      WithValue(line, span, value) == c[..span.start] + value + c[span.end..] + eol
  {
    eol := LineParts(line);
    Tail(StripEol(line), eol, span.start, span.end);
    Assoc(line[..span.start] + value, StripEol(line)[span.end..], eol);
  }

  lemma Tail(c: string, eol: string, i: nat, j: nat)
    requires i <= j <= |c|
    ensures (c + eol)[..i] == c[..i] && (c + eol)[j..] == c[j..] + eol
  {
  }

  // The content around a value: "w key v = x", the value, and what follows.
  lemma SpanParts(c: string, key: string) returns (w: string, v: string, x: string, rest: string)
    requires FindKey(c, key).Some?
    ensures var span := FindKey(c, key).value;
      Blank(w) && Blank(v) && Blank(x) && HashWord(rest) == [] && c[span.end..] == rest &&
      c[..span.start] == Assignment(w + key + v, x)
  {
    var r := KeyRest(c, key).value;
    w, v, x := KeyRestSplits(c, key);
    HashWordFits(r);
    HashWordStops(r);
    rest := r[|HashWord(r)|..];
    CutAround(c, w + key + v, x, r, |HashWord(r)|);
  }

  lemma CutAround(c: string, left: string, x: string, r: string, n: nat)
    requires c == Assignment(left, x + r) && n <= |r|
    ensures |r| <= |c| && c[..|c| - |r|] == Assignment(left, x) && c[|c| - |r| + n..] == r[n..]
  {
    assert c == Assignment(left, x) + r;
  }

  predicate Holds(y: string, key: string, n: nat, value: string) {
    FindKey(y, key) == Some(Span(n, n + |value|))
  }

  // A value written over another is found in its place.
  lemma RewrittenContent(c: string, key: string, value: string, y: string)
    requires FindKey(c, key).Some? && KeyWord(key) && PlainWord(value) && value != []
    requires y == c[..FindKey(c, key).value.start] + value + c[FindKey(c, key).value.end..]
    ensures Holds(y, key, FindKey(c, key).value.start, value)
    ensures KeyRest(y, key) == Some(value + c[FindKey(c, key).value.end..])
  {
    var w, v, x, rest := SpanParts(c, key);
    RestFound(w, key, v, x, value, rest, y);
    ValueFound(y, key, value, rest, FindKey(c, key).value.start);
  }

  lemma ValueFound(y: string, key: string, value: string, rest: string, n: nat)
    requires PlainWord(value) && value != [] && HashWord(rest) == []
    requires KeyRest(y, key) == Some(value + rest) && |y| == n + |value| + |rest|
    ensures Holds(y, key, n, value)
  {
    HashWordIs(value, rest);
    SpanIs(y, key, value + rest, n);
  }

  lemma SpanIs(y: string, key: string, r: string, n: nat)
    requires KeyRest(y, key) == Some(r) && HashWord(r) != [] && |y| == n + |r|
    ensures Holds(y, key, n, HashWord(r))
  {
  }

  lemma RestFound(w: string, key: string, v: string, x: string, value: string, rest: string, y: string)
    requires KeyWord(key) && PlainWord(value) && value != [] && Blank(w) && Blank(v) && Blank(x)
    requires y == Assignment(w + key + v, x) + value + rest
    ensures KeyRest(y, key) == Some(value + rest)
  {
    Reassigned(w + key + v, x, value, rest);
    KeyRestIs(w, key, v, x, value + rest);
  }

  lemma Reassigned(left: string, x: string, value: string, rest: string)
    ensures Assignment(left, x) + value + rest == Assignment(left, x + (value + rest))
  {
  }

  // The line with a new value: still one line, ended as before, of the same
  // key, with that value and what stood behind the old one.
  lemma Rewritten(line: string, key: string, value: string)
    requires IsLine(line) && KeyWord(key) && KeySpan(line, key).Some? && PlainWord(value) && value != []
    ensures var out := WithValue(line, KeySpan(line, key).value, value);
      IsLine(out) && Ended(out) == Ended(line) &&
      KeySpan(out, key).Some? && KeyValue(out, KeySpan(out, key).value) == value &&
      KeyRest(StripEol(out), key) == Some(value + StripEol(line)[KeySpan(line, key).value.end..])
  {
    var c, span := StripEol(line), KeySpan(line, key).value;
    var eol := WithValueIs(line, span, value);
    var y := c[..span.start] + value + c[span.end..];
    RewrittenContent(c, key, value, y);
    PlainWordFacts(value);
    RewrittenHasNoFeed(line, span, value);
    Respelled(c, y, eol);
    StripEolIs(y, eol);
    assert y[span.start..span.start + |value|] == value;
  }

  lemma RewrittenHasNoFeed(line: string, span: Span, value: string)
    requires IsLine(line) && span.start <= span.end <= |StripEol(line)| && Content(StripEol(line))
    requires NoFeed(value) && value != [] && !IsSpace(value[|value| - 1])
    ensures var c := StripEol(line);
      var y := c[..span.start] + value + c[span.end..];
      NoFeed(y) && y != [] && Content(y)
  {
    var c := StripEol(line);
    ContentHasNoFeed(line);
    PartsHaveNoFeed(c, span.start, span.end);
    SpelledHasNoFeed(c[..span.start], value, c[span.end..]);
    assert c[span.end..] != [] ==> c[span.end..][|c[span.end..]| - 1] == c[|c| - 1];
  }

  lemma PartsHaveNoFeed(c: string, i: nat, j: nat)
    requires i <= j <= |c| && NoFeed(c)
    ensures NoFeed(c[..i]) && NoFeed(c[j..])
  {
    assert c == c[..i] + c[i..] && c == c[..j] + c[j..];
    NoFeedConcat(c[..i], c[i..]);
    NoFeedConcat(c[..j], c[j..]);
  }

  lemma SpelledHasNoFeed(a: string, value: string, b: string)
    requires NoFeed(a) && NoFeed(value) && NoFeed(b) && value != [] && !IsSpace(value[|value| - 1])
    requires b == [] || Content(b)
    ensures var y := a + value + b; NoFeed(y) && y != [] && Content(y)
  {
    NoFeedConcat(a, value);
    NoFeedConcat(a + value, b);
    if b == [] {
      assert (a + value + b)[|a + value + b| - 1] == value[|value| - 1];
    } else {
      assert (a + value + b)[|a + value + b| - 1] == b[|b| - 1];
    }
  }

  lemma StockNameFacts()
    ensures PlainWord(STOCK_NAME) && STOCK_NAME != [] && |STOCK_NAME| != |SHIPPED_NAME|
  {
    WordyIsWord(STOCK_NAME);
  }

  lemma StockNameIsUnquoted()
    ensures Unquoted(STOCK_NAME) == STOCK_NAME
  {
    assert STOCK_NAME[0] != '"' && STOCK_NAME[|STOCK_NAME| - 1] != '"';
  }

  lemma StockNameSettles(line: string)
    requires IsLine(line) && ShippedClient(line)
    ensures var out := WithValue(line, KeySpan(line, CLIENT_KEY).value, STOCK_NAME);
      IsLine(out) && Ended(out) == Ended(line) && IsClientLine(out) && !ShippedClient(out) &&
      KeyRest(StripEol(out), CLIENT_KEY) == Some(STOCK_NAME + StripEol(line)[KeySpan(line, CLIENT_KEY).value.end..])
  {
    ClientKeyIsWord();
    StockNameFacts();
    StockNameIsUnquoted();
    Rewritten(line, CLIENT_KEY, STOCK_NAME);
    LowerKeepsShape(STOCK_NAME);
  }

  lemma LogValueSettles(line: string)
    requires IsLine(line) && IsLogLine(line)
    ensures IsLine(LogLineOn(line)) && Ended(LogLineOn(line)) == Ended(line) && IsLogLine(LogLineOn(line))
  {
    LogKeyIsWord();
    assert PlainWord("1");
    Rewritten(line, LOG_KEY, "1");
  }
}
