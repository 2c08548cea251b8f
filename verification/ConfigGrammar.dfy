// The lines the repair of obn.conf recognises (src/config.cpp:257-275, 322-339,
// 377-395), exactly, by what is written in them.
module ConfigGrammar {
  import opened Text
  import opened ConfigText
  import opened ConfigLoader
  import opened ConfigFixer
  import opened ConfigVector
  import opened ConfigAgreement
  import opened ConfigStability
  import opened ConfigMeaning

  // "key = " with blanks anywhere around the two words, the value, and what
  // stands behind it.
  ghost predicate Reads(c: string, key: string, w: string, v: string, x: string, val: string, rest: string) {
    && c == Assignment(w + key + v, x + (val + rest))
    && Blank(w) && Blank(v) && Blank(x)
    && val != [] && (rest == [] || IsSpace(rest[0]))
  }

  // The value is the first word behind the equals sign.
  lemma BlockValueExactly(c: string, val: string)
    ensures BlockValue(c) == Some(val) <==> Solid(val) && exists w, v, x, rest :: Reads(c, BLOCK_KEY, w, v, x, val, rest)
  {
    BlockKeyIsWord();
    hide KeyRest, Blank, Assignment, Word, KeyWord;
    if BlockValue(c) == Some(val) {
      var w, v, x := KeyRestSplits(c, BLOCK_KEY);
      var rest := WordSplits(KeyRest(c, BLOCK_KEY).value);
      assert Reads(c, BLOCK_KEY, w, v, x, val, rest);
    }
    if Solid(val) && exists w, v, x, rest :: Reads(c, BLOCK_KEY, w, v, x, val, rest) {
      var w, v, x, rest :| Reads(c, BLOCK_KEY, w, v, x, val, rest);
      SolidStarts(val);
      KeyRestIs(w, BLOCK_KEY, v, x, val + rest);
      WordEnds(val, rest);
    }
  }

  lemma SolidStarts(val: string)
    requires Solid(val) && val != []
    ensures !IsSpace(val[0])
  {
  }

  lemma {:induction false} WordSplits(r: string) returns (rest: string)
    ensures r == Word(r) + rest && Solid(Word(r)) && (rest == [] || IsSpace(rest[0]))
  {
    if r != [] && !IsSpace(r[0]) {
      rest := WordSplits(r[1..]);
    } else {
      rest := r;
    }
  }

  lemma {:induction false} WordEnds(val: string, rest: string)
    requires Solid(val) && (rest == [] || IsSpace(rest[0]))
    ensures Word(val + rest) == val
  {
    if val == [] {
      assert val + rest == rest;
    } else {
      assert (val + rest)[1..] == val[1..] + rest;
      WordEnds(val[1..], rest);
    }
  }

  // The same where the value also ends at a comment sign, and where it stands.
  ghost predicate ReadsAt(
    c: string, key: string, w: string, v: string, x: string, val: string, rest: string, span: Span)
  {
    && c == Assignment(w + key + v, x + (val + rest))
    && Blank(w) && Blank(v) && Blank(x)
    && val != [] && PlainWord(val) && (rest == [] || IsSpace(rest[0]) || rest[0] == '#')
    && span == Span(|w + key + v| + 1 + |x|, |w + key + v| + 1 + |x| + |val|)
  }

  lemma KeySpanExactly(c: string, key: string, span: Span)
    requires KeyWord(key)
    ensures FindKey(c, key) == Some(span) <==> exists w, v, x, val, rest :: ReadsAt(c, key, w, v, x, val, rest, span)
  {
    hide KeyRest, Blank, KeyWord, FindKey, PlainWord;
    if FindKey(c, key) == Some(span) {
      var w, v, x, val, rest := SpanReads(c, key, span);
      assert ReadsAt(c, key, w, v, x, val, rest, span);
    }
    if exists w, v, x, val, rest :: ReadsAt(c, key, w, v, x, val, rest, span) {
      var w, v, x, val, rest :| ReadsAt(c, key, w, v, x, val, rest, span);
      PlainStarts(val);
      assert (val + rest)[0] == val[0];
      KeyRestIs(w, key, v, x, val + rest);
      LengthOf(w + key + v, x, val, rest);
      ValueFound(c, key, val, rest, span.start);
    }
  }

  lemma LengthOf(left: string, x: string, val: string, rest: string)
    ensures |Assignment(left, x + (val + rest))| == |left| + 1 + |x| + |val| + |rest|
  {
  }

  lemma PlainStarts(val: string)
    requires PlainWord(val) && val != []
    ensures !IsSpace(val[0])
  {
  }

  lemma SpanReads(c: string, key: string, span: Span) returns (w: string, v: string, x: string, val: string, rest: string)
    requires FindKey(c, key) == Some(span)
    ensures ReadsAt(c, key, w, v, x, val, rest, span)
  {
    hide KeyRest, Blank, PlainWord;
    var r := KeyRest(c, key).value;
    w, v, x := KeyRestSplits(c, key);
    HashWordFits(r);
    HashWordStops(r);
    HashWordIsPlain(r);
    val, rest := HashWord(r), r[|HashWord(r)|..];
    assert r == val + rest;
    LengthOf(w + key + v, x, val, rest);
  }

  lemma {:induction false} HashWordIsPlain(r: string)
    ensures PlainWord(HashWord(r))
  {
    if r != [] && !IsSpace(r[0]) && r[0] != '#' {
      HashWordIsPlain(r[1..]);
      assert HashWord(r)[1..] == HashWord(r[1..]);
    }
  }

  // ---- The shipped client name ----

  predicate Quotes(s: string) { forall k :: 0 <= k < |s| ==> s[k] == '"' }

  ghost predicate Quoted(value: string, a: string, name: string, b: string) {
    value == a + name + b && Quotes(a) && Quotes(b) && Spells(name, SHIPPED_NAME)
  }

  // The name in any case of letters, and between any quotes.
  lemma ShippedExactly(value: string)
    ensures Lower(Unquoted(value)) == SHIPPED_NAME <==> exists a, name, b :: Quoted(value, a, name, b)
  {
    hide Lower, Spells, Unquoted;
    LowerSpells(Unquoted(value), SHIPPED_NAME);
    if Lower(Unquoted(value)) == SHIPPED_NAME {
      var a, b := UnquotedSplits(value);
      assert Quoted(value, a, Unquoted(value), b);
    }
    if exists a, name, b :: Quoted(value, a, name, b) {
      var a, name, b :| Quoted(value, a, name, b);
      NameIsUnquoted(name);
      UnquotedIs(a, name, b);
    }
  }

  lemma NameIsUnquoted(name: string)
    requires Spells(name, SHIPPED_NAME)
    ensures name != [] && name[0] != '"' && name[|name| - 1] != '"'
  {
    var last := |SHIPPED_NAME| - 1;
    assert SHIPPED_NAME[0] == 'o' && SHIPPED_NAME[last] == 'g';
    assert name[0] == 'o' || name[0] == 'O';
    assert name[last] == 'g' || name[last] == 'G';
  }

  lemma {:induction false} DropSplits(s: string) returns (a: string)
    ensures s == a + DropQuotes(s) && Quotes(a) && (DropQuotes(s) == [] || DropQuotes(s)[0] != '"')
  {
    a := [];
    if s != [] && s[0] == '"' {
      a := DropSplits(s[1..]);
      a := [s[0]] + a;
    }
  }

  lemma {:induction false} DropRightSplits(s: string) returns (b: string)
    ensures s == DropQuotesRight(s) + b && Quotes(b)
  {
    b := [];
    if s != [] && s[|s| - 1] == '"' {
      b := DropRightSplits(s[..|s| - 1]);
      b := b + [s[|s| - 1]];
    }
  }

  lemma UnquotedSplits(value: string) returns (a: string, b: string)
    ensures value == a + Unquoted(value) + b && Quotes(a) && Quotes(b)
  {
    a, b := [], [];
    var s := DropQuotes(value);
    if s == [] {
      assert [] + value + [] == value;
    } else {
      a := DropSplits(value);
      b := DropRightSplits(s);
      Assoc(a, DropQuotesRight(s), b);
    }
  }

  lemma {:induction false} DropIs(a: string, t: string)
    requires Quotes(a) && t != [] && t[0] != '"'
    ensures DropQuotes(a + t) == t
  {
    if a == [] {
      assert a + t == t;
    } else {
      assert (a + t)[1..] == a[1..] + t;
      DropIs(a[1..], t);
    }
  }

  lemma {:induction false} DropRightIs(t: string, b: string)
    requires Quotes(b) && t != [] && t[|t| - 1] != '"'
    ensures DropQuotesRight(t + b) == t
    decreases |b|
  {
    if b == [] {
      assert t + b == t;
    } else {
      assert (t + b)[..|t + b| - 1] == t + b[..|b| - 1];
      DropRightIs(t, b[..|b| - 1]);
    }
  }

  lemma UnquotedIs(a: string, name: string, b: string)
    requires Quotes(a) && Quotes(b) && name != [] && name[0] != '"' && name[|name| - 1] != '"'
    ensures Unquoted(a + name + b) == name
  {
    Assoc(a, name, b);
    assert (name + b)[0] == name[0];
    DropIs(a, name + b);
    DropRightIs(name, b);
  }
}
