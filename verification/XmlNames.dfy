// Metadata names that need escaping (src/model_metadata.cpp:80-107, 154-196):
// the text of an element is decoded, its name is not. A document written with
// its attribute values escaped, as XML wants, is read as it was meant exactly
// when the name asked for needs no escaping.
module XmlNames {
  import opened Text
  import opened XmlScan
  import opened XmlMetadata
  import opened XmlDocument

  // No character that is written as an entity.
  predicate PlainName(s: string) {
    s == [] || (EscapeChar(s[0]) == [s[0]] && PlainName(s[1..]))
  }

  lemma {:induction false} PlainNameMeans(s: string)
    ensures PlainName(s) <==>
      '&' !in s && '<' !in s && '>' !in s && '"' !in s && '\'' !in s
  {
    if s != [] {
      PlainNameMeans(s[1..]);
      assert s == [s[0]] + s[1..];
      EscapedChars(s[0]);
    }
  }

  lemma EscapedChars(c: char)
    ensures EscapeChar(c) == [c] <==> c != '&' && c != '<' && c != '>' && c != '"' && c != '\''
    ensures EscapeChar(c) != [c] ==> |EscapeChar(c)| > 1 && EscapeChar(c)[0] == '&'
  {
  }

  lemma {:induction false} EscapedIsPlain(s: string)
    requires PlainName(s)
    ensures EscapeText(s) == s
  {
    if s != [] {
      EscapedIsPlain(s[1..]);
    }
  }

  // Escaping yields a plain name from that name only.
  lemma {:induction false} PlainEscape(s: string, name: string)
    requires PlainName(name)
    ensures EscapeText(s) == name <==> s == name
  {
    if s == name {
      EscapedIsPlain(s);
    }
    if EscapeText(s) == name && s != [] {
      var e := EscapeChar(s[0]);
      EscapedChars(s[0]);
      assert name == e + EscapeText(s[1..]) && name[0] == e[0];
      EscapedChars(name[0]);
      assert e == [s[0]] && name[1..] == EscapeText(s[1..]);
      PlainEscape(s[1..], name[1..]);
      assert s == [s[0]] + s[1..] && name == [name[0]] + name[1..];
    }
  }

  lemma {:induction false} EscapingLengthens(s: string)
    ensures |EscapeText(s)| >= |s| && (|EscapeText(s)| == |s| ==> PlainName(s))
  {
    if s != [] {
      EscapingLengthens(s[1..]);
      EscapedChars(s[0]);
    }
  }

  // A name is written as itself exactly when it is plain.
  lemma EscapedAsItself(s: string)
    ensures EscapeText(s) == s <==> PlainName(s)
  {
    EscapingLengthens(s);
    if PlainName(s) { EscapedIsPlain(s); }
  }

  // ---- Documents with escaped attribute values ----

  function EscapedAttrs(attrs: seq<Attr>): seq<Attr> {
    if attrs == [] then []
    else [attrs[0].(value := EscapeText(attrs[0].value))] + EscapedAttrs(attrs[1..])
  }

  function EscapedItem(i: Item): Item {
    if i.Meta? || i.Empty? then i.(attrs := EscapedAttrs(i.attrs)) else i
  }

  function EscapedItems(items: seq<Item>): seq<Item> {
    if items == [] then [] else [EscapedItem(items[0])] + EscapedItems(items[1..])
  }

  // Names and quotes as the grammar wants them; values may be any text.
  predicate AnyValues(attrs: seq<Attr>) {
    attrs == [] || (GoodAttr(attrs[0].(value := "")) && AnyValues(attrs[1..]))
  }

  predicate Writable(items: seq<Item>) {
    items == [] ||
    ((if items[0].Meta? || items[0].Empty?
      then AnyValues(items[0].attrs) && AllSpace(items[0].tail) && (items[0].Meta? ==> GoodContent(items[0].content))
      else GoodItem(items[0]))
     && Writable(items[1..]))
  }

  lemma EscapedCharIsQuotable(c: char, quote: char)
    requires quote == '"' || quote == '\''
    ensures quote !in EscapeChar(c)
  {
  }

  lemma {:induction false} EscapedIsQuotable(s: string, quote: char)
    requires quote == '"' || quote == '\''
    ensures Without(EscapeText(s), quote)
  {
    if s != [] {
      EscapedIsQuotable(s[1..], quote);
      EscapedCharIsQuotable(s[0], quote);
      Absent(EscapeChar(s[0]), quote);
      WithoutConcat(EscapeChar(s[0]), EscapeText(s[1..]), quote);
    }
  }

  lemma {:induction false} EscapedAttrsAreGood(attrs: seq<Attr>)
    requires AnyValues(attrs)
    ensures GoodAttrs(EscapedAttrs(attrs))
  {
    if attrs != [] {
      EscapedAttrsAreGood(attrs[1..]);
      EscapedIsQuotable(attrs[0].value, attrs[0].quote);
      assert EscapedAttrs(attrs)[1..] == EscapedAttrs(attrs[1..]);
    }
  }

  lemma {:induction false} EscapedItemsAreGood(items: seq<Item>)
    requires Writable(items)
    ensures Good(EscapedItems(items))
  {
    if items != [] {
      EscapedItemsAreGood(items[1..]);
      if items[0].Meta? || items[0].Empty? { EscapedAttrsAreGood(items[0].attrs); }
      assert EscapedItems(items)[1..] == EscapedItems(items[1..]);
    }
  }

  lemma {:induction false} EscapedValue(attrs: seq<Attr>, name: string)
    ensures AttrValue(EscapedAttrs(attrs), name) ==
      match AttrValue(attrs, name) case None => None case Some(v) => Some(EscapeText(v))
  {
    if attrs != [] {
      EscapedValue(attrs[1..], name);
      assert EscapedAttrs(attrs)[1..] == EscapedAttrs(attrs[1..]);
    }
  }

  lemma {:induction false} PlainNameIsFound(items: seq<Item>, name: string)
    requires PlainName(name)
    ensures FirstValue(EscapedItems(items), name) == FirstValue(items, name)
  {
    if items != [] {
      var i := items[0];
      PlainNameIsFound(items[1..], name);
      assert EscapedItems(items)[1..] == EscapedItems(items[1..]);
      if i.Meta? || i.Empty? {
        EscapedValue(i.attrs, NAME);
        if AttrValue(i.attrs, NAME).Some? { PlainEscape(AttrValue(i.attrs, NAME).value, name); }
      }
    }
  }

  // What a document with escaped names and values is read as.
  ghost predicate ReadAsMeant(items: seq<Item>, name: string) {
    Scan(Print(EscapedItems(items)), name) == FirstValue(items, name)
  }

  // No name is written like this one.
  ghost predicate Unwritten(name: string) { forall k :: EscapeText(k) != name }

  lemma {:induction false} UnwrittenIsAbsent(items: seq<Item>, name: string)
    requires Unwritten(name)
    ensures FirstValue(EscapedItems(items), name) == []
  {
    if items != [] {
      var i := items[0];
      UnwrittenIsAbsent(items[1..], name);
      assert EscapedItems(items)[1..] == EscapedItems(items[1..]);
      if i.Meta? || i.Empty? { EscapedValue(i.attrs, NAME); }
    }
  }

  // Document by document, for a name that no name is written like: nothing is
  // found, so that only a document which gives it no text is read as meant.
  lemma UnwrittenIsNotFound(items: seq<Item>, name: string)
    requires Writable(items) && Unwritten(name)
    ensures Scan(Print(EscapedItems(items)), name) == []
    ensures ReadAsMeant(items, name) <==> FirstValue(items, name) == []
  {
    EscapedItemsAreGood(items);
    DocumentReadsBack(EscapedItems(items), name);
    UnwrittenIsAbsent(items, name);
  }

  // An element of one name and one text.
  function Single(name: string, text: string): seq<Item> {
    [Meta([Attr(" ", NAME, '"', name)], [], Chars(text))]
  }

  lemma NameIsGood()
    ensures NAME != [] && NameChars(NAME) && PlainTag(NAME) && AllSpace(" ")
  {
    var s := NAME;
    assert s[1..] == "ame" && s[1..][1..] == "me" && s[1..][1..][1..] == "e" && s[1..][1..][1..][1..] == [];
    assert NameChars("e") && NameChars("me") && NameChars("ame");
    assert PlainTag("e") && PlainTag("me") && PlainTag("ame");
  }

  lemma SingleEscapes(name: string, text: string)
    ensures Writable(Single(name, text)) && EscapedItems(Single(name, text)) == Single(EscapeText(name), text)
    ensures forall n :: FirstValue(Single(name, text), n) == if n == name then text else []
  {
    NameIsGood();
    var a := Attr(" ", NAME, '"', name);
    var i := Meta([a], [], Chars(text));
    OneAttr(a);
    OneItem(i);
    assert forall n :: IsNamed(i, n) <==> n == name;
  }

  lemma OneAttr(a: Attr)
    ensures EscapedAttrs([a]) == [a.(value := EscapeText(a.value))]
    ensures AnyValues([a]) <==> GoodAttr(a.(value := ""))
  {
    assert [a][1..] == [];
  }

  lemma OneItem(i: Item)
    requires i.Meta?
    ensures EscapedItems([i]) == [EscapedItem(i)]
    ensures Writable([i]) <==> AnyValues(i.attrs) && AllSpace(i.tail) && GoodContent(i.content)
    ensures forall n :: FirstValue([i], n) == if IsNamed(i, n) then ItemValue(i) else []
  {
    assert [i][1..] == [];
  }

  // One element, printed with its name escaped: it is found under its name
  // exactly when that is plain.
  lemma SingleReadsBack(name: string, text: string)
    ensures Scan(Print(EscapedItems(Single(name, text))), name) == if PlainName(name) then text else []
  {
    SingleEscapes(name, text);
    SingleEscapes(EscapeText(name), text);
    EscapedItemsAreGood(Single(name, text));
    DocumentReadsBack(EscapedItems(Single(name, text)), name);
    EscapedAsItself(name);
  }

  // For a name, all documents are read as they were meant if and only if the
  // name holds none of the five characters.
  lemma NamesReadBackExactlyWhen(name: string)
    ensures (forall items :: Writable(items) ==> ReadAsMeant(items, name)) <==> PlainName(name)
  {
    if PlainName(name) {
      forall items | Writable(items) ensures ReadAsMeant(items, name) {
        EscapedItemsAreGood(items);
        DocumentReadsBack(EscapedItems(items), name);
        PlainNameIsFound(items, name);
      }
    } else {
      var items := Single(name, "x");
      SingleEscapes(name, "x");
      SingleReadsBack(name, "x");
      assert Writable(items) && !ReadAsMeant(items, name);
    }
  }

  // For example, an element written for the name a&b is not found under it,
  // but under the name as it stands in the file.
  lemma AmpersandIsNotFound(text: string)
    ensures Scan(Print(EscapedItems(Single("a&b", text))), "a&b") == []
    ensures Scan(Print(EscapedItems(Single("a&b", text))), "a&amp;b") == text
  {
    var name := "a&b";
    PlainNameMeans(name);
    assert name[1] == '&';
    SingleReadsBack(name, text);
    SingleEscapes(name, text);
    assert name[1..] == "&b" && "&b"[1..] == "b" && "b"[1..] == [];
    assert EscapeText("b") == "b" && EscapeText("&b") == "&amp;b" && EscapeText(name) == "a&amp;b";
    SingleEscapes("a&amp;b", text);
    EscapedItemsAreGood(Single(name, text));
    DocumentReadsBack(EscapedItems(Single(name, text)), "a&amp;b");
  }
}
