// What Value::dump and escape print (src/json_lite.cpp:288-378), among all the
// texts that mean the same: no white space, no leading zeros, and every
// character the shortest way.
module JsonPrinted {
  import opened Text
  import opened JsonValue
  import opened JsonGrammar
  import opened JsonLocal
  import opened JsonNumeral
  import opened JsonRoundTrip
  import opened JsonSyntax
  import opened JsonReads

  // A character stands for itself unless it is a quote, a backslash or below the
  // blank; then by its letter, where it has one, or by four digits.
  predicate TightChar(x: Spelled) {
    match x
    case Plain(c) => c >= ' ' && c != '"' && c != '\\'
    case Short(letter) => letter != '/'
    case Unit(a, b, c, d) =>
      && a == HexChar(0, false) && b == HexChar(0, false) && c.value < 2 && !c.upper && !d.upper
      && 16 * c.value + d.value !in [8, 9, 10, 12, 13]
  }

  predicate TightString(t: seq<Spelled>) { t == [] || (TightChar(t[0]) && TightString(t[1..])) }

  ghost predicate TightNumber(n: Numeral) {
    NumeralValue(n).Number? ==>
      n.fraction.None? && n.exponent.None? && n.whole != "" && (n.whole[0] != '0' || (n.whole == "0" && !n.negative))
  }

  ghost predicate Tight(t: Tree) {
    match t
    case Literal(_) => true
    case Numeric(n) => TightNumber(n)
    case Text(u) => TightString(u)
    case List(gap, items) => gap == "" && TightItems(items)
    case Table(gap, members) => gap == "" && TightMembers(members)
  }

  ghost predicate TightItems(items: seq<Item>) { items == [] || (TightItem(items[0]) && TightItems(items[1..])) }

  ghost predicate TightItem(i: Item) { i.before == "" && i.after == "" && Tight(i.tree) }

  ghost predicate TightMembers(members: seq<Member>) {
    members == [] || (TightMember(members[0]) && TightMembers(members[1..]))
  }

  ghost predicate TightMember(m: Member) {
    m.before == "" && m.after == "" && TightString(m.key) && TightItem(m.item)
  }

  // ---- Strings ----

  lemma CharIsTight(c: char) returns (x: Spelled)
    ensures GoodSpelled(x) && TightChar(x) && SpelledText(x) == EscapeChar(c)
    ensures StringMeaning([x]) == [c] && !(x.Unit? && IsHigh(x))
  {
    var n := c as nat;
    x := if c == '"' then Short('"') else if c == '\\' then Short('\\')
         else if n == 8 then Short('b') else if n == 12 then Short('f') else if n == 10 then Short('n')
         else if n == 13 then Short('r') else if n == 9 then Short('t')
         else if n < 32 then Unit(HexChar(0, false), HexChar(0, false), HexChar(n / 16, false), HexChar(n % 16, false))
         else Plain(c);
    assert [x][1..] == [];
    assert 16 * (n / 16) + n % 16 == n;
    ShortLetters();
  }

  lemma ShortLetters()
    ensures Stands('"') == Some('"') && Stands('\\') == Some('\\') && Stands('b') == Some(8 as char)
    ensures Stands('f') == Some(12 as char) && Stands('n') == Some(10 as char)
    ensures Stands('r') == Some(13 as char) && Stands('t') == Some(9 as char)
  {
  }

  lemma MeaningOfMore(x: Spelled, u: seq<Spelled>)
    requires GoodSpelled(x) && GoodString(u) && !(x.Unit? && IsHigh(x))
    ensures GoodString([x] + u) && GoodString([x]) && StringMeaning([x] + u) == StringMeaning([x]) + StringMeaning(u)
  {
    hide Utf8, IsLow, SpelledText;
    assert ([x] + u)[1..] == u && [x][1..] == [];
  }

  lemma {:induction false} StringIsTight(t: string, rest: string) returns (u: seq<Spelled>)
    ensures GoodString(u) && TightString(u) && StringMeaning(u) == t
    ensures EscapeBody(t) + (['"'] + rest) == StringThen(u, rest)
  {
    if t == [] {
      u := [];
    } else {
      var more := StringIsTight(t[1..], rest);
      var x := CharIsTight(t[0]);
      hide EscapeChar, SpelledText, StringMeaning, TightChar, GoodSpelled;
      u := [x] + more;
      assert u[1..] == more;
      MeaningOfMore(x, more);
      Assoc(EscapeChar(t[0]), EscapeBody(t[1..]), ['"'] + rest);
      assert t == [t[0]] + t[1..];
    }
  }

  // ---- Numbers ----

  lemma {:induction false} DigitsLead(n: nat)
    ensures Digits(n) != [] && (Digits(n)[0] == '0' ==> n == 0)
  {
    if n >= 10 {
      DigitsLead(n / 10);
    }
  }

  lemma IntegerIsTight(i: int) returns (n: Numeral)
    requires Printable(Number(i))
    ensures GoodNumeral(n) && TightNumber(n) && NumeralText(n) == Dump(Number(i)) && NumeralValue(n) == Number(i)
  {
    hide Stod, NumeralValue, NumberText, AllDigits, Digits, NatOf;
    var m := if i < 0 then -i else i;
    n := Numeral(i < 0, Digits(m), None, None);
    DigitsReadBack(m);
    DigitsLead(m);
    ZeroDigits();
    IntegerText(i);
    assert Digits(m) + [] == Digits(m) && "" + Digits(m) == Digits(m);
    assert NumeralText(n) == Dump(Number(i));
    NumeralReads(n);
  }

  lemma ZeroDigits()
    ensures Digits(0) == "0"
  {
  }

  lemma NumberIsTight(v: Value) returns (n: Numeral)
    requires Printable(v) && (v.Number? || v.Real?)
    ensures GoodNumeral(n) && TightNumber(n) && NumeralText(n) == Dump(v) && NumeralValue(n) == v
  {
    hide NumeralValue, TightNumber;
    match v
    case Number(i) => n := IntegerIsTight(i);
    case Real(lexeme) =>
      hide NumberEnd, NumeralText;
      assert lexeme[0..|lexeme|] == lexeme;
      n := NumeralParts(lexeme, 0);
      OtherNumber(n);
  }

  lemma OtherNumber(n: Numeral)
    requires NumeralValue(n).Real?
    ensures TightNumber(n)
  {
  }

  // ---- Values ----

  lemma {:induction false} ValueIsTight(v: Value, rest: string) returns (t: Tree)
    requires Valid(v) && Printable(v)
    ensures Good(t) && Tight(t) && Meaning(t) == v && Dump(v) + rest == Then(t, rest)
    decreases v, 0
  {
    hide StringThen, NumeralThen, NumeralValue, TightNumber, EscapeBody;
    match v
    case Null => t := Literal(v);
    case Bool(_) => t := Literal(v);
    case Number(_) =>
      var n := NumberIsTight(v);
      t := Numeric(n);
      NumeralSplits(n, rest);
    case Real(_) =>
      var n := NumberIsTight(v);
      t := Numeric(n);
      NumeralSplits(n, rest);
    case Str(s) =>
      var u := StringIsTight(s, rest);
      t := JsonSyntax.Tree.Text(u);
      assert Quoted(s) + rest == ['"'] + (EscapeBody(s) + (['"'] + rest));
    case Array(items) => t := ArrayIsTight(items, rest);
    case Object(fields) => t := ObjectIsTight(fields, rest);
  }

  lemma {:induction false} ArrayIsTight(items: seq<Value>, rest: string) returns (t: Tree)
    requires ValidItems(items) && PrintableItems(items)
    ensures Good(t) && Tight(t) && Meaning(t) == Array(items) && Dump(Array(items)) + rest == Then(t, rest)
    decreases items, 2
  {
    hide DumpItems, ItemsThen, Valid, Printable;
    if items == [] {
      t := List("", []);
      assert Dump(Array(items)) == "[]" by { assert DumpItems([], true) == "" by { NoItems(); } }
    } else {
      var its := ItemsAreTight(items, [']'] + rest);
      t := List("", its);
      Bracketed("[", DumpItems(items, true), "]", rest);
    }
  }

  lemma Bracketed(open: string, body: string, close: string, rest: string)
    ensures open + body + close + rest == open + (body + (close + rest))
  {
  }

  lemma NoItems()
    ensures DumpItems([], true) == "" && DumpFields([], true) == ""
  {
  }

  lemma {:induction false} ItemsAreTight(items: seq<Value>, rest: string) returns (its: seq<Item>)
    requires items != [] && ValidItems(items) && PrintableItems(items)
    ensures its != [] && GoodItems(its) && TightItems(its) && ItemMeanings(its) == items
    ensures DumpItems(items, true) + rest == ItemsThen(its, rest)
    decreases items, 1
  {
    hide Valid, Printable, Good, Tight, Meaning, Then, Dump;
    var later := items[1..];
    if later == [] {
      var t := ValueIsTight(items[0], rest);
      its := [Item("", t, "")];
      assert items == [items[0]] && its[1..] == [] && "" + rest == rest;
      assert "" + Then(t, rest) == Then(t, rest);
      LastItem(items, rest);
    } else {
      var more := ItemsAreTight(later, rest);
      var t := ValueIsTight(items[0], [','] + ItemsThen(more, rest));
      its := [Item("", t, "")] + more;
      assert items == [items[0]] + later && its[1..] == more;
      assert "" + Then(t, "" + ([','] + ItemsThen(more, rest))) == Then(t, [','] + ItemsThen(more, rest)) by {
        assert "" + ([','] + ItemsThen(more, rest)) == [','] + ItemsThen(more, rest);
      }
      NextItem(items, rest);
    }
  }

  lemma LastItem(items: seq<Value>, rest: string)
    requires |items| == 1
    ensures DumpItems(items, true) + rest == Dump(items[0]) + rest
  {
    hide Dump;
    assert items[1..] == [] && DumpItems([], false) == "";
    assert "" + (Dump(items[0]) + "") == Dump(items[0]);
  }

  lemma MovedIn(a: string, b: string, rest: string)
    ensures a + ("," + b) + rest == a + ([','] + (b + rest))
  {
  }

  lemma NextItem(items: seq<Value>, rest: string)
    requires |items| > 1
    ensures DumpItems(items, true) + rest == Dump(items[0]) + ([','] + (DumpItems(items[1..], true) + rest))
  {
    NotFirst(items[1..]);
    MovedIn(Dump(items[0]), DumpItems(items[1..], true), rest);
    NoPrefix(Dump(items[0]) + DumpItems(items[1..], false));
  }

  lemma NotFirst(items: seq<Value>)
    requires items != []
    ensures DumpItems(items, false) == "," + DumpItems(items, true)
  {
    NoPrefix(Dump(items[0]) + DumpItems(items[1..], false));
    hide *;
  }

  lemma NoPrefix(s: string)
    ensures "" + s == s
  {
  }

  lemma {:induction false} ObjectIsTight(fields: seq<Field>, rest: string) returns (t: Tree)
    requires Sorted(fields) && ValidFields(fields) && PrintableFields(fields)
    ensures Good(t) && Tight(t) && Meaning(t) == Object(fields) && Dump(Object(fields)) + rest == Then(t, rest)
    decreases fields, 2
  {
    hide DumpFields, MembersThen, Valid, Printable, Sorted, Good, Tight, Meaning, Then, Dump, EmplaceAll;
    if fields == [] {
      t := Table("", []);
      NoFields(rest);
    } else {
      var members := MembersAreTight(fields, ['}'] + rest);
      t := Table("", members);
      assert [] + fields == fields;
      SortedFieldsRebuild([], fields);
      TableOf(members, fields, rest);
    }
  }

  lemma NoFields(rest: string)
    ensures var t := Table("", []);
      Good(t) && Tight(t) && Meaning(t) == Object([]) && Dump(Object([])) + rest == Then(t, rest)
  {
    NoItems();
  }

  lemma TableOf(members: seq<Member>, fields: seq<Field>, rest: string)
    requires members != [] && GoodMembers(members) && TightMembers(members) && MemberMeanings(members) == fields
    requires EmplaceAll([], fields) == fields
    requires DumpFields(fields, true) + (['}'] + rest) == MembersThen(members, ['}'] + rest)
    ensures var t := Table("", members);
      Good(t) && Tight(t) && Meaning(t) == Object(fields) && Dump(Object(fields)) + rest == Then(t, rest)
  {
    hide DumpFields, MembersThen, EmplaceAll, MemberMeanings, GoodMembers, TightMembers;
    Bracketed("{", DumpFields(fields, true), "}", rest);
  }

  lemma {:induction false} MembersAreTight(fields: seq<Field>, rest: string) returns (members: seq<Member>)
    requires fields != [] && ValidFields(fields) && PrintableFields(fields)
    ensures members != [] && GoodMembers(members) && TightMembers(members) && MemberMeanings(members) == fields
    ensures DumpFields(fields, true) + rest == MembersThen(members, rest)
    decreases fields, 1
  {
    hide Valid, Printable, MemberThen, GoodMember, TightMember, MemberMeaning, Dump, Quoted;
    var later := fields[1..];
    if later == [] {
      var m := MemberIsTight(fields[0], rest);
      members := [m];
      assert fields == [fields[0]] && members[1..] == [];
      LastField(fields, rest);
    } else {
      var more := MembersAreTight(later, rest);
      var m := MemberIsTight(fields[0], [','] + MembersThen(more, rest));
      members := [m] + more;
      assert fields == [fields[0]] + later && members[1..] == more;
      NextField(fields, rest);
    }
  }

  lemma {:induction false} MemberIsTight(f: Field, rest: string) returns (m: Member)
    requires Valid(f.value) && Printable(f.value)
    ensures GoodMember(m) && TightMember(m) && MemberMeaning(m) == f
    ensures Quoted(f.key) + (":" + (Dump(f.value) + rest)) == MemberThen(m, rest)
    decreases f, 0
  {
    hide Valid, Printable, Good, Tight, Meaning, Then, Dump, StringThen, EscapeBody, GoodString, TightString, StringMeaning;
    var t := ValueIsTight(f.value, rest);
    var behind := [':'] + Then(t, rest);
    var key := StringIsTight(f.key, behind);
    m := Member("", key, "", Item("", t, ""));
    assert "" + rest == rest && "" + Then(t, rest) == Then(t, rest) && "" + behind == behind;
    assert Quoted(f.key) + behind == ['"'] + (EscapeBody(f.key) + (['"'] + behind));
    assert "" + (['"'] + StringThen(key, behind)) == ['"'] + StringThen(key, behind);
  }

  lemma LastField(fields: seq<Field>, rest: string)
    requires |fields| == 1
    ensures DumpFields(fields, true) + rest == Quoted(fields[0].key) + (":" + (Dump(fields[0].value) + rest))
  {
    hide Dump, Quoted;
    assert fields[1..] == [] && DumpFields([], false) == "";
    var k, a := Quoted(fields[0].key), Dump(fields[0].value);
    assert "" + (k + (":" + (a + ""))) + rest == k + (":" + (a + rest));
  }

  lemma NextField(fields: seq<Field>, rest: string)
    requires |fields| > 1
    ensures DumpFields(fields, true) + rest ==
      Quoted(fields[0].key) + (":" + (Dump(fields[0].value) + ([','] + (DumpFields(fields[1..], true) + rest))))
  {
    hide Dump, Quoted;
    var k, a, b := Quoted(fields[0].key), Dump(fields[0].value), DumpFields(fields[1..], true);
    NotFirstField(fields[1..]);
    NoPrefix(k + (":" + (a + ("," + b))));
    MovedIn(a, b, rest);
    hide DumpFields;
    assert k + (":" + (a + ("," + b))) + rest == k + (":" + (a + ("," + b) + rest));
  }

  lemma NotFirstField(fields: seq<Field>)
    requires fields != []
    ensures DumpFields(fields, false) == "," + DumpFields(fields, true)
  {
    NoPrefix(Quoted(fields[0].key) + (":" + (Dump(fields[0].value) + DumpFields(fields[1..], false))));
    hide *;
  }

  // Of every value the reader makes, what is printed is the text of such a tree
  // with that meaning.
  lemma PrintedTight(v: Value) returns (t: Tree)
    requires Valid(v) && Printable(v)
    ensures Good(t) && Tight(t) && Meaning(t) == v && Dump(v) == Then(t, "")
  {
    t := ValueIsTight(v, "");
    assert Dump(v) + "" == Dump(v);
  }
}
