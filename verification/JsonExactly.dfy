// Every text the reader of src/json_lite.cpp accepts is the text of a tree, so
// that it accepts exactly the written texts and nothing else.
module JsonExactly {
  import opened Text
  import opened JsonValue
  import opened JsonGrammar
  import opened JsonLocal
  import opened JsonNumeral
  import opened JsonRoundTrip
  import opened JsonSyntax
  import opened JsonReads

  lemma {:induction false} GapOf(s: string, i: nat)
    requires i <= |s|
    ensures Gap(s[i..WsEnd(s, i)]) && s[i..] == s[i..WsEnd(s, i)] + s[WsEnd(s, i)..]
    decreases |s| - i
  {
    if i < |s| && IsWs(s[i]) {
      GapOf(s, i + 1);
      assert s[i..WsEnd(s, i)][1..] == s[i + 1..WsEnd(s, i)];
    }
  }

  lemma Suffix(s: string, i: nat, c: char)
    requires i < |s| && s[i] == c
    ensures s[i..] == [c] + s[i + 1..]
  {
  }

  lemma HexOf(c: char) returns (h: HexChar)
    requires HexValue(c).Some?
    ensures GoodHex(h) && HexText(h) == c
  {
    h := HexChar(HexValue(c).value, 'A' <= c <= 'F');
  }

  lemma UnitOf(s: string, i: nat) returns (x: Spelled)
    requires i + 6 <= |s| && s[i] == '\\' && s[i + 1] == 'u' && Hex4(s, i + 2).Some?
    ensures GoodSpelled(x) && x.Unit? && s[i..] == SpelledText(x) + s[i + 6..]
  {
    var a := HexOf(s[i + 2]);
    var b := HexOf(s[i + 3]);
    var c := HexOf(s[i + 4]);
    var d := HexOf(s[i + 5]);
    x := Unit(a, b, c, d);
    hide HexText, HexValue;
    assert SpelledText(x) == s[i..i + 6];
  }

  lemma OneMore(s: string, i: nat, x: Spelled, n: nat, t: seq<Spelled>, rest: string) returns (u: seq<Spelled>)
    requires GoodSpelled(x) && GoodString(t) && i <= n <= |s|
    requires s[i..] == SpelledText(x) + s[n..] && s[n..] == StringThen(t, rest)
    ensures GoodString(u) && s[i..] == StringThen(u, rest)
  {
    hide SpelledText;
    u := [x] + t;
    assert u[1..] == t;
  }

  lemma {:induction false} StringTree(s: string, i: nat, out: string) returns (t: seq<Spelled>)
    requires i <= |s| && StringFrom(s, i, out).Ok?
    ensures GoodString(t) && s[i..] == StringThen(t, s[StringFrom(s, i, out).value.next..])
    decreases |s| - i
  {
    hide UnicodeEscape, SimpleEscape, Utf8, SpelledText;
    var rest := s[StringFrom(s, i, out).value.next..];
    if s[i] == '"' {
      t := [];
      Suffix(s, i, '"');
    } else if s[i] != '\\' {
      t := StringTree(s, i + 1, out + [s[i]]);
      PlainText(s, i);
      t := OneMore(s, i, Plain(s[i]), i + 1, t, rest);
    } else if s[i + 1] == 'u' {
      var r := UnicodeEscape(s, i + 2).value;
      t := StringTree(s, r.next, out + Utf8(r.value));
      t := EscapeTree(s, i, t, rest);
    } else {
      t := StringTree(s, i + 2, out + [SimpleEscape(s[i + 1]).value]);
      ShortText(s, i);
      t := OneMore(s, i, Short(s[i + 1]), i + 2, t, rest);
    }
  }

  lemma PlainText(s: string, i: nat)
    requires i < |s| && s[i] != '"' && s[i] != '\\'
    ensures GoodSpelled(Plain(s[i])) && s[i..] == SpelledText(Plain(s[i])) + s[i + 1..]
  {
  }

  lemma ShortText(s: string, i: nat)
    requires i + 1 < |s| && s[i] == '\\' && SimpleEscape(s[i + 1]).Some?
    ensures GoodSpelled(Short(s[i + 1])) && s[i..] == SpelledText(Short(s[i + 1])) + s[i + 2..]
  {
  }

  lemma EscapeTree(s: string, i: nat, t: seq<Spelled>, rest: string) returns (u: seq<Spelled>)
    requires i + 2 <= |s| && s[i] == '\\' && s[i + 1] == 'u' && UnicodeEscape(s, i + 2).Ok? && GoodString(t)
    requires s[UnicodeEscape(s, i + 2).value.next..] == StringThen(t, rest)
    ensures GoodString(u) && s[i..] == StringThen(u, rest)
  {
    hide SpelledText, StringThen;
    var n := UnicodeEscape(s, i + 2).value.next;
    u := t;
    if n == i + 12 {
      var y := UnitOf(s, i + 6);
      u := OneMore(s, i + 6, y, i + 12, u, rest);
    }
    var x := UnitOf(s, i);
    u := OneMore(s, i, x, i + 6, u, rest);
  }

  // ---- Values ----

  lemma LiteralTree(s: string, i: nat, lit: string, v: Value)
    requires At(s, i, lit) && lit == LiteralText(v) && (v.Null? || v.Bool?)
    ensures s[i..] == Then(Literal(v), s[i + |lit|..])
  {
    AtIsSlice(s, i, lit);
    assert s[i..] == s[i..i + |lit|] + s[i + |lit|..];
  }

  lemma NumeralTree(s: string, i: nat) returns (n: Numeral)
    requires i < |s| && (s[i] == '-' || IsDigit(s[i])) && NumberAt(s, i).Ok?
    ensures GoodNumeral(n) && s[i..] == NumeralThen(n, s[NumberAt(s, i).value.next..])
  {
    hide Stod, NumberEnd;
    n := NumeralParts(s, i);
    var e := NumberEnd(s, i);
    NumeralSplits(n, s[e..]);
    assert s[i..] == s[i..e] + s[e..];
  }

  lemma {:induction false} ValueTree(s: string, i: nat, depth: nat) returns (t: Tree)
    requires i <= |s| && ValueFrom(s, i, depth).Ok?
    ensures Good(t) && s[i..] == Then(t, s[ValueFrom(s, i, depth).value.next..])
    decreases |s| - i, 3
  {
    hide StringFrom, StringThen, At, NumberAt;
    if s[i] == '"' {
      var u := StringTree(s, i + 1, "");
      t := Text(u);
      Suffix(s, i, '"');
    } else if s[i] == '{' {
      t := TableTree(s, i, depth + 1);
    } else if s[i] == '[' {
      t := ListTree(s, i, depth + 1);
    } else if s[i] == 't' {
      t := Literal(Bool(true));
      LiteralTree(s, i, "true", Bool(true));
    } else if s[i] == 'f' {
      t := Literal(Bool(false));
      LiteralTree(s, i, "false", Bool(false));
    } else if s[i] == 'n' {
      t := Literal(Null);
      LiteralTree(s, i, "null", Null);
    } else {
      var n := NumeralTree(s, i);
      t := Numeric(n);
    }
  }

  lemma {:induction false} ListTree(s: string, i: nat, depth: nat) returns (t: Tree)
    requires i < |s| && s[i] == '[' && ArrayAt(s, i, depth).Ok?
    ensures Good(t) && s[i..] == Then(t, s[ArrayAt(s, i, depth).value.next..])
    decreases |s| - i, 2
  {
    hide ArrayAt, ItemsAt, WsEnd, Gap, GoodItems, ItemsThen, Good, Then;
    var j := WsEnd(s, i + 1);
    ArrayDispatch(s, i, depth);
    Suffix(s, i, '[');
    if j < |s| && s[j] == ']' {
      GapOf(s, i + 1);
      Suffix(s, j, ']');
      t := List(s[i + 1..j], []);
      ListIsWritten(s[i + 1..j], [], s[j + 1..]);
    } else {
      ItemsSkip(s, i + 1, depth, []);
      var items := ItemsTree(s, i + 1, depth, []);
      t := List("", items);
      ListIsWritten("", items, s[ArrayAt(s, i, depth).value.next..]);
    }
  }

  lemma ListIsWritten(gap: string, items: seq<Item>, rest: string)
    requires gap == "" || Gap(gap)
    requires items == [] || GoodItems(items)
    ensures Gap(gap) && GoodItems(items) && Good(List(gap, items))
    ensures Then(List(gap, items), rest)
      == ['['] + (if items == [] then gap + ([']'] + rest) else ItemsThen(items, [']'] + rest))
  {
  }

  lemma TableIsWritten(gap: string, members: seq<Member>, rest: string)
    requires gap == "" || Gap(gap)
    requires members == [] || GoodMembers(members)
    ensures Gap(gap) && GoodMembers(members) && Good(Table(gap, members))
    ensures Then(Table(gap, members), rest)
      == ['{'] + (if members == [] then gap + (['}'] + rest) else MembersThen(members, ['}'] + rest))
  {
  }

  lemma {:induction false} ItemTree(s: string, i: nat, depth: nat) returns (it: Item)
    requires i <= |s| && ItemAt(s, i, depth).Ok?
    ensures GoodItem(it) && s[i..] == ItemThen(it, s[ItemAt(s, i, depth).value.next..])
    decreases |s| - i, 5
  {
    hide ValueFrom, WsEnd, Gap, Good, Then;
    var j := WsEnd(s, i);
    var k := ValueFrom(s, j, depth).value.next;
    GapOf(s, i);
    var t := ValueTree(s, j, depth);
    GapOf(s, k);
    it := Item(s[i..j], t, s[k..WsEnd(s, k)]);
  }

  lemma {:induction false} ItemsTree(s: string, i: nat, depth: nat, arr: seq<Value>) returns (items: seq<Item>)
    requires i <= |s| && ItemsAt(s, i, depth, arr).Ok?
    ensures items != [] && GoodItems(items) && s[i..] == ItemsThen(items, [']'] + s[ItemsAt(s, i, depth, arr).value.next..])
    decreases |s| - i, 6
  {
    hide ItemAt, ItemThen, GoodItem;
    var r := ItemAt(s, i, depth).value;
    var it := ItemTree(s, i, depth);
    ItemsStep(s, i, depth, arr, r.value, r.next);
    if s[r.next] == ',' {
      var more := ItemsTree(s, r.next + 1, depth, arr + [r.value]);
      Suffix(s, r.next, ',');
      items := [it] + more;
      assert items[1..] == more;
    } else {
      Suffix(s, r.next, ']');
      items := [it];
      assert items[1..] == [];
    }
  }

  lemma {:induction false} TableTree(s: string, i: nat, depth: nat) returns (t: Tree)
    requires i < |s| && s[i] == '{' && ObjectAt(s, i, depth).Ok?
    ensures Good(t) && s[i..] == Then(t, s[ObjectAt(s, i, depth).value.next..])
    decreases |s| - i, 2
  {
    hide ObjectAt, FieldsAt, WsEnd, Gap, GoodMembers, MembersThen, Good, Then;
    var j := WsEnd(s, i + 1);
    ObjectDispatch(s, i, depth);
    Suffix(s, i, '{');
    if j < |s| && s[j] == '}' {
      GapOf(s, i + 1);
      Suffix(s, j, '}');
      t := Table(s[i + 1..j], []);
      TableIsWritten(s[i + 1..j], [], s[j + 1..]);
    } else {
      MembersSkip(s, i + 1, depth, []);
      var members := MembersTree(s, i + 1, depth, []);
      t := Table("", members);
      TableIsWritten("", members, s[ObjectAt(s, i, depth).value.next..]);
    }
  }

  lemma MemberSplits(s: string, i: nat, depth: nat) returns (q: nat, k: nat, colon: nat)
    requires i <= |s| && MemberAt(s, i, depth).Ok?
    ensures q == WsEnd(s, i) && q < |s| && s[q] == '"' && i <= q
    ensures StringFrom(s, q + 1, "").Ok? && k == StringFrom(s, q + 1, "").value.next
    ensures colon == WsEnd(s, k) && colon < |s| && s[colon] == ':'
    ensures ItemAt(s, colon + 1, depth).Ok? && ItemAt(s, colon + 1, depth).value.next == MemberAt(s, i, depth).value.next
  {
    hide ValueAt, WsEnd, StringFrom;
    q := WsEnd(s, i);
    k := StringFrom(s, q + 1, "").value.next;
    colon := WsEnd(s, k);
  }

  lemma {:induction false} MemberTree(s: string, i: nat, depth: nat) returns (m: Member)
    requires i <= |s| && MemberAt(s, i, depth).Ok?
    ensures GoodMember(m) && s[i..] == MemberThen(m, s[MemberAt(s, i, depth).value.next..])
    decreases |s| - i, 7
  {
    hide MemberAt, ItemAt, WsEnd, Gap, GoodItem, GoodString, StringThen, ItemThen, StringFrom;
    var q, k, colon := MemberSplits(s, i, depth);
    GapOf(s, i);
    Suffix(s, q, '"');
    var key := StringTree(s, q + 1, "");
    GapOf(s, k);
    Suffix(s, colon, ':');
    var it := ItemTree(s, colon + 1, depth);
    m := Member(s[i..q], key, s[k..colon], it);
  }

  lemma {:induction false} MembersTree(s: string, i: nat, depth: nat, obj: seq<Field>) returns (members: seq<Member>)
    requires i <= |s| && FieldsAt(s, i, depth, obj).Ok?
    ensures members != [] && GoodMembers(members)
    ensures s[i..] == MembersThen(members, ['}'] + s[FieldsAt(s, i, depth, obj).value.next..])
    decreases |s| - i, 8
  {
    hide MemberAt, MemberThen, GoodMember, Emplace;
    var r := MemberAt(s, i, depth).value;
    var m := MemberTree(s, i, depth);
    FieldsStep(s, i, depth, obj, r.value, r.next);
    if s[r.next] == ',' {
      var more := MembersTree(s, r.next + 1, depth, Emplace(obj, r.value.key, r.value.value));
      Suffix(s, r.next, ',');
      members := [m] + more;
      assert members[0] == m && members[1..] == more;
      assert FieldsAt(s, i, depth, obj) == FieldsAt(s, r.next + 1, depth, Emplace(obj, r.value.key, r.value.value));
    } else {
      Suffix(s, r.next, '}');
      members := [m];
      assert members[0] == m && members[1..] == [] && GoodMembers([]);
    }
  }

  // The text of a tree with a gap before it and behind it.
  ghost predicate Writes(before: string, t: Tree, after: string, s: string) {
    Gap(before) && Good(t) && Gap(after) && s == before + Then(t, after)
  }

  lemma AcceptedIsWritten(s: string) returns (before: string, t: Tree, after: string)
    requires Parse(s).Ok?
    ensures Writes(before, t, after, s)
  {
    hide ValueFrom, WsEnd, Gap, Good, Then;
    var i := WsEnd(s, 0);
    WsEndStays(s, 0);
    GapOf(s, 0);
    t := ValueTree(s, i, 0);
    var n := ValueFrom(s, i, 0).value.next;
    GapOf(s, n);
    before, after := s[0..i], s[n..];
    assert s[0..] == s && s[n..WsEnd(s, n)] == after;
    assert Gap(before) && Gap(after);
  }

  // The reader accepts a text, with a value, if and only if it is the text of a
  // tree of at most 128 levels that means that value.
  lemma AcceptsExactly(s: string, v: Value)
    ensures Parse(s) == Ok(v) <==>
      exists before, t, after :: Writes(before, t, after, s) && Levels(t) <= MAX_NESTING_DEPTH && Meaning(t) == v
  {
    hide Parse, Levels, Meaning, Gap, Good, Then;
    if Parse(s) == Ok(v) {
      var before, t, after := AcceptedIsWritten(s);
      WrittenIsRead(before, t, after);
      assert Writes(before, t, after, s) && Levels(t) <= MAX_NESTING_DEPTH && Meaning(t) == v;
    }
    if exists before, t, after :: Writes(before, t, after, s) && Levels(t) <= MAX_NESTING_DEPTH && Meaning(t) == v {
      var before, t, after :| Writes(before, t, after, s) && Levels(t) <= MAX_NESTING_DEPTH && Meaning(t) == v;
      WrittenIsRead(before, t, after);
    }
  }

  // ---- The fields of an object ----

  // f is in the list, and nothing before it has its key.
  ghost predicate FirstAt(fs: seq<Field>, f: Field, i: nat) {
    i < |fs| && fs[i] == f && forall j :: 0 <= j < i ==> fs[j].key != f.key
  }

  ghost predicate FirstOfKey(fs: seq<Field>, f: Field) { exists i: nat :: FirstAt(fs, f, i) }

  lemma {:induction false} EmplacedFields(before: seq<Field>, fs: seq<Field>)
    requires Sorted(before)
    ensures Sorted(EmplaceAll(before, fs))
    ensures forall f :: f in EmplaceAll(before, fs) <==> f in before || (FirstOfKey(fs, f) && !HasKey(before, f.key))
    decreases |fs|
  {
    if fs == [] {
      assert forall f :: !FirstOfKey(fs, f);
    } else {
      var mid := Emplace(before, fs[0].key, fs[0].value);
      EmplaceIsInsertion(before, fs[0].key, fs[0].value);
      assert fs[0] == Field(fs[0].key, fs[0].value);
      hide FirstOfKey, HasKey, Sorted, Emplace;
      EmplacedFields(mid, fs[1..]);
      forall f ensures f in EmplaceAll(before, fs) <==> f in before || (FirstOfKey(fs, f) && !HasKey(before, f.key)) {
        OneMoreField(before, mid, fs, f);
      }
    }
  }

  lemma KeyedIn(fields: seq<Field>, key: string)
    ensures HasKey(fields, key) <==> exists f :: f in fields && f.key == key
  {
    if HasKey(fields, key) {
      var i :| 0 <= i < |fields| && fields[i].key == key;
      assert fields[i] in fields;
    }
    if f :| f in fields && f.key == key {
      var i :| 0 <= i < |fields| && fields[i] == f;
    }
  }

  lemma FirstShifts(fs: seq<Field>, f: Field)
    requires fs != []
    ensures FirstOfKey(fs, f) <==> f == fs[0] || (f.key != fs[0].key && FirstOfKey(fs[1..], f))
  {
    var rest := fs[1..];
    if i: nat :| FirstAt(fs, f, i) {
      if i > 0 {
        assert forall j :: 0 <= j < i - 1 ==> rest[j] == fs[j + 1];
        assert FirstAt(rest, f, i - 1);
      }
    }
    if f == fs[0] { assert FirstAt(fs, f, 0); }
    if i: nat :| f.key != fs[0].key && FirstAt(rest, f, i) {
      assert forall j :: 1 <= j < i + 1 ==> fs[j] == rest[j - 1];
      assert FirstAt(fs, f, i + 1);
    }
  }

  lemma OneMoreField(before: seq<Field>, mid: seq<Field>, fs: seq<Field>, f: Field)
    requires fs != []
    requires forall g :: g in mid <==> g in before || (g == fs[0] && !HasKey(before, g.key))
    ensures f in mid || (FirstOfKey(fs[1..], f) && !HasKey(mid, f.key)) <==>
      f in before || (FirstOfKey(fs, f) && !HasKey(before, f.key))
  {
    hide HasKey, FirstOfKey;
    FirstShifts(fs, f);
    KeyedIn(before, f.key);
    KeyedIn(mid, f.key);
    KeyedIn(before, fs[0].key);
  }

  // The object a table means has its keys in ascending order, and of every key
  // the value written first.
  lemma TableMeans(gap: string, members: seq<Member>)
    requires Gap(gap) && GoodMembers(members)
    ensures Good(Table(gap, members)) && Meaning(Table(gap, members)).Object?
    ensures var fields := Meaning(Table(gap, members)).fields;
      Sorted(fields) && forall f :: f in fields <==> FirstOfKey(MemberMeanings(members), f)
  {
    hide MemberMeanings, FirstOfKey, Sorted, EmplaceAll;
    EmptyIsSorted();
    EmplacedFields([], MemberMeanings(members));
  }

  lemma EmptyIsSorted()
    ensures Sorted([]) && forall key :: !HasKey([], key)
  {
  }
}
