// Every written text is read as what it means (src/json_lite.cpp:55-250): any
// white space around any token, any spelling of any character, up to the depth
// the reader allows.
module JsonReads {
  import opened Text
  import opened JsonValue
  import opened JsonGrammar
  import opened JsonLocal
  import opened JsonNumeral
  import opened JsonRoundTrip
  import opened JsonSyntax
  import JsonUnicode

  // ---- Gaps ----

  lemma {:induction false} GapEnds(s: string, i: nat, g: string, rest: string)
    requires From(s, i, g + rest) && Gap(g) && (rest == [] || !IsWs(rest[0]))
    ensures i + |g| <= |s| && WsEnd(s, i) == i + |g| && From(s, i + |g|, rest)
    decreases |g|
  {
    if g == [] {
      assert g + rest == rest;
      if rest != [] { assert s[i] == s[i..][0]; }
    } else {
      assert g + rest == [g[0]] + (g[1..] + rest);
      FromHead(s, i, g[0], g[1..] + rest);
      GapEnds(s, i + 1, g[1..], rest);
    }
  }

  lemma GapThenEnded(g: string, rest: string)
    requires Gap(g) && Ended(rest)
    ensures Ended(g + rest)
  {
    if g != [] {
      assert (g + rest)[0] == g[0];
    } else {
      assert g + rest == rest;
    }
  }

  lemma {:induction false} WsEndStays(s: string, i: nat)
    requires i <= |s|
    ensures WsEnd(s, WsEnd(s, i)) == WsEnd(s, i)
  {
    var j := WsEnd(s, i);
    assert j < |s| ==> !IsWs(s[j]);
  }

  // ---- Strings ----

  lemma HexReads(h: HexChar)
    requires GoodHex(h)
    ensures HexValue(HexText(h)) == Some(h.value)
  {
  }

  lemma UnitHeads(s: string, i: nat, x: Spelled, more: string)
    requires GoodSpelled(x) && x.Unit? && From(s, i, SpelledText(x) + more)
    ensures i + 6 <= |s| && s[i] == '\\' && s[i + 1] == 'u' && Hex4(s, i + 2) == Some(Number16(x)) && From(s, i + 6, more)
  {
    hide HexText, HexValue;
    var t := SpelledText(x);
    FromSplit(s, i, t, more);
    assert forall k :: 0 <= k < 6 ==> s[i..i + 6][k] == t[k];
    assert s[i + 0] == t[0] && s[i + 1] == t[1] && s[i + 2] == t[2] && s[i + 3] == t[3] && s[i + 4] == t[4] && s[i + 5] == t[5];
    HexReads(x.a);
    HexReads(x.b);
    HexReads(x.c3);
    HexReads(x.d);
  }

  // What follows is no unit.
  lemma NoUnitFollows(s: string, p: nat, t: seq<Spelled>, rest: string)
    requires GoodString(t) && From(s, p, StringThen(t, rest)) && (t == [] || !t[0].Unit?)
    ensures p < |s| && !(|s| - p >= 6 && s[p] == '\\' && s[p + 1] == 'u')
  {
    if t == [] {
      FromHead(s, p, '"', rest);
    } else {
      var more := StringThen(t[1..], rest);
      FromSplit(s, p, SpelledText(t[0]), more);
      assert s[p] == s[p..p + |SpelledText(t[0])|][0];
      if t[0].Short? { assert s[p + 1] == s[p..p + 2][1]; }
    }
  }

  // A unit with no half of a pair behind it.
  lemma LoneUnit(s: string, i: nat, t: seq<Spelled>, rest: string)
    requires t != [] && GoodString(t) && t[0].Unit? && From(s, i, StringThen(t, rest))
    requires !(IsHigh(t[0]) && t[1..] != [] && GoodSpelled(t[1..][0]) && IsLow(t[1..][0]))
    ensures i + 6 <= |s| && s[i] == '\\' && s[i + 1] == 'u'
    ensures UnicodeEscape(s, i + 2) == Ok(Read(Number16(t[0]), i + 6)) && From(s, i + 6, StringThen(t[1..], rest))
  {
    hide Hex4, SpelledText, Number16;
    var u := t[1..];
    assert GoodString(u);
    UnitHeads(s, i, t[0], StringThen(u, rest));
    if u != [] && u[0].Unit? {
      UnitHeads(s, i + 6, u[0], StringThen(u[1..], rest));
    } else {
      NoUnitFollows(s, i + 6, u, rest);
    }
  }

  lemma PairOfUnits(s: string, i: nat, t: seq<Spelled>, rest: string)
    requires |t| > 1 && GoodString(t) && GoodString(t[1..]) && From(s, i, StringThen(t, rest))
    requires IsHigh(t[0]) && IsLow(t[1..][0])
    ensures i + 12 <= |s| && s[i] == '\\' && s[i + 1] == 'u'
    ensures UnicodeEscape(s, i + 2) == Ok(Read(Paired(Number16(t[0]), Number16(t[1..][0])), i + 12))
    ensures From(s, i + 12, StringThen(t[1..][1..], rest))
  {
    hide Hex4, SpelledText, Number16;
    UnitHeads(s, i, t[0], StringThen(t[1..], rest));
    UnitHeads(s, i + 6, t[1..][0], StringThen(t[1..][1..], rest));
  }

  predicate StringReadTo(r: Result<Read<string>>, s: string, t: string, rest: string) {
    |rest| <= |s| && From(s, |s| - |rest|, rest) && r == Ok(Read(t, |s| - |rest|))
  }

  lemma {:induction false} StringReads(s: string, i: nat, out: string, t: seq<Spelled>, rest: string)
    requires GoodString(t) && From(s, i, StringThen(t, rest))
    ensures StringReadTo(StringFrom(s, i, out), s, out + StringMeaning(t), rest)
    decreases |t|
  {
    hide UnicodeEscape, Utf8, Number16, Paired;
    if t == [] {
      FromHead(s, i, '"', rest);
      assert out + [] == out;
    } else {
      assert GoodString(t[1..]);
      match t[0]
      case Plain(c) =>
        FromHead(s, i, c, StringThen(t[1..], rest));
        StringReads(s, i + 1, out + [c], t[1..], rest);
        Assoc(out, [c], StringMeaning(t[1..]));
      case Short(letter) =>
        ShortHeads(s, i, letter, StringThen(t[1..], rest));
        StringReads(s, i + 2, out + [Stands(letter).value], t[1..], rest);
        Assoc(out, [Stands(letter).value], StringMeaning(t[1..]));
      case Unit(_, _, _, _) =>
        if IsHigh(t[0]) && |t| > 1 && IsLow(t[1..][0]) {
          var cp := Paired(Number16(t[0]), Number16(t[1..][0]));
          PairOfUnits(s, i, t, rest);
          JsonUnicode.UnicodeStep(s, i, out, cp, i + 12);
          StringReads(s, i + 12, out + Utf8(cp), t[1..][1..], rest);
          Assoc(out, Utf8(cp), StringMeaning(t[1..][1..]));
        } else {
          var cp := Number16(t[0]);
          LoneUnit(s, i, t, rest);
          JsonUnicode.UnicodeStep(s, i, out, cp, i + 6);
          StringReads(s, i + 6, out + Utf8(cp), t[1..], rest);
          Assoc(out, Utf8(cp), StringMeaning(t[1..]));
        }
    }
  }

  lemma ShortHeads(s: string, i: nat, letter: char, more: string)
    requires Stands(letter).Some? && From(s, i, ['\\', letter] + more)
    ensures i + 2 <= |s| && s[i] == '\\' && s[i + 1] == letter && letter != 'u' && From(s, i + 2, more)
    ensures SimpleEscape(letter) == Stands(letter)
  {
    FromSplit(s, i, ['\\', letter], more);
    assert s[i..i + 2][0] == s[i] && s[i..i + 2][1] == s[i + 1];
  }

  lemma QuotedReads(s: string, i: nat, t: seq<Spelled>, rest: string)
    requires GoodString(t) && From(s, i, ['"'] + StringThen(t, rest))
    ensures i < |s| && s[i] == '"' && StringReadTo(StringAt(s, i), s, StringMeaning(t), rest)
  {
    hide StringFrom, StringThen, StringMeaning;
    FromHead(s, i, '"', StringThen(t, rest));
    StringReads(s, i + 1, "", t, rest);
    assert "" + StringMeaning(t) == StringMeaning(t);
  }

  // ---- Values ----

  predicate ReadTo(r: Result<Read<Value>>, s: string, v: Value, rest: string, fits: bool) {
    if fits then |rest| <= |s| && From(s, |s| - |rest|, rest) && r == Ok(Read(v, |s| - |rest|)) else r == Err(TooDeep)
  }

  predicate FieldReadTo(r: Result<Read<Field>>, s: string, f: Field, rest: string, fits: bool) {
    if fits then |rest| <= |s| && From(s, |s| - |rest|, rest) && r == Ok(Read(f, |s| - |rest|)) else r == Err(TooDeep)
  }

  // The first character of a tree is no white space and closes nothing.
  predicate Opens(t: string) { t != [] && !IsWs(t[0]) && t[0] != ']' && t[0] != '}' }

  lemma ThenOpens(t: Tree, rest: string)
    requires Good(t)
    ensures Opens(Then(t, rest))
  {
    match t
    case Literal(v) => assert LiteralText(v) != [] && (LiteralText(v) + rest)[0] == LiteralText(v)[0];
    case Numeric(n) => NumeralOpens(n, rest);
    case _ =>
  }

  lemma NumeralOpens(n: Numeral, rest: string)
    requires GoodNumeral(n)
    ensures Opens(NumeralThen(n, rest))
  {
    var t := NumeralThen(n, rest);
    if n.negative {
      assert t[0] == '-';
    } else {
      assert t[0] == n.whole[0];
    }
  }

  lemma LiteralReads(s: string, i: nat, depth: nat, v: Value, rest: string)
    requires (v.Null? || v.Bool?) && From(s, i, LiteralText(v) + rest)
    ensures ReadTo(ValueFrom(s, i, depth), s, v, rest, true)
  {
    var lit := LiteralText(v);
    FromSplit(s, i, lit, rest);
    AtIsSlice(s, i, lit);
    assert LiteralText(v) == Dump(v);
    LiteralReadsBack(s, i, depth, v);
  }

  lemma NumeralReadTo(s: string, i: nat, depth: nat, n: Numeral, rest: string)
    requires GoodNumeral(n) && From(s, i, NumeralThen(n, rest)) && Ended(rest)
    ensures ReadTo(ValueFrom(s, i, depth), s, NumeralValue(n), rest, true)
  {
    hide Stod, NumberEnd, NumeralThen, NumeralValue, GoodNumeral;
    NumeralEnds(s, i, n, rest);
    NumeralSplits(n, rest);
    FromSplit(s, i, NumeralText(n), rest);
    NumeralReads(n);
    NumberDispatch(s, i, depth);
  }

  lemma NumeralSplits(n: Numeral, rest: string)
    ensures NumeralThen(n, rest) == NumeralText(n) + rest
  {
    var sign, tail := SignText(n.negative), ExponentThen(n.exponent, []);
    assert ExponentThen(n.exponent, rest) == tail + rest by {
      if n.exponent.Some? {
        var e := n.exponent.value;
        assert [e.mark] + (e.sign + (e.digits + [])) + rest == [e.mark] + (e.sign + (e.digits + rest));
      }
    }
    assert FractionThen(n.fraction, tail + rest) == FractionThen(n.fraction, tail) + rest by {
      if n.fraction.Some? {
        assert ['.'] + (n.fraction.value + tail) + rest == ['.'] + (n.fraction.value + (tail + rest));
      }
    }
    var more := FractionThen(n.fraction, tail);
    assert sign + (n.whole + more) + rest == sign + (n.whole + (more + rest));
  }

  lemma {:induction false} ValueReads(s: string, i: nat, depth: nat, t: Tree, rest: string)
    requires Good(t) && From(s, i, Then(t, rest)) && Ended(rest) && depth <= MAX_NESTING_DEPTH
    ensures ReadTo(ValueFrom(s, i, depth), s, Meaning(t), rest, depth + Levels(t) <= MAX_NESTING_DEPTH)
    decreases t, 2
  {
    match t
    case Literal(v) => LiteralReads(s, i, depth, v, rest);
    case Numeric(n) => NumeralReadTo(s, i, depth, n, rest);
    case Text(u) =>
      QuotedReads(s, i, u, rest);
      StringDispatch(s, i, depth, StringMeaning(u), |s| - |rest|);
    case List(gap, items) => ListReads(s, i, depth, t, rest);
    case Table(gap, members) => TableReads(s, i, depth, t, rest);
  }

  lemma ArrayDispatch(s: string, i: nat, depth: nat)
    requires i < |s|
    ensures var j := WsEnd(s, i + 1);
      ArrayAt(s, i, depth) == if j < |s| && s[j] == ']' then Ok(Read(Array([]), j + 1)) else ItemsAt(s, j, depth, [])
  {
    hide WsEnd, ItemsAt;
  }

  lemma ObjectDispatch(s: string, i: nat, depth: nat)
    requires i < |s|
    ensures var j := WsEnd(s, i + 1);
      ObjectAt(s, i, depth) == if j < |s| && s[j] == '}' then Ok(Read(Object([]), j + 1)) else FieldsAt(s, j, depth, [])
  {
    hide WsEnd, FieldsAt;
  }

  lemma NothingInside()
    ensures ItemMeanings([]) == [] && ItemLevels([]) == 0
    ensures EmplaceAll([], MemberMeanings([])) == [] && MemberLevels([]) == 0
  {
  }

  lemma {:induction false} ListReads(s: string, i: nat, depth: nat, t: Tree, rest: string)
    requires t.List? && Good(t) && From(s, i, Then(t, rest)) && depth <= MAX_NESTING_DEPTH
    ensures ReadTo(ValueFrom(s, i, depth), s, Meaning(t), rest, depth + Levels(t) <= MAX_NESTING_DEPTH)
    decreases t, 1
  {
    hide ValueFrom, ArrayAt, ItemsThen, ItemMeanings, ItemLevels, From;
    var body := if t.items == [] then t.gap + ([']'] + rest) else ItemsThen(t.items, [']'] + rest);
    FromHead(s, i, '[', body);
    ContainerDispatch(s, i, depth);
    if depth < MAX_NESTING_DEPTH { ListBodyReads(s, i, depth + 1, t.gap, t.items, rest, body); }
  }

  lemma {:induction false} ListBodyReads(
      s: string, i: nat, depth: nat, gap: string, items: seq<Item>, rest: string, body: string)
    requires i < |s| && Gap(gap) && GoodItems(items) && From(s, i + 1, body) && depth <= MAX_NESTING_DEPTH
    requires body == if items == [] then gap + ([']'] + rest) else ItemsThen(items, [']'] + rest)
    ensures ReadTo(ArrayAt(s, i, depth), s, Array(ItemMeanings(items)), rest, depth + ItemLevels(items) <= MAX_NESTING_DEPTH)
    decreases items, 5
  {
    hide ArrayAt, ItemsAt, WsEnd, ItemsThen, ItemMeanings, ItemLevels, GoodItems, Gap, From;
    ArrayDispatch(s, i, depth);
    if items == [] {
      NothingInside();
      GapEnds(s, i + 1, gap, [']'] + rest);
      FromHead(s, i + 1 + |gap|, ']', rest);
    } else {
      ItemsOpen(s, i + 1, items, [']'] + rest);
      ItemsReads(s, i + 1, depth, [], items, rest);
      ItemsSkip(s, i + 1, depth, []);
      assert [] + ItemMeanings(items) == ItemMeanings(items);
    }
  }

  // Where the elements start, behind their first gap.
  lemma ItemsOpen(s: string, i: nat, items: seq<Item>, rest: string)
    requires items != [] && GoodItems(items) && From(s, i, ItemsThen(items, rest))
    ensures i <= |s| && var j := WsEnd(s, i); j < |s| && s[j] != ']' && s[j] != '}'
  {
    hide WsEnd, Gap;
    assert GoodItem(items[0]);
    var more := items[0].after + if items[1..] == [] then rest else [','] + ItemsThen(items[1..], rest);
    ThenOpens(items[0].tree, more);
    GapEnds(s, i, items[0].before, Then(items[0].tree, more));
    assert s[i + |items[0].before|] == s[i + |items[0].before|..][0];
  }

  lemma ItemsSkip(s: string, i: nat, depth: nat, arr: seq<Value>)
    requires i <= |s|
    ensures ItemsAt(s, WsEnd(s, i), depth, arr) == ItemsAt(s, i, depth, arr)
  {
    hide ValueFrom, WsEnd;
    WsEndStays(s, i);
    assert ValueAt(s, i, depth) == ValueAt(s, WsEnd(s, i), depth);
  }

  predicate Divides(rest: string, close: char) { rest != [] && (rest[0] == ',' || rest[0] == close) }

  lemma {:induction false} ItemReads(s: string, i: nat, depth: nat, it: Item, rest: string)
    requires GoodItem(it) && From(s, i, ItemThen(it, rest)) && (Divides(rest, ']') || Divides(rest, '}'))
    requires depth <= MAX_NESTING_DEPTH
    ensures ReadTo(ItemAt(s, i, depth), s, Meaning(it.tree), rest, depth + Levels(it.tree) <= MAX_NESTING_DEPTH)
    decreases it, 3
  {
    hide WsEnd, ValueFrom, Then, Meaning, Levels, Gap, Good, Ended, From;
    var more := it.after + rest;
    ThenOpens(it.tree, more);
    GapEnds(s, i, it.before, Then(it.tree, more));
    DividerEnds(it.after, rest);
    ValueReads(s, i + |it.before|, depth, it.tree, more);
    if depth + Levels(it.tree) <= MAX_NESTING_DEPTH {
      GapEnds(s, |s| - |more|, it.after, rest);
    }
  }

  lemma DividerEnds(g: string, rest: string)
    requires Gap(g) && (Divides(rest, ']') || Divides(rest, '}'))
    ensures Ended(g + rest) && !IsWs(rest[0])
  {
    GapThenEnded(g, rest);
  }

  lemma {:induction false} ItemsReads(s: string, i: nat, depth: nat, arr: seq<Value>, items: seq<Item>, rest: string)
    requires items != [] && GoodItems(items) && From(s, i, ItemsThen(items, [']'] + rest)) && depth <= MAX_NESTING_DEPTH
    ensures ReadTo(ItemsAt(s, i, depth, arr), s, Array(arr + ItemMeanings(items)), rest,
                   depth + ItemLevels(items) <= MAX_NESTING_DEPTH)
    decreases items, 4
  {
    hide ItemAt, ItemThen, Meaning, Levels;
    var close := [']'] + rest;
    var more := if items[1..] == [] then close else [','] + ItemsThen(items[1..], close);
    assert GoodItem(items[0]);
    ItemReads(s, i, depth, items[0], more);
    if depth + Levels(items[0].tree) <= MAX_NESTING_DEPTH {
      var v, j := Meaning(items[0].tree), |s| - |more|;
      ItemsStep(s, i, depth, arr, v, j);
      if items[1..] == [] {
        FromHead(s, j, ']', rest);
        assert ItemMeanings(items) == [v] + [] == [v];
      } else {
        FromHead(s, j, ',', ItemsThen(items[1..], close));
        ItemsReads(s, j + 1, depth, arr + [v], items[1..], rest);
        Assoc(arr, [v], ItemMeanings(items[1..]));
      }
    }
  }

  lemma {:induction false} TableReads(s: string, i: nat, depth: nat, t: Tree, rest: string)
    requires t.Table? && Good(t) && From(s, i, Then(t, rest)) && depth <= MAX_NESTING_DEPTH
    ensures ReadTo(ValueFrom(s, i, depth), s, Meaning(t), rest, depth + Levels(t) <= MAX_NESTING_DEPTH)
    decreases t, 1
  {
    hide ValueFrom, ObjectAt, MembersThen, MemberMeanings, MemberLevels, EmplaceAll, From;
    var body := if t.members == [] then t.gap + (['}'] + rest) else MembersThen(t.members, ['}'] + rest);
    FromHead(s, i, '{', body);
    ContainerDispatch(s, i, depth);
    if depth < MAX_NESTING_DEPTH { TableBodyReads(s, i, depth + 1, t.gap, t.members, rest, body); }
  }

  lemma {:induction false} TableBodyReads(
      s: string, i: nat, depth: nat, gap: string, members: seq<Member>, rest: string, body: string)
    requires i < |s| && Gap(gap) && GoodMembers(members) && From(s, i + 1, body) && depth <= MAX_NESTING_DEPTH
    requires body == if members == [] then gap + (['}'] + rest) else MembersThen(members, ['}'] + rest)
    ensures ReadTo(ObjectAt(s, i, depth), s, Object(EmplaceAll([], MemberMeanings(members))), rest,
                   depth + MemberLevels(members) <= MAX_NESTING_DEPTH)
    decreases members, 7
  {
    hide ObjectAt, FieldsAt, WsEnd, MembersThen, MemberMeanings, MemberLevels, EmplaceAll, GoodMembers, Gap, From;
    ObjectDispatch(s, i, depth);
    if members == [] {
      NothingInside();
      GapEnds(s, i + 1, gap, ['}'] + rest);
      FromHead(s, i + 1 + |gap|, '}', rest);
    } else {
      MembersOpen(s, i + 1, members, ['}'] + rest);
      MembersReads(s, i + 1, depth, [], members, rest);
      MembersSkip(s, i + 1, depth, []);
    }
  }

  lemma MembersOpen(s: string, i: nat, members: seq<Member>, rest: string)
    requires members != [] && GoodMembers(members) && From(s, i, MembersThen(members, rest))
    ensures i <= |s| && var j := WsEnd(s, i); j < |s| && s[j] == '"'
  {
    hide WsEnd, Gap, StringThen;
    assert GoodMember(members[0]);
    var m := members[0];
    var more := if members[1..] == [] then rest else [','] + MembersThen(members[1..], rest);
    var tail := StringThen(m.key, m.after + ([':'] + ItemThen(m.item, more)));
    GapEnds(s, i, m.before, ['"'] + tail);
    FromHead(s, i + |m.before|, '"', tail);
  }

  lemma MembersSkip(s: string, i: nat, depth: nat, obj: seq<Field>)
    requires i <= |s|
    ensures FieldsAt(s, WsEnd(s, i), depth, obj) == FieldsAt(s, i, depth, obj)
  {
    hide StringAt, ValueAt, WsEnd;
    WsEndStays(s, i);
    assert MemberAt(s, i, depth) == MemberAt(s, WsEnd(s, i), depth);
  }

  lemma {:induction false} MemberReads(s: string, i: nat, depth: nat, m: Member, rest: string)
    requires GoodMember(m) && From(s, i, MemberThen(m, rest)) && Divides(rest, '}') && depth <= MAX_NESTING_DEPTH
    ensures FieldReadTo(MemberAt(s, i, depth), s, MemberMeaning(m), rest, depth + Levels(m.item.tree) <= MAX_NESTING_DEPTH)
    decreases m, 5
  {
    hide WsEnd, ValueAt, StringAt, StringThen, StringMeaning, ItemThen, Meaning, Levels, Gap, Good, GoodString, GoodItem, From;
    assert GoodItem(m.item);
    var value := ItemThen(m.item, rest);
    var afterKey := m.after + ([':'] + value);
    GapEnds(s, i, m.before, ['"'] + StringThen(m.key, afterKey));
    QuotedReads(s, i + |m.before|, m.key, afterKey);
    GapEnds(s, |s| - |afterKey|, m.after, [':'] + value);
    var colon := |s| - |afterKey| + |m.after|;
    FromHead(s, colon, ':', value);
    ItemReads(s, colon + 1, depth, m.item, rest);
  }

  lemma {:induction false} MembersReads(s: string, i: nat, depth: nat, obj: seq<Field>, members: seq<Member>, rest: string)
    requires members != [] && GoodMembers(members) && From(s, i, MembersThen(members, ['}'] + rest))
    requires depth <= MAX_NESTING_DEPTH
    ensures ReadTo(FieldsAt(s, i, depth, obj), s, Object(EmplaceAll(obj, MemberMeanings(members))), rest,
                   depth + MemberLevels(members) <= MAX_NESTING_DEPTH)
    decreases members, 6
  {
    hide MemberAt, MemberThen, MemberMeaning, Levels, Emplace;
    var close := ['}'] + rest;
    var more := if members[1..] == [] then close else [','] + MembersThen(members[1..], close);
    assert GoodMember(members[0]);
    MemberReads(s, i, depth, members[0], more);
    if depth + Levels(members[0].item.tree) <= MAX_NESTING_DEPTH {
      var f, j := MemberMeaning(members[0]), |s| - |more|;
      var obj' := Emplace(obj, f.key, f.value);
      FieldsStep(s, i, depth, obj, f, j);
      FirstEmplaced(obj, f, MemberMeanings(members[1..]));
      if members[1..] == [] {
        FromHead(s, j, '}', rest);
      } else {
        FromHead(s, j, ',', MembersThen(members[1..], close));
        MembersReads(s, j + 1, depth, obj', members[1..], rest);
      }
    }
  }

  lemma FirstEmplaced(obj: seq<Field>, f: Field, rest: seq<Field>)
    ensures EmplaceAll(obj, [f] + rest) == EmplaceAll(Emplace(obj, f.key, f.value), rest)
  {
    hide Emplace;
    assert ([f] + rest)[1..] == rest;
  }

  // A written value with white space around it, as a whole text: read as its
  // meaning when it nests at most 128 containers, else refused.
  lemma WrittenIsRead(before: string, t: Tree, after: string)
    requires Gap(before) && Good(t) && Gap(after)
    ensures Parse(before + Then(t, after)) == if Levels(t) <= MAX_NESTING_DEPTH then Ok(Meaning(t)) else Err(TooDeep)
  {
    hide ValueFrom, Then, Meaning, Levels, Gap, Good;
    var s := before + Then(t, after);
    assert s[0..] == s;
    ThenOpens(t, after);
    GapEnds(s, 0, before, Then(t, after));
    GapThenEnded(after, []);
    assert after + [] == after;
    ValueReads(s, |before|, 0, t, after);
    WsEndStays(s, 0);
    if Levels(t) <= MAX_NESTING_DEPTH { GapEnds(s, |s| - |after|, after, []); }
  }
}
