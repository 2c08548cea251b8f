// Printing and parsing undo each other (src/json_lite.cpp): the printed text of
// every value parses back to the value when it nests at most 128 containers,
// and is refused otherwise.
module JsonRoundTrip {
  import opened Text
  import opened JsonValue
  import opened JsonGrammar
  import opened JsonLocal

  // ---- Strings ----

  lemma EscapedCharReadsBack(s: string, i: nat, c: char, out: string)
    requires At(s, i, EscapeChar(c))
    ensures StringFrom(s, i, out) == StringFrom(s, i + |EscapeChar(c)|, out + [c])
  {
    var e := EscapeChar(c);
    AtPointwise(s, i, e);
    if |e| == 6 {
      var hi, lo := c as nat / 16, c as nat % 16;
      assert e[1] == 'u' && e[2] == '0' && e[3] == '0' && e[4] == HexDigit(hi) && e[5] == HexDigit(lo);
      assert HexValue(s[i + 4]) == Some(hi) && HexValue(s[i + 5]) == Some(lo);
      assert UnicodeEscape(s, i + 2) == Ok(Read(c as nat, i + 6));
      assert Utf8(c as nat) == [c];
    } else if |e| == 2 {
      assert SimpleEscape(e[1]) == Some(c);
    }
  }

  lemma EscapedShape(s: string, i: nat, t: string)
    requires t != [] && At(s, i, EscapeBody(t) + "\"")
    ensures At(s, i, EscapeChar(t[0]))
    ensures At(s, i + |EscapeChar(t[0])|, EscapeBody(t[1..]) + "\"")
    ensures |EscapeBody(t)| == |EscapeChar(t[0])| + |EscapeBody(t[1..])|
  {
    var e, rest := EscapeChar(t[0]), EscapeBody(t[1..]) + "\"";
    assert EscapeBody(t) + "\"" == e + rest;
    AtConcat(s, i, e, rest);
  }

  lemma {:induction false} EscapedReadsBack(s: string, i: nat, t: string, out: string)
    requires At(s, i, EscapeBody(t) + "\"")
    ensures StringFrom(s, i, out) == Ok(Read(out + t, i + |EscapeBody(t)| + 1))
    decreases |t|
  {
    if t == [] {
      assert EscapeBody(t) + "\"" == "\"";
      assert out + t == out;
    } else {
      EscapedShape(s, i, t);
      EscapedCharReadsBack(s, i, t[0], out);
      SplitHead(out, t);
      EscapedReadsBack(s, i + |EscapeChar(t[0])|, t[1..], out + [t[0]]);
    }
  }

  // A printed string literal is read back whatever bytes it holds.
  lemma QuotedReadsBack(s: string, i: nat, t: string)
    requires At(s, i, Quoted(t))
    ensures StringAt(s, i) == Ok(Read(t, i + |Quoted(t)|))
  {
    Assoc("\"", EscapeBody(t), "\"");
    AtConcat(s, i, "\"", EscapeBody(t) + "\"");
    EscapedReadsBack(s, i + 1, t, "");
    assert "" + t == t;
  }

  // ---- Numbers ----

  lemma {:induction false} AllDigitsAppend(t: string, c: char)
    requires AllDigits(t) && IsDigit(c)
    ensures AllDigits(t + [c])
  {
    if t != [] {
      assert (t + [c])[1..] == t[1..] + [c];
      AllDigitsAppend(t[1..], c);
    }
  }

  lemma {:induction false} DigitsReadBack(n: nat)
    ensures Digits(n) != [] && AllDigits(Digits(n)) && NatOf(Digits(n)) == n
  {
    if n >= 10 {
      DigitsReadBack(n / 10);
      AllDigitsAppend(Digits(n / 10), Digit(n % 10));
      assert Digits(n)[..|Digits(n)| - 1] == Digits(n / 10);
    } else {
      assert Digits(n)[..0] == [];
    }
  }

  lemma {:induction false} DigitRunEnds(s: string, i: nat, t: string)
    requires At(s, i, t) && AllDigits(t)
    requires i + |t| < |s| ==> !IsDigit(s[i + |t|])
    ensures DigitsEnd(s, i) == i + |t|
    decreases |t|
  {
    if t != [] {
      DigitRunEnds(s, i + 1, t[1..]);
    }
  }

  lemma {:induction false} DigitsAreRun(t: string)
    requires AllDigits(t)
    ensures DigitsEnd(t, 0) == |t|
  {
    AtIsSlice(t, 0, t);
    DigitRunEnds(t, 0, t);
  }

  // Digits alone are that number.
  lemma DigitsAreDecimal(digits: string)
    requires AllDigits(digits)
    ensures DecimalOf(digits) == Decimal(NatOf(digits), 0)
  {
    DigitsAreRun(digits);
    assert digits[..|digits|] + "" == digits && |digits[|digits|..]| == 0;
  }

  lemma SignedDigits(sign: string, digits: string)
    requires sign == "" || sign == "-"
    requires digits != [] && AllDigits(digits)
    ensures Body(sign + digits) == digits && Negative(sign + digits) == (sign == "-")
  {
    if sign == "-" {
      assert (sign + digits)[1..] == digits;
    } else {
      assert sign + digits == digits;
    }
  }

  lemma SignedDigitsAreExact(sign: string, digits: string)
    requires sign == "" || sign == "-"
    requires digits != [] && AllDigits(digits) && 0 <= NatOf(digits) <= MAX_EXACT
    ensures Stod(sign + digits) == Ok(Number(Signed(sign == "-", NatOf(digits))))
  {
    SignedDigits(sign, digits);
    DigitsAreDecimal(digits);
    assert Truncated(Decimal(NatOf(digits), 0)) == NatOf(digits);
  }

  lemma SignedDigitsAreText(sign: string, digits: string)
    requires sign == "" || sign == "-"
    requires digits != [] && AllDigits(digits)
    ensures NumberText(sign + digits)
  {
    var t := sign + digits;
    AtIsSlice(t, 0, t);
    AtConcat(t, 0, sign, digits);
    assert t[0] == if sign == "" then digits[0] else '-';
    DigitRunEnds(t, |sign|, digits);
  }

  lemma IntegerText(n: int)
    requires -MAX_EXACT <= n <= MAX_EXACT
    ensures NumberText(Dump(Number(n))) && Stod(Dump(Number(n))) == Ok(Number(n))
  {
    hide Stod, NumberText, AllDigits, NatOf;
    var m: nat := if n < 0 then -n else n;
    var sign, digits := if n < 0 then "-" else "", Digits(m);
    DigitsReadBack(m);
    SignedDigitsAreExact(sign, digits);
    SignedDigitsAreText(sign, digits);
    assert "" + Digits(m) == Digits(m);
  }

  // A number, and the text it is printed as.
  lemma NumberIsText(v: Value)
    requires Printable(v) && (v.Number? || v.Real?)
    ensures NumberText(Dump(v)) && Stod(Dump(v)) == Ok(v)
  {
    if v.Number? { IntegerText(v.n); }
  }

  // The text of a number is read to its end wherever nothing continues it.
  lemma NumberReadsBack(s: string, i: nat, t: string, v: Value)
    requires NumberText(t) && Stod(t) == Ok(v)
    requires At(s, i, t) && Delimited(s, i + |t|)
    ensures i < |s| && (s[i] == '-' || IsDigit(s[i]))
    ensures NumberAt(s, i) == Ok(Read(v, i + |t|))
  {
    hide Stod;
    NumberTextEnds(s, i, t);
    AtIsSlice(s, i, t);
  }

  lemma NumberTextEnds(s: string, i: nat, t: string)
    requires NumberText(t) && At(s, i, t) && Delimited(s, i + |t|)
    ensures s[i] == t[0] && NumberEnd(s, i) == i + |t|
  {
    AtPointwise(s, i, t);
    NumberMoves(t, s, i, 0, |t|, 0);
  }

  // ---- Values ----

  lemma DumpStarts(v: Value)
    requires Printable(v)
    ensures Dump(v) != []
    ensures !IsWs(Dump(v)[0]) && Dump(v)[0] != ']' && Dump(v)[0] != '}'
  {
    if v.Number? || v.Real? {
      NumberIsText(v);
    }
  }

  ghost function Outcome(v: Value, next: nat, fits: bool): Result<Read<Value>> {
    if fits then Ok(Read(v, next)) else Err(TooDeep)
  }

  lemma NumberDispatch(s: string, i: nat, depth: nat)
    requires i < |s| && (s[i] == '-' || IsDigit(s[i]))
    ensures ValueFrom(s, i, depth) == NumberAt(s, i)
  {
    hide NumberAt;
  }

  lemma LiteralReadsBack(s: string, i: nat, depth: nat, v: Value)
    requires v.Null? || v.Bool?
    requires At(s, i, Dump(v))
    ensures ValueFrom(s, i, depth) == Ok(Read(v, i + |Dump(v)|))
  {
    assert s[i] == Dump(v)[0];
    if v.Null? {
      assert LiteralAt(s, i, "null", Null) == Ok(Read(v, i + 4));
    } else if v.b {
      assert LiteralAt(s, i, "true", Bool(true)) == Ok(Read(v, i + 4));
    } else {
      assert LiteralAt(s, i, "false", Bool(false)) == Ok(Read(v, i + 5));
    }
  }

  lemma NumeralReadsBack(s: string, i: nat, depth: nat, v: Value, j: nat)
    requires Printable(v) && (v.Number? || v.Real?)
    requires At(s, i, Dump(v)) && j == i + |Dump(v)| && Delimited(s, j)
    ensures ValueFrom(s, i, depth) == Ok(Read(v, j))
  {
    hide Stod, NumberText, NumberAt, ValueFrom, At;
    NumberIsText(v);
    NumberReadsBack(s, i, Dump(v), v);
    NumberDispatch(s, i, depth);
  }

  lemma ContainerDispatch(s: string, i: nat, depth: nat)
    requires i < |s| && (s[i] == '{' || s[i] == '[')
    ensures ValueFrom(s, i, depth) ==
      if depth >= MAX_NESTING_DEPTH then Err(TooDeep)
      else if s[i] == '{' then ObjectAt(s, i, depth + 1) else ArrayAt(s, i, depth + 1)
  {
  }

  lemma StringDispatch(s: string, i: nat, depth: nat, t: string, j: nat)
    requires i <= |s| && StringAt(s, i) == Ok(Read(t, j))
    ensures ValueFrom(s, i, depth) == Ok(Read(Str(t), j))
  {
    hide StringFrom;
  }

  // The printed form of a value, wherever it stands in a text, is read back
  // to that value, or refused exactly because of its nesting.
  lemma {:induction false} DumpReadsBack(s: string, i: nat, depth: nat, v: Value)
    requires Valid(v) && Printable(v) && depth <= MAX_NESTING_DEPTH
    requires At(s, i, Dump(v)) && Delimited(s, i + |Dump(v)|)
    ensures ValueAt(s, i, depth) ==
      Outcome(v, i + |Dump(v)|, depth + Depth(v) <= MAX_NESTING_DEPTH)
    decreases v, 3
  {
    hide ValueFrom, Dump, Printable, Valid, Depth, Delimited;
    DumpStarts(v);
    assert ValueAt(s, i, depth) == ValueFrom(s, i, depth);
    PrintedReadsBack(s, i, depth, v);
  }

  lemma {:induction false} PrintedReadsBack(s: string, i: nat, depth: nat, v: Value)
    requires Valid(v) && Printable(v) && depth <= MAX_NESTING_DEPTH
    requires At(s, i, Dump(v)) && Delimited(s, i + |Dump(v)|)
    ensures ValueFrom(s, i, depth) ==
      Outcome(v, i + |Dump(v)|, depth + Depth(v) <= MAX_NESTING_DEPTH)
    decreases v, 2
  {
    hide ValueFrom, StringAt, Quoted, At, Delimited, NumberText;
    match v
    case Array(items) => ContainerReadsBack(s, i, depth, v);
    case Object(fields) => ContainerReadsBack(s, i, depth, v);
    case Number(_) => NumeralReadsBack(s, i, depth, v, i + |Dump(v)|);
    case Real(_) => NumeralReadsBack(s, i, depth, v, i + |Dump(v)|);
    case Str(t) =>
      QuotedReadsBack(s, i, t);
      StringDispatch(s, i, depth, t, i + |Dump(v)|);
    case Null => LiteralReadsBack(s, i, depth, v);
    case Bool(_) => LiteralReadsBack(s, i, depth, v);
  }

  lemma ContainerOpens(s: string, i: nat, v: Value)
    requires (v.Array? || v.Object?) && At(s, i, Dump(v))
    ensures i < |s| && s[i] == if v.Array? then '[' else '{'
  {
    AtPointwise(s, i, Dump(v));
    assert s[i + 0] == Dump(v)[0];
  }

  lemma {:induction false} ContainerReadsBack(s: string, i: nat, depth: nat, v: Value)
    requires v.Array? || v.Object?
    requires Valid(v) && Printable(v) && depth <= MAX_NESTING_DEPTH
    requires At(s, i, Dump(v))
    ensures ValueFrom(s, i, depth) ==
      Outcome(v, i + |Dump(v)|, depth + Depth(v) <= MAX_NESTING_DEPTH)
    decreases v, 1
  {
    hide ValueFrom, ArrayAt, ObjectAt, EmplaceAll, DumpItems, DumpFields, At;
    ContainerOpens(s, i, v);
    ContainerDispatch(s, i, depth);
    if depth < MAX_NESTING_DEPTH {
      if v.Array? {
        ArrayReadsBack(s, i, depth + 1, v.items);
      } else {
        assert [] + v.fields == v.fields;
        SortedFieldsRebuild([], v.fields);
        ObjectReadsBack(s, i, depth + 1, v.fields);
      }
    }
  }

  lemma ArrayShape(s: string, i: nat, items: seq<Value>)
    requires PrintableItems(items)
    requires At(s, i, "[" + DumpItems(items, true) + "]")
    ensures At(s, i + 1, DumpItems(items, true) + "]") && WsEnd(s, i + 1) == i + 1
    ensures (s[i + 1] == ']') == (items == [])
  {
    var body := DumpItems(items, true) + "]";
    assert "[" + DumpItems(items, true) + "]" == "[" + body;
    AtConcat(s, i, "[", body);
    if items != [] {
      DumpStarts(items[0]);
      assert body[0] == Dump(items[0])[0];
    }
  }

  lemma {:induction false} ArrayReadsBack(s: string, i: nat, depth: nat, items: seq<Value>)
    requires ValidItems(items) && PrintableItems(items)
    requires depth <= MAX_NESTING_DEPTH
    requires At(s, i, "[" + DumpItems(items, true) + "]")
    ensures ArrayAt(s, i, depth) ==
      Outcome(Array(items), i + |DumpItems(items, true)| + 2, depth + ItemsDepth(items) <= MAX_NESTING_DEPTH)
    decreases items, 1
  {
    ArrayShape(s, i, items);
    if items != [] {
      assert [] + items == items;
      ItemsReadBack(s, i + 1, depth, [], items, items, i + 1 + |DumpItems(items, true)|);
    }
  }

  lemma ItemsShape(s: string, i: nat, items: seq<Value>, j: nat)
    requires items != [] && At(s, i, DumpItems(items, true) + "]") && j == i + |Dump(items[0])|
    ensures At(s, i, Dump(items[0]))
    ensures j < |s| && s[j] == if items[1..] == [] then ']' else ','
    ensures items[1..] != [] ==> At(s, j + 1, DumpItems(items[1..], true) + "]")
    ensures i + |DumpItems(items, true)| ==
      if items[1..] == [] then j else j + 1 + |DumpItems(items[1..], true)|
  {
    var one, tail := Dump(items[0]), DumpItems(items[1..], false) + "]";
    assert DumpItems(items, true) + "]" == one + tail;
    AtConcat(s, i, one, tail);
    if items[1..] != [] {
      var rest := DumpItems(items[1..], true) + "]";
      assert tail == "," + rest;
      AtConcat(s, j, ",", rest);
    }
  }

  // From the first unread element on: `before` was read already and `all`
  // is the whole array.
  lemma {:induction false} ItemsReadBack(
      s: string, i: nat, depth: nat, before: seq<Value>, items: seq<Value>, all: seq<Value>, end: nat)
    requires items != [] && depth <= MAX_NESTING_DEPTH && all == before + items
    requires ValidItems(items) && PrintableItems(items)
    requires At(s, i, DumpItems(items, true) + "]") && end == i + |DumpItems(items, true)|
    ensures ItemsAt(s, i, depth, before) ==
      Outcome(Array(all), end + 1, depth + ItemsDepth(items) <= MAX_NESTING_DEPTH)
    decreases items, 0
  {
    hide ValueAt, Dump, DumpItems, At;
    var v, rest := items[0], items[1..];
    var j := i + |Dump(v)|;
    ItemsShape(s, i, items, j);
    DumpReadsBack(s, i, depth, v);
    if depth + Depth(v) <= MAX_NESTING_DEPTH {
      ItemsStep(s, i, depth, before, v, j);
      SplitHead(before, items);
      if rest != [] {
        ItemsReadBack(s, j + 1, depth, before + [v], rest, all, end);
      }
    }
  }

  lemma ObjectShape(s: string, i: nat, fields: seq<Field>, end: nat)
    requires At(s, i, "{" + DumpFields(fields, true) + "}") && end == i + 1 + |DumpFields(fields, true)|
    ensures At(s, i + 1, DumpFields(fields, true)) && end < |s| && s[end] == '}'
    ensures fields != [] ==> s[i + 1] == '"'
  {
    Assoc("{", DumpFields(fields, true), "}");
    AtConcat(s, i, "{", DumpFields(fields, true) + "}");
    AtConcat(s, i + 1, DumpFields(fields, true), "}");
  }

  // The text of an object; its fields need not be in key order.
  lemma {:induction false} ObjectReadsBack(s: string, i: nat, depth: nat, fields: seq<Field>)
    requires ValidFields(fields) && PrintableFields(fields)
    requires depth <= MAX_NESTING_DEPTH
    requires At(s, i, "{" + DumpFields(fields, true) + "}")
    ensures ObjectAt(s, i, depth) ==
      Outcome(Object(EmplaceAll([], fields)), i + |DumpFields(fields, true)| + 2,
              depth + FieldsDepth(fields) <= MAX_NESTING_DEPTH)
    decreases fields, 2
  {
    hide FieldsAt, At, Dump;
    var end := i + 1 + |DumpFields(fields, true)|;
    ObjectShape(s, i, fields, end);
    assert WsEnd(s, i + 1) == i + 1;
    if fields != [] {
      FieldsReadBack(s, i + 1, depth, [], fields, end);
    }
  }

  // Inserting fields one by one, as the parser does.
  function EmplaceAll(before: seq<Field>, fields: seq<Field>): seq<Field>
    decreases |fields|
  {
    if fields == [] then before
    else EmplaceAll(Emplace(before, fields[0].key, fields[0].value), fields[1..])
  }

  lemma {:induction false} SortedFieldsRebuild(before: seq<Field>, fields: seq<Field>)
    requires Sorted(before + fields)
    ensures EmplaceAll(before, fields) == before + fields
    decreases |fields|
  {
    if fields != [] {
      var all := before + fields;
      forall k | 0 <= k < |before| ensures Less(before[k].key, fields[0].key) {
        assert all[k] == before[k] && all[|before|] == fields[0];
      }
      EmplaceAppends(before, fields[0].key, fields[0].value);
      SplitHead(before, fields);
      SortedFieldsRebuild(before + [fields[0]], fields[1..]);
    }
  }

  lemma Regroup(key: string, value: string, rest: string)
    ensures "" + (key + (":" + (value + rest))) == key + (":" + (value + rest))
  {
  }

  // A printed, non-empty list of members starts with its first member, whose
  // colon and end are given, and goes on with the printed rest.
  lemma FieldsShape(s: string, i: nat, fields: seq<Field>, colon: nat, j: nat, end: nat)
    requires fields != [] && At(s, i, DumpFields(fields, true)) && end == i + |DumpFields(fields, true)|
    requires colon == i + |Quoted(fields[0].key)| && j == colon + 1 + |Dump(fields[0].value)|
    ensures At(s, i, Quoted(fields[0].key)) && colon < |s| && s[colon] == ':'
    ensures At(s, colon + 1, Dump(fields[0].value))
    ensures At(s, j, DumpFields(fields[1..], false)) && end == j + |DumpFields(fields[1..], false)|
  {
    hide Dump, Quoted;
    var key, value, rest := Quoted(fields[0].key), Dump(fields[0].value), DumpFields(fields[1..], false);
    Regroup(key, value, rest);
    AtConcat(s, i, key, ":" + (value + rest));
    AtConcat(s, colon, ":", value + rest);
    AtConcat(s, colon + 1, value, rest);
  }

  lemma FieldsTail(s: string, j: nat, fields: seq<Field>, end: nat)
    requires fields != [] && At(s, j, DumpFields(fields, false)) && end == j + |DumpFields(fields, false)|
    ensures s[j] == ',' && At(s, j + 1, DumpFields(fields, true)) && end == j + 1 + |DumpFields(fields, true)|
  {
    hide Dump, Quoted;
    assert DumpFields(fields, false) == "," + DumpFields(fields, true);
    AtConcat(s, j, ",", DumpFields(fields, true));
  }

  // The first of the printed members, and what follows it at j.
  lemma {:induction false} FirstMemberReadsBack(
      s: string, i: nat, depth: nat, before: seq<Field>, fields: seq<Field>, end: nat) returns (j: nat)
    requires fields != [] && depth <= MAX_NESTING_DEPTH
    requires ValidFields(fields) && PrintableFields(fields)
    requires At(s, i, DumpFields(fields, true)) && end == i + |DumpFields(fields, true)|
    requires end < |s| && (s[end] == ',' || s[end] == '}')
    ensures j < |s| && if fields[1..] == [] then end == j
      else s[j] == ',' && At(s, j + 1, DumpFields(fields[1..], true)) && end == j + 1 + |DumpFields(fields[1..], true)|
    ensures FieldsAt(s, i, depth, before) ==
      if depth + Depth(fields[0].value) <= MAX_NESTING_DEPTH
      then FieldsAfter(s, j, depth, Emplace(before, fields[0].key, fields[0].value)) else Err(TooDeep)
    decreases fields, 0
  {
    hide MemberAt, StringAt, At, Quoted, Dump, Emplace, FieldsAfter;
    var f := fields[0];
    var colon := i + |Quoted(f.key)|;
    j := colon + 1 + |Dump(f.value)|;
    FieldsShape(s, i, fields, colon, j, end);
    if fields[1..] != [] { FieldsTail(s, j, fields[1..], end); }
    QuotedReadsBack(s, i, f.key);
    MemberReadsBack(s, i, depth, f, colon, j);
    if depth + Depth(f.value) <= MAX_NESTING_DEPTH {
      FieldsStep(s, i, depth, before, f, j);
    }
  }

  // From the first unread member on, up to a ',' or '}' at `end`; `before`
  // was read already.
  lemma {:induction false} FieldsReadBack(
      s: string, i: nat, depth: nat, before: seq<Field>, fields: seq<Field>, end: nat)
    requires fields != [] && depth <= MAX_NESTING_DEPTH
    requires ValidFields(fields) && PrintableFields(fields)
    requires At(s, i, DumpFields(fields, true)) && end == i + |DumpFields(fields, true)|
    requires end < |s| && (s[end] == ',' || s[end] == '}')
    ensures FieldsAt(s, i, depth, before) ==
      if depth + FieldsDepth(fields) <= MAX_NESTING_DEPTH
      then FieldsAfter(s, end, depth, EmplaceAll(before, fields)) else Err(TooDeep)
    decreases fields, 1
  {
    hide FieldsAt, DumpFields, Dump, At;
    var f, rest := fields[0], fields[1..];
    var j := FirstMemberReadsBack(s, i, depth, before, fields, end);
    if depth + Depth(f.value) <= MAX_NESTING_DEPTH && rest != [] {
      FieldsReadBack(s, j + 1, depth, Emplace(before, f.key, f.value), rest, end);
    }
  }

  lemma MemberAssembles(s: string, i: nat, depth: nat, key: string, colon: nat)
    requires i <= |s| && StringAt(s, i) == Ok(Read(key, colon))
    requires colon < |s| && s[colon] == ':'
    ensures MemberAt(s, i, depth) ==
      match ValueAt(s, colon + 1, depth)
      case Err(e) => Err(e)
      case Ok(Read(v, next)) => Ok(Read(Field(key, v), WsEnd(s, next)))
  {
    assert WsEnd(s, colon) == colon;
  }

  lemma {:induction false} MemberReadsBack(s: string, i: nat, depth: nat, f: Field, colon: nat, j: nat)
    requires Valid(f.value) && Printable(f.value) && depth <= MAX_NESTING_DEPTH
    requires i <= |s| && StringAt(s, i) == Ok(Read(f.key, colon))
    requires colon < |s| && s[colon] == ':' && At(s, colon + 1, Dump(f.value))
    requires j == colon + 1 + |Dump(f.value)| && j < |s| && (s[j] == ',' || s[j] == '}')
    ensures MemberAt(s, i, depth) ==
      if depth + Depth(f.value) <= MAX_NESTING_DEPTH then Ok(Read(f, j)) else Err(TooDeep)
    decreases f, 4
  {
    hide MemberAt, ValueAt, StringAt, Dump, At;
    MemberAssembles(s, i, depth, f.key, colon);
    DumpReadsBack(s, colon + 1, depth, f.value);
  }

  // parse(dump(v)) is v when v nests at most 128 containers, and fails with
  // "max nesting depth exceeded" otherwise.
  lemma RoundTrip(v: Value)
    requires Valid(v) && Printable(v)
    ensures Parse(Dump(v)) == if Depth(v) <= MAX_NESTING_DEPTH then Ok(v) else Err(TooDeep)
  {
    hide ValueAt, Dump, Depth, Printable, Valid;
    var s := Dump(v);
    AtIsSlice(s, 0, s);
    DumpStarts(v);
    assert WsEnd(s, 0) == 0;
    DumpReadsBack(s, 0, 0, v);
  }
}
