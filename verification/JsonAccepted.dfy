// What holds of every value the parser returns, for every input text.
module JsonAccepted {
  import opened Text
  import opened JsonValue
  import opened JsonGrammar
  import opened JsonLocal
  import opened JsonNumeral
  import opened JsonRoundTrip

  // The parser's values keep their object keys ordered, hold only numbers that
  // print as numbers, and never nest deeper than the levels left.
  predicate Sound(v: Value, depth: nat) {
    Valid(v) && Printable(v) && depth + Depth(v) <= MAX_NESTING_DEPTH
  }

  predicate Fits(r: Result<Read<Value>>, depth: nat) { r.Ok? ==> Sound(r.value.value, depth) }

  // ---- Numbers ----

  lemma {:induction false} NatOfDigits(t: string)
    requires forall k :: 0 <= k < |t| ==> IsDigit(t[k])
    ensures NatOf(t) >= 0
  {
    if t != [] {
      NatOfDigits(t[..|t| - 1]);
    }
  }

  lemma {:induction false} DigitsOnly(s: string, i: nat)
    requires i <= |s|
    ensures forall k :: i <= k < DigitsEnd(s, i) ==> IsDigit(s[k])
    decreases |s| - i
  {
    if i < |s| && IsDigit(s[i]) {
      DigitsOnly(s, i + 1);
    }
  }

  lemma DecimalIsNatural(body: string)
    ensures DecimalOf(body).digits >= 0
  {
    var d := DigitsEnd(body, 0);
    var f := FractionEnd(body, d);
    DigitsOnly(body, 0);
    if f > d { DigitsOnly(body, d + 1); }
    NatOfDigits(body[..d] + if f > d then body[d + 1..f] else "");
  }

  lemma NumbersPrint(lexeme: string)
    requires NumberText(lexeme) && Stod(lexeme).Ok?
    ensures Printable(Stod(lexeme).value) && (Stod(lexeme).value.Number? || Stod(lexeme).value.Real?)
  {
    hide NumberText, DecimalOf, Truncated, IsInteger, HasMantissaDigit;
    var d := DecimalOf(Body(lexeme));
    DecimalIsNatural(Body(lexeme));
    TruncatedIsNatural(d);
  }

  // The characters read as a number are a number on their own.
  lemma LexemeIsText(s: string, i: nat)
    requires i < |s| && (s[i] == '-' || IsDigit(s[i]))
    ensures NumberText(s[i..NumberEnd(s, i)])
  {
    var e := NumberEnd(s, i);
    NumberMoves(s, s[i..e], 0 - i, i, e, i);
  }

  lemma NumberFits(s: string, i: nat, depth: nat)
    requires i < |s| && (s[i] == '-' || IsDigit(s[i])) && depth <= MAX_NESTING_DEPTH
    ensures Fits(NumberAt(s, i), depth)
  {
    hide NumberText, Stod, NumberEnd;
    if NumberAt(s, i).Ok? {
      LexemeIsText(s, i);
      NumbersPrint(s[i..NumberEnd(s, i)]);
    }
  }

  // ---- Containers ----

  lemma {:induction false} EmplaceKeepsShape(fields: seq<Field>, key: string, value: Value, d: nat)
    requires ValidFields(fields) && PrintableFields(fields) && FieldsDepth(fields) <= d
    requires Valid(value) && Printable(value) && Depth(value) <= d
    ensures var r := Emplace(fields, key, value); ValidFields(r) && PrintableFields(r) && FieldsDepth(r) <= d
  {
    if fields == [] || fields[0].key == key || Less(key, fields[0].key) {
    } else {
      EmplaceKeepsShape(fields[1..], key, value, d);
    }
  }

  lemma EmplaceKeepsMap(obj: seq<Field>, f: Field, d: nat)
    requires Sorted(obj) && ValidFields(obj) && PrintableFields(obj) && FieldsDepth(obj) <= d
    requires Valid(f.value) && Printable(f.value) && Depth(f.value) <= d
    ensures var r := Emplace(obj, f.key, f.value);
      Sorted(r) && ValidFields(r) && PrintableFields(r) && FieldsDepth(r) <= d
  {
    EmplaceIsInsertion(obj, f.key, f.value);
    EmplaceKeepsShape(obj, f.key, f.value, d);
  }

  lemma {:induction false} AppendKeepsShape(items: seq<Value>, v: Value)
    requires ValidItems(items) && PrintableItems(items) && Valid(v) && Printable(v)
    ensures ValidItems(items + [v]) && PrintableItems(items + [v])
  {
    if items != [] {
      assert (items + [v])[1..] == items[1..] + [v];
      AppendKeepsShape(items[1..], v);
    }
  }

  lemma {:induction false} ValueFits(s: string, i: nat, depth: nat)
    requires i <= |s| && depth <= MAX_NESTING_DEPTH
    ensures Fits(ValueAt(s, i, depth), depth)
    decreases |s| - i, 4
  {
    FromFits(s, WsEnd(s, i), depth);
  }

  lemma {:induction false} FromFits(s: string, i: nat, depth: nat)
    requires i <= |s| && depth <= MAX_NESTING_DEPTH
    ensures Fits(ValueFrom(s, i, depth), depth)
    decreases |s| - i, 3
  {
    if i < |s| && (s[i] == '{' || s[i] == '[') {
      ContainerDispatch(s, i, depth);
      if depth < MAX_NESTING_DEPTH {
        var j := WsEnd(s, i + 1);
        FieldsFit(s, j, depth + 1, []);
        ItemsFit(s, j, depth + 1, []);
      }
    } else if i < |s| && (s[i] == '-' || IsDigit(s[i])) {
      NumberDispatch(s, i, depth);
      NumberFits(s, i, depth);
    }
  }

  // A container counts as one of its own levels.
  predicate ContainerFits(r: Result<Read<Value>>, depth: nat)
    requires depth > 0
  {
    Fits(r, depth - 1)
  }

  lemma {:induction false} FieldsFit(s: string, i: nat, depth: nat, obj: seq<Field>)
    requires i <= |s| && 0 < depth <= MAX_NESTING_DEPTH
    requires Sorted(obj) && ValidFields(obj) && PrintableFields(obj) && depth + FieldsDepth(obj) <= MAX_NESTING_DEPTH
    ensures ContainerFits(FieldsAt(s, i, depth, obj), depth)
    decreases |s| - i, 6
  {
    hide MemberAt, Emplace;
    MemberFits(s, i, depth);
    var m := MemberAt(s, i, depth);
    if m.Ok? {
      var f, j := m.value.value, m.value.next;
      EmplaceKeepsMap(obj, f, MAX_NESTING_DEPTH - depth);
      FieldsStep(s, i, depth, obj, f, j);
      if j < |s| && s[j] == ',' {
        FieldsFit(s, j + 1, depth, Emplace(obj, f.key, f.value));
      }
    }
  }

  lemma {:induction false} MemberFits(s: string, i: nat, depth: nat)
    requires i <= |s| && depth <= MAX_NESTING_DEPTH
    ensures var m := MemberAt(s, i, depth);
      m.Ok? ==> Sound(m.value.value.value, depth)
    decreases |s| - i, 5
  {
    var k := StringAt(s, WsEnd(s, i));
    if k.Ok? && WsEnd(s, k.value.next) < |s| {
      ValueFits(s, WsEnd(s, k.value.next) + 1, depth);
    }
  }

  lemma {:induction false} ItemsFit(s: string, i: nat, depth: nat, arr: seq<Value>)
    requires i <= |s| && 0 < depth <= MAX_NESTING_DEPTH
    requires ValidItems(arr) && PrintableItems(arr) && depth + ItemsDepth(arr) <= MAX_NESTING_DEPTH
    ensures ContainerFits(ItemsAt(s, i, depth, arr), depth)
    decreases |s| - i, 6
  {
    hide ValueAt;
    ValueFits(s, i, depth);
    var r := ItemAt(s, i, depth);
    if r.Ok? {
      var v, j := r.value.value, r.value.next;
      AppendKeepsShape(arr, v);
      ItemsDepthConcat(arr, [v]);
      ItemsStep(s, i, depth, arr, v, j);
      if j < |s| && s[j] == ',' {
        ItemsFit(s, j + 1, depth, arr + [v]);
      }
    }
  }

  // Whatever the text, an accepted value has ordered keys, prints, and nests at
  // most 128 containers.
  lemma AcceptedIsValid(text: string)
    ensures Parse(text).Ok? ==> Sound(Parse(text).value, 0)
  {
    ValueFits(text, WsEnd(text, 0), 0);
  }

  // An accepted text can be printed and read again, as often as one likes,
  // without loss.
  lemma AcceptedSurvivesReprinting(text: string)
    ensures Parse(text).Ok? ==> Parse(Dump(Parse(text).value)) == Parse(text)
  {
    AcceptedIsValid(text);
    if Parse(text).Ok? {
      RoundTrip(Parse(text).value);
    }
  }
}
