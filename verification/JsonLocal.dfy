// What the reader of src/json_lite.cpp makes of a value depends only on the
// characters it reads: where those characters stand in another text, it reads
// the same value there and stops behind it.
module JsonLocal {
  import opened Text
  import opened JsonValue
  import opened JsonGrammar

  // From lo to hi, the characters of a stand in b, k positions on.
  ghost predicate Agree(a: string, b: string, k: int, lo: nat, hi: nat) {
    0 <= lo + k && hi <= |a| && hi + k <= |b| && forall x :: lo <= x < hi ==> a[x] == b[x + k]
  }

  lemma AgreeUpTo(a: string, b: string, k: int, lo: nat, hi: nat, m: nat)
    requires Agree(a, b, k, lo, hi) && lo <= m <= hi
    ensures Agree(a, b, k, lo, m)
  {
  }

  // No character that could continue a number.
  predicate Delimited(s: string, j: nat) {
    j < |s| ==>
      !IsDigit(s[j]) && s[j] != '.' && s[j] != 'e' && s[j] != 'E' && s[j] != '+' && s[j] != '-'
  }

  // Nor white space.
  predicate Stops(s: string, j: nat) { Delimited(s, j) && (j < |s| ==> !IsWs(s[j])) }

  // What stands at hi in b matters only to a reading that ends there.
  predicate Ends(b: string, k: int, hi: nat, end: nat)
    requires 0 <= hi + k
  {
    end < hi || (end == hi && Delimited(b, hi + k))
  }

  predicate EndsAfterWs(b: string, k: int, hi: nat, end: nat)
    requires 0 <= hi + k
  {
    end < hi || (end == hi && Stops(b, hi + k))
  }

  lemma {:induction false} WsMoves(a: string, b: string, k: int, lo: nat, hi: nat, i: nat)
    requires Agree(a, b, k, lo, hi) && lo <= i <= hi && EndsAfterWs(b, k, hi, WsEnd(a, i))
    ensures WsEnd(b, i + k) == WsEnd(a, i) + k
    decreases hi - i
  {
    if i < hi && IsWs(a[i]) {
      WsMoves(a, b, k, lo, hi, i + 1);
    }
  }

  lemma {:induction false} AtMoves(a: string, b: string, k: int, lo: nat, hi: nat, i: nat, t: string)
    requires Agree(a, b, k, lo, hi) && lo <= i && i + |t| <= hi && At(a, i, t)
    ensures At(b, i + k, t)
    decreases |t|
  {
    if t != [] {
      AtMoves(a, b, k, lo, hi, i + 1, t[1..]);
    }
  }

  lemma SliceMoves(a: string, b: string, k: int, lo: nat, hi: nat, i: nat, j: nat)
    requires Agree(a, b, k, lo, hi) && lo <= i <= j <= hi
    ensures a[i..j] == b[i + k..j + k]
  {
  }

  // ---- Strings ----

  lemma Hex4Moves(a: string, b: string, k: int, lo: nat, hi: nat, i: nat)
    requires Agree(a, b, k, lo, hi) && lo <= i && i + 4 <= hi
    ensures Hex4(b, i + k) == Hex4(a, i)
  {
  }

  // The reading goes on behind the escape, so that a second half of a pair
  // lies within what is read.
  lemma UnicodeMoves(a: string, b: string, k: int, lo: nat, hi: nat, i: nat)
    requires Agree(a, b, k, lo, hi) && lo <= i <= hi
    requires UnicodeEscape(a, i).Ok? && UnicodeEscape(a, i).value.next < hi
    requires var n := UnicodeEscape(a, i).value.next;
      a[n] == '\\' ==> n + 1 < hi && (a[n + 1] == 'u' ==> n + 6 <= hi)
    ensures var r := UnicodeEscape(a, i).value; UnicodeEscape(b, i + k) == Ok(Read(r.value, r.next + k))
  {
    var p := i + 4;
    Hex4Moves(a, b, k, lo, hi, i);
    if p + 6 <= hi { Hex4Moves(a, b, k, lo, hi, p + 2); }
    assert a[p] == b[p + k];
    if p + 1 < hi { assert a[p + 1] == b[p + 1 + k]; }
  }

  // A string that goes on with an escape needs room for it.
  lemma EscapeNeedsRoom(a: string, i: nat, out: string)
    requires i < |a| && StringFrom(a, i, out).Ok?
    ensures var n := StringFrom(a, i, out).value.next;
      a[i] == '\\' ==> i + 2 < n && (a[i + 1] == 'u' ==> i + 6 < n)
  {
  }

  lemma {:induction false} StringMoves(a: string, b: string, k: int, lo: nat, hi: nat, i: nat, out: string)
    requires Agree(a, b, k, lo, hi) && lo <= i <= hi
    requires StringFrom(a, i, out).Ok? && StringFrom(a, i, out).value.next <= hi
    ensures var r := StringFrom(a, i, out).value; StringFrom(b, i + k, out) == Ok(Read(r.value, r.next + k))
    decreases hi - i
  {
    hide UnicodeEscape, Utf8, SimpleEscape;
    EscapeNeedsRoom(a, i, out);
    assert a[i] == b[i + k];
    if a[i] == '"' {
    } else if a[i] != '\\' {
      StringMoves(a, b, k, lo, hi, i + 1, out + [a[i]]);
    } else {
      assert a[i + 1] == b[i + 1 + k];
      if a[i + 1] == 'u' {
        EscapeMoves(a, b, k, lo, hi, i, out);
        var u := UnicodeEscape(a, i + 2).value;
        StringMoves(a, b, k, lo, hi, u.next, out + Utf8(u.value));
      } else {
        StringMoves(a, b, k, lo, hi, i + 2, out + [SimpleEscape(a[i + 1]).value]);
      }
    }
  }

  lemma EscapeMoves(a: string, b: string, k: int, lo: nat, hi: nat, i: nat, out: string)
    requires Agree(a, b, k, lo, hi) && lo <= i && i + 1 < hi && a[i] == '\\' && a[i + 1] == 'u'
    requires StringFrom(a, i, out).Ok? && StringFrom(a, i, out).value.next <= hi
    ensures UnicodeEscape(a, i + 2).Ok?
    ensures var u := UnicodeEscape(a, i + 2).value;
      UnicodeEscape(b, i + 2 + k) == Ok(Read(u.value, u.next + k)) && u.next < hi &&
      StringFrom(a, u.next, out + Utf8(u.value)) == StringFrom(a, i, out)
  {
    hide UnicodeEscape, Utf8;
    var u := UnicodeEscape(a, i + 2).value;
    EscapeNeedsRoom(a, u.next, out + Utf8(u.value));
    UnicodeMoves(a, b, k, lo, hi, i + 2);
  }

  lemma QuotedMoves(a: string, b: string, k: int, lo: nat, hi: nat, i: nat)
    requires Agree(a, b, k, lo, hi) && lo <= i < hi
    requires StringAt(a, i).Ok? && StringAt(a, i).value.next <= hi
    ensures var r := StringAt(a, i).value; StringAt(b, i + k) == Ok(Read(r.value, r.next + k))
  {
    hide StringFrom;
    assert a[i] == b[i + k];
    StringMoves(a, b, k, lo, hi, i + 1, "");
  }

  // ---- Numbers ----

  lemma {:induction false} DigitsMove(a: string, b: string, k: int, lo: nat, hi: nat, i: nat)
    requires Agree(a, b, k, lo, hi) && lo <= i <= hi && Ends(b, k, hi, DigitsEnd(a, i))
    ensures DigitsEnd(b, i + k) == DigitsEnd(a, i) + k
    decreases hi - i
  {
    if i < hi && IsDigit(a[i]) {
      DigitsMove(a, b, k, lo, hi, i + 1);
    }
  }

  lemma FractionMoves(a: string, b: string, k: int, lo: nat, hi: nat, i: nat)
    requires Agree(a, b, k, lo, hi) && lo <= i <= hi && Ends(b, k, hi, FractionEnd(a, i))
    ensures FractionEnd(b, i + k) == FractionEnd(a, i) + k
  {
    if i < hi && a[i] == '.' {
      DigitsMove(a, b, k, lo, hi, i + 1);
    }
  }

  lemma ExponentMoves(a: string, b: string, k: int, lo: nat, hi: nat, i: nat)
    requires Agree(a, b, k, lo, hi) && lo <= i <= hi && Ends(b, k, hi, ExponentEnd(a, i))
    ensures ExponentEnd(b, i + k) == ExponentEnd(a, i) + k
  {
    if i < hi && (a[i] == 'e' || a[i] == 'E') {
      var j := if i + 1 < |a| && (a[i + 1] == '+' || a[i + 1] == '-') then i + 2 else i + 1;
      DigitsMove(a, b, k, lo, hi, j);
      if i + 1 < hi { assert a[i + 1] == b[i + 1 + k]; }
    }
  }

  lemma NumberMoves(a: string, b: string, k: int, lo: nat, hi: nat, i: nat)
    requires Agree(a, b, k, lo, hi) && lo <= i < hi && Ends(b, k, hi, NumberEnd(a, i))
    ensures NumberEnd(b, i + k) == NumberEnd(a, i) + k
  {
    var d := SignEnd(a, i);
    var f := DigitsEnd(a, d);
    var e := FractionEnd(a, f);
    assert a[i] == b[i + k];
    DigitsMove(a, b, k, lo, hi, d);
    FractionMoves(a, b, k, lo, hi, f);
    ExponentMoves(a, b, k, lo, hi, e);
  }

  lemma NumeralMoves(a: string, b: string, k: int, lo: nat, hi: nat, i: nat)
    requires Agree(a, b, k, lo, hi) && lo <= i < hi && (a[i] == '-' || IsDigit(a[i]))
    requires NumberAt(a, i).Ok? && Ends(b, k, hi, NumberAt(a, i).value.next)
    ensures b[i + k] == a[i]
    ensures var r := NumberAt(a, i).value; NumberAt(b, i + k) == Ok(Read(r.value, r.next + k))
  {
    hide Stod, NumberEnd;
    NumberMoves(a, b, k, lo, hi, i);
    SliceMoves(a, b, k, lo, hi, i, NumberEnd(a, i));
  }

  // ---- Values ----

  lemma LiteralMoves(a: string, b: string, k: int, lo: nat, hi: nat, i: nat, lit: string, v: Value)
    requires Agree(a, b, k, lo, hi) && lo <= i <= hi && lit != []
    requires LiteralAt(a, i, lit, v).Ok? && LiteralAt(a, i, lit, v).value.next <= hi
    ensures LiteralAt(b, i + k, lit, v) == Ok(Read(v, i + |lit| + k)) && LiteralAt(a, i, lit, v) == Ok(Read(v, i + |lit|))
  {
    AtMoves(a, b, k, lo, hi, i, lit);
  }

  lemma {:induction false} ValueMoves(a: string, b: string, k: int, lo: nat, hi: nat, i: nat, depth: nat)
    requires Agree(a, b, k, lo, hi) && lo <= i <= hi
    requires ValueAt(a, i, depth).Ok? && Ends(b, k, hi, ValueAt(a, i, depth).value.next)
    ensures var r := ValueAt(a, i, depth).value; ValueAt(b, i + k, depth) == Ok(Read(r.value, r.next + k))
    decreases |a| - i, 4
  {
    hide ValueFrom, WsEnd;
    WsMoves(a, b, k, lo, hi, i);
    FromMoves(a, b, k, lo, hi, WsEnd(a, i), depth);
  }

  lemma {:induction false} FromMoves(a: string, b: string, k: int, lo: nat, hi: nat, i: nat, depth: nat)
    requires Agree(a, b, k, lo, hi) && lo <= i < hi
    requires ValueFrom(a, i, depth).Ok? && Ends(b, k, hi, ValueFrom(a, i, depth).value.next)
    ensures var r := ValueFrom(a, i, depth).value; ValueFrom(b, i + k, depth) == Ok(Read(r.value, r.next + k))
    decreases |a| - i, 3
  {
    hide ObjectAt, ArrayAt, StringAt, NumberAt, LiteralAt;
    assert a[i] == b[i + k];
    if a[i] == '"' {
      QuotedMoves(a, b, k, lo, hi, i);
    } else if a[i] == '{' {
      ObjectMoves(a, b, k, lo, hi, i, depth + 1);
    } else if a[i] == '[' {
      ArrayMoves(a, b, k, lo, hi, i, depth + 1);
    } else if a[i] == 't' {
      LiteralMoves(a, b, k, lo, hi, i, "true", Bool(true));
    } else if a[i] == 'f' {
      LiteralMoves(a, b, k, lo, hi, i, "false", Bool(false));
    } else if a[i] == 'n' {
      LiteralMoves(a, b, k, lo, hi, i, "null", Null);
    } else {
      NumeralMoves(a, b, k, lo, hi, i);
    }
  }

  lemma {:induction false} MemberMoves(a: string, b: string, k: int, lo: nat, hi: nat, i: nat, depth: nat)
    requires Agree(a, b, k, lo, hi) && lo <= i <= hi
    requires MemberAt(a, i, depth).Ok? && EndsAfterWs(b, k, hi, MemberAt(a, i, depth).value.next)
    ensures var r := MemberAt(a, i, depth).value; MemberAt(b, i + k, depth) == Ok(Read(r.value, r.next + k))
    decreases |a| - i, 5
  {
    hide ValueAt, StringAt, WsEnd;
    var q := WsEnd(a, i);
    var key := StringAt(a, q).value;
    var colon := WsEnd(a, key.next);
    var v := ValueAt(a, colon + 1, depth).value;
    WsMoves(a, b, k, lo, hi, i);
    QuotedMoves(a, b, k, lo, hi, q);
    WsMoves(a, b, k, lo, hi, key.next);
    assert a[colon] == b[colon + k];
    ValueMoves(a, b, k, lo, hi, colon + 1, depth);
    WsMoves(a, b, k, lo, hi, v.next);
  }

  lemma EmplaceIsNonempty(obj: seq<Field>, key: string, value: Value)
    ensures Emplace(obj, key, value) != []
  {
  }

  // Up to the brace at hi; what stands there in b is another matter.
  lemma {:induction false} FieldsUpTo(
      a: string, b: string, k: int, lo: nat, hi: nat, i: nat, depth: nat, obj: seq<Field>, fields: seq<Field>)
    requires Agree(a, b, k, lo, hi) && lo <= i <= hi && Stops(b, hi + k)
    requires FieldsAt(a, i, depth, obj) == Ok(Read(Object(fields), hi + 1))
    ensures fields != [] && a[hi] == '}'
    ensures FieldsAt(b, i + k, depth, obj) == FieldsAfter(b, hi + k, depth, fields)
    decreases |a| - i, 6
  {
    hide MemberAt, Emplace;
    var m := MemberAt(a, i, depth).value;
    var obj' := Emplace(obj, m.value.key, m.value.value);
    EmplaceIsNonempty(obj, m.value.key, m.value.value);
    MemberMoves(a, b, k, lo, hi, i, depth);
    FieldsStep(a, i, depth, obj, m.value, m.next);
    FieldsStep(b, i + k, depth, obj, m.value, m.next + k);
    if m.next < hi {
      assert a[m.next] == b[m.next + k];
      FieldsUpTo(a, b, k, lo, hi, m.next + 1, depth, obj', fields);
    }
  }

  lemma {:induction false} ItemsUpTo(
      a: string, b: string, k: int, lo: nat, hi: nat, i: nat, depth: nat, arr: seq<Value>, items: seq<Value>)
    requires Agree(a, b, k, lo, hi) && lo <= i <= hi && Stops(b, hi + k)
    requires ItemsAt(a, i, depth, arr) == Ok(Read(Array(items), hi + 1))
    ensures a[hi] == ']'
    ensures ItemsAt(b, i + k, depth, arr) == ItemsAfter(b, hi + k, depth, items)
    decreases |a| - i, 6
  {
    hide ItemAt;
    var r := ItemAt(a, i, depth).value;
    ItemMoves(a, b, k, lo, hi, i, depth);
    ItemsStep(a, i, depth, arr, r.value, r.next);
    ItemsStep(b, i + k, depth, arr, r.value, r.next + k);
    if r.next < hi {
      assert a[r.next] == b[r.next + k];
      ItemsUpTo(a, b, k, lo, hi, r.next + 1, depth, arr + [r.value], items);
    }
  }

  lemma {:induction false} ItemMoves(a: string, b: string, k: int, lo: nat, hi: nat, i: nat, depth: nat)
    requires Agree(a, b, k, lo, hi) && lo <= i <= hi
    requires ItemAt(a, i, depth).Ok? && EndsAfterWs(b, k, hi, ItemAt(a, i, depth).value.next)
    ensures var r := ItemAt(a, i, depth).value; ItemAt(b, i + k, depth) == Ok(Read(r.value, r.next + k))
    decreases |a| - i, 5
  {
    hide ValueAt, WsEnd;
    var v := ValueAt(a, i, depth).value;
    ValueMoves(a, b, k, lo, hi, i, depth);
    WsMoves(a, b, k, lo, hi, v.next);
  }

  lemma {:induction false} FieldsGiveObject(s: string, i: nat, depth: nat, obj: seq<Field>)
    requires i <= |s| && FieldsAt(s, i, depth, obj).Ok?
    ensures var r := FieldsAt(s, i, depth, obj).value; r.value.Object? && s[r.next - 1] == '}'
    decreases |s| - i
  {
    var m := MemberAt(s, i, depth).value;
    FieldsStep(s, i, depth, obj, m.value, m.next);
    if m.next < |s| && s[m.next] == ',' {
      FieldsGiveObject(s, m.next + 1, depth, Emplace(obj, m.value.key, m.value.value));
    }
  }

  lemma {:induction false} ItemsGiveArray(s: string, i: nat, depth: nat, arr: seq<Value>)
    requires i <= |s| && ItemsAt(s, i, depth, arr).Ok?
    ensures var r := ItemsAt(s, i, depth, arr).value; r.value.Array? && s[r.next - 1] == ']'
    decreases |s| - i
  {
    var m := ItemAt(s, i, depth).value;
    ItemsStep(s, i, depth, arr, m.value, m.next);
    if m.next < |s| && s[m.next] == ',' {
      ItemsGiveArray(s, m.next + 1, depth, arr + [m.value]);
    }
  }

  // A container is read to its own bracket, whatever follows it.
  lemma {:induction false} ObjectMoves(a: string, b: string, k: int, lo: nat, hi: nat, i: nat, depth: nat)
    requires Agree(a, b, k, lo, hi) && lo <= i < hi
    requires ObjectAt(a, i, depth).Ok? && ObjectAt(a, i, depth).value.next <= hi
    ensures var r := ObjectAt(a, i, depth).value; ObjectAt(b, i + k, depth) == Ok(Read(r.value, r.next + k))
    decreases |a| - i, 2
  {
    hide FieldsAt, WsEnd;
    var j, r := WsEnd(a, i + 1), ObjectAt(a, i, depth).value;
    var end := r.next - 1;
    WsMoves(a, b, k, lo, hi, i + 1);
    assert a[j] == b[j + k];
    if a[j] != '}' {
      FieldsGiveObject(a, j, depth, []);
      assert a[end] == b[end + k];
      AgreeUpTo(a, b, k, lo, hi, end);
      FieldsUpTo(a, b, k, lo, end, j, depth, [], r.value.fields);
    }
  }

  lemma {:induction false} ArrayMoves(a: string, b: string, k: int, lo: nat, hi: nat, i: nat, depth: nat)
    requires Agree(a, b, k, lo, hi) && lo <= i < hi
    requires ArrayAt(a, i, depth).Ok? && ArrayAt(a, i, depth).value.next <= hi
    ensures var r := ArrayAt(a, i, depth).value; ArrayAt(b, i + k, depth) == Ok(Read(r.value, r.next + k))
    decreases |a| - i, 2
  {
    hide ItemsAt, WsEnd;
    var j, r := WsEnd(a, i + 1), ArrayAt(a, i, depth).value;
    var end := r.next - 1;
    WsMoves(a, b, k, lo, hi, i + 1);
    assert a[j] == b[j + k];
    if a[j] != ']' {
      ItemsGiveArray(a, j, depth, []);
      assert a[end] == b[end + k];
      AgreeUpTo(a, b, k, lo, hi, end);
      ItemsUpTo(a, b, k, lo, end, j, depth, [], r.value.items);
    }
  }

  // The same object with a comma in the place of its brace: the reader takes
  // the same members and goes on behind the comma, or, with no member before
  // it, misses a key.
  lemma ObjectGoesOn(a: string, b: string, k: int, lo: nat, hi: nat, i: nat, depth: nat, fields: seq<Field>)
    requires Agree(a, b, k, lo, hi) && lo <= i < hi && hi + k < |b| && b[hi + k] == ','
    requires ObjectAt(a, i, depth) == Ok(Read(Object(fields), hi + 1))
    ensures ObjectAt(b, i + k, depth) ==
      if fields == [] then Err(ExpectedString) else FieldsAt(b, hi + 1 + k, depth, fields)
  {
    hide FieldsAt, WsEnd;
    var j := WsEnd(a, i + 1);
    WsMoves(a, b, k, lo, hi, i + 1);
    if a[j] == '}' {
      KeyMissing(b, hi + k, depth, []);
    } else {
      if j < hi { assert a[j] == b[j + k]; }
      FieldsUpTo(a, b, k, lo, hi, j, depth, [], fields);
    }
  }

  lemma KeyMissing(s: string, i: nat, depth: nat, obj: seq<Field>)
    requires i < |s| && s[i] == ','
    ensures FieldsAt(s, i, depth, obj) == Err(ExpectedString)
  {
    assert WsEnd(s, i) == i && StringAt(s, i) == Err(ExpectedString);
    assert MemberAt(s, i, depth) == Err(ExpectedString);
  }
}
