// JSON values (include/obn/json_lite.hpp) and their printed form
// (Value::dump, escape in src/json_lite.cpp).
module JsonValue {

  // Real is any number that is not an integer of magnitude at most 2^53; it
  // keeps the digits it was read from, since doubles are not modelled.
  datatype Value =
    | Null
    | Bool(b: bool)
    | Number(n: int)
    | Real(lexeme: string)
    | Str(s: string)
    | Array(items: seq<Value>)
    | Object(fields: seq<Field>)

  // One entry of a std::map<std::string, Value>.
  datatype Field = Field(key: string, value: Value)

  const MAX_EXACT: int := 0x20_0000_0000_0000

  // ---- std::string ordering, which is the iteration order of std::map ----

  predicate Less(a: string, b: string) {
    b != [] && (a == [] || a[0] < b[0] || (a[0] == b[0] && Less(a[1..], b[1..])))
  }

  lemma {:induction false} LessIsStrictOrder(a: string, b: string, c: string)
    ensures !Less(a, a)
    ensures Less(a, b) ==> !Less(b, a)
    ensures Less(a, b) && Less(b, c) ==> Less(a, c)
    ensures a == b || Less(a, b) || Less(b, a)
    decreases |a|
  {
    if a != [] {
      var b' := if b == [] then [] else b[1..];
      var c' := if c == [] then [] else c[1..];
      LessIsStrictOrder(a[1..], b', c');
      assert b != [] && a[0] == b[0] && a[1..] == b[1..] ==> a == b;
    }
  }

  // a and b agree up to k, where a ends or has the smaller character.
  predicate LessAt(a: string, b: string, k: nat) {
    k <= |a| && k < |b| && a[..k] == b[..k] && (k == |a| || a[k] < b[k])
  }

  lemma {:induction false} LessMeans(a: string, b: string)
    ensures Less(a, b) <==> exists k: nat :: LessAt(a, b, k)
  {
    if a != [] && b != [] && a[0] == b[0] {
      LessMeans(a[1..], b[1..]);
      forall k: nat | 0 < k ensures LessAt(a, b, k) <==> LessAt(a[1..], b[1..], k - 1) { ShiftLess(a, b, k); }
      if Less(a, b) {
        var k: nat :| LessAt(a[1..], b[1..], k);
        assert LessAt(a, b, k + 1);
      }
    } else if Less(a, b) {
      assert LessAt(a, b, 0);
    }
  }

  lemma ShiftLess(a: string, b: string, k: nat)
    requires a != [] && b != [] && a[0] == b[0] && k > 0
    ensures LessAt(a, b, k) <==> LessAt(a[1..], b[1..], k - 1)
  {
    if k <= |a| && k <= |b| {
      assert a[..k] == [a[0]] + a[1..][..k - 1] && b[..k] == [b[0]] + b[1..][..k - 1];
      assert a[..k][1..] == a[1..][..k - 1] && b[..k][1..] == b[1..][..k - 1];
    }
  }

  // The keys of a std::map are pairwise ordered.
  predicate Sorted(fields: seq<Field>) {
    forall i, j :: 0 <= i < j < |fields| ==> Less(fields[i].key, fields[j].key)
  }

  // std::map::emplace: an existing key keeps its value.
  function Emplace(fields: seq<Field>, key: string, value: Value): seq<Field> {
    if fields == [] then [Field(key, value)]
    else if fields[0].key == key then fields
    else if Less(key, fields[0].key) then [Field(key, value)] + fields
    else [fields[0]] + Emplace(fields[1..], key, value)
  }

  // std::map::find.
  function Lookup(fields: seq<Field>, key: string): Value {
    if fields == [] then Null
    else if fields[0].key == key then fields[0].value
    else Lookup(fields[1..], key)
  }

  predicate HasKey(fields: seq<Field>, key: string) {
    exists i :: 0 <= i < |fields| && fields[i].key == key
  }

  // emplace keeps the map ordered, keeps every old entry, and adds the new
  // one exactly when its key was absent.
  lemma {:induction false} EmplaceIsInsertion(fields: seq<Field>, key: string, value: Value)
    requires Sorted(fields)
    ensures Sorted(Emplace(fields, key, value))
    ensures forall f :: f in Emplace(fields, key, value) <==>
      f in fields || (f == Field(key, value) && !HasKey(fields, key))
  {
    var r := Emplace(fields, key, value);
    if fields == [] || fields[0].key == key {
    } else if Less(key, fields[0].key) {
      forall j | 0 <= j < |fields| ensures Less(key, fields[j].key) && fields[j].key != key {
        LessIsStrictOrder(key, fields[0].key, fields[j].key);
        LessIsStrictOrder(key, key, key);
      }
    } else {
      var rest := Emplace(fields[1..], key, value);
      EmplaceIsInsertion(fields[1..], key, value);
      LessIsStrictOrder(fields[0].key, key, key);
      assert HasKey(fields, key) <==> HasKey(fields[1..], key) by {
        forall i | 0 <= i < |fields| && fields[i].key == key ensures HasKey(fields[1..], key) {
          assert fields[1..][i - 1].key == key;
        }
      }
      forall j | 0 <= j < |rest| ensures Less(fields[0].key, rest[j].key) {
        assert rest[j] in rest;
        if rest[j] in fields[1..] {
          var k :| 0 <= k < |fields[1..]| && fields[1..][k] == rest[j];
          assert fields[k + 1] == rest[j];
        }
      }
    }
  }

  // Inserting past the last key appends: how the parser rebuilds a printed map.
  lemma {:induction false} EmplaceAppends(fields: seq<Field>, key: string, value: Value)
    requires forall i :: 0 <= i < |fields| ==> Less(fields[i].key, key)
    ensures Emplace(fields, key, value) == fields + [Field(key, value)]
  {
    if fields != [] {
      LessIsStrictOrder(fields[0].key, key, key);
      LessIsStrictOrder(key, key, key);
      EmplaceAppends(fields[1..], key, value);
    }
  }

  // ---- Well-formed values ----

  // What std::map guarantees of every value.
  predicate Valid(v: Value) {
    match v
    case Array(items) => ValidItems(items)
    case Object(fields) => Sorted(fields) && ValidFields(fields)
    case _ => true
  }

  predicate ValidItems(items: seq<Value>) {
    items == [] || (Valid(items[0]) && ValidItems(items[1..]))
  }

  predicate ValidFields(fields: seq<Field>) {
    fields == [] || (Valid(fields[0].value) && ValidFields(fields[1..]))
  }

  function Max(a: nat, b: nat): nat { if a < b then b else a }

  // Levels of container nesting.
  function Depth(v: Value): nat {
    match v
    case Array(items) => 1 + ItemsDepth(items)
    case Object(fields) => 1 + FieldsDepth(fields)
    case _ => 0
  }

  function ItemsDepth(items: seq<Value>): nat {
    if items == [] then 0 else Max(Depth(items[0]), ItemsDepth(items[1..]))
  }

  function FieldsDepth(fields: seq<Field>): nat {
    if fields == [] then 0 else Max(Depth(fields[0].value), FieldsDepth(fields[1..]))
  }

  lemma {:induction false} ItemsDepthConcat(a: seq<Value>, b: seq<Value>)
    ensures ItemsDepth(a + b) == Max(ItemsDepth(a), ItemsDepth(b))
  {
    if a == [] {
      assert a + b == b;
    } else {
      assert (a + b)[1..] == a[1..] + b;
      ItemsDepthConcat(a[1..], b);
    }
  }

  // ---- Printing ----

  function Digit(d: nat): char
    requires d < 10
  {
    '0' + d as char
  }

  // Decimal digits of a long long written by operator<<.
  function Digits(n: nat): string {
    if n < 10 then [Digit(n)] else Digits(n / 10) + [Digit(n % 10)]
  }

  function HexDigit(d: nat): char
    requires d < 16
  {
    if d < 10 then '0' + d as char else 'a' + (d - 10) as char
  }

  function EscapeChar(c: char): string {
    if c == '"' then "\\\""
    else if c == '\\' then "\\\\"
    else if c == 8 as char then "\\b"
    else if c == 12 as char then "\\f"
    else if c == '\n' then "\\n"
    else if c == '\r' then "\\r"
    else if c == '\t' then "\\t"
    else if c < ' ' then "\\u00" + [HexDigit(c as nat / 16), HexDigit(c as nat % 16)]
    else [c]
  }

  function EscapeBody(t: string): string {
    if t == [] then "" else EscapeChar(t[0]) + EscapeBody(t[1..])
  }

  function Quoted(t: string): string { "\"" + EscapeBody(t) + "\"" }

  function Dump(v: Value): string {
    match v
    case Null => "null"
    case Bool(b) => if b then "true" else "false"
    case Number(n) => if n < 0 then "-" + Digits(-n) else Digits(n)
    case Real(lexeme) => lexeme
    case Str(s) => Quoted(s)
    case Array(items) => "[" + DumpItems(items, true) + "]"
    case Object(fields) => "{" + DumpFields(fields, true) + "}"
  }

  // The elements still to print; `first` says none was printed yet.
  function DumpItems(items: seq<Value>, first: bool): string {
    if items == [] then ""
    else (if first then "" else ",") + (Dump(items[0]) + DumpItems(items[1..], false))
  }

  function DumpFields(fields: seq<Field>, first: bool): string {
    if fields == [] then ""
    else (if first then "" else ",") +
         (Quoted(fields[0].key) + (":" + (Dump(fields[0].value) + DumpFields(fields[1..], false))))
  }

  method Escape(input: string) returns (out: string)
    ensures out == Quoted(input)
  {
    out := "\"";
    for k := 0 to |input|
      invariant out + EscapeBody(input[k..]) == "\"" + EscapeBody(input)
    {
      assert input[k..][1..] == input[k + 1..];
      out := out + EscapeChar(input[k]);
    }
    out := out + "\"";
  }

  // Value::dump; the array and object cases are the loops of its switch.
  method DumpText(v: Value) returns (os: string)
    ensures os == Dump(v)
    decreases v, 1
  {
    match v
    case Null => os := "null";
    case Bool(b) => os := if b then "true" else "false";
    case Number(n) => os := if n < 0 then "-" + Digits(-n) else Digits(n);
    case Real(lexeme) => os := lexeme;
    case Str(s) => os := Escape(s);
    case Array(items) => os := DumpArrayText(items);
    case Object(fields) => os := DumpObjectText(fields);
  }

  method DumpArrayText(items: seq<Value>) returns (os: string)
    ensures os == "[" + DumpItems(items, true) + "]"
    decreases items, 0
  {
    os := "[";
    var first := true;
    for k := 0 to |items|
      invariant first == (k == 0)
      invariant os + DumpItems(items[k..], first) == "[" + DumpItems(items, true)
    {
      ghost var before, rest := os, DumpItems(items[k + 1..], false);
      assert items[k..][1..] == items[k + 1..];
      var sep := if first then "" else ",";
      var one := DumpText(items[k]);
      os := os + sep + one;
      first := false;
      assert os + rest == before + (sep + (one + rest));
    }
    assert items[|items|..] == [];
    os := os + "]";
  }

  lemma FlattenMember(before: string, sep: string, key: string, one: string, rest: string)
    ensures before + sep + key + ":" + one + rest == before + (sep + (key + (":" + (one + rest))))
  {
  }

  method DumpObjectText(fields: seq<Field>) returns (os: string)
    ensures os == "{" + DumpFields(fields, true) + "}"
    decreases fields, 0
  {
    os := "{";
    var first := true;
    for k := 0 to |fields|
      invariant first == (k == 0)
      invariant os + DumpFields(fields[k..], first) == "{" + DumpFields(fields, true)
    {
      ghost var before, rest := os, DumpFields(fields[k + 1..], false);
      assert fields[k..][1..] == fields[k + 1..];
      var sep := if first then "" else ",";
      var key := Escape(fields[k].key);
      var one := DumpText(fields[k].value);
      os := os + sep + key + ":" + one;
      first := false;
      FlattenMember(before, sep, key, one, rest);
    }
    assert fields[|fields|..] == [];
    os := os + "}";
  }
}
