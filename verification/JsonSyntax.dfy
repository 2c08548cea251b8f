// The texts src/json_lite.cpp accepts, as written: trees with the white space
// around every token and the spelling of every character, and what they mean.
// The reader (lines 55-250) takes exactly these texts, with that meaning.
module JsonSyntax {
  import opened Text
  import opened JsonValue
  import opened JsonGrammar
  import opened JsonLocal
  import opened JsonNumeral
  import opened JsonRoundTrip

  // ---- Strings ----

  // A character of a string: itself, an escape of one letter, or four
  // hexadecimal digits, each of them in either case.
  datatype HexChar = HexChar(value: nat, upper: bool)

  datatype Spelled =
    | Plain(c: char)
    | Short(letter: char)
    | Unit(a: HexChar, b: HexChar, c3: HexChar, d: HexChar)

  // The letters of short escapes and what they stand for.
  function Stands(letter: char): Option<char> {
    match letter
    case '"' => Some('"')
    case '\\' => Some('\\')
    case '/' => Some('/')
    case 'b' => Some(8 as char)
    case 'f' => Some(12 as char)
    case 'n' => Some(10 as char)
    case 'r' => Some(13 as char)
    case 't' => Some(9 as char)
    case _ => None
  }

  predicate GoodHex(h: HexChar) { h.value < 16 }

  predicate GoodSpelled(x: Spelled) {
    match x
    case Plain(c) => c != '"' && c != '\\'
    case Short(letter) => Stands(letter).Some?
    case Unit(a, b, c, d) => GoodHex(a) && GoodHex(b) && GoodHex(c) && GoodHex(d)
  }

  predicate GoodString(t: seq<Spelled>) { t == [] || (GoodSpelled(t[0]) && GoodString(t[1..])) }

  function HexText(h: HexChar): char
    requires GoodHex(h)
  {
    if h.value < 10 then '0' + h.value as char
    else if h.upper then 'A' + (h.value - 10) as char
    else 'a' + (h.value - 10) as char
  }

  function SpelledText(x: Spelled): string
    requires GoodSpelled(x)
  {
    match x
    case Plain(c) => [c]
    case Short(letter) => ['\\', letter]
    case Unit(a, b, c, d) => ['\\', 'u', HexText(a), HexText(b), HexText(c), HexText(d)]
  }

  // The characters, a quote, and what stands behind.
  function StringThen(t: seq<Spelled>, rest: string): string
    requires GoodString(t)
  {
    if t == [] then ['"'] + rest else SpelledText(t[0]) + StringThen(t[1..], rest)
  }

  function Number16(x: Spelled): nat
    requires GoodSpelled(x) && x.Unit?
  {
    4096 * x.a.value + 256 * x.b.value + 16 * x.c3.value + x.d.value
  }

  predicate IsHigh(x: Spelled)
    requires GoodSpelled(x)
  {
    x.Unit? && 0xD800 <= Number16(x) <= 0xDBFF
  }

  predicate IsLow(x: Spelled)
    requires GoodSpelled(x)
  {
    x.Unit? && 0xDC00 <= Number16(x) <= 0xDFFF
  }

  // The bytes a string stands for: two units that are the halves of a pair are
  // one character, any other unit is one on its own.
  function StringMeaning(t: seq<Spelled>): string
    requires GoodString(t)
  {
    if t == [] then []
    else
      match t[0]
      case Plain(c) => [c] + StringMeaning(t[1..])
      case Short(letter) => [Stands(letter).value] + StringMeaning(t[1..])
      case Unit(_, _, _, _) =>
        assert GoodString(t[1..]);
        if IsHigh(t[0]) && |t| > 1 && IsLow(t[1..][0]) then
          Utf8(Paired(Number16(t[0]), Number16(t[1..][0]))) + StringMeaning(t[1..][1..])
        else Utf8(Number16(t[0])) + StringMeaning(t[1..])
  }

  function Paired(high: nat, low: nat): (cp: nat)
    requires 0xD800 <= high <= 0xDBFF && 0xDC00 <= low <= 0xDFFF
    ensures 0x10000 <= cp < 0x110000
  {
    0x10000 + 0x400 * (high - 0xD800) + (low - 0xDC00)
  }

  // ---- Trees ----

  datatype Tree =
    | Literal(v: Value)
    | Numeric(n: Numeral)
    | Text(t: seq<Spelled>)
    // The gap counts when there is nothing else between the brackets.
    | List(gap: string, items: seq<Item>)
    | Table(gap: string, members: seq<Member>)

  // A value with the gaps around it; and with its key, and the gaps around that.
  datatype Item = Item(before: string, tree: Tree, after: string)
  datatype Member = Member(before: string, key: seq<Spelled>, after: string, item: Item)

  predicate Gap(g: string) { g == [] || ((g[0] == ' ' || g[0] == '\t' || g[0] == '\r' || g[0] == '\n') && Gap(g[1..])) }

  predicate Good(t: Tree) {
    match t
    case Literal(v) => v.Null? || v.Bool?
    case Numeric(n) => GoodNumeral(n)
    case Text(u) => GoodString(u)
    case List(gap, items) => Gap(gap) && GoodItems(items)
    case Table(gap, members) => Gap(gap) && GoodMembers(members)
  }

  predicate GoodItems(items: seq<Item>) { items == [] || (GoodItem(items[0]) && GoodItems(items[1..])) }

  predicate GoodItem(i: Item) { Gap(i.before) && Good(i.tree) && Gap(i.after) }

  predicate GoodMembers(members: seq<Member>) {
    members == [] || (GoodMember(members[0]) && GoodMembers(members[1..]))
  }

  predicate GoodMember(m: Member) { Gap(m.before) && GoodString(m.key) && Gap(m.after) && GoodItem(m.item) }

  function LiteralText(v: Value): string {
    match v
    case Null => "null"
    case Bool(b) => if b then "true" else "false"
    case _ => ""
  }

  // The text of a tree, and what stands behind it.
  function Then(t: Tree, rest: string): string
    requires Good(t)
    decreases t, 0
  {
    match t
    case Literal(v) => LiteralText(v) + rest
    case Numeric(n) => NumeralThen(n, rest)
    case Text(u) => ['"'] + StringThen(u, rest)
    case List(gap, items) => ['['] + (if items == [] then gap + ([']'] + rest) else ItemsThen(items, [']'] + rest))
    case Table(gap, members) => ['{'] + (if members == [] then gap + (['}'] + rest) else MembersThen(members, ['}'] + rest))
  }

  function ItemThen(i: Item, rest: string): string
    requires GoodItem(i)
    decreases i, 0
  {
    i.before + Then(i.tree, i.after + rest)
  }

  function ItemsThen(items: seq<Item>, rest: string): string
    requires items != [] && GoodItems(items)
    decreases items, 0
  {
    ItemThen(items[0], if items[1..] == [] then rest else [','] + ItemsThen(items[1..], rest))
  }

  function MemberThen(m: Member, rest: string): string
    requires GoodMember(m)
    decreases m, 0
  {
    m.before + (['"'] + StringThen(m.key, m.after + ([':'] + ItemThen(m.item, rest))))
  }

  function MembersThen(members: seq<Member>, rest: string): string
    requires members != [] && GoodMembers(members)
    decreases members, 0
  {
    MemberThen(members[0], if members[1..] == [] then rest else [','] + MembersThen(members[1..], rest))
  }

  // The value it means.
  function Meaning(t: Tree): Value
    requires Good(t)
  {
    match t
    case Literal(v) => v
    case Numeric(n) => NumeralValue(n)
    case Text(u) => Str(StringMeaning(u))
    case List(_, items) => Array(ItemMeanings(items))
    case Table(_, members) => Object(EmplaceAll([], MemberMeanings(members)))
  }

  function ItemMeanings(items: seq<Item>): seq<Value>
    requires GoodItems(items)
  {
    if items == [] then []
    else
      assert GoodItem(items[0]);
      [Meaning(items[0].tree)] + ItemMeanings(items[1..])
  }

  function MemberMeaning(m: Member): Field
    requires GoodMember(m)
  {
    assert GoodItem(m.item);
    Field(StringMeaning(m.key), Meaning(m.item.tree))
  }

  function MemberMeanings(members: seq<Member>): seq<Field>
    requires GoodMembers(members)
  {
    if members == [] then [] else [MemberMeaning(members[0])] + MemberMeanings(members[1..])
  }

  // Levels of brackets.
  function Levels(t: Tree): nat {
    match t
    case List(_, items) => 1 + ItemLevels(items)
    case Table(_, members) => 1 + MemberLevels(members)
    case _ => 0
  }

  function ItemLevels(items: seq<Item>): nat {
    if items == [] then 0 else Max(Levels(items[0].tree), ItemLevels(items[1..]))
  }

  function MemberLevels(members: seq<Member>): nat {
    if members == [] then 0 else Max(Levels(members[0].item.tree), MemberLevels(members[1..]))
  }
}
