// What the recursive-descent parser of src/json_lite.cpp accepts, as
// functions of the text, a position and the nesting depth.
module JsonGrammar {
  import opened Text
  import opened JsonValue

  const MAX_NESTING_DEPTH: nat := 128

  datatype Error =
    | ExpectedString | BadEscape | BadUnicodeEscape | BadHex | BadLowSurrogate | BadEscapeChar
    | UnterminatedString | NumberRange | UnexpectedEof | TooDeep | ExpectedColon
    | ExpectedCommaOrBrace | ExpectedCommaOrBracket | BadLiteral | UnexpectedCharacter
    | TrailingCharacters

  datatype Result<+T> = Ok(value: T) | Err(error: Error)

  // A value read, and the position just past it.
  datatype Read<+T> = Read(value: T, next: nat)

  function WsEnd(s: string, i: nat): (r: nat)
    requires i <= |s|
    ensures i <= r <= |s|
    ensures r < |s| ==> !IsWs(s[r])
    decreases |s| - i
  {
    if i < |s| && IsWs(s[i]) then WsEnd(s, i + 1) else i
  }

  // ---- Strings ----

  function HexValue(c: char): Option<nat> {
    if '0' <= c <= '9' then Some(c as nat - '0' as nat)
    else if 'a' <= c <= 'f' then Some(c as nat - 'a' as nat + 10)
    else if 'A' <= c <= 'F' then Some(c as nat - 'A' as nat + 10)
    else None
  }

  // Four hexadecimal digits at i.
  function Hex4(s: string, i: nat): (r: Option<nat>)
    requires i + 4 <= |s|
    ensures r.Some? ==> r.value < 0x10000
  {
    match (HexValue(s[i]), HexValue(s[i + 1]), HexValue(s[i + 2]), HexValue(s[i + 3]))
    case (Some(a), Some(b), Some(c), Some(d)) =>
      assert a < 16 && b < 16 && c < 16 && d < 16;
      Some(a * 4096 + b * 256 + c * 16 + d)
    case _ => None
  }

  // The code point of a \u escape whose digits start at i, surrogate pairs
  // joined when the second half follows.
  function UnicodeEscape(s: string, i: nat): (r: Result<Read<nat>>)
    requires i <= |s|
    ensures r.Ok? ==> i + 4 <= r.value.next <= |s| && r.value.value < 0x110000
  {
    if |s| - i < 4 then Err(BadUnicodeEscape)
    else match Hex4(s, i)
      case None => Err(BadHex)
      case Some(cp) =>
        var p := i + 4;
        if 0xD800 <= cp <= 0xDBFF && |s| - p >= 6 && s[p] == '\\' && s[p + 1] == 'u' then
          match Hex4(s, p + 2)
          case None => Err(BadLowSurrogate)
          case Some(lo) =>
            if 0xDC00 <= lo <= 0xDFFF
            then Ok(Read(0x10000 + (cp - 0xD800) * 1024 + (lo - 0xDC00), p + 6))
            else Ok(Read(cp, p))
        else Ok(Read(cp, p))
  }

  function SimpleEscape(e: char): Option<char> {
    if e == '"' then Some('"')
    else if e == '\\' then Some('\\')
    else if e == '/' then Some('/')
    else if e == 'b' then Some(8 as char)
    else if e == 'f' then Some(12 as char)
    else if e == 'n' then Some('\n')
    else if e == 'r' then Some('\r')
    else if e == 't' then Some('\t')
    else None
  }

  // The rest of a string literal, `out` read so far.
  function StringFrom(s: string, i: nat, out: string): (r: Result<Read<string>>)
    requires i <= |s|
    ensures r.Ok? ==> i < r.value.next <= |s|
    decreases |s| - i
  {
    if i >= |s| then Err(UnterminatedString)
    else if s[i] == '"' then Ok(Read(out, i + 1))
    else if s[i] != '\\' then StringFrom(s, i + 1, out + [s[i]])
    else if i + 1 >= |s| then Err(BadEscape)
    else if s[i + 1] == 'u' then
      match UnicodeEscape(s, i + 2)
      case Err(e) => Err(e)
      case Ok(Read(cp, next)) => StringFrom(s, next, out + Utf8(cp))
    else
      match SimpleEscape(s[i + 1])
      case None => Err(BadEscapeChar)
      case Some(c) => StringFrom(s, i + 2, out + [c])
  }

  function StringAt(s: string, i: nat): (r: Result<Read<string>>)
    requires i <= |s|
    ensures r.Ok? ==> i < r.value.next <= |s|
  {
    if i >= |s| || s[i] != '"' then Err(ExpectedString) else StringFrom(s, i + 1, "")
  }

  // ---- Numbers ----

  function DigitsEnd(s: string, i: nat): (r: nat)
    requires i <= |s|
    ensures i <= r <= |s|
    ensures r < |s| ==> !IsDigit(s[r])
    decreases |s| - i
  {
    if i < |s| && IsDigit(s[i]) then DigitsEnd(s, i + 1) else i
  }

  function FractionEnd(s: string, i: nat): (r: nat)
    requires i <= |s|
    ensures i <= r <= |s|
  {
    if i < |s| && s[i] == '.' then DigitsEnd(s, i + 1) else i
  }

  function ExponentEnd(s: string, i: nat): (r: nat)
    requires i <= |s|
    ensures i <= r <= |s|
  {
    if i < |s| && (s[i] == 'e' || s[i] == 'E') then
      DigitsEnd(s, if i + 1 < |s| && (s[i + 1] == '+' || s[i + 1] == '-') then i + 2 else i + 1)
    else i
  }

  function SignEnd(s: string, i: nat): (r: nat)
    requires i < |s|
    ensures i <= r <= i + 1
  {
    if s[i] == '-' then i + 1 else i
  }

  function NumberEnd(s: string, i: nat): (r: nat)
    requires i < |s|
    ensures i <= r <= |s|
    ensures s[i] == '-' || IsDigit(s[i]) ==> i < r
  {
    ExponentEnd(s, FractionEnd(s, DigitsEnd(s, SignEnd(s, i))))
  }

  // The value of a run of digits.
  function NatOf(t: string): int {
    if t == [] then 0
    else NatOf(t[..|t| - 1]) * 10 + (t[|t| - 1] as int - '0' as int)
  }

  // std::stod needs a digit before or after the point.
  predicate HasMantissaDigit(body: string) {
    body != [] && (IsDigit(body[0]) || (body[0] == '.' && |body| > 1 && IsDigit(body[1])))
  }

  // A scanned number without its sign: digits * 10^scale. As for std::stod, an
  // exponent counts only with digits in it.
  datatype Decimal = Decimal(digits: int, scale: int)

  function DecimalOf(body: string): Decimal {
    var d := DigitsEnd(body, 0);
    var f := FractionEnd(body, d);
    var fraction := if f > d then body[d + 1..f] else "";
    Decimal(NatOf(body[..d] + fraction), ExponentOf(body[f..]) - |fraction|)
  }

  function ExponentOf(t: string): int {
    if |t| < 2 then 0
    else if t[1] == '-' then -NatOf(t[2..])
    else if t[1] == '+' then NatOf(t[2..])
    else NatOf(t[1..])
  }

  function Pow10(n: nat): (r: nat)
    ensures r > 0
  {
    if n == 0 then 1 else 10 * Pow10(n - 1)
  }

  // Rounded towards zero, as a conversion to an integer rounds.
  function Truncated(d: Decimal): int {
    if d.scale >= 0 then d.digits * Pow10(d.scale) else d.digits / Pow10(-d.scale)
  }

  predicate IsInteger(d: Decimal) { d.scale >= 0 || d.digits % Pow10(-d.scale) == 0 }

  function Signed(negative: bool, n: int): int { if negative then -n else n }

  predicate Negative(lexeme: string) { lexeme != [] && lexeme[0] == '-' }

  function Body(lexeme: string): string { if Negative(lexeme) then lexeme[1..] else lexeme }

  // std::stod on a scanned number; exact integers are kept as integers.
  function Stod(lexeme: string): Result<Value> {
    var body := Body(lexeme);
    if !HasMantissaDigit(body) then Err(NumberRange)
    else
      var d := DecimalOf(body);
      if IsInteger(d) && Truncated(d) <= MAX_EXACT then Ok(Number(Signed(Negative(lexeme), Truncated(d))))
      else Ok(Real(lexeme))
  }

  const INT64_MAX: int := 0x7FFF_FFFF_FFFF_FFFF

  // Value::as_int, with 0 for what is no number.
  function AsInt(v: Value): int {
    match v
    case Number(n) => n
    case Real(lexeme) =>
      var n := Signed(Negative(lexeme), Truncated(DecimalOf(Body(lexeme))));
      if n > INT64_MAX then INT64_MAX else if n < -INT64_MAX - 1 then -INT64_MAX - 1 else n
    case _ => 0
  }

  function NumberAt(s: string, i: nat): (r: Result<Read<Value>>)
    requires i < |s| && (s[i] == '-' || IsDigit(s[i]))
    ensures r.Ok? ==> i < r.value.next <= |s|
  {
    var end := NumberEnd(s, i);
    match Stod(s[i..end])
    case Err(e) => Err(e)
    case Ok(v) => Ok(Read(v, end))
  }

  // The characters of one number, all of them.
  predicate NumberText(t: string) {
    t != [] && (t[0] == '-' || IsDigit(t[0])) && NumberEnd(t, 0) == |t|
  }

  // Numbers as the reader makes them: integers of magnitude at most 2^53, and
  // the characters of other numbers.
  predicate Printable(v: Value) {
    match v
    case Number(n) => -MAX_EXACT <= n <= MAX_EXACT
    case Real(lexeme) => NumberText(lexeme) && Stod(lexeme) == Ok(v)
    case Array(items) => PrintableItems(items)
    case Object(fields) => PrintableFields(fields)
    case _ => true
  }

  predicate PrintableItems(items: seq<Value>) {
    items == [] || (Printable(items[0]) && PrintableItems(items[1..]))
  }

  predicate PrintableFields(fields: seq<Field>) {
    fields == [] || (Printable(fields[0].value) && PrintableFields(fields[1..]))
  }

  // ---- Values ----

  function LiteralAt(s: string, i: nat, lit: string, v: Value): (r: Result<Read<Value>>)
    requires i <= |s| && lit != []
    ensures r.Ok? ==> i < r.value.next <= |s|
  {
    if At(s, i, lit) then Ok(Read(v, i + |lit|)) else Err(BadLiteral)
  }

  function ValueAt(s: string, i0: nat, depth: nat): (r: Result<Read<Value>>)
    requires i0 <= |s|
    ensures r.Ok? ==> i0 < r.value.next <= |s|
    decreases |s| - i0, 4
  {
    ValueFrom(s, WsEnd(s, i0), depth)
  }

  // A value whose first character is at i.
  function ValueFrom(s: string, i: nat, depth: nat): (r: Result<Read<Value>>)
    requires i <= |s|
    ensures r.Ok? ==> i < r.value.next <= |s|
    decreases |s| - i, 3
  {
    if i >= |s| then Err(UnexpectedEof)
    else if s[i] == '"' then
      match StringAt(s, i)
      case Err(e) => Err(e)
      case Ok(Read(t, next)) => Ok(Read(Str(t), next))
    else if s[i] == '{' || s[i] == '[' then
      if depth >= MAX_NESTING_DEPTH then Err(TooDeep)
      else if s[i] == '{' then ObjectAt(s, i, depth + 1)
      else ArrayAt(s, i, depth + 1)
    else if s[i] == 't' then LiteralAt(s, i, "true", Bool(true))
    else if s[i] == 'f' then LiteralAt(s, i, "false", Bool(false))
    else if s[i] == 'n' then LiteralAt(s, i, "null", Null)
    else if s[i] == '-' || IsDigit(s[i]) then NumberAt(s, i)
    else Err(UnexpectedCharacter)
  }

  function ObjectAt(s: string, i: nat, depth: nat): (r: Result<Read<Value>>)
    requires i < |s|
    ensures r.Ok? ==> i < r.value.next <= |s|
    decreases |s| - i, 2
  {
    var j := WsEnd(s, i + 1);
    if j < |s| && s[j] == '}' then Ok(Read(Object([]), j + 1)) else FieldsAt(s, j, depth, [])
  }

  function ArrayAt(s: string, i: nat, depth: nat): (r: Result<Read<Value>>)
    requires i < |s|
    ensures r.Ok? ==> i < r.value.next <= |s|
    decreases |s| - i, 2
  {
    var j := WsEnd(s, i + 1);
    if j < |s| && s[j] == ']' then Ok(Read(Array([]), j + 1)) else ItemsAt(s, j, depth, [])
  }

  // One `key : value` of an object and the whitespace behind it.
  function MemberAt(s: string, i: nat, depth: nat): (r: Result<Read<Field>>)
    requires i <= |s|
    ensures r.Ok? ==> i < r.value.next <= |s|
    decreases |s| - i, 5
  {
    match StringAt(s, WsEnd(s, i))
    case Err(e) => Err(e)
    case Ok(Read(key, afterKey)) =>
      var colon := WsEnd(s, afterKey);
      if colon >= |s| || s[colon] != ':' then Err(ExpectedColon)
      else
        match ValueAt(s, colon + 1, depth)
        case Err(e) => Err(e)
        case Ok(Read(v, next)) => Ok(Read(Field(key, v), WsEnd(s, next)))
  }

  // The rest of an object from a key on, `obj` read so far.
  function FieldsAt(s: string, i: nat, depth: nat, obj: seq<Field>): (r: Result<Read<Value>>)
    requires i <= |s|
    ensures r.Ok? ==> i < r.value.next <= |s|
    decreases |s| - i, 6
  {
    match MemberAt(s, i, depth)
    case Err(e) => Err(e)
    case Ok(Read(member, j)) => FieldsAfter(s, j, depth, Emplace(obj, member.key, member.value))
  }

  // What follows a member.
  function FieldsAfter(s: string, j: nat, depth: nat, obj: seq<Field>): (r: Result<Read<Value>>)
    requires j <= |s|
    ensures r.Ok? ==> j < r.value.next <= |s|
    decreases |s| - j, 0
  {
    if j < |s| && s[j] == ',' then FieldsAt(s, j + 1, depth, obj)
    else if j < |s| && s[j] == '}' then Ok(Read(Object(obj), j + 1))
    else Err(ExpectedCommaOrBrace)
  }

  // One element of an array and the whitespace behind it.
  function ItemAt(s: string, i: nat, depth: nat): (r: Result<Read<Value>>)
    requires i <= |s|
    ensures r.Ok? ==> i < r.value.next <= |s|
    decreases |s| - i, 5
  {
    match ValueAt(s, i, depth)
    case Err(e) => Err(e)
    case Ok(Read(v, next)) => Ok(Read(v, WsEnd(s, next)))
  }

  // The rest of an array from an element on, `arr` read so far.
  function ItemsAt(s: string, i: nat, depth: nat, arr: seq<Value>): (r: Result<Read<Value>>)
    requires i <= |s|
    ensures r.Ok? ==> i < r.value.next <= |s|
    decreases |s| - i, 6
  {
    match ItemAt(s, i, depth)
    case Err(e) => Err(e)
    case Ok(Read(v, j)) => ItemsAfter(s, j, depth, arr + [v])
  }

  // What follows an element.
  function ItemsAfter(s: string, j: nat, depth: nat, arr: seq<Value>): (r: Result<Read<Value>>)
    requires j <= |s|
    ensures r.Ok? ==> j < r.value.next <= |s|
    decreases |s| - j, 0
  {
    if j < |s| && s[j] == ',' then ItemsAt(s, j + 1, depth, arr)
    else if j < |s| && s[j] == ']' then Ok(Read(Array(arr), j + 1))
    else Err(ExpectedCommaOrBracket)
  }

  lemma FieldsStep(s: string, i: nat, depth: nat, obj: seq<Field>, m: Field, j: nat)
    requires i <= |s| && MemberAt(s, i, depth) == Ok(Read(m, j))
    ensures FieldsAt(s, i, depth, obj) == FieldsAfter(s, j, depth, Emplace(obj, m.key, m.value))
  {
  }

  lemma ItemsStep(s: string, i: nat, depth: nat, arr: seq<Value>, v: Value, j: nat)
    requires i <= |s| && ItemAt(s, i, depth) == Ok(Read(v, j))
    ensures ItemsAt(s, i, depth, arr) == ItemsAfter(s, j, depth, arr + [v])
  {
  }

  function Parse(s: string): Result<Value> {
    match ValueAt(s, WsEnd(s, 0), 0)
    case Err(e) => Err(e)
    case Ok(Read(v, next)) => if WsEnd(s, next) < |s| then Err(TrailingCharacters) else Ok(v)
  }
}
