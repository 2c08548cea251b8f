// struct Parser of src/json_lite.cpp: a position moving over the text and a
// depth counter, proved against JsonGrammar. Every method keeps the position
// inside the text, and ParseValue gives its nesting level back on every exit.
module JsonParser {
  import opened Text
  import opened JsonValue
  import opened JsonGrammar

  // The digits of a \u escape, most significant first.
  function HexFold(s: string, i: nat, count: nat, acc: nat): Option<nat>
    requires i + count <= |s|
    decreases count
  {
    if count == 0 then Some(acc)
    else match HexValue(s[i])
      case None => None
      case Some(h) => HexFold(s, i + 1, count - 1, acc * 16 + h)
  }

  lemma Hex4Fold(s: string, i: nat)
    requires i + 4 <= |s|
    ensures HexFold(s, i, 4, 0) == Hex4(s, i)
  {
    var a, b, c := HexValue(s[i]), HexValue(s[i + 1]), HexValue(s[i + 2]);
    if a.Some? && b.Some? && c.Some? {
      assert HexFold(s, i + 3, 1, (a.value * 16 + b.value) * 16 + c.value)
          == HexFold(s, i, 4, 0);
    } else if a.Some? && b.Some? {
      assert HexFold(s, i + 2, 2, a.value * 16 + b.value) == None;
    }
  }

  class Parser {
    const text: string
    var p: nat
    var depth: nat
    var err: Option<Error>

    constructor (text: string)
      ensures this.text == text && p == 0 && depth == 0 && err == None
    {
      this.text := text;
      p, depth, err := 0, 0, None;
    }

    method SkipWs()
      requires p <= |text|
      modifies this`p
      ensures p == WsEnd(text, old(p))
    {
      while p < |text| && IsWs(text[p])
        invariant p <= |text|
        invariant WsEnd(text, p) == WsEnd(text, old(p))
      {
        p := p + 1;
      }
    }

    method Literal(lit: string) returns (ok: bool)
      requires p <= |text|
      modifies this`p
      ensures ok == At(text, old(p), lit)
      ensures p == if ok then old(p) + |lit| else old(p)
    {
      AtPointwise(text, p, lit);
      if |text| - p < |lit| { return false; }
      for k := 0 to |lit|
        invariant forall j :: 0 <= j < k ==> text[p + j] == lit[j]
      {
        if text[p + k] != lit[k] { return false; }
      }
      p := p + |lit|;
      return true;
    }

    // Four hexadecimal digits at the given position.
    method ReadHex4(at: nat) returns (r: Option<nat>)
      requires at + 4 <= |text|
      ensures r == Hex4(text, at)
    {
      var cp: nat := 0;
      Hex4Fold(text, at);
      for k := 0 to 4
        invariant HexFold(text, at + k, 4 - k, cp) == Hex4(text, at)
      {
        var h := HexValue(text[at + k]);
        if h.None? { return None; }
        cp := cp * 16 + h.value;
      }
      return Some(cp);
    }

    method ParseUnicodeEscape() returns (ok: bool, cp: nat)
      requires p <= |text|
      modifies this`p, this`err
      ensures p <= |text|
      ensures match UnicodeEscape(text, old(p))
              case Ok(Read(v, next)) => ok && cp == v && p == next && err == old(err)
              case Err(e) => !ok && err == Some(e)
    {
      cp := 0;
      if |text| - p < 4 { err := Some(BadUnicodeEscape); return false, 0; }
      var first := ReadHex4(p);
      if first.None? { err := Some(BadHex); return false, 0; }
      cp := first.value;
      p := p + 4;
      if 0xD800 <= cp <= 0xDBFF && |text| - p >= 6 && text[p] == '\\' && text[p + 1] == 'u' {
        var lo := ReadHex4(p + 2);
        if lo.None? { err := Some(BadLowSurrogate); return false, 0; }
        if 0xDC00 <= lo.value <= 0xDFFF {
          cp := 0x10000 + (cp - 0xD800) * 1024 + (lo.value - 0xDC00);
          p := p + 6;
        }
      }
      return true, cp;
    }

    method ParseString() returns (ok: bool, out: string)
      requires p <= |text|
      modifies this`p, this`err
      ensures p <= |text|
      ensures match StringAt(text, old(p))
              case Ok(Read(t, next)) => ok && out == t && p == next && err == old(err)
              case Err(e) => !ok && err == Some(e)
    {
      out := "";
      if p >= |text| || text[p] != '"' { err := Some(ExpectedString); return false, ""; }
      p := p + 1;
      while p < |text|
        invariant p <= |text| && err == old(err)
        invariant StringFrom(text, p, out) == StringAt(text, old(p))
      {
        var c := text[p];
        if c == '"' { p := p + 1; return true, out; }
        if c == '\\' {
          if p + 1 >= |text| { p := p + 1; err := Some(BadEscape); return false, ""; }
          var e := text[p + 1];
          p := p + 2;
          if e == 'u' {
            var okU, cp := ParseUnicodeEscape();
            if !okU { return false, ""; }
            out := out + Utf8(cp);
          } else {
            var simple := SimpleEscape(e);
            if simple.None? { err := Some(BadEscapeChar); return false, ""; }
            out := out + [simple.value];
          }
        } else {
          p := p + 1;
          out := out + [c];
        }
      }
      err := Some(UnterminatedString);
      return false, "";
    }

    method SkipDigits()
      requires p <= |text|
      modifies this`p
      ensures p == DigitsEnd(text, old(p))
    {
      while p < |text| && IsDigit(text[p])
        invariant p <= |text|
        invariant DigitsEnd(text, p) == DigitsEnd(text, old(p))
      {
        p := p + 1;
      }
    }

    method SkipFraction()
      requires p <= |text|
      modifies this`p
      ensures p == FractionEnd(text, old(p))
    {
      if p < |text| && text[p] == '.' {
        p := p + 1;
        SkipDigits();
      }
    }

    method SkipExponent()
      requires p <= |text|
      modifies this`p
      ensures p == ExponentEnd(text, old(p))
    {
      if p < |text| && (text[p] == 'e' || text[p] == 'E') {
        p := p + 1;
        if p < |text| && (text[p] == '+' || text[p] == '-') { p := p + 1; }
        SkipDigits();
      }
    }

    method ScanNumber()
      requires p < |text|
      modifies this`p
      ensures p == NumberEnd(text, old(p))
    {
      if text[p] == '-' { p := p + 1; }
      SkipDigits();
      SkipFraction();
      SkipExponent();
    }

    method ParseNumber() returns (ok: bool, v: Value)
      requires p < |text| && (text[p] == '-' || IsDigit(text[p]))
      modifies this`p, this`err
      ensures p <= |text|
      ensures match NumberAt(text, old(p))
              case Ok(Read(n, next)) => ok && v == n && p == next && err == old(err)
              case Err(e) => !ok && err == Some(e)
    {
      var start := p;
      ScanNumber();
      var r := Stod(text[start..p]);
      if r.Err? { err := Some(r.error); return false, Null; }
      return true, r.value;
    }

    method ParseValue() returns (ok: bool, v: Value)
      requires p <= |text|
      modifies this`p, this`depth, this`err
      ensures p <= |text| && depth == old(depth)
      ensures match ValueAt(text, old(p), old(depth))
              case Ok(Read(n, next)) => ok && v == n && p == next && err == old(err)
              case Err(e) => !ok && err == Some(e)
      decreases |text| - p, 1
    {
      v := Null;
      SkipWs();
      assert ValueAt(text, old(p), depth) == ValueFrom(text, p, depth);
      if p >= |text| { err := Some(UnexpectedEof); return false, Null; }
      var c := text[p];
      if c == '"' {
        var okS, t := ParseString();
        return okS, Str(t);
      }
      if c == '{' || c == '[' {
        if depth >= MAX_NESTING_DEPTH { err := Some(TooDeep); return false, Null; }
        depth := depth + 1;
        if c == '{' { ok, v := ParseObject(); } else { ok, v := ParseArray(); }
        depth := depth - 1;
        return ok, v;
      }
      if c == 't' { ok := Literal("true"); v := Bool(true); }
      else if c == 'f' { ok := Literal("false"); v := Bool(false); }
      else if c == 'n' { ok := Literal("null"); v := Null; }
      else if c == '-' || IsDigit(c) { ok, v := ParseNumber(); return ok, v; }
      else { err := Some(UnexpectedCharacter); return false, Null; }
      if !ok { err := Some(BadLiteral); }
    }

    // The '{' branch of parse_value, under its depth guard.
    method ParseObject() returns (ok: bool, v: Value)
      requires p < |text| && text[p] == '{' && 0 < depth <= MAX_NESTING_DEPTH
      modifies this`p, this`depth, this`err
      ensures p <= |text| && depth == old(depth)
      ensures match ObjectAt(text, old(p), old(depth))
              case Ok(Read(n, next)) => ok && v == n && p == next && err == old(err)
              case Err(e) => !ok && err == Some(e)
      decreases |text| - p, 0
    {
      hide MemberAt, Emplace;
      ghost var goal := ObjectAt(text, p, depth);
      p := p + 1;
      var obj: seq<Field> := [];
      SkipWs();
      if p < |text| && text[p] == '}' { p := p + 1; return true, Object([]); }
      while true
        invariant old(p) < p <= |text| && depth == old(depth) && err == old(err)
        invariant FieldsAt(text, p, depth, obj) == goal
        decreases |text| - p
      {
        ghost var start, before := p, obj;
        var okM, member := ParseMember();
        if !okM { return false, Null; }
        obj := Emplace(obj, member.key, member.value);
        FieldsStep(text, start, depth, before, member, p);
        if p < |text| && text[p] == ',' { p := p + 1; continue; }
        if p < |text| && text[p] == '}' { p := p + 1; break; }
        err := Some(ExpectedCommaOrBrace);
        return false, Null;
      }
      return true, Object(obj);
    }

    method ParseMember() returns (ok: bool, member: Field)
      requires p <= |text|
      modifies this`p, this`depth, this`err
      ensures p <= |text| && depth == old(depth)
      ensures match MemberAt(text, old(p), old(depth))
              case Ok(Read(m, next)) => ok && member == m && p == next && err == old(err)
              case Err(e) => !ok && err == Some(e)
      decreases |text| - p, 2
    {
      member := Field("", Null);
      SkipWs();
      var okK, key := ParseString();
      if !okK { return false, member; }
      SkipWs();
      if p >= |text| || text[p] != ':' { err := Some(ExpectedColon); return false, member; }
      p := p + 1;
      var okV, v := ParseValue();
      if !okV { return false, member; }
      SkipWs();
      return true, Field(key, v);
    }

    method ParseItem() returns (ok: bool, v: Value)
      requires p <= |text|
      modifies this`p, this`depth, this`err
      ensures p <= |text| && depth == old(depth)
      ensures match ItemAt(text, old(p), old(depth))
              case Ok(Read(n, next)) => ok && v == n && p == next && err == old(err)
              case Err(e) => !ok && err == Some(e)
      decreases |text| - p, 2
    {
      ok, v := ParseValue();
      if ok { SkipWs(); }
    }

    // The '[' branch of parse_value, under its depth guard.
    method ParseArray() returns (ok: bool, v: Value)
      requires p < |text| && text[p] == '[' && 0 < depth <= MAX_NESTING_DEPTH
      modifies this`p, this`depth, this`err
      ensures p <= |text| && depth == old(depth)
      ensures match ArrayAt(text, old(p), old(depth))
              case Ok(Read(n, next)) => ok && v == n && p == next && err == old(err)
              case Err(e) => !ok && err == Some(e)
      decreases |text| - p, 0
    {
      ghost var goal := ArrayAt(text, p, depth);
      p := p + 1;
      var arr: seq<Value> := [];
      SkipWs();
      if p < |text| && text[p] == ']' { p := p + 1; return true, Array([]); }
      while true
        invariant old(p) < p <= |text| && depth == old(depth) && err == old(err)
        invariant ItemsAt(text, p, depth, arr) == goal
        decreases |text| - p
      {
        ghost var start := p;
        var okV, item := ParseItem();
        if !okV { return false, Null; }
        ItemsStep(text, start, depth, arr, item, p);
        arr := arr + [item];
        if p < |text| && text[p] == ',' { p := p + 1; continue; }
        if p < |text| && text[p] == ']' { p := p + 1; break; }
        err := Some(ExpectedCommaOrBracket);
        return false, Null;
      }
      return true, Array(arr);
    }
  }

  // obn::json::parse.
  method ParseText(text: string) returns (r: Result<Value>)
    ensures r == Parse(text)
  {
    var ps := new Parser(text);
    ps.SkipWs();
    var ok, v := ps.ParseValue();
    if !ok { return Err(ps.err.value); }
    ps.SkipWs();
    if ps.p < |text| { return Err(TrailingCharacters); }
    return Ok(v);
  }
}
