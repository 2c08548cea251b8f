// Looking a value up by path (src/json_lite.cpp:252-286): keys divided by dots,
// array positions in brackets.
module JsonFind {
  import opened Text
  import opened JsonValue

  // ---- std::stoul ----

  const ULONG: nat := 0x1_0000_0000_0000_0000

  function SkipBlank(s: string): string {
    if s != [] && IsSpace(s[0]) then SkipBlank(s[1..]) else s
  }

  // The leading digits; what follows them is ignored.
  function Leading(s: string, sofar: nat): nat
    decreases |s|
  {
    if s != [] && IsDigit(s[0]) then Leading(s[1..], 10 * sofar + (s[0] as int - '0' as int)) else sofar
  }

  // None when it throws. A minus sign wraps around.
  function Stoul(idx: string): Option<nat> {
    var a := SkipBlank(idx);
    var signed := a != [] && (a[0] == '-' || a[0] == '+');
    var b := if signed then a[1..] else a;
    if b == [] || !IsDigit(b[0]) then None
    else
      var v := Leading(b, 0);
      if v >= ULONG then None
      else if signed && a[0] == '-' then Some((ULONG - v) % ULONG)
      else Some(v)
  }

  // ---- Value::find ----

  // The first of the two characters that end a key.
  function KeyEnd(path: string): (n: nat)
    ensures n <= |path| && (n < |path| ==> path[n] == '.' || path[n] == '[')
  {
    if path == [] || path[0] == '.' || path[0] == '[' then 0 else 1 + KeyEnd(path[1..])
  }

  function SkipDot(path: string): string {
    if path != [] && path[0] == '.' then path[1..] else path
  }

  // One step along the path: the value there, and the rest of the path. None
  // where find returns a null.
  datatype Hop = Hop(value: Value, rest: string)

  function Element(cur: Value, idx: string): Option<Value> {
    if !cur.Array? then None
    else
      match Stoul(idx)
      case None => None
      case Some(i) => if i < |cur.items| then Some(cur.items[i]) else None
  }

  function Member(fields: seq<Field>, key: string): Option<Value> {
    if fields == [] then None
    else if fields[0].key == key then Some(fields[0].value)
    else Member(fields[1..], key)
  }

  function NextHop(cur: Value, path: string): (r: Option<Hop>)
    requires path != []
    ensures r.Some? ==> |r.value.rest| < |path|
  {
    if cur.Null? then None
    else if path[0] == '[' then
      match IndexOf(path, ']')
      case None => None
      case Some(close) =>
        (match Element(cur, path[1..close])
         case None => None
         case Some(v) => Some(Hop(v, SkipDot(path[close + 1..]))))
    else
      var n := KeyEnd(path);
      if !cur.Object? then None
      else
        match Member(cur.fields, path[..n])
        case None => None
        case Some(v) => Some(Hop(v, SkipDot(path[n..])))
  }

  function Find(cur: Value, path: string): Value
    decreases |path|
  {
    if path == [] then cur
    else
      match NextHop(cur, path)
      case None => Null
      case Some(hop) => Find(hop.value, hop.rest)
  }

  method FindPath(value: Value, path: string) returns (r: Value)
    ensures r == Find(value, path)
  {
    r := value;
    var rest := path;
    while rest != []
      invariant Find(r, rest) == Find(value, path)
      decreases |rest|
    {
      if r.Null? { return Null; }
      if rest[0] == '[' {
        var close := IndexOf(rest, ']');
        if close.None? { return Null; }
        var idx := rest[1..close.value];
        if !r.Array? { return Null; }
        var i := Stoul(idx);
        if i.None? || i.value >= |r.items| { return Null; }
        r := r.items[i.value];
        rest := SkipDot(rest[close.value + 1..]);
      } else {
        var n := KeyEnd(rest);
        if !r.Object? { return Null; }
        var v := Member(r.fields, rest[..n]);
        if v.None? { return Null; }
        r := v.value;
        rest := SkipDot(rest[n..]);
      }
    }
  }

  // ---- Paths written from their steps ----

  datatype Step = Key(key: string) | Index(i: nat)

  predicate PlainKey(key: string) {
    key == [] || (key[0] != '.' && key[0] != '[' && PlainKey(key[1..]))
  }

  // A key that can stand in a path: not empty, no dot, no bracket.
  predicate GoodStep(s: Step) {
    match s
    case Key(k) => k != [] && PlainKey(k)
    case Index(i) => i < ULONG
  }

  predicate GoodSteps(steps: seq<Step>) {
    steps == [] || (GoodStep(steps[0]) && GoodSteps(steps[1..]))
  }

  function Render(steps: seq<Step>): string
    decreases |steps|, 0
  {
    if steps == [] then []
    else
      match steps[0]
      case Key(k) => k + Divided(steps[1..])
      case Index(i) => ['['] + (Digits(i) + ([']'] + Divided(steps[1..])))
  }

  // The rest of a path: a dot before a key.
  function Divided(steps: seq<Step>): string
    decreases |steps|, 1
  {
    if steps != [] && steps[0].Key? then ['.'] + Render(steps) else Render(steps)
  }

  function Reach(v: Value, s: Step): Option<Value> {
    match s
    case Key(k) => if v.Object? then Member(v.fields, k) else None
    case Index(i) => if v.Array? && i < |v.items| then Some(v.items[i]) else None
  }

  // Following the steps through the value itself.
  function Walk(v: Value, steps: seq<Step>): Value
    decreases |steps|
  {
    if steps == [] then v
    else
      match Reach(v, steps[0])
      case None => Null
      case Some(w) => Walk(w, steps[1..])
  }

  lemma {:induction false} FirstDigit(n: nat)
    ensures Digits(n) != [] && IsDigit(Digits(n)[0])
    decreases n
  {
    if n >= 10 {
      FirstDigit(n / 10);
    }
  }

  lemma {:induction false} LeadingConcat(a: string, b: string, sofar: nat)
    requires AllDigits(a)
    ensures Leading(a + b, sofar) == Leading(b, Leading(a, sofar))
    decreases |a|
  {
    if a == [] {
      assert a + b == b;
    } else {
      assert (a + b)[1..] == a[1..] + b;
      LeadingConcat(a[1..], b, 10 * sofar + (a[0] as int - '0' as int));
    }
  }

  lemma {:induction false} AllDigitsConcat(a: string, b: string)
    requires AllDigits(a) && AllDigits(b)
    ensures AllDigits(a + b)
  {
    if a == [] {
      assert a + b == b;
    } else {
      assert (a + b)[1..] == a[1..] + b;
      AllDigitsConcat(a[1..], b);
    }
  }

  lemma {:induction false} LeadingDigits(n: nat, more: string)
    requires more == [] || !IsDigit(more[0])
    ensures AllDigits(Digits(n)) && Leading(Digits(n), 0) == n && Leading(Digits(n) + more, 0) == n
    decreases n
  {
    if n < 10 {
      OneDigit(n);
    } else {
      LeadingDigits(n / 10, []);
      OneDigit(n % 10);
      LeadingConcat(Digits(n / 10), [Digit(n % 10)], 0);
      AllDigitsConcat(Digits(n / 10), [Digit(n % 10)]);
      assert [Digit(n % 10)][1..] == [];
    }
    LeadingConcat(Digits(n), more, 0);
  }

  lemma OneDigit(d: nat)
    requires d < 10
    ensures IsDigit(Digit(d)) && Digit(d) as int - '0' as int == d
    ensures AllDigits([Digit(d)]) && Leading([Digit(d)], 0) == d
  {
    assert [Digit(d)][1..] == [];
  }

  lemma StoulOfDigits(n: nat)
    requires n < ULONG
    ensures Stoul(Digits(n)) == Some(n)
  {
    FirstDigit(n);
    LeadingDigits(n, []);
  }

  lemma {:induction false} DecimalHasNoBracket(s: string, rest: string)
    requires AllDigits(s)
    ensures IndexOf(s + ([']'] + rest), ']') == Some(|s|)
  {
    var t := s + ([']'] + rest);
    if s == [] {
      assert t == [']'] + rest;
    } else {
      assert t[1..] == s[1..] + ([']'] + rest);
      DecimalHasNoBracket(s[1..], rest);
    }
  }

  lemma {:induction false} KeyEnds(key: string, rest: string)
    requires PlainKey(key) && (rest == [] || rest[0] == '.' || rest[0] == '[')
    ensures KeyEnd(key + rest) == |key|
  {
    if key == [] {
      assert key + rest == rest;
    } else {
      assert (key + rest)[1..] == key[1..] + rest;
      KeyEnds(key[1..], rest);
    }
  }

  lemma DividedStarts(steps: seq<Step>)
    requires GoodSteps(steps)
    ensures Divided(steps) == [] || Divided(steps)[0] == '.' || Divided(steps)[0] == '['
    ensures SkipDot(Divided(steps)) == Render(steps)
  {
    if steps != [] {
      if steps[0].Key? {
        assert Divided(steps)[1..] == Render(steps);
      }
    }
  }

  // A written path leads where its steps lead.
  lemma {:induction false} FindFollowsSteps(v: Value, steps: seq<Step>)
    requires GoodSteps(steps)
    ensures Find(v, Render(steps)) == Walk(v, steps)
    decreases |steps|
  {
    if steps != [] {
      HopIsReach(v, steps);
      var r := Reach(v, steps[0]);
      if r.Some? {
        FindFollowsSteps(r.value, steps[1..]);
      }
    }
  }

  lemma HopIsReach(v: Value, steps: seq<Step>)
    requires steps != [] && GoodSteps(steps)
    ensures Render(steps) != []
    ensures NextHop(v, Render(steps)) ==
      match Reach(v, steps[0]) case None => None case Some(w) => Some(Hop(w, Render(steps[1..])))
  {
    hide IndexOf, Stoul, Digits, KeyEnd, SkipDot, Divided;
    var path, tail := Render(steps), Divided(steps[1..]);
    DividedStarts(steps[1..]);
    match steps[0]
    case Key(k) =>
      KeyEnds(k, tail);
      assert path[0] == k[0] && path[..|k|] == k && path[|k|..] == tail;
    case Index(i) =>
      LeadingDigits(i, []);
      StoulOfDigits(i);
      BracketParts(Digits(i), tail);
  }

  lemma BracketParts(d: string, tail: string)
    requires AllDigits(d)
    ensures var path := ['['] + (d + ([']'] + tail));
      IndexOf(path, ']') == Some(|d| + 1) && path[1..|d| + 1] == d && path[|d| + 2..] == tail
  {
    hide IndexOf, AllDigits;
    DecimalHasNoBracket(d, tail);
    PastBracket(d + ([']'] + tail));
    CutOut(d, tail);
  }

  lemma PastBracket(body: string)
    ensures IndexOf(['['] + body, ']') == match IndexOf(body, ']') case None => None case Some(k) => Some(k + 1)
  {
    assert (['['] + body)[1..] == body;
  }

  lemma CutOut(d: string, tail: string)
    ensures var path := ['['] + (d + ([']'] + tail)); path[1..|d| + 1] == d && path[|d| + 2..] == tail
  {
  }
}
