// Characters, words and lines of obn.conf (src/config.cpp): what std::isspace,
// trim, to_lower and truthy do, and splitting a file into lines that keep
// their terminators.
module ConfigText {
  import opened Text

  predicate Blank(s: string) { s == [] || (IsSpace(s[0]) && Blank(s[1..])) }

  // No white space inside.
  predicate Solid(s: string) { s == [] || (!IsSpace(s[0]) && Solid(s[1..])) }

  // No white space at either end.
  predicate Tight(s: string) {
    s == [] || (!IsSpace(s[0]) && !IsSpace(s[|s| - 1]))
  }

  // What is left behind leading white space.
  function TrimLeft(s: string): string {
    if s != [] && IsSpace(s[0]) then TrimLeft(s[1..]) else s
  }

  function TrimRight(s: string): string {
    if s != [] && IsSpace(s[|s| - 1]) then TrimRight(s[..|s| - 1]) else s
  }

  function Trim(s: string): string { TrimRight(TrimLeft(s)) }

  // The leading run without white space.
  function Word(s: string): string {
    if s != [] && !IsSpace(s[0]) then [s[0]] + Word(s[1..]) else []
  }

  // The same, stopping at a comment sign too.
  function HashWord(s: string): string {
    if s != [] && !IsSpace(s[0]) && s[0] != '#' then [s[0]] + HashWord(s[1..]) else []
  }

  function LowerChar(c: char): char {
    if 'A' <= c <= 'Z' then (c as int + 32) as char else c
  }

  function Lower(s: string): string {
    if s == [] then [] else [LowerChar(s[0])] + Lower(s[1..])
  }

  predicate Truthy(val: string) {
    var lc := Lower(val);
    lc == "1" || lc == "true" || lc == "yes"
  }

  lemma {:induction false} LowerKeepsShape(s: string)
    ensures |Lower(s)| == |s| && Solid(Lower(s)) == Solid(s)
  {
    if s != [] {
      LowerKeepsShape(s[1..]);
      assert Lower(s)[1..] == Lower(s[1..]);
    }
  }

  lemma TruthyIsSolid(val: string)
    requires Truthy(val)
    ensures val != [] && Solid(val)
  {
    LowerKeepsShape(val);
    var one, yes, tru := "1", "yes", "true";
    assert Solid(one);
    assert yes[1..] == "es" && "es"[1..] == "s" && Solid("s") && Solid("es") && Solid(yes);
    assert tru[1..] == "rue" && "rue"[1..] == "ue" && "ue"[1..] == "e";
    assert Solid("e") && Solid("ue") && Solid("rue") && Solid(tru);
  }

  // ---- Trimming a text known by its parts ----

  lemma {:induction false} TrimLeftIs(w: string, x: string)
    requires Blank(w) && (x == [] || !IsSpace(x[0]))
    ensures TrimLeft(w + x) == x
  {
    if w == [] {
      assert w + x == x;
    } else {
      assert (w + x)[1..] == w[1..] + x;
      TrimLeftIs(w[1..], x);
    }
  }

  lemma {:induction false} BlankInit(w: string)
    requires Blank(w) && w != []
    ensures IsSpace(w[|w| - 1]) && Blank(w[..|w| - 1])
  {
    if |w| > 1 {
      BlankInit(w[1..]);
      assert w[..|w| - 1][1..] == w[1..][..|w| - 2];
    }
  }

  lemma {:induction false} TrimRightIs(x: string, w: string)
    requires Blank(w) && (x == [] || !IsSpace(x[|x| - 1]))
    ensures TrimRight(x + w) == x
    decreases |w|
  {
    if w == [] {
      assert x + w == x;
    } else {
      BlankInit(w);
      assert (x + w)[..|x + w| - 1] == x + w[..|w| - 1];
      TrimRightIs(x, w[..|w| - 1]);
    }
  }

  lemma TrimIs(w: string, x: string, v: string)
    requires Blank(w) && Blank(v) && Tight(x)
    ensures Trim(w + x + v) == x
  {
    if x == [] {
      assert w + x + v == w + v;
      BlankConcat(w, v);
      TrimLeftIs(w + v, []);
      assert w + v + [] == w + v;
    } else {
      assert w + x + v == w + (x + v);
      TrimLeftIs(w, x + v);
      TrimRightIs(x, v);
    }
  }

  lemma {:induction false} BlankConcat(a: string, b: string)
    ensures Blank(a + b) <==> Blank(a) && Blank(b)
  {
    if a == [] {
      assert a + b == b;
    } else {
      assert (a + b)[1..] == a[1..] + b;
      BlankConcat(a[1..], b);
    }
  }

  lemma {:induction false} TrimLeftSplits(s: string) returns (w: string)
    ensures s == w + TrimLeft(s) && Blank(w)
    ensures TrimLeft(s) == [] || !IsSpace(TrimLeft(s)[0])
  {
    if s != [] && IsSpace(s[0]) {
      w := TrimLeftSplits(s[1..]);
      w := [s[0]] + w;
    } else {
      w := [];
    }
  }

  lemma {:induction false} TrimLeftFits(s: string)
    ensures |TrimLeft(s)| <= |s|
  {
    if s != [] && IsSpace(s[0]) {
      TrimLeftFits(s[1..]);
    }
  }

  lemma {:induction false} TrimRightSplits(s: string) returns (w: string)
    ensures s == TrimRight(s) + w && Blank(w)
    ensures TrimRight(s) == [] || (!IsSpace(TrimRight(s)[|TrimRight(s)| - 1]) && s != [] && TrimRight(s)[0] == s[0])
  {
    if s != [] && IsSpace(s[|s| - 1]) {
      w := TrimRightSplits(s[..|s| - 1]);
      BlankConcat(w, [s[|s| - 1]]);
      assert s == s[..|s| - 1] + [s[|s| - 1]];
      w := w + [s[|s| - 1]];
    } else {
      w := [];
    }
  }

  lemma TrimSplits(s: string) returns (w: string, v: string)
    ensures s == w + Trim(s) + v && Blank(w) && Blank(v) && Tight(Trim(s))
  {
    w := TrimLeftSplits(s);
    v := TrimRightSplits(TrimLeft(s));
    assert w + (Trim(s) + v) == w + Trim(s) + v;
  }

  lemma {:induction false} WordIs(v: string, w: string)
    requires Solid(v) && Blank(w)
    ensures Word(v + w) == v
  {
    if v == [] {
      assert v + w == w;
    } else {
      assert (v + w)[1..] == v[1..] + w;
      WordIs(v[1..], w);
    }
  }

  lemma {:induction false} SolidIsTight(s: string)
    requires Solid(s)
    ensures Tight(s)
  {
    if s != [] {
      SolidIsTight(s[1..]);
    }
  }

  // ---- Lines ----

  // split_lines_keep_ends: up to and including the first line feed.
  function FirstLine(data: string): (r: string)
    ensures |r| <= |data|
    ensures data != [] ==> r != []
  {
    if data == [] then []
    else if data[0] == '\n' then [data[0]]
    else [data[0]] + FirstLine(data[1..])
  }

  lemma {:induction false} FirstLineIsPrefix(data: string)
    ensures FirstLine(data) == data[..|FirstLine(data)|]
  {
    if data != [] && data[0] != '\n' {
      FirstLineIsPrefix(data[1..]);
    }
  }

  function Split(data: string): seq<string>
    decreases |data|
  {
    if data == [] then [] else [FirstLine(data)] + Split(data[|FirstLine(data)|..])
  }

  function Join(lines: seq<string>): string {
    if lines == [] then [] else lines[0] + Join(lines[1..])
  }

  // A piece that ends its line.
  predicate Ended(s: string) { s != [] && s[|s| - 1] == '\n' }

  // One line: a line feed at its end or nowhere.
  predicate IsLine(s: string) { s != [] && FirstLine(s) == s }

  predicate Lined(lines: seq<string>) {
    lines == [] ||
    (IsLine(lines[0]) && (|lines| == 1 || Ended(lines[0])) && Lined(lines[1..]))
  }

  lemma {:induction false} JoinSplit(data: string)
    ensures Join(Split(data)) == data
    decreases |data|
  {
    if data != [] {
      var n := |FirstLine(data)|;
      JoinSplit(data[n..]);
      FirstLineIsPrefix(data);
      assert data == data[..n] + data[n..];
    }
  }

  lemma {:induction false} FirstLineStops(a: string, b: string)
    requires a != [] && FirstLine(a) == a && (Ended(a) || b == [])
    ensures FirstLine(a + b) == a
  {
    if b == [] {
      assert a + b == a;
    } else if |a| > 1 {
      assert (a + b)[1..] == a[1..] + b;
      assert FirstLine(a)[1..] == FirstLine(a[1..]);
      FirstLineStops(a[1..], b);
    }
  }

  lemma {:induction false} SplitJoin(lines: seq<string>)
    requires Lined(lines)
    ensures Split(Join(lines)) == lines
  {
    if lines != [] {
      var rest := Join(lines[1..]);
      FirstLineStops(lines[0], rest);
      SplitJoin(lines[1..]);
      assert (lines[0] + rest)[|lines[0]|..] == rest;
    }
  }

  lemma {:induction false} FirstLineEnds(data: string)
    requires data != []
    ensures IsLine(FirstLine(data))
    ensures Ended(FirstLine(data)) || FirstLine(data) == data
  {
    if data[0] != '\n' && |data| > 1 {
      FirstLineEnds(data[1..]);
      assert FirstLine(data)[1..] == FirstLine(data[1..]);
    }
  }

  lemma {:induction false} SplitIsLined(data: string)
    ensures Lined(Split(data))
    decreases |data|
  {
    if data != [] {
      FirstLineEnds(data);
      SplitIsLined(data[|FirstLine(data)|..]);
    }
  }

  method SplitLinesKeepEnds(data: string) returns (lines: seq<string>)
    ensures lines == Split(data)
  {
    lines := [];
    var start := 0;
    while start < |data|
      invariant 0 <= start <= |data|
      invariant Split(data) == lines + Split(data[start..])
    {
      var nl := LineFeed(data, start);
      var next := if nl == |data| then nl else nl + 1;
      SplitStep(data, start, next);
      lines := lines + [data[start..next]];
      start := next;
    }
  }

  // data.find('\n', start); the length of data when there is none.
  method LineFeed(data: string, start: nat) returns (nl: nat)
    requires start < |data|
    ensures start <= nl <= |data|
    ensures FirstLine(data[start..]) == if nl == |data| then data[start..nl] else data[start..nl + 1]
  {
    nl := start;
    while nl < |data| && data[nl] != '\n'
      invariant start <= nl <= |data|
      invariant FirstLine(data[start..]) == data[start..nl] + FirstLine(data[nl..])
    {
      FirstLineStep(data, nl);
      MoveOne(data, start, nl, FirstLine(data[nl + 1..]));
      nl := nl + 1;
    }
    if nl < |data| {
      assert FirstLine(data[nl..]) == [data[nl]];
    }
  }

  lemma MoveOne(s: string, from: nat, i: nat, rest: string)
    requires from <= i < |s|
    ensures s[from..i] + ([s[i]] + rest) == s[from..i + 1] + rest
  {
  }

  lemma SplitStep(data: string, start: nat, next: nat)
    requires start < next <= |data| && FirstLine(data[start..]) == data[start..next]
    ensures Split(data[start..]) == [data[start..next]] + Split(data[next..])
  {
    assert data[start..][next - start..] == data[next..];
  }

  lemma FirstLineStep(data: string, i: nat)
    requires i < |data| && data[i] != '\n'
    ensures FirstLine(data[i..]) == [data[i]] + FirstLine(data[i + 1..])
  {
    assert data[i..][1..] == data[i + 1..];
  }

  method JoinLines(lines: seq<string>) returns (data: string)
    ensures data == Join(lines)
  {
    data := [];
    for i := 0 to |lines|
      invariant data + Join(lines[i..]) == Join(lines)
    {
      assert lines[i..][1..] == lines[i + 1..];
      assert data + (lines[i] + Join(lines[i + 1..])) == (data + lines[i]) + Join(lines[i + 1..]);
      data := data + lines[i];
    }
  }

  // ---- Terminators ----

  function StripEol(line: string): string {
    if line != [] && (line[|line| - 1] == '\n' || line[|line| - 1] == '\r')
    then StripEol(line[..|line| - 1]) else line
  }

  lemma {:induction false} StripEolSplits(line: string) returns (eol: string)
    ensures line == StripEol(line) + eol && Blank(eol)
  {
    if line != [] && (line[|line| - 1] == '\n' || line[|line| - 1] == '\r') {
      eol := StripEolSplits(line[..|line| - 1]);
      BlankConcat(eol, [line[|line| - 1]]);
      eol := eol + [line[|line| - 1]];
    } else {
      eol := [];
    }
  }

  // "\n" when the line has no terminator.
  function EolOf(line: string): string {
    var content := StripEol(line);
    if |content| >= |line| then "\n" else line[|content|..]
  }

  // Text that ends in a visible character keeps it when terminators go.
  lemma {:induction false} StripEolKeeps(x: string, w: string) returns (v: string)
    requires x != [] && !IsSpace(x[|x| - 1]) && Blank(w)
    ensures StripEol(x + w) == x + v && Blank(v)
    decreases |w|
  {
    if w == [] {
      assert x + w == x;
      v := [];
    } else {
      BlankInit(w);
      var c := w[|w| - 1];
      if c == '\n' || c == '\r' {
        assert (x + w)[..|x + w| - 1] == x + w[..|w| - 1];
        v := StripEolKeeps(x, w[..|w| - 1]);
      } else {
        v := w;
      }
    }
  }
}
