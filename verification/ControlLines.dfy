// What the reply reader of src/ftps.cpp:396-428 makes of a reply as a server
// writes it: any number of lines, ended as the server likes, and a closing line
// of three digits and a blank.
module ControlLines {
  import opened Text
  import opened ControlReply

  // A line, ended by a line feed with or without a carriage return before it.
  datatype Sent = Sent(text: string, withReturn: bool)

  ghost predicate GoodLine(l: Sent) {
    '\n' !in l.text && (l.withReturn || l.text == "" || Last(l.text) != '\r')
  }

  function Wire(l: Sent): string { l.text + if l.withReturn then "\r\n" else "\n" }

  function WireAll(lines: seq<Sent>, rest: string): string {
    if lines == [] then rest else Wire(lines[0]) + WireAll(lines[1..], rest)
  }

  const DIGITS := "0123456789"

  // Three decimal digits, a blank, and anything.
  ghost predicate Closes(t: string, code: nat) {
    && code < 1000 && |t| >= 4
    && t[0] == DIGITS[code / 100] && t[1] == DIGITS[code / 10 % 10] && t[2] == DIGITS[code % 10] && t[3] == ' '
  }

  ghost predicate GoesOn(l: Sent) { GoodLine(l) && forall code: nat :: !Closes(l.text, code) }

  function Texts(lines: seq<Sent>): seq<string> {
    if lines == [] then [] else [lines[0].text] + Texts(lines[1..])
  }

  // The lines with line feeds between them.
  function Lines(texts: seq<string>): string {
    if texts == [] then "" else texts[0] + if |texts| == 1 then "" else "\n" + Lines(texts[1..])
  }

  // Empty lines before the first other one leave no trace.
  function Together(texts: seq<string>): string {
    if texts != [] && texts[0] == "" then Together(texts[1..]) else Lines(texts)
  }

  lemma DigitIs(c: char)
    requires IsDigit(c)
    ensures 0 <= c as int - 48 < 10 && DIGITS[c as int - 48] == c
  {
  }

  lemma DigitFrom(d: nat)
    requires d < 10
    ensures IsDigit(DIGITS[d]) && DIGITS[d] as int - 48 == d
  {
  }

  lemma ThreeDigits(a: nat, b: nat, c: nat)
    requires a < 10 && b < 10 && c < 10
    ensures var n := a * 100 + b * 10 + c; n / 100 == a && n / 10 % 10 == b && n % 10 == c
  {
  }

  lemma CodeMeans(t: string, code: nat)
    ensures Code(t) == Some(code) <==> Closes(t, code)
  {
    if Code(t).Some? { CodeCloses(t); }
    if Closes(t, code) { ClosingCode(t, code); }
  }

  lemma CodeCloses(t: string)
    requires Code(t).Some?
    ensures Closes(t, Code(t).value)
  {
    hide IsDigit;
    DigitIs(t[0]);
    DigitIs(t[1]);
    DigitIs(t[2]);
    ThreeDigits(t[0] as int - 48, t[1] as int - 48, t[2] as int - 48);
  }

  lemma ClosingCode(t: string, code: nat)
    requires Closes(t, code)
    ensures Code(t) == Some(code)
  {
    hide IsDigit;
    DigitFrom(code / 100);
    DigitFrom(code / 10 % 10);
    DigitFrom(code % 10);
  }

  lemma {:induction false} NoFeed(t: string)
    requires '\n' !in t
    ensures Feed(t) == None
  {
    if t != [] {
      NoFeed(t[1..]);
    }
  }

  lemma LineIsRead(l: Sent, rest: string)
    requires GoodLine(l)
    ensures FirstLine(Wire(l) + rest) == Line(l.text, rest)
  {
    hide FirstLine;
    var line := l.text + if l.withReturn then "\r" else "";
    NoFeed(line);
    FeedBehind(line, rest);
    assert Wire(l) + rest == line + (['\n'] + rest);
    if l.withReturn {
      assert line[..|line| - 1] == l.text;
    } else {
      assert line == l.text;
    }
  }

  // The text of the reply when `before` has been read.
  function Whole(before: string, texts: seq<string>): string {
    if before == "" then Together(texts) else if texts == [] then before else before + "\n" + Lines(texts)
  }

  lemma WholeGrows(before: string, texts: seq<string>)
    requires texts != []
    ensures Whole(Extended(before, texts[0]), texts[1..]) == Whole(before, texts)
    ensures |Extended(before, texts[0])| <= |Whole(before, texts)|
  {
    if before != "" {
      if |texts| > 1 {
        assert before + "\n" + texts[0] + "\n" + Lines(texts[1..]) == before + "\n" + (texts[0] + ("\n" + Lines(texts[1..])));
      } else {
        assert texts[0] + "" == texts[0];
      }
    } else if texts[0] != "" {
      if |texts| > 1 {
        assert texts[0] + "\n" + Lines(texts[1..]) == texts[0] + ("\n" + Lines(texts[1..]));
      } else {
        assert texts[0] + "" == texts[0];
      }
    }
  }

  lemma {:induction false} ReplyFrom(lines: seq<Sent>, closing: Sent, code: nat, rest: string, before: string)
    requires forall l :: l in lines ==> GoesOn(l)
    requires GoodLine(closing) && Closes(closing.text, code)
    ensures ReplyOf(WireAll(lines + [closing], rest), before) ==
      var text := Whole(before, Texts(lines + [closing]));
      if |text| > MAX_REPLY then Failed else Reply(code, text, rest)
  {
    hide FirstLine, Code, Whole, Closes, GoodLine, Extended;
    var all := lines + [closing];
    assert lines != [] ==> all[0] == lines[0] && GoesOn(lines[0]);
    var l, later := all[0], WireAll(all[1..], rest);
    LineIsRead(l, later);
    WholeGrows(before, Texts(all));
    assert Texts(all)[1..] == Texts(all[1..]);
    if lines == [] {
      CodeMeans(l.text, code);
      LastOne(before, l.text);
      assert all[1..] == [] && later == rest && Texts(all) == [l.text];
      assert WireAll(all, rest) == Wire(l) + rest;
    } else {
      if Code(l.text).Some? { CodeMeans(l.text, Code(l.text).value); }
      assert all[1..] == lines[1..] + [closing];
      ReplyFrom(lines[1..], closing, code, rest, Extended(before, l.text));
    }
  }

  lemma LastOne(before: string, t: string)
    ensures Whole(before, [t]) == Extended(before, t)
  {
    assert [t][1..] == [] && Lines([]) == "" && Together([]) == "";
    assert t + "" == t;
    assert Lines([t]) == t;
    assert Together([t]) == t;
  }

  // Whatever lines come before it, the closing line ends the reply with the
  // number of its three digits, and the text is that of all lines, unless that
  // is too long.
  lemma ReplyReads(lines: seq<Sent>, closing: Sent, code: nat, rest: string)
    requires forall l :: l in lines ==> GoesOn(l)
    requires GoodLine(closing) && Closes(closing.text, code)
    ensures ReplyOf(WireAll(lines + [closing], rest), []) ==
      var text := Together(Texts(lines + [closing]));
      if |text| > MAX_REPLY then Failed else Reply(code, text, rest)
  {
    ReplyFrom(lines, closing, code, rest, []);
  }

  // A reply of one line that begins with 331 has the code 331.
  lemma PasswordWanted(tail: string)
    requires '\n' !in tail && |tail| < 1000
    ensures ReplyOf("331 " + tail + "\r\n", []) == Reply(331, "331 " + tail, "")
  {
    hide ReplyOf, Closes;
    var closing := Sent("331 " + tail, true);
    ThreeCloses(tail);
    assert WireAll([closing], "") == "331 " + tail + "\r\n" by {
      assert [closing][1..] == [];
      assert Wire(closing) + "" == "331 " + tail + "\r\n";
    }
    assert [] + [closing] == [closing];
    LastOne("", closing.text);
    assert Texts([closing]) == [closing.text];
    ReplyReads([], closing, 331, "");
  }

  lemma ThreeCloses(tail: string)
    ensures Closes("331 " + tail, 331)
  {
  }
}
