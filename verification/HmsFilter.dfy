// What try_filter_hms_code does to a report frame (src/agent.cpp): it edits
// the bytes of one array only, which is the array the reader sees there, drops
// exactly the entries with the target code, and has nothing left to do when
// called again.
module HmsFilter {
  import opened Text
  import opened JsonValue
  import opened JsonGrammar
  import opened JsonLocal
  import opened JsonRoundTrip
  import opened JsonAccepted
  import opened HmsSearch
  import opened JsonPatch
  import opened JsonSpan

  // ---- Which entries stay ----

  // The positions of the entries without the code, counted from `from`.
  function Positions(items: seq<Value>, target: int, from: nat): seq<nat> {
    if items == [] then []
    else (if HasCode(items[0], target) then [] else [from]) + Positions(items[1..], target, from + 1)
  }

  lemma {:induction false} PositionsHoldKept(items: seq<Value>, target: int, from: nat)
    ensures var at := Positions(items, target, from);
      && |at| == |Kept(items, target)|
      && forall k :: 0 <= k < |at| ==>
           from <= at[k] < from + |items| && Kept(items, target)[k] == items[at[k] - from]
  {
    hide HasCode;
    if items != [] {
      PositionsHoldKept(items[1..], target, from + 1);
      var rest := Positions(items[1..], target, from + 1);
      var at, head := Positions(items, target, from), if HasCode(items[0], target) then 0 else 1;
      forall k | 0 <= k < |at|
        ensures from <= at[k] < from + |items| && Kept(items, target)[k] == items[at[k] - from]
      {
        if k >= head {
          assert at[k] == rest[k - head];
          assert Kept(items, target)[k] == Kept(items[1..], target)[k - head];
        }
      }
    }
  }

  lemma {:induction false} PositionsAscend(items: seq<Value>, target: int, from: nat, k: nat)
    requires k < |Positions(items, target, from)|
    ensures from <= Positions(items, target, from)[k]
    ensures forall j :: 0 <= j < k ==> Positions(items, target, from)[j] < Positions(items, target, from)[k]
  {
    var at, rest := Positions(items, target, from), Positions(items[1..], target, from + 1);
    if HasCode(items[0], target) {
      assert at == rest;
      PositionsAscend(items[1..], target, from + 1, k);
    } else {
      assert at == [from] + rest;
      if k > 0 { PositionsAscend(items[1..], target, from + 1, k - 1); }
    }
  }

  lemma {:induction false} PositionsAreThoseKept(items: seq<Value>, target: int, from: nat, i: nat)
    requires i < |items|
    ensures from + i in Positions(items, target, from) <==> !HasCode(items[i], target)
  {
    var rest := Positions(items[1..], target, from + 1);
    if i > 0 {
      PositionsAreThoseKept(items[1..], target, from + 1, i - 1);
    } else if from in rest {
      var k :| 0 <= k < |rest| && rest[k] == from;
      PositionsAscend(items[1..], target, from + 1, k);
    }
  }

  // Kept is the subsequence of the entries without the code: the positions
  // that stay are listed in order, and every one of them is listed.
  lemma KeptIsSubsequence(items: seq<Value>, target: int)
    ensures var at := Positions(items, target, 0);
      && |at| == |Kept(items, target)|
      && (forall k :: 0 <= k < |at| ==> at[k] < |items| && Kept(items, target)[k] == items[at[k]])
      && (forall j, k :: 0 <= j < k < |at| ==> at[j] < at[k])
      && (forall i :: 0 <= i < |items| ==> (i in at <==> !HasCode(items[i], target)))
  {
    hide HasCode, Positions, Kept;
    PositionsHoldKept(items, target, 0);
    var at := Positions(items, target, 0);
    forall k | 0 <= k < |at| ensures forall j :: 0 <= j < k ==> at[j] < at[k] {
      PositionsAscend(items, target, 0, k);
    }
    forall i | 0 <= i < |items| ensures i in Positions(items, target, 0) <==> !HasCode(items[i], target) {
      PositionsAreThoseKept(items, target, 0, i);
    }
  }

  lemma {:induction false} KeptIsClean(items: seq<Value>, target: int)
    ensures !AnyHasCode(Kept(items, target), target)
    ensures ValidItems(items) ==> ValidItems(Kept(items, target))
    ensures PrintableItems(items) ==> PrintableItems(Kept(items, target))
    ensures ItemsDepth(Kept(items, target)) <= ItemsDepth(items)
  {
    if items != [] {
      KeptIsClean(items[1..], target);
      var rest := Kept(items[1..], target);
      assert ([items[0]] + rest)[1..] == rest;
      assert [] + rest == rest;
    }
  }

  // ---- Where the edit happens ----

  // The search for the array looks at nothing past its '['.
  lemma {:induction false} SearchSeesPrefix(s: string, t: string, search: nat, open: nat)
    requires HmsOpen(s, search) == Some(open)
    requires open < |t| && t[..open + 1] == s[..open + 1]
    ensures HmsOpen(t, search) == Some(open)
    decreases |s| - search
  {
    hide ArrayBehind, Find, At;
    var key := Find(s, HMS_KEY, search).value;
    var after := key + |HMS_KEY|;
    FindSeesOnly(s, t, HMS_KEY, search, key, open + 1);
    ArraySeesPrefix(s, t, after, open);
    if ArrayBehind(s, after).None? {
      SearchSeesPrefix(s, t, after, open);
    }
  }

  lemma ArraySeesPrefix(s: string, t: string, after: nat, open: nat)
    requires after <= open < |s| && s[open] == '['
    requires open < |t| && t[..open + 1] == s[..open + 1]
    ensures ArrayBehind(t, after) == ArrayBehind(s, after)
  {
    NextNonSpace(s, t, after, open);
    var colon := WsEnd(s, after);
    if s[colon] == ':' {
      NextNonSpace(s, t, colon + 1, open);
    }
  }

  lemma {:induction false} NextNonSpace(s: string, t: string, i: nat, open: nat)
    requires i <= open < |s| && open < |t| && t[..open + 1] == s[..open + 1] && !IsWs(s[open])
    ensures WsEnd(s, i) <= open && WsEnd(t, i) == WsEnd(s, i) && t[WsEnd(s, i)] == s[WsEnd(s, i)]
    decreases open - i
  {
    assert t[i] == t[..open + 1][i] == s[..open + 1][i] == s[i];
    if IsWs(s[i]) {
      NextNonSpace(s, t, i + 1, open);
    }
  }

  // ---- Which array that is ----

  // The matcher stops at a closing bracket.
  lemma {:induction false} StopsAtBracket(
      s: string, i: nat, open: char, close: char, depth: nat, lex: Lex, hit: bool)
    requires depth >= 1
    ensures var end := Scan(s, i, open, close, depth, lex, hit).end; end.Some? ==> s[end.value] == close
    decreases |s| - i
  {
    hide At;
    if i < |s| {
      match lex
      case Escaped => StopsAtBracket(s, i + 1, open, close, depth, Inside, hit);
      case Inside =>
        StopsAtBracket(s, i + 1, open, close, depth,
                       if s[i] == '\\' then Escaped else if s[i] == '"' then Outside else Inside, hit);
      case Outside =>
        if s[i] == '"' {
          StopsAtBracket(s, i + 1, open, close, depth, Inside, hit || (open == '{' && depth == 1 && At(s, i, FILE_KEY)));
        } else if s[i] == open {
          StopsAtBracket(s, i + 1, open, close, depth + 1, Outside, hit);
        } else if s[i] != close {
          StopsAtBracket(s, i + 1, open, close, depth, Outside, hit);
        } else if depth > 1 {
          StopsAtBracket(s, i + 1, open, close, depth - 1, Outside, hit);
        }
    }
  }

  lemma {:induction false} WsEndsBefore(s: string, i: nat)
    requires i < |s| && !IsWs(s[|s| - 1])
    ensures WsEnd(s, i) < |s|
    decreases |s| - i
  {
    if IsWs(s[i]) {
      WsEndsBefore(s, i + 1);
    }
  }

  // A text in brackets is accepted when it is one array and nothing else.
  lemma ParseOfArray(u: string)
    requires |u| > 1 && u[0] == '[' && u[|u| - 1] == ']'
    ensures Parse(u).Ok? <==> ArrayAt(u, 0, 1).Ok? && ArrayAt(u, 0, 1).value.next == |u|
    ensures Parse(u).Ok? ==> Parse(u).value == ArrayAt(u, 0, 1).value.value
  {
    hide ArrayAt, ObjectAt, ValueFrom;
    assert WsEnd(u, 0) == 0;
    assert ValueAt(u, 0, 0) == ValueFrom(u, 0, 0);
    ContainerDispatch(u, 0, 0);
    if ArrayAt(u, 0, 1).Ok? && ArrayAt(u, 0, 1).value.next < |u| {
      WsEndsBefore(u, ArrayAt(u, 0, 1).value.next);
    }
  }

  // Cutting the array out of the text and putting it back.
  lemma SliceAgrees(s: string, open: nat, end: nat)
    requires open <= end <= |s|
    ensures Agree(s, s[open..end], 0 - open, open, end)
    ensures Agree(s[open..end], s, open, 0, end - open)
  {
  }

  lemma ArrayIsArray(s: string, open: nat, level: nat)
    requires open < |s| && ArrayAt(s, open, level).Ok?
    ensures ArrayAt(s, open, level).value.value.Array?
  {
    hide ItemsAt, WsEnd;
    var j := WsEnd(s, open + 1);
    if !(j < |s| && s[j] == ']') {
      ItemsGiveArray(s, j, level, []);
    }
  }

  // From the payload to the slice the filter parses, and back.
  lemma SliceIsRead(s: string, open: nat, close: nat)
    requires open < close < |s| && s[open] == '[' && s[close] == ']'
    ensures Parse(s[open..close + 1]).Ok? <==> ArrayAt(s, open, 1).Ok? && ArrayAt(s, open, 1).value.next == close + 1
    ensures Parse(s[open..close + 1]).Ok? ==> Parse(s[open..close + 1]).value == ArrayAt(s, open, 1).value.value
  {
    hide Parse, ArrayAt, Agree;
    var u := s[open..close + 1];
    assert u[0] == s[open] && u[|u| - 1] == s[close];
    ParseOfArray(u);
    SliceAgrees(s, open, close + 1);
    if ArrayAt(u, 0, 1).Ok? && ArrayAt(u, 0, 1).value.next == |u| {
      ArrayMoves(u, s, open, 0, |u|, 0, 1);
    }
    if ArrayAt(s, open, 1).Ok? && ArrayAt(s, open, 1).value.next == close + 1 {
      ArrayMoves(s, u, 0 - open, open, close + 1, open, 1);
    }
  }

  // On every payload: the span the filter edits is the array the reader reads
  // from that bracket on, with the entries it reads; where the reader takes no
  // array there, nothing is edited.
  lemma SpanIsRealArray(s: string, open: nat)
    requires HmsOpen(s, 0) == Some(open)
    ensures match ArrayAt(s, open, 1)
      case Ok(Read(v, next)) =>
        v.Array? && HmsSpan(s) == Some(Span(open, next - 1)) && HmsItems(s) == Some(v.items)
      case Err(_) => HmsItems(s) == None
  {
    hide HmsOpen, Parse, Scan, ArrayAt;
    StopsAtBracket(s, open + 1, '[', ']', 1, Outside, false);
    var end := Scan(s, open + 1, '[', ']', 1, Outside, false).end;
    if ArrayAt(s, open, 1).Ok? {
      ArrayIsArray(s, open, 1);
      ArrayEnds(s, open, 1);
    }
    if end.Some? { SliceIsRead(s, open, end.value); }
  }

  // ---- What the edit leaves ----

  lemma KeptPrints(slice: string, items: seq<Value>, target: int)
    requires Parse(slice) == Ok(Array(items))
    ensures var kept := Kept(items, target);
      ValidItems(kept) && PrintableItems(kept) && 1 + ItemsDepth(kept) <= MAX_NESTING_DEPTH
  {
    AcceptedIsValid(slice);
    KeptIsClean(items, target);
  }

  lemma SameOpening(s: string, s': string, open: nat, text: string)
    requires open < |s| && s[open] == '[' && text != [] && text[0] == '['
    requires open + |text| <= |s'| && s'[..open] == s[..open] && s'[open..open + |text|] == text
    ensures s'[..open + 1] == s[..open + 1]
  {
    assert s'[open] == s'[open..open + |text|][0];
    assert s'[..open + 1] == s'[..open] + [s'[open]];
    assert s[..open + 1] == s[..open] + [s[open]];
  }

  lemma PrintedArrayIsRead(s: string, open: nat, kept: seq<Value>, text: string)
    requires ValidItems(kept) && PrintableItems(kept) && 1 + ItemsDepth(kept) <= MAX_NESTING_DEPTH
    requires text == Dump(Array(kept)) && At(s, open, text)
    ensures text != [] && text[0] == '[' && ArrayAt(s, open, 1) == Ok(Read(Array(kept), open + |text|))
  {
    hide ArrayAt, At;
    ArrayReadsBack(s, open, 1, kept);
  }

  // With a printed array put in place of the old one, the filter's span is
  // the printed array.
  lemma ReplacedArrayIsFound(s: string, span: Span, kept: seq<Value>, text: string, s': string)
    requires HmsSpan(s) == Some(span)
    requires ValidItems(kept) && PrintableItems(kept) && 1 + ItemsDepth(kept) <= MAX_NESTING_DEPTH
    requires text == Dump(Array(kept)) && s' == s[..span.open] + text + s[span.close + 1..]
    ensures HmsSpan(s') == Some(Span(span.open, span.open + |text| - 1)) && HmsItems(s') == Some(kept)
  {
    hide HmsOpen, HmsItems, Dump, ArrayAt, At, Scan;
    Spliced(s, span.open, span.close + 1, text, s');
    PrintedArrayIsRead(s', span.open, kept, text);
    SameOpening(s, s', span.open, text);
    SearchSeesPrefix(s, s', 0, span.open);
    SpanIsRealArray(s', span.open);
  }

  lemma SpanOpens(s: string, span: Span)
    requires HmsSpan(s) == Some(span)
    ensures HmsOpen(s, 0) == Some(span.open)
  {
    hide HmsOpen, Scan;
  }

  // The whole effect of an edit: the text around the array is untouched, the
  // array holds the old entries without the target ones, and it is again the
  // array the filter would look at.
  lemma FilterEffect(s: string, target: int, s': string, span: Span, items: seq<Value>, text: string)
    requires FilterHms(s, target) == Some(s')
    requires HmsSpan(s) == Some(span) && HmsItems(s) == Some(items)
    requires text == Dump(Array(Kept(items, target)))
    ensures ArrayAt(s, span.open, 1) == Ok(Read(Array(items), span.close + 1))
    ensures |s'| == span.open + |text| + |s| - (span.close + 1)
    ensures s'[..span.open] == s[..span.open] && s'[span.open + |text|..] == s[span.close + 1..]
    ensures HmsSpan(s') == Some(Span(span.open, span.open + |text| - 1))
    ensures HmsItems(s') == Some(Kept(items, target))
  {
    SpanOpens(s, span);
    SpanIsRealArray(s, span.open);
    EditIsSplice(s, target, s', span, items, text);
    Spliced(s, span.open, span.close + 1, text, s');
    ItemsWereParsed(s, span, items);
    KeptPrints(s[span.open..span.close + 1], items, target);
    hide *;
    ReplacedArrayIsFound(s, span, Kept(items, target), text, s');
  }

  lemma EditIsSplice(s: string, target: int, s': string, span: Span, items: seq<Value>, text: string)
    requires FilterHms(s, target) == Some(s') && HmsSpan(s) == Some(span) && HmsItems(s) == Some(items)
    requires text == Dump(Array(Kept(items, target)))
    ensures s' == s[..span.open] + text + s[span.close + 1..]
  {
    hide HmsSpan, HmsItems, Dump, Kept, AnyHasCode;
  }

  lemma ItemsWereParsed(s: string, span: Span, items: seq<Value>)
    requires HmsSpan(s) == Some(span) && HmsItems(s) == Some(items)
    ensures Parse(s[span.open..span.close + 1]) == Ok(Array(items))
  {
    hide HmsSpan, Parse;
  }

  // By the fields of the entries: what the array holds after an edit are the old
  // entries of which no field is the code, in their old order.
  lemma RemovedExactly(s: string, target: int, s': string)
    requires FilterHms(s, target) == Some(s')
    ensures HmsItems(s).Some? && HmsItems(s').Some?
    ensures exists at: seq<nat> :: Remain(HmsItems(s).value, HmsItems(s').value, target, at)
  {
    hide HmsSpan, HmsItems, Parse, Dump, Kept, AnyHasCode, HasCode, Bears, Positions, ValidItems, PrintableItems;
    HasItems(s, target);
    var items, span := HmsItems(s).value, HmsSpan(s).value;
    FilterEffect(s, target, s', span, items, Dump(Array(Kept(items, target))));
    KeptIsSubsequence(items, target);
    ItemsWereParsed(s, span, items);
    SoundItems(s[span.open..span.close + 1], items);
    forall i | 0 <= i < |items| ensures HasCode(items[i], target) <==> Bears(items[i], target) {
      EachIsSound(items, i);
      HasCodeMeans(items[i], target);
    }
    assert Remain(items, HmsItems(s').value, target, Positions(items, target, 0));
  }

  // `left` are the entries at the positions `at`, which ascend and are those of
  // the entries that do not bear the code.
  ghost predicate Remain(items: seq<Value>, left: seq<Value>, target: int, at: seq<nat>) {
    && |at| == |left|
    && (forall k :: 0 <= k < |at| ==> at[k] < |items| && left[k] == items[at[k]])
    && (forall j, k :: 0 <= j < k < |at| ==> at[j] < at[k])
    && (forall i :: 0 <= i < |items| ==> (i in at <==> !Bears(items[i], target)))
  }

  lemma HasItems(s: string, target: int)
    requires FilterHms(s, target).Some?
    ensures HmsItems(s).Some? && HmsSpan(s).Some?
  {
    hide HmsSpan, Parse;
  }

  // A second call never edits.
  lemma FilterTwice(s: string, target: int, s': string)
    requires FilterHms(s, target) == Some(s')
    ensures FilterHms(s', target) == None
  {
    hide HmsSpan, Parse, Dump, Kept, AnyHasCode;
    var items := HmsItems(s).value;
    FilterEffect(s, target, s', HmsSpan(s).value, items, Dump(Array(Kept(items, target))));
    KeptIsClean(items, target);
  }
}
