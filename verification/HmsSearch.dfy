// Where try_filter_hms_code looks for its array (src/agent.cpp:1052-1072): the
// first "hms" key with a colon and an opening bracket behind it.
module HmsSearch {
  import opened Text
  import opened JsonGrammar
  import opened JsonSyntax

  const HMS_KEY := "\"hms\""

  // The '[' of an array standing behind a key, if that is what stands there.
  function ArrayBehind(s: string, after: nat): (r: Option<nat>)
    requires after <= |s|
    ensures r.Some? ==> after <= r.value < |s| && s[r.value] == '['
  {
    var colon := WsEnd(s, after);
    if colon >= |s| || s[colon] != ':' then None
    else
      var open := WsEnd(s, colon + 1);
      if open >= |s| || s[open] != '[' then None else Some(open)
  }

  // The '[' of the first "hms" key, from `search` on, whose value is an array.
  function HmsOpen(s: string, search: nat): (r: Option<nat>)
    ensures r.Some? ==> search + |HMS_KEY| <= r.value < |s| && s[r.value] == '['
    decreases |s| - search
  {
    match Find(s, HMS_KEY, search)
    case None => None
    case Some(key) =>
      var open := ArrayBehind(s, key + |HMS_KEY|);
      if open.Some? then open else HmsOpen(s, key + |HMS_KEY|)
  }

  // ---- What that is ----

  // From `after` on there is nothing but white space, a colon, white space and
  // the bracket at `open`.
  ghost predicate ArrayStands(s: string, after: nat, open: nat) {
    exists colon: nat :: ColonStands(s, after, colon, open)
  }

  ghost predicate ColonStands(s: string, after: nat, colon: nat, open: nat) {
    && after <= colon < open < |s|
    && Gap(s[after..colon]) && s[colon] == ':' && Gap(s[colon + 1..open]) && s[open] == '['
  }

  predicate KeyStands(s: string, k: nat) { k + 5 <= |s| && s[k..k + 5] == ['"', 'h', 'm', 's', '"'] }

  // The search resumes behind a key, so it passes over one whose first quote
  // is the last quote of a key it has looked at.
  predicate Looked(s: string, k: nat) { KeyStands(s, k) && (k >= 4 ==> !Looked(s, k - 4)) }

  ghost predicate HmsArray(s: string, k: nat, open: nat) { Looked(s, k) && ArrayStands(s, k + 5, open) }

  ghost predicate FirstFrom(s: string, search: nat, r: Option<nat>) {
    match r
    case None => forall k: nat, o: nat :: search <= k ==> !HmsArray(s, k, o)
    case Some(open) =>
      exists k: nat :: search <= k && HmsArray(s, k, open) &&
        forall j: nat, o: nat :: search <= j < k ==> !HmsArray(s, j, o)
  }

  // The bracket of the array of the first key that has one, or nothing when no
  // key has one.
  ghost predicate FirstArray(s: string, r: Option<nat>) { FirstFrom(s, 0, r) }

  lemma {:induction false} GapRuns(s: string, i: nat)
    requires i <= |s|
    ensures Gap(s[i..WsEnd(s, i)])
    decreases |s| - i
  {
    if i < |s| && IsWs(s[i]) {
      GapRuns(s, i + 1);
      assert s[i..WsEnd(s, i)][1..] == s[i + 1..WsEnd(s, i)];
    }
  }

  lemma {:induction false} GapEnds(s: string, i: nat, j: nat)
    requires i <= j < |s| && Gap(s[i..j]) && !IsWs(s[j])
    ensures WsEnd(s, i) == j
    decreases j - i
  {
    if i < j {
      assert s[i..j][0] == s[i] && s[i..j][1..] == s[i + 1..j];
      GapEnds(s, i + 1, j);
    }
  }

  lemma ArrayBehindMeans(s: string, after: nat, open: nat)
    requires after <= |s|
    ensures ArrayBehind(s, after) == Some(open) <==> ArrayStands(s, after, open)
  {
    hide WsEnd, Gap;
    if ArrayBehind(s, after) == Some(open) {
      var colon := WsEnd(s, after);
      GapRuns(s, after);
      GapRuns(s, colon + 1);
      assert ColonStands(s, after, colon, open);
    }
    if ArrayStands(s, after, open) {
      var colon: nat :| ColonStands(s, after, colon, open);
      GapEnds(s, after, colon);
      GapEnds(s, colon + 1, open);
    }
  }

  lemma KeyIsKey(s: string, k: nat)
    ensures KeyStands(s, k) <==> At(s, k, HMS_KEY)
  {
    AtIsSlice(s, k, HMS_KEY);
    assert HMS_KEY == ['"', 'h', 'm', 's', '"'];
  }

  lemma KeysOverlap(s: string, k: nat, j: nat)
    requires KeyStands(s, k) && KeyStands(s, j) && k < j < k + 5
    ensures j == k + 4
  {
    assert s[j] == s[j..j + 5][0] && s[j] == s[k..k + 5][j - k];
  }

  // No key that the search has looked at reaches behind `search`.
  ghost predicate Aligned(s: string, search: nat) {
    forall k: nat :: k < search && Looked(s, k) ==> k + 5 <= search
  }

  // The next key found is one to look at, and the next one after it.
  lemma NextKey(s: string, search: nat)
    requires Aligned(s, search)
    ensures match Find(s, HMS_KEY, search)
      case None => forall k: nat :: search <= k ==> !Looked(s, k)
      case Some(key) =>
        Looked(s, key) && Aligned(s, key + 5) && forall k: nat :: search <= k < key + 5 && k != key ==> !Looked(s, k)
  {
    hide At, Find;
    FindMeans(s, HMS_KEY, search);
    forall k: nat ensures KeyStands(s, k) <==> At(s, k, HMS_KEY) { KeyIsKey(s, k); }
    var found := Find(s, HMS_KEY, search);
    if found.Some? {
      var key := found.value;
      assert key >= 4 && Looked(s, key - 4) ==> key - 4 >= search;
      assert Looked(s, key);
      forall k: nat | key < k < key + 5 ensures !Looked(s, k) {
        if KeyStands(s, k) { KeysOverlap(s, key, k); }
      }
    }
  }

  lemma {:induction false} OpenIsFirst(s: string, search: nat)
    requires Aligned(s, search)
    ensures FirstFrom(s, search, HmsOpen(s, search))
    decreases |s| - search
  {
    hide Find, Looked, ArrayBehind, ArrayStands, Aligned;
    NextKey(s, search);
    var found := Find(s, HMS_KEY, search);
    if found.Some? {
      var key := found.value;
      var open := ArrayBehind(s, key + 5);
      if open.Some? {
        ArrayBehindMeans(s, key + 5, open.value);
        assert HmsArray(s, key, open.value);
      } else {
        OpenIsFirst(s, key + 5);
        forall k: nat, o: nat | search <= k < key + 5 ensures !HmsArray(s, k, o) {
          if k == key { ArrayBehindMeans(s, key + 5, o); }
        }
      }
    }
  }

  lemma HmsOpenMeans(s: string)
    ensures FirstArray(s, HmsOpen(s, 0))
  {
    OpenIsFirst(s, 0);
  }

  // ---- The search loop ----

  method FindHmsArray(payload: string) returns (open: Option<nat>)
    ensures open == HmsOpen(payload, 0) && FirstArray(payload, open)
  {
    hide FirstArray;
    HmsOpenMeans(payload);
    var search: nat := 0;
    while true
      invariant HmsOpen(payload, search) == HmsOpen(payload, 0)
      decreases |payload| - search
    {
      var key := Find(payload, HMS_KEY, search);
      if key.None? { return None; }
      open := FindArrayBehind(payload, key.value + |HMS_KEY|);
      if open.Some? { return; }
      search := key.value + |HMS_KEY|;
    }
  }

  method FindArrayBehind(payload: string, after: nat) returns (open: Option<nat>)
    requires after <= |payload|
    ensures open == ArrayBehind(payload, after)
  {
    var i := WsEnd(payload, after);
    if i >= |payload| || payload[i] != ':' { return None; }
    i := WsEnd(payload, i + 1);
    if i >= |payload| || payload[i] != '[' { return None; }
    return Some(i);
  }
}
