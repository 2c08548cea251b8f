// Byte strings as the C++ code sees them: positions, std::string::find and
// std::string::compare at a position. A C++ char is a Dafny char; statements
// about every string therefore include every string of bytes.
module Text {

  datatype Option<+T> = None | Some(value: T)

  type byte = x: int | 0 <= x < 256

  function Init<T>(s: seq<T>): seq<T> requires s != [] { s[..|s| - 1] }
  function Last<T>(s: seq<T>): T requires s != [] { s[|s| - 1] }

  // The pieces of a stream put together.
  function Joined<T>(chunks: seq<seq<T>>): seq<T> {
    if chunks == [] then [] else chunks[0] + Joined(chunks[1..])
  }

  // A position found behind the first n places.
  function Shift(r: Option<nat>, n: nat): Option<nat> {
    match r
    case None => None
    case Some(k) => Some(n + k)
  }

  // White space in JSON, in XML and in base64 text.
  predicate IsWs(c: char) { c == ' ' || c == '\t' || c == '\r' || c == '\n' }

  // White space to the C library.
  predicate IsSpace(c: char) { c == ' ' || 9 <= c as int <= 13 }

  predicate IsDigit(c: char) { '0' <= c <= '9' }

  predicate AllDigits(t: string) { t == [] || (IsDigit(t[0]) && AllDigits(t[1..])) }

  // s.compare(i, |t|, t) == 0: t stands in s at position i. Defined character
  // by character; AtIsSlice says what it means.
  predicate At<T(==)>(s: seq<T>, i: nat, t: seq<T>): (r: bool)
    ensures r ==> i + |t| <= |s|
    decreases |t|
  {
    if t == [] then i <= |s| else i < |s| && s[i] == t[0] && At(s, i + 1, t[1..])
  }

  lemma {:induction false} AtIsSlice<T>(s: seq<T>, i: nat, t: seq<T>)
    ensures At(s, i, t) <==> i + |t| <= |s| && s[i..i + |t|] == t
    decreases |t|
  {
    if t != [] {
      AtIsSlice(s, i + 1, t[1..]);
      if i + |t| <= |s| {
        assert s[i..i + |t|] == [s[i]] + s[i + 1..i + 1 + |t[1..]|];
        assert t == [t[0]] + t[1..];
      }
    }
  }

  lemma AtConcat<T>(s: seq<T>, i: nat, a: seq<T>, b: seq<T>)
    ensures At(s, i, a + b) <==> At(s, i, a) && At(s, i + |a|, b)
  {
    AtIsSlice(s, i, a + b);
    AtIsSlice(s, i, a);
    AtIsSlice(s, i + |a|, b);
    if i + |a + b| <= |s| {
      assert s[i..i + |a + b|] == s[i..i + |a|] + s[i + |a|..i + |a| + |b|];
      assert s[i..i + |a + b|][..|a|] == s[i..i + |a|];
      assert s[i..i + |a + b|][|a|..] == s[i + |a|..i + |a| + |b|];
    }
  }

  // Reading off the first character of a text known to stand at i.
  lemma AtHead<T>(s: seq<T>, i: nat, c: T, t: seq<T>)
    requires At(s, i, [c] + t)
    ensures s[i] == c && At(s, i + 1, t)
  {
    assert ([c] + t)[1..] == t;
  }

  lemma AtSplit<T>(s: seq<T>, i: nat, a: seq<T>, b: seq<T>)
    requires At(s, i, a + b)
    ensures At(s, i, a) && At(s, i + |a|, b)
  {
    AtConcat(s, i, a, b);
  }

  // A literal is present exactly when each of its characters is.
  lemma AtPointwise<T>(s: seq<T>, i: nat, t: seq<T>)
    ensures At(s, i, t) <==> i + |t| <= |s| && forall k :: 0 <= k < |t| ==> s[i + k] == t[k]
  {
    AtIsSlice(s, i, t);
    if i + |t| <= |s| && forall k :: 0 <= k < |t| ==> s[i + k] == t[k] {
      assert s[i..i + |t|] == t;
    }
    if At(s, i, t) {
      forall k | 0 <= k < |t| ensures s[i + k] == t[k] {
        assert s[i..i + |t|][k] == s[i + k];
      }
    }
  }

  // Whether t stands at i depends only on the characters it covers.
  lemma {:induction false} AtSeesOnly<T>(s: seq<T>, u: seq<T>, i: nat, t: seq<T>, n: nat)
    requires n <= |s| && n <= |u| && s[..n] == u[..n] && i + |t| <= n
    ensures At(s, i, t) == At(u, i, t)
    decreases |t|
  {
    if t != [] {
      assert s[i] == s[..n][i] && u[i] == u[..n][i];
      AtSeesOnly(s, u, i + 1, t[1..], n);
    }
  }

  // A search that succeeds early depends only on what it has seen.
  lemma FindSeesOnly<T>(s: seq<T>, u: seq<T>, t: seq<T>, from: nat, at: nat, n: nat)
    requires n <= |s| && n <= |u| && s[..n] == u[..n]
    requires Find(s, t, from) == Some(at) && at + |t| <= n
    ensures Find(u, t, from) == Some(at)
  {
    FindMeans(s, t, from);
    forall k | from <= k <= at ensures At(u, k, t) == At(s, k, t) {
      AtSeesOnly(s, u, k, t, n);
    }
    FindIs(u, t, from, at);
  }

  // Replacing the middle of a text.
  lemma Spliced<T>(s: seq<T>, i: nat, j: nat, t: seq<T>, r: seq<T>)
    requires i <= j <= |s| && r == s[..i] + t + s[j..]
    ensures |r| == i + |t| + |s| - j
    ensures r[..i] == s[..i] && r[i..i + |t|] == t && r[i + |t|..] == s[j..]
    ensures At(r, i, t)
  {
    AtIsSlice(r, i, t);
  }

  lemma AtMiddle<T>(s: seq<T>, a: seq<T>, b: seq<T>, c: seq<T>)
    requires s == a + b + c
    ensures At(s, |a|, b)
  {
    assert s[|a|..|a| + |b|] == b;
    AtIsSlice(s, |a|, b);
  }

  lemma Assoc<T>(a: seq<T>, b: seq<T>, c: seq<T>)
    ensures a + b + c == a + (b + c)
  {
  }

  // Moving one element from the unread part to the read part.
  lemma SplitHead<T>(a: seq<T>, b: seq<T>)
    requires b != []
    ensures a + b == a + [b[0]] + b[1..]
    ensures |b| == 1 ==> a + b == a + [b[0]]
  {
  }

  // std::string::find(t, from): the first position at or after `from`.
  function Find<T(==)>(s: seq<T>, t: seq<T>, from: nat): (r: Option<nat>)
    ensures r.Some? ==> from <= r.value && r.value + |t| <= |s|
    decreases |s| - from
  {
    if At(s, from, t) then Some(from)
    else if from >= |s| then None
    else Find(s, t, from + 1)
  }

  // What Find returns: a place where t stands, with none before it; or no
  // such place exists.
  lemma {:induction false} FindMeans<T>(s: seq<T>, t: seq<T>, from: nat)
    ensures match Find(s, t, from)
      case Some(at) => At(s, at, t) && forall k :: from <= k < at ==> !At(s, k, t)
      case None => forall k: nat :: from <= k ==> !At(s, k, t)
    decreases |s| - from
  {
    if !At(s, from, t) && from < |s| {
      FindMeans(s, t, from + 1);
    }
  }

  // The meaning of Find determines its result.
  lemma {:induction false} FindIs<T>(s: seq<T>, t: seq<T>, from: nat, at: nat)
    requires from <= at && At(s, at, t)
    requires forall k :: from <= k < at ==> !At(s, k, t)
    ensures Find(s, t, from) == Some(at)
    decreases at - from
  {
    if from < at {
      FindIs(s, t, from + 1, at);
    }
  }

  // The bytes of a code point (section 3 of RFC 3629), as the JSON reader and
  // the metadata scan push them.
  function Utf8(cp: nat): string
    requires cp < 0x110000
  {
    if cp < 0x80 then [cp as char]
    else if cp < 0x800 then [(0xC0 + cp / 64) as char, (0x80 + cp % 64) as char]
    else if cp < 0x10000 then
      [(0xE0 + cp / 4096) as char, (0x80 + cp / 64 % 64) as char, (0x80 + cp % 64) as char]
    else
      [(0xF0 + cp / 262144) as char, (0x80 + cp / 4096 % 64) as char,
       (0x80 + cp / 64 % 64) as char, (0x80 + cp % 64) as char]
  }

  predicate Starts(s: string, t: string) { |t| <= |s| && s[..|t|] == t }

  // The same from the front of a text, taken off character by character.
  function Index(s: string, t: string): (r: Option<nat>)
    ensures r.Some? ==> r.value + |t| <= |s|
  {
    if Starts(s, t) then Some(0)
    else if s == [] then None
    else
      match Index(s[1..], t)
      case None => None
      case Some(k) => Some(k + 1)
  }

  lemma StartsIsAt(s: string, i: nat, t: string)
    requires i <= |s|
    ensures Starts(s[i..], t) <==> At(s, i, t)
  {
    AtIsSlice(s, i, t);
    if i + |t| <= |s| {
      assert s[i..][..|t|] == s[i..i + |t|];
    }
  }

  // Both searches find the same place.
  lemma {:induction false} IndexIsFind(s: string, t: string, from: nat)
    requires from <= |s|
    ensures Find(s, t, from) == match Index(s[from..], t) case None => None case Some(k) => Some(from + k)
    decreases |s| - from
  {
    StartsIsAt(s, from, t);
    if !At(s, from, t) && from < |s| {
      assert s[from..][1..] == s[from + 1..];
      IndexIsFind(s, t, from + 1);
    }
  }

  // The first place of one character.
  function IndexOf(s: string, c: char): (r: Option<nat>)
    ensures r.Some? ==> r.value < |s| && s[r.value] == c
  {
    if s == [] then None
    else if s[0] == c then Some(0)
    else
      match IndexOf(s[1..], c)
      case None => None
      case Some(k) => Some(k + 1)
  }
}
