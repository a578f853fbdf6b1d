/** The regular expressions both the server and the app use to find a
    YouTube video id in a URL, as JavaScript's `String.prototype.match`
    runs them without the `g` flag: the leftmost position where the pattern
    matches wins, and at that position the alternatives are tried in order
    and a greedy `.*` takes the longest stretch that still lets the rest
    match. Every pattern ends in the capture `([a-zA-Z0-9_-]{11})`. */
module UrlPatterns {
  import opened Base

  const IdLength := 11

  /** `[a-zA-Z0-9_-]`. */
  predicate IsIdChar(c: char) {
    ('a' <= c <= 'z') || ('A' <= c <= 'Z') || ('0' <= c <= '9') || c == '_' || c == '-'
  }

  predicate IsVideoId(s: string) {
    |s| == IdLength && forall i :: 0 <= i < |s| ==> IsIdChar(s[i])
  }

  /** Eleven id characters start at `k`. */
  predicate IdAt(s: string, k: nat) {
    k + IdLength <= |s| && forall i :: k <= i < k + IdLength ==> IsIdChar(s[i])
  }

  /** The literal `lit` starts at `i`. */
  predicate LiteralAt(s: string, i: nat, lit: string) {
    i + |lit| <= |s| && s[i..i + |lit|] == lit
  }

  /** The characters `.` does not match. */
  predicate IsLineTerminator(c: char) {
    c == '\n' || c == '\r' || c == '\U{2028}' || c == '\U{2029}'
  }

  const WatchQuery := "youtube.com/watch?"
  const WatchV := "youtube.com/watch?v="
  const ShortLink := "youtu.be/"
  const Embed := "youtube.com/embed/"

  /** The two shapes of pattern in the sources:
      `Prefixed(qs, atEnd)` is `(?:q1|q2|...)([a-zA-Z0-9_-]{11})`, followed
      by `$` when `atEnd`; `WatchThenV` is
      `youtube\.com\/watch\?.*v=([a-zA-Z0-9_-]{11})`. */
  datatype Pattern = Prefixed(prefixes: seq<string>, atEnd: bool) | WatchThenV

  /** The end of the line that starts at `k`: the first line terminator at
      or after `k`, or the end of the input. */
  function LineEnd(s: string, k: nat): (e: nat)
    requires k <= |s|
    ensures k <= e <= |s|
    ensures forall j :: k <= j < e ==> !IsLineTerminator(s[j])
    ensures e < |s| ==> IsLineTerminator(s[e])
    decreases |s| - k
  {
    if k == |s| || IsLineTerminator(s[k]) then k else LineEnd(s, k + 1)
  }

  /** `v=` followed by an id starts at `j`. */
  predicate VCandidate(s: string, j: nat) {
    LiteralAt(s, j, "v=") && IdAt(s, j + 2)
  }

  /** The last position in `[lo, hi)` where `v=` and an id follow: where a
      greedy `.*` stops. */
  function LastCandidate(s: string, lo: nat, hi: nat): (r: Option<nat>)
    requires lo <= hi <= |s|
    ensures r.Some? ==> lo <= r.value < hi && VCandidate(s, r.value)
    ensures r.Some? ==> forall j :: r.value < j < hi ==> !VCandidate(s, j)
    ensures r.None? <==> forall j :: lo <= j < hi ==> !VCandidate(s, j)
    decreases hi - lo
  {
    if hi == lo then None
    else if VCandidate(s, hi - 1) then Some(hi - 1)
    else LastCandidate(s, lo, hi - 1)
  }

  /** The first alternative that matches at `i`, and the id after it. */
  function FirstPrefix(prefixes: seq<string>, atEnd: bool, s: string, i: nat): (r: Option<string>)
    ensures r.Some? ==> IsVideoId(r.value)
    ensures r.Some? <==> exists q :: q in prefixes && PrefixMatches(q, atEnd, s, i)
  {
    if prefixes == [] then None
    else
      var q := prefixes[0];
      if PrefixMatches(q, atEnd, s, i) then Some(s[i + |q|..i + |q| + IdLength])
      else FirstPrefix(prefixes[1..], atEnd, s, i)
  }

  predicate PrefixMatches(q: string, atEnd: bool, s: string, i: nat) {
    LiteralAt(s, i, q) && IdAt(s, i + |q|) && (atEnd ==> i + |q| + IdLength == |s|)
  }

  /** The capture when the pattern matches at position `i`. */
  function MatchAt(p: Pattern, s: string, i: nat): (r: Option<string>)
    requires i <= |s|
    ensures r.Some? ==> IsVideoId(r.value)
  {
    match p
    case Prefixed(prefixes, atEnd) => FirstPrefix(prefixes, atEnd, s, i)
    case WatchThenV =>
      if !LiteralAt(s, i, WatchQuery) then None
      else
        var k := i + |WatchQuery|;
        match LastCandidate(s, k, LineEnd(s, k))
        case None => None
        case Some(j) => Some(s[j + 2..j + 2 + IdLength])
  }

  /** The leftmost match at or after `i`: its position and capture. */
  function SearchFrom(p: Pattern, s: string, i: nat): (r: Option<(nat, string)>)
    requires i <= |s|
    ensures r.Some? ==> i <= r.value.0 <= |s| && MatchAt(p, s, r.value.0) == Some(r.value.1)
    ensures r.Some? ==> forall k :: i <= k < r.value.0 ==> MatchAt(p, s, k).None?
    ensures r.None? <==> forall k :: i <= k <= |s| ==> MatchAt(p, s, k).None?
    decreases |s| - i
  {
    match MatchAt(p, s, i)
    case Some(id) => Some((i, id))
    case None => if i == |s| then None else SearchFrom(p, s, i + 1)
  }

  /** `s.match(p)`: the capture of the leftmost match. */
  function Search(p: Pattern, s: string): (r: Option<string>)
    ensures r.Some? ==> IsVideoId(r.value)
    ensures r.None? <==> forall k :: 0 <= k <= |s| ==> MatchAt(p, s, k).None?
  {
    match SearchFrom(p, s, 0)
    case None => None
    case Some((_, id)) => Some(id)
  }

  /** The loop over `patterns` that returns the first capture. */
  function FirstMatch(patterns: seq<Pattern>, s: string): (r: Option<string>)
    ensures r.Some? ==> IsVideoId(r.value)
    ensures r.None? <==> forall p :: p in patterns ==> Search(p, s).None?
    ensures r.Some? ==> exists p :: p in patterns && Search(p, s) == r
  {
    if patterns == [] then None
    else if Search(patterns[0], s).Some? then Search(patterns[0], s)
    else FirstMatch(patterns[1..], s)
  }

  /** Patterns that match nowhere can be dropped from the end of the list. */
  lemma {:induction false} FirstMatchDropsSilent(patterns: seq<Pattern>, silent: seq<Pattern>, s: string)
    requires forall p :: p in silent ==> Search(p, s).None?
    ensures FirstMatch(patterns + silent, s) == FirstMatch(patterns, s)
  {
    if patterns == [] {
      assert patterns + silent == silent;
    } else {
      assert (patterns + silent)[0] == patterns[0];
      assert (patterns + silent)[1..] == patterns[1..] + silent;
      FirstMatchDropsSilent(patterns[1..], silent, s);
    }
  }

  // ---------------------------------------------------------------------
  // Facts about the URL every caller writes
  // ---------------------------------------------------------------------

  const Scheme := "https://www."

  /** `https://www.youtube.com/watch?v=` followed by the id. */
  function WatchUrl(id: string): string {
    Scheme + WatchV + id
  }

  lemma WatchUrlSpelled(id: string)
    ensures WatchUrl(id) == "https://www.youtube.com/watch?v=" + id
  {
  }

  /** In the canonical URL of an id, no pattern whose literal starts with
      `y` can match before the host. */
  lemma WatchUrlHead(id: string, i: nat, lit: string)
    requires i < |Scheme| && lit != [] && lit[0] == 'y'
    ensures !LiteralAt(WatchUrl(id), i, lit)
  {
    var u := WatchUrl(id);
    assert u[i] == Scheme[i];
    assert 'y' !in Scheme;
  }

  /** Where the canonical URL of an id holds what. */
  lemma WatchUrlLayout(id: string)
    requires IsVideoId(id)
    ensures var u := WatchUrl(id);
      |u| == |Scheme| + |WatchV| + IdLength
      && LiteralAt(u, |Scheme|, WatchQuery) && LiteralAt(u, |Scheme|, WatchV)
      && LiteralAt(u, |Scheme| + |WatchQuery|, "v=")
      && IdAt(u, |Scheme| + |WatchV|)
      && u[|Scheme| + |WatchV|..] == id
      && forall j :: |Scheme| <= j < |u| ==> !IsLineTerminator(u[j])
  {
    var u := WatchUrl(id);
    var a := |Scheme|;
    assert u[a..a + |WatchV|] == WatchV;
    assert u[a..a + |WatchQuery|] == WatchV[..|WatchQuery|];
    assert u[a + |WatchQuery|..a + |WatchQuery| + 2] == WatchV[|WatchQuery|..];
    forall j | a + |WatchV| <= j < |u| ensures IsIdChar(u[j]) {
      assert u[j] == id[j - a - |WatchV|];
    }
    forall j | a <= j < a + |WatchV| ensures !IsLineTerminator(u[j]) {
      assert u[j] == WatchV[j - a];
      assert u[j] in WatchV;
    }
  }

  /** `WatchThenV` finds the id in the canonical URL of the id, leftmost
      at the host. */
  lemma WatchThenVOnWatchUrl(id: string)
    requires IsVideoId(id)
    ensures Search(WatchThenV, WatchUrl(id)) == Some(id)
  {
    var u := WatchUrl(id);
    var a := |Scheme|;
    WatchUrlLayout(id);
    forall i | 0 <= i < a ensures MatchAt(WatchThenV, u, i).None? {
      WatchUrlHead(id, i, WatchQuery);
    }
    var k := a + |WatchQuery|;
    assert LineEnd(u, k) == |u|;
    assert VCandidate(u, k);
    var r := LastCandidate(u, k, |u|);
    assert r == Some(k);
    assert u[a + |WatchV|..a + |WatchV| + IdLength] == id;
    assert MatchAt(WatchThenV, u, a) == Some(id);
    var found := SearchFrom(WatchThenV, u, 0);
    assert found.Some?;
    assert found.value.0 == a;
  }

  /** A `Prefixed` pattern whose first alternative is `youtube.com/watch?v=`
      finds the id in the canonical URL of the id. */
  lemma PrefixedOnWatchUrl(id: string, rest: seq<string>)
    requires IsVideoId(id)
    requires forall q :: q in rest ==> q != [] && q[0] == 'y'
    ensures Search(Prefixed([WatchV] + rest, false), WatchUrl(id)) == Some(id)
  {
    var u := WatchUrl(id);
    var a := |Scheme|;
    var p := Prefixed([WatchV] + rest, false);
    WatchUrlLayout(id);
    forall i | 0 <= i < a ensures MatchAt(p, u, i).None? {
      forall q | q in [WatchV] + rest ensures !PrefixMatches(q, false, u, i) {
        WatchUrlHead(id, i, q);
      }
    }
    assert PrefixMatches(WatchV, false, u, a);
    assert u[a + |WatchV|..a + |WatchV| + IdLength] == id;
    assert MatchAt(p, u, a) == Some(id);
    var found := SearchFrom(p, u, 0);
    assert found.Some?;
    assert found.value.0 == a;
  }

  /** A `watch?v=<id>` at the very end, the anchored pattern, is also a
      match of `WatchThenV` at the same position. */
  lemma AnchoredWatchIsWatchThenV(s: string, i: nat)
    requires i <= |s|
    requires MatchAt(Prefixed([WatchV], true), s, i).Some?
    ensures MatchAt(WatchThenV, s, i).Some?
  {
    assert PrefixMatches(WatchV, true, s, i);
    assert s[i..i + |WatchQuery|] == s[i..i + |WatchV|][..|WatchQuery|];
    var k := i + |WatchQuery|;
    assert s[k..k + 2] == s[i..i + |WatchV|][|WatchQuery|..];
    assert VCandidate(s, k);
    forall j | k <= j < k + 2 ensures !IsLineTerminator(s[j]) {
      assert s[j] == WatchV[j - i];
      assert s[j] in WatchV;
    }
    forall j | k + 2 <= j < |s| ensures !IsLineTerminator(s[j]) {
      assert IsIdChar(s[j]);
    }
    assert LineEnd(s, k) == |s|;
  }

  /** Where `youtube.com/watch?v=` and an id start, `WatchThenV` matches
      too. */
  lemma WatchVIsWatchThenV(s: string, i: nat)
    requires i <= |s|
    requires PrefixMatches(WatchV, false, s, i)
    ensures MatchAt(WatchThenV, s, i).Some?
  {
    assert s[i..i + |WatchQuery|] == s[i..i + |WatchV|][..|WatchQuery|];
    var k := i + |WatchQuery|;
    assert s[k..k + 2] == s[i..i + |WatchV|][|WatchQuery|..];
    assert VCandidate(s, k);
    forall j | k <= j < k + 2 + IdLength ensures !IsLineTerminator(s[j]) {
      if j < k + 2 {
        assert s[j] == WatchV[j - i];
        assert s[j] in WatchV;
      } else {
        assert IsIdChar(s[j]);
      }
    }
    assert LineEnd(s, k) >= k + 2 + IdLength;
  }
}
