/** The web client's YouTube link helpers: id extraction with its own four
    patterns, validation, and normalisation to the canonical watch URL.
    The server runs its own extraction (module YouTubeService); the lemmas
    at the end compare the two. */
module LinkUtils {
  import opened Base
  import opened UrlPatterns
  import YouTubeService

  /** The four patterns of `extractYouTubeVideoId`, in order. */
  const ClientPatterns: seq<Pattern> :=
    [WatchThenV, Prefixed([ShortLink], false), Prefixed([Embed], false), Prefixed([WatchV], true)]

  /** `extractYouTubeVideoId`: the capture of the first pattern that
      matches, or nothing. */
  function ExtractYouTubeVideoId(url: string): (r: Option<string>)
    ensures r.Some? ==> IsVideoId(r.value)
    ensures r.None? <==> forall p, k :: p in ClientPatterns && 0 <= k <= |url| ==> MatchAt(p, url, k).None?
  {
    FirstMatch(ClientPatterns, url)
  }

  /** `validateYouTubeUrl`: some pattern matches somewhere in the URL. */
  function ValidateYouTubeUrl(url: string): (b: bool)
    ensures b <==> exists p, k :: p in ClientPatterns && 0 <= k <= |url| && MatchAt(p, url, k).Some?
  {
    ExtractYouTubeVideoId(url) != None
  }

  /** `normalizeYouTubeUrl`: the canonical watch URL of the id, or nothing
      for a URL without an id (an id is never empty, so never falsy). */
  function NormalizeYouTubeUrl(url: string): (r: Option<string>)
    ensures r.Some? <==> ValidateYouTubeUrl(url)
    ensures r.Some? ==> |r.value| == |Scheme| + |WatchV| + IdLength
    ensures r.Some? ==> r.value[..|Scheme| + |WatchV|] == Scheme + WatchV
  {
    match ExtractYouTubeVideoId(url)
    case None => None
    case Some(id) => Some(WatchUrl(id))
  }

  /** The canonical URL of an id gives back that id. */
  lemma ExtractsWatchUrl(id: string)
    requires IsVideoId(id)
    ensures ExtractYouTubeVideoId(WatchUrl(id)) == Some(id)
  {
    WatchThenVOnWatchUrl(id);
  }

  /** Normalising keeps the id, and a normalised URL is its own
      normalisation. */
  lemma NormalizeIdempotent(url: string)
    requires ValidateYouTubeUrl(url)
    ensures var n := NormalizeYouTubeUrl(url).value;
      ExtractYouTubeVideoId(n) == ExtractYouTubeVideoId(url) && NormalizeYouTubeUrl(n) == Some(n)
  {
    ExtractsWatchUrl(ExtractYouTubeVideoId(url).value);
  }

  /** The fourth pattern never decides: wherever it matches, the first
      pattern matches at the same position, so the result is that of the
      first three patterns. */
  lemma AnchoredPatternUnreachable(url: string)
    ensures ExtractYouTubeVideoId(url) == FirstMatch(ClientPatterns[..3], url)
  {
    var anchored := Prefixed([WatchV], true);
    if Search(WatchThenV, url).None? {
      forall k | 0 <= k <= |url| ensures MatchAt(anchored, url, k).None? {
        if MatchAt(anchored, url, k).Some? {
          AnchoredWatchIsWatchThenV(url, k);
        }
      }
      assert ClientPatterns == ClientPatterns[..3] + [anchored];
      FirstMatchDropsSilent(ClientPatterns[..3], [anchored], url);
    } else {
      assert ClientPatterns[..3][0] == WatchThenV;
    }
  }

  /** A match of the server's first pattern is a match of one of the
      client's patterns at the same position. */
  lemma ServerPrefixedOnClient(url: string, k: nat)
    requires k <= |url|
    requires MatchAt(YouTubeService.ServerPatterns[0], url, k).Some?
    ensures exists p :: p in ClientPatterns && MatchAt(p, url, k).Some?
  {
    var q :| q in [WatchV, ShortLink, Embed] && PrefixMatches(q, false, url, k);
    if q == WatchV {
      WatchVIsWatchThenV(url, k);
      assert MatchAt(ClientPatterns[0], url, k).Some?;
    } else if q == ShortLink {
      assert MatchAt(ClientPatterns[1], url, k).Some?;
    } else {
      assert MatchAt(ClientPatterns[2], url, k).Some?;
    }
  }

  /** A match of one of the client's patterns is a match of one of the
      server's patterns at the same position. */
  lemma ClientOnServer(url: string, k: nat, p: Pattern)
    requires k <= |url|
    requires p in ClientPatterns && MatchAt(p, url, k).Some?
    ensures exists p' :: p' in YouTubeService.ServerPatterns && MatchAt(p', url, k).Some?
  {
    var server := YouTubeService.ServerPatterns;
    if p == WatchThenV {
      assert server[1] == WatchThenV;
    } else if p == Prefixed([ShortLink], false) {
      assert PrefixMatches(ShortLink, false, url, k);
      assert ShortLink in server[0].prefixes;
      assert MatchAt(server[0], url, k).Some?;
    } else if p == Prefixed([Embed], false) {
      assert PrefixMatches(Embed, false, url, k);
      assert Embed in server[0].prefixes;
      assert MatchAt(server[0], url, k).Some?;
    } else {
      AnchoredWatchIsWatchThenV(url, k);
      assert server[1] == WatchThenV;
    }
  }

  /** The client accepts exactly the URLs the server accepts. */
  lemma SameUrlsAccepted(url: string)
    ensures ValidateYouTubeUrl(url) <==> YouTubeService.IsValidYouTubeUrl(url)
  {
    if YouTubeService.IsValidYouTubeUrl(url) {
      var p, k :| p in YouTubeService.ServerPatterns && 0 <= k <= |url| && MatchAt(p, url, k).Some?;
      if p == WatchThenV {
        assert MatchAt(ClientPatterns[0], url, k).Some?;
      } else {
        ServerPrefixedOnClient(url, k);
      }
    }
    if ValidateYouTubeUrl(url) {
      var p, k :| p in ClientPatterns && 0 <= k <= |url| && MatchAt(p, url, k).Some?;
      ClientOnServer(url, k, p);
    }
  }

  /** A watch URL with a second `v=` parameter after the first. */
  function TwoIdUrl(first: string, second: string): string {
    WatchUrl(first) + "&v=" + second
  }

  /** Where the two ids and the second `v=` sit in such a URL. */
  lemma TwoIdUrlLayout(first: string, second: string)
    requires IsVideoId(first) && IsVideoId(second)
    ensures var u := TwoIdUrl(first, second); var a := |Scheme|;
      |u| == a + |WatchV| + IdLength + 3 + IdLength
      && LiteralAt(u, a, WatchQuery) && LiteralAt(u, a, WatchV)
      && u[a + |WatchV|..a + |WatchV| + IdLength] == first
      && IdAt(u, a + |WatchV|)
      && LiteralAt(u, a + |WatchV| + IdLength + 1, "v=")
      && u[|u| - IdLength..] == second
      && IdAt(u, |u| - IdLength)
      && (forall j :: a + |WatchQuery| <= j < |u| ==> !IsLineTerminator(u[j]))
      && (forall i, q :: 0 <= i < a && q != [] && q[0] == 'y' ==> !LiteralAt(u, i, q))
  {
    var u := TwoIdUrl(first, second);
    var w := WatchUrl(first);
    WatchUrlLayout(first);
    assert u[..|w|] == w;
    forall j | |Scheme| <= j < |w| ensures !IsLineTerminator(u[j]) {
      assert u[j] == w[j];
    }
    forall j | |w| <= j < |u| ensures !IsLineTerminator(u[j]) {
      if j < |w| + 3 {
        assert u[j] == "&v="[j - |w|];
      } else {
        assert u[j] == second[j - |w| - 3];
      }
    }
    assert u[|w| + 1..|w| + 3] == "v=";
    assert u[|u| - IdLength..] == second;
    forall j | |u| - IdLength <= j < |u| ensures IsIdChar(u[j]) {
      assert u[j] == second[j - (|u| - IdLength)];
    }
    forall i, q | 0 <= i < |Scheme| && q != [] && q[0] == 'y' ensures !LiteralAt(u, i, q) {
      assert u[i] == w[i];
      WatchUrlHead(first, i, q);
      assert 'y' !in Scheme;
    }
  }

  /** The server's `watch?v=` alternative, leftmost at the host, takes the
      first id. */
  lemma ServerTakesFirst(first: string, second: string)
    requires IsVideoId(first) && IsVideoId(second)
    ensures Search(YouTubeService.ServerPatterns[0], TwoIdUrl(first, second)) == Some(first)
  {
    var u := TwoIdUrl(first, second);
    var a := |Scheme|;
    TwoIdUrlLayout(first, second);
    var p := YouTubeService.ServerPatterns[0];
    forall i | 0 <= i < a ensures MatchAt(p, u, i).None? {
      forall q | q in p.prefixes ensures !PrefixMatches(q, false, u, i) {
      }
    }
    assert PrefixMatches(WatchV, false, u, a);
    assert MatchAt(p, u, a) == Some(first);
    var found := SearchFrom(p, u, 0);
    assert found.Some? && found.value.0 == a;
  }

  /** The client's greedy `.*v=`, leftmost at the host, stops at the last
      `v=` and takes the second id. */
  lemma ClientTakesLast(first: string, second: string)
    requires IsVideoId(first) && IsVideoId(second)
    ensures Search(WatchThenV, TwoIdUrl(first, second)) == Some(second)
  {
    var u := TwoIdUrl(first, second);
    var a := |Scheme|;
    TwoIdUrlLayout(first, second);
    forall i | 0 <= i < a ensures MatchAt(WatchThenV, u, i).None? {
    }
    var k := a + |WatchQuery|;
    assert LineEnd(u, k) == |u|;
    var last := |u| - IdLength - 2;
    assert VCandidate(u, last);
    assert LastCandidate(u, k, |u|) == Some(last);
    assert u[last + 2..last + 2 + IdLength] == u[|u| - IdLength..];
    assert MatchAt(WatchThenV, u, a) == Some(second);
    var found := SearchFrom(WatchThenV, u, 0);
    assert found.Some? && found.value.0 == a;
  }

  /** The two extractions can disagree: on a URL with two `v=` parameters
      the server takes the first id and the client the last. */
  lemma ServerAndClientIdsDiffer(first: string, second: string)
    requires IsVideoId(first) && IsVideoId(second)
    ensures YouTubeService.ExtractVideoId(TwoIdUrl(first, second)) == Some(first)
    ensures ExtractYouTubeVideoId(TwoIdUrl(first, second)) == Some(second)
  {
    ServerTakesFirst(first, second);
    ClientTakesLast(first, second);
  }
}
