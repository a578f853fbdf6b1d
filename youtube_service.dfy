/** The server's YouTube helpers that need no network: finding the video id
    in a URL (two patterns tried in order), the validity check built on it,
    the fallback video info, and the rendering of an ISO 8601 duration
    (section 4.4.3.2 of ISO 8601, the `PT…H…M…S` form the YouTube API
    returns) as `H:MM:SS` or `M:SS`. */
module YouTubeService {
  import opened Base
  import opened Text
  import opened UrlPatterns

  /** The two patterns of `extractVideoId`, in order. */
  const ServerPatterns: seq<Pattern> := [Prefixed([WatchV, ShortLink, Embed], false), WatchThenV]

  /** `extractVideoId`: the capture of the first pattern that matches. */
  function ExtractVideoId(url: string): (r: Option<string>)
    ensures r.Some? ==> IsVideoId(r.value)
    ensures r.None? <==> forall p, k :: p in ServerPatterns && 0 <= k <= |url| ==> MatchAt(p, url, k).None?
  {
    FirstMatch(ServerPatterns, url)
  }

  /** `isValidYouTubeUrl`: some pattern matches somewhere in the URL. */
  function IsValidYouTubeUrl(url: string): (b: bool)
    ensures b <==> exists p, k :: p in ServerPatterns && 0 <= k <= |url| && MatchAt(p, url, k).Some?
  {
    ExtractVideoId(url) != None
  }

  datatype BasicVideoInfo = BasicVideoInfo(videoId: string, platform: string)

  /** `getBasicVideoInfo`: the id and the platform name, or nothing for a
      URL without an id. */
  function GetBasicVideoInfo(url: string): (r: Option<BasicVideoInfo>)
    ensures r.None? <==> !IsValidYouTubeUrl(url)
    ensures r.Some? ==> IsVideoId(r.value.videoId) && r.value.platform == "youtube"
    ensures r.Some? ==> exists p :: p in ServerPatterns && Search(p, url) == Some(r.value.videoId)
  {
    match ExtractVideoId(url)
    case None => None
    case Some(videoId) => Some(BasicVideoInfo(videoId, "youtube"))
  }

  // ---------------------------------------------------------------------
  // formatDuration
  // ---------------------------------------------------------------------

  /** The first position at or after `i` where `lit` starts. */
  function FindLiteral(s: string, lit: string, i: nat): (r: Option<nat>)
    requires i <= |s|
    ensures r.Some? ==> i <= r.value <= |s| && LiteralAt(s, r.value, lit)
    ensures r.Some? ==> forall k :: i <= k < r.value ==> !LiteralAt(s, k, lit)
    ensures r.None? <==> forall k :: i <= k <= |s| ==> !LiteralAt(s, k, lit)
    decreases |s| - i
  {
    if LiteralAt(s, i, lit) then Some(i)
    else if i == |s| then None
    else FindLiteral(s, lit, i + 1)
  }

  /** Where the run of decimal digits that starts at `k` ends. */
  function DigitRunEnd(s: string, k: nat): (e: nat)
    requires k <= |s|
    ensures k <= e <= |s|
    ensures forall j :: k <= j < e ==> IsDigit(s[j])
    ensures e < |s| ==> !IsDigit(s[e])
    decreases |s| - k
  {
    if k == |s| || !IsDigit(s[k]) then k else DigitRunEnd(s, k + 1)
  }

  /** The optional group `(?:(\d+)U)?` at position `k`: the value of the
      digits and the position after the unit letter when it matches, 0 and
      `k` otherwise. A shorter run of digits is followed by a digit, never
      by the unit, so the greedy run is the only one to try. */
  function Part(s: string, k: nat, unit: char): (r: (nat, nat))
    requires k <= |s|
    ensures k <= r.1 <= |s|
  {
    var e := DigitRunEnd(s, k);
    if k < e < |s| && s[e] == unit then
      assert AllDigits(s[k..e]);
      (DigitsValue(s[k..e]), e + 1)
    else (0, k)
  }

  /** `H:MM:SS` when there are hours, `M:SS` otherwise. */
  function Clock(hours: nat, minutes: nat, seconds: nat): string {
    if hours > 0 then NatToString(hours) + ":" + PadStart2(NatToString(minutes)) + ":" + PadStart2(NatToString(seconds))
    else NatToString(minutes) + ":" + PadStart2(NatToString(seconds))
  }

  /** `formatDuration`: `PT(?:(\d+)H)?(?:(\d+)M)?(?:(\d+)S)?` matched at the
      first `PT`, missing parts read as 0; "0:00" without a `PT`. */
  function FormatDuration(iso: string): (r: string)
    ensures (forall k :: 0 <= k <= |iso| ==> !LiteralAt(iso, k, "PT")) ==> r == "0:00"
  {
    match FindLiteral(iso, "PT", 0)
    case None => "0:00"
    case Some(i) =>
      var (hours, k1) := Part(iso, i + 2, 'H');
      var (minutes, k2) := Part(iso, k1, 'M');
      var (seconds, _) := Part(iso, k2, 'S');
      Clock(hours, minutes, seconds)
  }

  /** One written part: the number and its unit letter, or nothing. */
  function Segment(x: Option<nat>, unit: char): string {
    if x.Some? then NatToString(x.value) + [unit] else ""
  }

  /** The ISO 8601 duration `PT[nH][nM][nS]` with the parts present. */
  function IsoDuration(hours: Option<nat>, minutes: Option<nat>, seconds: Option<nat>): string {
    "PT" + (Segment(hours, 'H') + (Segment(minutes, 'M') + Segment(seconds, 'S')))
  }

  function ValueOr0(x: Option<nat>): nat {
    if x.Some? then x.value else 0
  }

  /** The digits `d` followed by a non-digit `c` at `k`: the group for `unit`
      matches exactly when `c` is the unit. */
  lemma PartAt(s: string, k: nat, d: string, c: char, unit: char)
    requires d != [] && AllDigits(d) && !IsDigit(c)
    requires k + |d| < |s| && s[k..k + |d|] == d && s[k + |d|] == c
    ensures Part(s, k, unit) == if c == unit then (DigitsValue(d), k + |d| + 1) else (0, k)
  {
    forall j | k <= j < k + |d| ensures IsDigit(s[j]) {
      assert s[j] == d[j - k];
    }
    assert DigitRunEnd(s, k) == k + |d|;
  }

  /** No digit at `k`: the group does not match. */
  lemma PartNone(s: string, k: nat, unit: char)
    requires k <= |s|
    requires k == |s| || !IsDigit(s[k])
    ensures Part(s, k, unit) == (0, k)
  {
  }

  /** A written part followed by anything: the group for `unit` reads it
      when its letter is the unit and does not match otherwise. */
  lemma PartOnSegment(pre: string, x: Option<nat>, c: char, post: string, unit: char)
    requires x.Some? && !IsDigit(c)
    ensures Part(pre + (Segment(x, c) + post), |pre|, unit)
      == if c == unit then (x.value, |pre| + |Segment(x, c)|) else (0, |pre|)
  {
    var s := pre + (Segment(x, c) + post);
    var d := NatToString(x.value);
    assert s == pre + d + [c] + post;
    assert s[|pre|..|pre| + |d|] == d;
    PartAt(s, |pre|, d, c, unit);
    DigitsValueOfNatToString(x.value);
  }

  /** Nothing after `pre`: the group does not match. */
  lemma PartAtEnd(pre: string, unit: char)
    ensures Part(pre, |pre|, unit) == (0, |pre|)
  {
    PartNone(pre, |pre|, unit);
  }

  /** The hours group reads the hours, or nothing when they are missing. */
  lemma HoursGroup(hours: Option<nat>, minutes: Option<nat>, seconds: Option<nat>)
    ensures var r := Part(IsoDuration(hours, minutes, seconds), 2, 'H');
      r.0 == ValueOr0(hours) && r.1 == 2 + |Segment(hours, 'H')|
  {
    var sh, sm, ss := Segment(hours, 'H'), Segment(minutes, 'M'), Segment(seconds, 'S');
    if hours.Some? {
      PartOnSegment("PT", hours, 'H', sm + ss, 'H');
    } else if minutes.Some? {
      assert sh + (sm + ss) == sm + ss;
      PartOnSegment("PT", minutes, 'M', ss, 'H');
    } else if seconds.Some? {
      assert sh + (sm + ss) == ss + "";
      PartOnSegment("PT", seconds, 'S', "", 'H');
    } else {
      assert "PT" + (sh + (sm + ss)) == "PT";
      PartAtEnd("PT", 'H');
    }
  }

  /** The minutes group, right after the hours. */
  lemma MinutesGroup(hours: Option<nat>, minutes: Option<nat>, seconds: Option<nat>)
    ensures var k := 2 + |Segment(hours, 'H')|;
      var r := Part(IsoDuration(hours, minutes, seconds), k, 'M');
      r.0 == ValueOr0(minutes) && r.1 == k + |Segment(minutes, 'M')|
  {
    var sh, sm, ss := Segment(hours, 'H'), Segment(minutes, 'M'), Segment(seconds, 'S');
    var pre := "PT" + sh;
    AppendAssoc("PT", sh, sm + ss);
    if minutes.Some? {
      PartOnSegment(pre, minutes, 'M', ss, 'M');
    } else if seconds.Some? {
      assert sm + ss == ss + "";
      PartOnSegment(pre, seconds, 'S', "", 'M');
    } else {
      assert pre + (sm + ss) == pre;
      PartAtEnd(pre, 'M');
    }
  }

  /** The seconds group, right after the minutes. */
  lemma SecondsGroup(hours: Option<nat>, minutes: Option<nat>, seconds: Option<nat>)
    ensures var k := 2 + |Segment(hours, 'H')| + |Segment(minutes, 'M')|;
      Part(IsoDuration(hours, minutes, seconds), k, 'S').0 == ValueOr0(seconds)
  {
    var sh, sm, ss := Segment(hours, 'H'), Segment(minutes, 'M'), Segment(seconds, 'S');
    var pre := "PT" + sh + sm;
    AppendAssoc("PT", sh, sm + ss);
    AppendAssoc("PT" + sh, sm, ss);
    if seconds.Some? {
      assert ss == ss + "";
      PartOnSegment(pre, seconds, 'S', "", 'S');
    } else {
      assert pre + ss == pre;
      PartAtEnd(pre, 'S');
    }
  }

  /** The three groups of a text that starts with `PT` read the given
      values, ending at `k1` and `k2`. */
  predicate GroupsRead(iso: string, hours: nat, k1: nat, minutes: nat, k2: nat, seconds: nat)
  {
    LiteralAt(iso, 0, "PT")
    && Part(iso, 2, 'H').0 == hours && Part(iso, 2, 'H').1 == k1
    && Part(iso, k1, 'M').0 == minutes && Part(iso, k1, 'M').1 == k2
    && Part(iso, k2, 'S').0 == seconds
  }

  /** A text that starts with `PT` is read from position 2, the groups one
      after the other. */
  lemma FormatFromStart()
    ensures forall iso, hours, k1, minutes, k2, seconds :: GroupsRead(iso, hours, k1, minutes, k2, seconds) ==>
      FormatDuration(iso) == Clock(hours, minutes, seconds)
  {
    forall iso, hours, k1, minutes, k2, seconds | GroupsRead(iso, hours, k1, minutes, k2, seconds)
      ensures FormatDuration(iso) == Clock(hours, minutes, seconds)
    {
      assert FindLiteral(iso, "PT", 0) == Some(0);
    }
  }

  lemma IsoDurationStart(hours: Option<nat>, minutes: Option<nat>, seconds: Option<nat>)
    ensures LiteralAt(IsoDuration(hours, minutes, seconds), 0, "PT")
  {
    assert IsoDuration(hours, minutes, seconds)[0..2] == "PT";
  }

  /** The groups of a written duration read its parts, 0 for each part
      missing. */
  lemma IsoDurationGroups(hours: Option<nat>, minutes: Option<nat>, seconds: Option<nat>)
    ensures GroupsRead(IsoDuration(hours, minutes, seconds), ValueOr0(hours), 2 + |Segment(hours, 'H')|,
      ValueOr0(minutes), 2 + |Segment(hours, 'H')| + |Segment(minutes, 'M')|, ValueOr0(seconds))
  {
    IsoDurationStart(hours, minutes, seconds);
    HoursGroup(hours, minutes, seconds);
    MinutesGroup(hours, minutes, seconds);
    SecondsGroup(hours, minutes, seconds);
  }

  /** `formatDuration` on a written duration: each part present is read
      back, each part missing counts as 0. */
  lemma FormatIsoDuration(hours: Option<nat>, minutes: Option<nat>, seconds: Option<nat>)
    ensures FormatDuration(IsoDuration(hours, minutes, seconds)) == Clock(ValueOr0(hours), ValueOr0(minutes), ValueOr0(seconds))
  {
    IsoDurationGroups(hours, minutes, seconds);
    FormatFromStart();
  }

  /** Two colon-free pieces joined by a colon split back into the two. */
  lemma TwoPieces(a: string, b: string)
    requires ':' !in a && ':' !in b
    ensures Split(a + [':'] + b, ':') == [a, b]
  {
    SplitCons(a, b, ':');
  }

  /** Three colon-free pieces joined by colons split back into the three. */
  lemma ThreePieces(a: string, b: string, c: string)
    requires ':' !in a && ':' !in b && ':' !in c
    ensures Split(a + [':'] + b + [':'] + c, ':') == [a, b, c]
  {
    TwoPieces(b, c);
    assert a + [':'] + b + [':'] + c == a + [':'] + (b + [':'] + c);
    SplitCons(a, b + [':'] + c, ':');
  }

  /** A clock text with hours has three pieces between its colons. */
  lemma ClockPiecesWithHours(hours: nat, minutes: nat, seconds: nat)
    requires hours > 0
    ensures Split(Clock(hours, minutes, seconds), ':')
      == [NatToString(hours), PadStart2(NatToString(minutes)), PadStart2(NatToString(seconds))]
  {
    PadStart2Value(NatToString(minutes));
    PadStart2Value(NatToString(seconds));
    ThreePieces(NatToString(hours), PadStart2(NatToString(minutes)), PadStart2(NatToString(seconds)));
  }

  /** A clock text without hours has two pieces between its colons. */
  lemma ClockPiecesNoHours(hours: nat, minutes: nat, seconds: nat)
    requires hours == 0
    ensures Split(Clock(hours, minutes, seconds), ':') == [NatToString(minutes), PadStart2(NatToString(seconds))]
  {
    PadStart2Value(NatToString(seconds));
    TwoPieces(NatToString(minutes), PadStart2(NatToString(seconds)));
  }

  /** Minutes and seconds below 60 are written with exactly two digits. */
  lemma PaddedTwoDigits(n: nat)
    requires n < 60
    ensures |PadStart2(NatToString(n))| == 2
  {
    if n < 10 {
      NatToStringLength(n, 1);
    } else {
      NatToStringLength(n, 2);
    }
  }

  /** A canonical watch URL is recognised and yields its own id. */
  lemma ExtractsWatchUrl(id: string)
    requires IsVideoId(id)
    ensures ExtractVideoId(WatchUrl(id)) == Some(id)
  {
    PrefixedOnWatchUrl(id, [ShortLink, Embed]);
    assert ServerPatterns[0] == Prefixed([WatchV] + [ShortLink, Embed], false);
  }
}
