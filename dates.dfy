/** The web client's date and duration helpers: the "N units ago" text
    for a timestamp, and the reading of a `H:MM:SS` / `M:SS` / `S` duration
    text back into seconds. Times are whole milliseconds, and the clock
    reading `Date.now()` is a parameter. */
module Dates {
  import opened Base
  import opened Text
  import YouTubeService

  const MinuteMs: int := 60000
  const HourMs: int := 3600000
  const DayMs: int := 86400000

  /** The plural ending, omitted for exactly one unit. */
  function Plural(n: int): string {
    if n != 1 then "s" else ""
  }

  /** `n unit(s) ago`, with the count written in decimal. */
  function Ago(n: nat, unit: string): (r: string)
    ensures |r| >= 1 && IsDigit(r[0])
  {
    NatToString(n) + " " + unit + Plural(n) + " ago"
  }

  /** `formatRelativeTime`: whole days, else whole hours, else whole
      minutes since `timestamp`, floored (Dafny's `/` floors for a positive
      divisor, as `Math.floor` does); "Just now" below a minute and for
      times in the future. */
  function FormatRelativeTime(timestamp: int, now: int): (r: string)
    ensures r == "Just now" <==> now - timestamp < MinuteMs
  {
    var diff := now - timestamp;
    var minutes := diff / MinuteMs;
    var hours := diff / HourMs;
    var days := diff / DayMs;
    if days > 0 then Ago(days, "day")
    else if hours > 0 then Ago(hours, "hour")
    else if minutes > 0 then Ago(minutes, "minute")
    else "Just now"
  }

  /** From one day on: the number of whole days elapsed. */
  lemma RelativeDays(timestamp: int, now: int, n: nat)
    requires 1 <= n && n * DayMs <= now - timestamp < (n + 1) * DayMs
    ensures FormatRelativeTime(timestamp, now) == NatToString(n) + (if n == 1 then " day ago" else " days ago")
  {
    var diff := now - timestamp;
    assert diff / DayMs == n;
    AgoSpelled(n, "day", " day ago", " days ago");
  }

  /** From one hour to a day: the number of whole hours elapsed. */
  lemma RelativeHours(timestamp: int, now: int, n: nat)
    requires 1 <= n < 24 && n * HourMs <= now - timestamp < (n + 1) * HourMs
    ensures FormatRelativeTime(timestamp, now) == NatToString(n) + (if n == 1 then " hour ago" else " hours ago")
  {
    var diff := now - timestamp;
    assert diff / DayMs == 0 && diff / HourMs == n;
    AgoSpelled(n, "hour", " hour ago", " hours ago");
  }

  /** From one minute to an hour: the number of whole minutes elapsed. */
  lemma RelativeMinutes(timestamp: int, now: int, n: nat)
    requires 1 <= n < 60 && n * MinuteMs <= now - timestamp < (n + 1) * MinuteMs
    ensures FormatRelativeTime(timestamp, now) == NatToString(n) + (if n == 1 then " minute ago" else " minutes ago")
  {
    var diff := now - timestamp;
    assert diff / DayMs == 0 && diff / HourMs == 0 && diff / MinuteMs == n;
    AgoSpelled(n, "minute", " minute ago", " minutes ago");
  }

  /** The text of `Ago` with its pieces joined. */
  lemma AgoSpelled(n: nat, unit: string, one: string, many: string)
    requires one == " " + unit + " ago" && many == " " + unit + "s ago"
    ensures Ago(n, unit) == NatToString(n) + (if n == 1 then one else many)
  {
    var digits := NatToString(n);
    if n == 1 {
      assert Ago(n, unit) == digits + (" " + unit + "" + " ago");
    } else {
      assert Ago(n, unit) == digits + (" " + unit + "s" + " ago");
    }
  }

  /** `Number(text)` for the forms the model reads: surrounding white space
      ignored, the empty text is 0, an optional sign and decimal digits give
      their value. `None` stands for `NaN` and for the forms not read here
      (fractions, exponents, hexadecimal, `Infinity`). */
  function JsNumber(text: string): (r: Option<int>)
    ensures AllDigits(text) ==> r == Some(DigitsValue(text))
  {
    assert AllDigits(text) ==> Trim(text) == text by {
      if AllDigits(text) {
        TrimDigits(text);
      }
    }
    var t := Trim(text);
    if AllDigits(t) then Some(DigitsValue(t))
    else if |t| >= 2 && (t[0] == '-' || t[0] == '+') && AllDigits(t[1..]) then
      var magnitude: int := DigitsValue(t[1..]);
      Some(if t[0] == '-' then -magnitude else magnitude)
    else None
  }

  /** `a * k + b` when both are numbers; `NaN` otherwise. */
  function Combine(a: Option<int>, k: int, b: Option<int>): Option<int> {
    if a.Some? && b.Some? then Some(a.value * k + b.value) else None
  }

  /** `durationToSeconds`: nothing or the empty text is 0; otherwise the
      pieces between colons, read with `Number`, as hours, minutes and
      seconds (three pieces), minutes and seconds (two) or seconds (one);
      more than three pieces give 0. */
  function DurationToSeconds(duration: Option<string>): (r: Option<int>)
    ensures duration.None? || duration.value == "" ==> r == Some(0)
    ensures duration.Some? && |Split(duration.value, ':')| > 3 ==> r == Some(0)
  {
    if duration.None? || duration.value == "" then Some(0)
    else SecondsOfPieces(Split(duration.value, ':'))
  }

  /** The pieces between the colons, read as a number of seconds. */
  function SecondsOfPieces(parts: seq<string>): (r: Option<int>)
    ensures |parts| > 3 ==> r == Some(0)
  {
    if |parts| == 3 then Combine(Combine(JsNumber(parts[0]), 60, JsNumber(parts[1])), 60, JsNumber(parts[2]))
    else if |parts| == 2 then Combine(JsNumber(parts[0]), 60, JsNumber(parts[1]))
    else if |parts| == 1 then JsNumber(parts[0])
    else Some(0)
  }

  /** A number of seconds written alone reads back as itself. */
  lemma SecondsAlone(n: nat)
    ensures DurationToSeconds(Some(NatToString(n))) == Some(n)
  {
    assert ':' !in NatToString(n);
    DigitsValueOfNatToString(n);
  }

  /** `Number` reads back what `toString` wrote. */
  lemma NumberOfWritten(n: nat)
    ensures JsNumber(NatToString(n)) == Some(n)
  {
    DigitsValueOfNatToString(n);
  }

  /** `Number` reads back what `toString` and `padStart` wrote. */
  lemma NumberOfPadded(n: nat)
    ensures JsNumber(PadStart2(NatToString(n))) == Some(n)
  {
    PadStart2Value(NatToString(n));
    DigitsValueOfNatToString(n);
  }

  /** A text of three pieces reads as hours, minutes and seconds. */
  lemma ThreePieceDuration(text: string, h: string, m: string, sec: string, hv: int, mv: int, sv: int)
    requires Split(text, ':') == [h, m, sec]
    requires JsNumber(h) == Some(hv) && JsNumber(m) == Some(mv) && JsNumber(sec) == Some(sv)
    ensures DurationToSeconds(Some(text)) == Some(hv * 3600 + mv * 60 + sv)
  {
    NonEmptyOfPieces(text, ':');
    assert DurationToSeconds(Some(text)) == SecondsOfPieces([h, m, sec]);
    CombineThree(hv, mv, sv);
  }

  lemma CombineThree(hv: int, mv: int, sv: int)
    ensures Combine(Combine(Some(hv), 60, Some(mv)), 60, Some(sv)) == Some(hv * 3600 + mv * 60 + sv)
  {
  }

  /** A text that splits into two or more pieces is not empty. */
  lemma NonEmptyOfPieces(text: string, sep: char)
    requires |Split(text, sep)| >= 2
    ensures text != ""
  {
    assert Split("", sep) == [""];
  }

  /** A text of two pieces reads as minutes and seconds. */
  lemma TwoPieceDuration(text: string, m: string, sec: string, hv: int, mv: int, sv: int)
    requires Split(text, ':') == [m, sec]
    requires hv == 0 && JsNumber(m) == Some(mv) && JsNumber(sec) == Some(sv)
    ensures DurationToSeconds(Some(text)) == Some(hv * 3600 + mv * 60 + sv)
  {
    NonEmptyOfPieces(text, ':');
    assert DurationToSeconds(Some(text)) == SecondsOfPieces([m, sec]);
    CombineTwo(hv, mv, sv);
  }

  lemma CombineTwo(hv: int, mv: int, sv: int)
    requires hv == 0
    ensures Combine(Some(mv), 60, Some(sv)) == Some(hv * 3600 + mv * 60 + sv)
  {
  }

  /** `H:MM:SS` reads back as its number of seconds. */
  lemma ClockWithHoursRoundTrip(hours: nat, minutes: nat, seconds: nat)
    requires hours > 0
    ensures DurationToSeconds(Some(YouTubeService.Clock(hours, minutes, seconds)))
      == Some(hours * 3600 + minutes * 60 + seconds)
  {
    YouTubeService.ClockPiecesWithHours(hours, minutes, seconds);
    NumberOfWritten(hours);
    NumberOfPadded(minutes);
    NumberOfPadded(seconds);
    ThreePieceDuration(YouTubeService.Clock(hours, minutes, seconds),
      NatToString(hours), PadStart2(NatToString(minutes)), PadStart2(NatToString(seconds)), hours, minutes, seconds);
  }

  /** `M:SS` reads back as its number of seconds. */
  lemma ClockNoHoursRoundTrip(hours: nat, minutes: nat, seconds: nat)
    requires hours == 0
    ensures DurationToSeconds(Some(YouTubeService.Clock(hours, minutes, seconds)))
      == Some(hours * 3600 + minutes * 60 + seconds)
  {
    YouTubeService.ClockPiecesNoHours(hours, minutes, seconds);
    NumberOfWritten(minutes);
    NumberOfPadded(seconds);
    TwoPieceDuration(YouTubeService.Clock(hours, minutes, seconds),
      NatToString(minutes), PadStart2(NatToString(seconds)), hours, minutes, seconds);
  }

  /** The clock text the server writes reads back as the number of seconds
      it was written from. */
  lemma ClockRoundTrip(hours: nat, minutes: nat, seconds: nat)
    ensures DurationToSeconds(Some(YouTubeService.Clock(hours, minutes, seconds)))
      == Some(hours * 3600 + minutes * 60 + seconds)
  {
    if hours > 0 {
      ClockWithHoursRoundTrip(hours, minutes, seconds);
    } else {
      ClockNoHoursRoundTrip(hours, minutes, seconds);
    }
  }

  /** End to end: the duration the YouTube API reports, formatted by the
      server and read back by the client, is its length in seconds. */
  lemma IsoDurationRoundTrip(hours: Option<nat>, minutes: Option<nat>, seconds: Option<nat>)
    ensures DurationToSeconds(Some(YouTubeService.FormatDuration(YouTubeService.IsoDuration(hours, minutes, seconds))))
      == Some(YouTubeService.ValueOr0(hours) * 3600 + YouTubeService.ValueOr0(minutes) * 60 + YouTubeService.ValueOr0(seconds))
  {
    YouTubeService.FormatIsoDuration(hours, minutes, seconds);
    ClockRoundTrip(YouTubeService.ValueOr0(hours), YouTubeService.ValueOr0(minutes), YouTubeService.ValueOr0(seconds));
  }
}
