/**
 * Display helpers that components/chat-window.tsx, components/trip-card.tsx and
 * components/profile-modal.tsx each define with identical bodies: the initials shown in an
 * avatar and the 12-hour rendering of an "HH:MM" travel time.
 */
module Display {
  import opened Wrappers
  import opened Js

  // ---------------------------------------------------------------- initials

  /** `.map((n) => n[0]).join("")`: the first character of each piece; an empty piece
      contributes `undefined`, which `join` renders as nothing. */
  function FirstChars(pieces: seq<string>): (r: string)
    ensures |r| <= |pieces|
  {
    if pieces == [] then []
    else (if pieces[0] == "" then [] else [pieces[0][0]]) + FirstChars(pieces[1..])
  }

  /** Reference definition: the characters that begin a space-separated word of `s`
      (`atStart` says whether the previous character was a space or there was none). */
  function WordStartsFrom(s: string, atStart: bool): string {
    if s == [] then []
    else if s[0] == ' ' then WordStartsFrom(s[1..], true)
    else (if atStart then [s[0]] else []) + WordStartsFrom(s[1..], false)
  }

  function WordStarts(s: string): string {
    WordStartsFrom(s, true)
  }

  /** Splitting on spaces and taking each piece's first character picks out the word starts. */
  lemma {:induction false} FirstCharsOfSplit(s: string)
    ensures FirstChars(Split(s, ' ')) == WordStartsFrom(s, true)
    ensures FirstChars(Split(s, ' ')[1..]) == WordStartsFrom(s, false)
  {
    if s != [] {
      FirstCharsOfSplit(s[1..]);
      var rest := Split(s[1..], ' ');
      if s[0] == ' ' {
        assert Split(s, ' ') == [""] + rest;
        assert Split(s, ' ')[1..] == rest;
      } else {
        var first := [s[0]] + rest[0];
        assert Split(s, ' ') == [first] + rest[1..];
        assert Split(s, ' ')[1..] == rest[1..];
        assert FirstChars([first] + rest[1..]) == [s[0]] + FirstChars(rest[1..]);
      }
    }
  }

  function Min(a: int, b: int): int {
    if a <= b then a else b
  }

  /** The avatar initials: "?" for an empty name, otherwise the first characters of the
      space-separated pieces, upper-cased and cut to two. */
  function Initials(name: string): (r: string)
    ensures name == "" ==> r == "?"
    ensures name != "" ==> |r| <= 2
  {
    if name == "" then "?"
    else
      var letters := Upper(FirstChars(Split(name, ' ')));
      letters[..Min(2, |letters|)]
  }

  /** The initials are the upper-cased first characters of the first two words. */
  lemma InitialsAreWordStarts(name: string)
    requires name != ""
    ensures var w := Upper(WordStarts(name)); Initials(name) == w[..Min(2, |w|)]
  {
    FirstCharsOfSplit(name);
  }

  // ---------------------------------------------------------------- 12-hour time

  /** JavaScript `%`: the remainder of truncating division, which is `a` minus a multiple of `b`,
      smaller than `b` in magnitude and of the dividend's sign. */
  function JsRem(a: int, b: int): (r: int)
    requires b > 0
    ensures -b < r < b
    ensures (a - r) % b == 0
    ensures a >= 0 ==> 0 <= r
    ensures a < 0 ==> r <= 0
  {
    if a >= 0 then
      assert a - a % b == (a / b) * b;
      MultipleMod(a / b, b);
      a % b
    else
      var q := (-a) / b;
      assert a + (-a) % b == (-q) * b;
      MultipleMod(-q, b);
      -((-a) % b)
  }

  lemma MulAtLeast(k: int, b: int)
    requires k >= 1 && b > 0
    ensures k * b >= b
  {
  }

  /** A multiple of `b` leaves no remainder. */
  lemma MultipleMod(q: int, b: int)
    requires b > 0
    ensures (q * b) % b == 0
  {
    var x := q * b;
    var d := x / b;
    var m := x % b;
    assert x == d * b + m;
    var k := q - d;
    assert k * b == m;
    if k >= 1 {
      MulAtLeast(k, b);
    } else if k <= -1 {
      MulAtLeast(-k, b);
    }
  }

  /** `hour % 12 || 12`, where `hour` is the `parseInt` result (`None` is NaN, and NaN % 12 is NaN,
      which is falsy). */
  function DisplayHour(hour: Option<int>): (d: int)
    ensures hour.None? ==> d == 12
    ensures hour.Some? && hour.value >= 0 ==> 1 <= d <= 12 && d % 12 == hour.value % 12
  {
    if hour.None? then 12
    else
      var rem := JsRem(hour.value, 12);
      if rem == 0 then 12 else rem
  }

  /** `hour >= 12 ? "PM" : "AM"` (NaN compares false). */
  function Meridiem(hour: Option<int>): string {
    if hour.Some? && hour.value >= 12 then "PM" else "AM"
  }

  /** The text after the first colon up to the next one, or `undefined` when the time has no colon. */
  function MinutesPiece(time: string): string {
    var pieces := Split(time, ':');
    if |pieces| >= 2 then pieces[1] else "undefined"
  }

  /** `formatTime(time)`; `hour` is what `parseInt` gives for the text before the first colon. */
  function FormatTime(time: string, hour: Option<int>): string {
    IntText(DisplayHour(hour)) + ":" + MinutesPiece(time) + " " + Meridiem(hour)
  }

  /** Reading the displayed hour and AM/PM back as a 24-hour clock. */
  function To24(displayHour: int, pm: bool): int {
    if pm then (if displayHour == 12 then 12 else displayHour + 12)
    else (if displayHour == 12 then 0 else displayHour)
  }

  /** For every hour of the day the 12-hour form loses nothing: midnight is 12 AM, noon is 12 PM,
      13-23 show as 1-11 PM, 1-11 as themselves with AM. */
  lemma TwelveHourRoundTrip(h: int)
    requires 0 <= h < 24
    ensures 1 <= DisplayHour(Some(h)) <= 12
    ensures To24(DisplayHour(Some(h)), Meridiem(Some(h)) == "PM") == h
    ensures h == 0 ==> DisplayHour(Some(h)) == 12 && Meridiem(Some(h)) == "AM"
    ensures h == 12 ==> DisplayHour(Some(h)) == 12 && Meridiem(Some(h)) == "PM"
    ensures 13 <= h ==> DisplayHour(Some(h)) == h - 12 && Meridiem(Some(h)) == "PM"
    ensures 1 <= h < 12 ==> DisplayHour(Some(h)) == h && Meridiem(Some(h)) == "AM"
  {
  }

  /** The minutes are copied verbatim: for a time "HH:MM..." the text between the colon and
      the space is the text after the first colon. */
  lemma MinutesVerbatim(hh: string, mm: string)
    requires ':' !in hh && ':' !in mm
    ensures MinutesPiece(hh + ":" + mm) == mm
  {
    SplitAround(hh, mm);
  }

  lemma {:induction false} SplitAround(hh: string, mm: string)
    requires ':' !in hh && ':' !in mm
    ensures Split(hh + ":" + mm, ':') == [hh, mm]
  {
    if hh == [] {
      assert ([] + ":" + mm)[1..] == mm;
      SplitNoSep(mm, ':');
    } else {
      SplitAround(hh[1..], mm);
      assert (hh + ":" + mm)[1..] == hh[1..] + ":" + mm;
      assert [hh[0]] + hh[1..] == hh;
    }
  }

  lemma {:induction false} SplitNoSep(s: string, sep: char)
    requires sep !in s
    ensures Split(s, sep) == [s]
  {
    if s != [] {
      SplitNoSep(s[1..], sep);
      assert [s[0]] + s[1..] == s;
    }
  }

  /** For an "HH:MM" time whose hour parses to 0..23, the text is the 12-hour hour (1..12),
      a colon, the minutes as written, and AM before noon or PM from noon on; reading it back
      as a 24-hour clock gives the hour. */
  lemma FormatTimeSpec(hh: string, mm: string, h: int)
    requires ':' !in hh && ':' !in mm && 0 <= h < 24
    ensures var d := DisplayHour(Some(h));
      && 1 <= d <= 12
      && FormatTime(hh + ":" + mm, Some(h)) == IntText(d) + ":" + mm + " " + (if h < 12 then "AM" else "PM")
      && To24(d, h >= 12) == h
  {
    MinutesVerbatim(hh, mm);
    TwelveHourRoundTrip(h);
  }

  /** "08:30" shows as "8:30 AM". */
  lemma FormatMorningExample()
    ensures FormatTime("08:30", Some(8)) == "8:30 AM"
  {
    assert "08:30" == "08" + ":" + "30";
    MinutesVerbatim("08", "30");
    assert DisplayHour(Some(8)) == 8;
    assert IntText(8) == "8";
  }

  /** "00:05" shows as "12:05 AM". */
  lemma FormatMidnightExample()
    ensures FormatTime("00:05", Some(0)) == "12:05 AM"
  {
    assert "00:05" == "00" + ":" + "05";
    MinutesVerbatim("00", "05");
    assert DisplayHour(Some(0)) == 12;
    assert Decimal(12) == Decimal(1) + [DigitChar(2)];
    assert IntText(12) == "12";
  }

  // ---------------------------------------------------------------- connection actions

  /** The `connectionStatus` prop: "none", "pending" or "connected". */
  datatype ConnectionStatus = NoConnection | PendingConnection | Connected

  /** The action button a card or the profile dialog shows. */
  datatype Action = ConnectButton(disabled: bool) | PendingButton(text: string) | MessageButton

  /** The three independent `connectionStatus === ...` conditionals, in their order; `connecting`
      is the optional prop (absent = false) and `pendingText` the disabled button's text. */
  function StatusActions(status: ConnectionStatus, connecting: bool, pendingText: string): (r: seq<Action>)
    ensures |r| == 1
    ensures status == NoConnection <==> r[0] == ConnectButton(connecting)
    ensures status == PendingConnection <==> r[0] == PendingButton(pendingText)
    ensures status == Connected <==> r[0] == MessageButton
  {
    (if status == NoConnection then [ConnectButton(connecting)] else [])
    + (if status == PendingConnection then [PendingButton(pendingText)] else [])
    + (if status == Connected then [MessageButton] else [])
  }
}
