/** The clock token of a timer expression (`6pm`, `3:30pm`, `18.30`, `6`) and
    the six strptime formats the timer parser tries on it in order
    (kilram/Timer.py:55-62). Each format is emulated the way Python's strptime
    runs it: a regular expression whose alternations are tried left to right,
    followed by the check that no unconverted text remains. */
module Clock {
  import opened Text

  /** A time of day with whole minutes, as `datetime.time` without seconds. */
  datatype ClockTime = ClockTime(hour: nat, minute: nat)

  predicate ValidClock(c: ClockTime) { c.hour < 24 && c.minute < 60 }

  function SecondOfDay(c: ClockTime): (s: nat)
    requires ValidClock(c)
    ensures s < 86400
  {
    c.hour * 3600 + c.minute * 60
  }

  predicate IsAmPm(s: string) { LowerStr(s) == "am" || LowerStr(s) == "pm" }

  /** The part of `\d\d?([:.]\d\d)?(am|pm)?` after the hour digits. */
  predicate IsTimeTail(t: string) {
    || t == []
    || IsAmPm(t)
    || (|t| >= 3 && (t[0] == ':' || t[0] == '.') && IsDigit(t[1]) && IsDigit(t[2])
        && (|t| == 3 || IsAmPm(t[3..])))
  }

  /** A whole token matching `\d\d?([:.]\d\d)?(am|pm)?`, the `time` group of
      every anchored grammar. */
  predicate IsTimeToken(w: string) {
    var n := LeadingDigits(w);
    1 <= n <= 2 && IsTimeTail(w[n..])
  }

  /** A time token is one word and starts with a digit. */
  lemma TimeTokenWord(w: string)
    requires IsTimeToken(w)
    ensures Word(w) && IsDigit(w[0])
  {
    var n := LeadingDigits(w);
    var t := w[n..];
    assert NoSpace(t) by {
      if IsAmPm(t) {
        AmPmLetters(t);
      } else if |t| > 3 {
        AmPmLetters(t[3..]);
        assert forall k :: 3 <= k < |t| ==> t[k] == t[3..][k - 3];
      }
    }
    assert w[0] == w[..n][0];
    forall k | 0 <= k < |w|
      ensures w[k] != ' '
    {
      if k < n {
        assert w[k] == w[..n][k];
      } else {
        assert w[k] == t[k - n];
      }
    }
  }

  lemma AmPmLetters(t: string)
    requires IsAmPm(t)
    ensures NoSpace(t)
  {
    if LowerStr(t) == "am" {
      FoldsToLetters(t, "am");
    } else {
      FoldsToLetters(t, "pm");
    }
  }

  /** One alternative of a strptime field: its value and its length. */
  datatype Alt = Alt(value: nat, len: nat)

  predicate AltsWithin(alts: seq<Alt>, n: nat) {
    forall i :: 0 <= i < |alts| ==> 1 <= alts[i].len <= n
  }

  /** The alternatives of `%I`, `1[0-2]|0[1-9]|[1-9]`, that match at the start of `s`, in order. */
  function TwelveHourAlts(s: string): (alts: seq<Alt>)
    ensures AltsWithin(alts, |s|)
    ensures forall i :: 0 <= i < |alts| ==> 1 <= alts[i].value <= 12
  {
    (if |s| >= 2 && s[0] == '1' && '0' <= s[1] <= '2' then [Alt(10 + DigitValue(s[1]), 2)] else [])
    + (if |s| >= 2 && s[0] == '0' && '1' <= s[1] <= '9' then [Alt(DigitValue(s[1]), 2)] else [])
    + (if |s| >= 1 && '1' <= s[0] <= '9' then [Alt(DigitValue(s[0]), 1)] else [])
  }

  /** The alternatives of `%H`, `2[0-3]|[0-1]\d|\d`. */
  function HourAlts(s: string): (alts: seq<Alt>)
    ensures AltsWithin(alts, |s|)
    ensures forall i :: 0 <= i < |alts| ==> alts[i].value < 24
  {
    (if |s| >= 2 && s[0] == '2' && '0' <= s[1] <= '3' then [Alt(20 + DigitValue(s[1]), 2)] else [])
    + (if |s| >= 2 && '0' <= s[0] <= '1' && IsDigit(s[1]) then [Alt(DigitValue(s[0]) * 10 + DigitValue(s[1]), 2)] else [])
    + (if |s| >= 1 && IsDigit(s[0]) then [Alt(DigitValue(s[0]), 1)] else [])
  }

  /** The alternatives of `%M`, `[0-5]\d|\d`. */
  function MinuteAlts(s: string): (alts: seq<Alt>)
    ensures AltsWithin(alts, |s|)
    ensures forall i :: 0 <= i < |alts| ==> alts[i].value < 60
  {
    (if |s| >= 2 && '0' <= s[0] <= '5' && IsDigit(s[1]) then [Alt(DigitValue(s[0]) * 10 + DigitValue(s[1]), 2)] else [])
    + (if |s| >= 1 && IsDigit(s[0]) then [Alt(DigitValue(s[0]), 1)] else [])
  }

  /** A strptime clock format: `%I` (with `%p`) or `%H`, then optionally a
      separator and `%M`. */
  datatype ClockFormat = ClockFormat(twelveHour: bool, sep: Option<char>)

  /** '%I:%M%p', '%I.%M%p', '%I%p', '%H:%M', '%H.%M', '%H', in the order tried. */
  const CLOCK_FORMATS: seq<ClockFormat> := [
    ClockFormat(true, Some(':')), ClockFormat(true, Some('.')), ClockFormat(true, None),
    ClockFormat(false, Some(':')), ClockFormat(false, Some('.')), ClockFormat(false, None)]

  /** What the format's regular expression matched: fields and the end of the match. */
  datatype Fields = Fields(hour: nat, minute: nat, pm: bool, end: nat)

  /** `%p` at offset `o` for a 12-hour format; nothing for a 24-hour one. */
  function MatchMeridiem(f: ClockFormat, s: string, o: nat): (r: Option<(bool, nat)>)
    requires o <= |s|
    ensures r.Some? ==> r.value.1 <= |s|
  {
    if !f.twelveHour then Some((false, o))
    else if o + 2 <= |s| && IsAmPm(s[o..o + 2]) then Some((LowerStr(s[o..o + 2]) == "pm", o + 2))
    else None
  }

  /** `%p` at offset `o`, completing the fields. */
  function WithMeridiem(f: ClockFormat, s: string, o: nat, hour: nat, minute: nat): (r: Option<Fields>)
    requires o <= |s|
    ensures r.Some? ==> r.value.end <= |s| && r.value.hour == hour && r.value.minute == minute
  {
    match MatchMeridiem(f, s, o)
    case Some((pm, e)) => Some(Fields(hour, minute, pm, e))
    case None => None
  }

  /** Tries the `%M` alternatives at offset `o` in order, each followed by `%p`. */
  function MatchMinute(f: ClockFormat, s: string, o: nat, hour: nat, alts: seq<Alt>): (r: Option<Fields>)
    requires o <= |s| && AltsWithin(alts, |s| - o)
    requires forall i :: 0 <= i < |alts| ==> alts[i].value < 60
    ensures r.Some? ==> r.value.end <= |s| && r.value.hour == hour && r.value.minute < 60
  {
    if alts == [] then None
    else
      var r := WithMeridiem(f, s, o + alts[0].len, hour, alts[0].value);
      if r.Some? then r else MatchMinute(f, s, o, hour, alts[1..])
  }

  /** The rest of the format after the hour field, from offset `o`. */
  function MatchAfterHour(f: ClockFormat, s: string, o: nat, hour: nat): (r: Option<Fields>)
    requires o <= |s|
    ensures r.Some? ==> r.value.end <= |s| && r.value.hour == hour && r.value.minute < 60
  {
    match f.sep
    case None => WithMeridiem(f, s, o, hour, 0)
    case Some(c) =>
      if o < |s| && s[o] == c then MatchMinute(f, s, o + 1, hour, MinuteAlts(s[o + 1..])) else None
  }

  /** Tries the hour alternatives in order until the rest of the format matches. */
  function MatchHour(f: ClockFormat, s: string, alts: seq<Alt>): (r: Option<Fields>)
    requires AltsWithin(alts, |s|)
    ensures r.Some? ==> r.value.end <= |s| && r.value.minute < 60
    ensures r.Some? ==> exists i :: 0 <= i < |alts| && r.value.hour == alts[i].value
  {
    if alts == [] then None
    else
      var first := MatchAfterHour(f, s, alts[0].len, alts[0].value);
      if first.Some? then first
      else
        var r := MatchHour(f, s, alts[1..]);
        assert r.Some? ==> exists i :: 1 <= i < |alts| && r.value.hour == alts[i].value;
        r
  }

  function HourAltsFor(f: ClockFormat, s: string): (alts: seq<Alt>)
    ensures AltsWithin(alts, |s|)
  {
    if f.twelveHour then TwelveHourAlts(s) else HourAlts(s)
  }

  /** The end check (no unconverted data may remain) and the conversion of
      `%I`/`%p` to a 24-hour clock. */
  function Convert(f: ClockFormat, s: string, m: Option<Fields>): (r: Option<ClockTime>)
    requires m.Some? ==> m.value.minute < 60
    requires m.Some? && !f.twelveHour ==> m.value.hour < 24
    ensures r.Some? ==> ValidClock(r.value)
  {
    if m.None? || m.value.end != |s| then None
    else if f.twelveHour then Some(ClockTime(m.value.hour % 12 + (if m.value.pm then 12 else 0), m.value.minute))
    else Some(ClockTime(m.value.hour, m.value.minute))
  }

  /** `datetime.strptime(s, f).time()`, or None where strptime raises ValueError. */
  function Strptime(f: ClockFormat, s: string): (r: Option<ClockTime>)
    ensures r.Some? ==> ValidClock(r.value)
  {
    var alts := HourAltsFor(f, s);
    var m := MatchHour(f, s, alts);
    assert m.Some? && !f.twelveHour ==> m.value.hour < 24;
    Convert(f, s, m)
  }

  /** The first of the formats from the `k`-th on that reads `s`. */
  function FirstClock(k: nat, s: string): (r: Option<ClockTime>)
    requires k <= |CLOCK_FORMATS|
    ensures r.Some? ==> ValidClock(r.value)
    decreases |CLOCK_FORMATS| - k
  {
    if k == |CLOCK_FORMATS| then None
    else match Strptime(CLOCK_FORMATS[k], s)
      case Some(t) => Some(t)
      case None => FirstClock(k + 1, s)
  }

  /** The clock time of a token, trying the formats in the source's order. */
  function ParseClock(s: string): Option<ClockTime> { FirstClock(0, s) }

  /** The loop over the clock formats of the timer parser (kilram/Timer.py:55-62). */
  method ReadClock(token: string) returns (tm: Option<ClockTime>)
    ensures tm == ParseClock(token)
  {
    var k := 0;
    while k < |CLOCK_FORMATS|
      invariant 0 <= k <= |CLOCK_FORMATS|
      invariant ParseClock(token) == FirstClock(k, token)
    {
      var t := Strptime(CLOCK_FORMATS[k], token);
      if t.Some? {
        return t;
      }
      k := k + 1;
    }
    return None;
  }

  // ---------------------------------------------------------------------
  // What the six formats accept, stated directly on the token.

  /** The hour digits of a time token. */
  function HourOf(w: string): nat
    requires IsTimeToken(w)
  {
    DigitsValue(w[..LeadingDigits(w)])
  }

  predicate HourValid(f: ClockFormat, v: nat) { if f.twelveHour then 1 <= v <= 12 else v < 24 }

  /** The reading of a suffix after the minutes (or after the hour): `am`/`pm`
      for a 12-hour format, nothing for a 24-hour one. */
  function SuffixReading(f: ClockFormat, suffix: string, h: nat, mm: nat): Option<ClockTime> {
    if f.twelveHour then
      if IsAmPm(suffix) then Some(ClockTime(h % 12 + (if LowerStr(suffix) == "pm" then 12 else 0), mm)) else None
    else if suffix == [] then Some(ClockTime(h, mm))
    else None
  }

  /** What one format reads from a time token, stated on its parts. */
  function FormatReading(f: ClockFormat, w: string): Option<ClockTime>
    requires IsTimeToken(w)
  {
    var n := LeadingDigits(w);
    var tail := w[n..];
    if f.sep.None? then
      if HourValid(f, HourOf(w)) then SuffixReading(f, tail, HourOf(w), 0) else None
    else if |tail| >= 3 && tail[0] == f.sep.value then
      var mm := DigitsValue(tail[1..3]);
      if mm < 60 && HourValid(f, HourOf(w)) then SuffixReading(f, tail[3..], HourOf(w), mm) else None
    else None
  }

  /** What `ParseClock` makes of a time token: `h[:mm]am`/`pm` with `h` in 1..12,
      or `h[:mm]` with `h` in 0..23, the minutes always two digits below 60,
      and `.` accepted in place of `:`. */
  function ClockReading(w: string): Option<ClockTime>
    requires IsTimeToken(w)
  {
    var n := LeadingDigits(w);
    var tail := w[n..];
    var hasMinutes := |tail| >= 3 && (tail[0] == ':' || tail[0] == '.');
    var mm := if hasMinutes then DigitsValue(tail[1..3]) else 0;
    var suffix := if hasMinutes then tail[3..] else tail;
    var h := HourOf(w);
    if mm >= 60 then None
    else if IsAmPm(suffix) then
      if 1 <= h <= 12 then Some(ClockTime(h % 12 + (if LowerStr(suffix) == "pm" then 12 else 0), mm)) else None
    else if h < 24 then Some(ClockTime(h, mm))
    else None
  }

  lemma HourDigits(w: string)
    requires IsTimeToken(w)
    ensures var n := LeadingDigits(w);
      && IsDigit(w[0]) && (n == 2 ==> IsDigit(w[1]))
      && (n < |w| ==> !IsDigit(w[n]))
      && HourOf(w) == (if n == 1 then DigitValue(w[0]) else DigitValue(w[0]) * 10 + DigitValue(w[1]))
  {
    PrefixValue(w, LeadingDigits(w));
  }

  /** Of the hour alternatives only the first can take all the hour digits, and
      it does exactly when the hour is in range for the format. */
  lemma HourAltsOfToken(f: ClockFormat, w: string)
    requires IsTimeToken(w)
    ensures var n := LeadingDigits(w); var alts := HourAltsFor(f, w);
      && (!f.twelveHour ==> |alts| > 0)
      && (forall i :: 0 <= i < |alts| ==> alts[i].len <= n)
      && (forall i :: 1 <= i < |alts| ==> alts[i].len < n)
      && ((|alts| > 0 && alts[0].len == n) <==> HourValid(f, HourOf(w)))
      && (|alts| > 0 && alts[0].len == n ==> alts[0].value == HourOf(w))
  {
    if f.twelveHour {
      TwelveHourAltsOfToken(w);
    } else {
      HourAltsOfTokenH(w);
    }
  }

  lemma TwelveHourAltsOfToken(w: string)
    requires IsTimeToken(w)
    ensures var n := LeadingDigits(w); var alts := TwelveHourAlts(w);
      && (forall i :: 0 <= i < |alts| ==> alts[i].len <= n)
      && (forall i :: 1 <= i < |alts| ==> alts[i].len < n)
      && ((|alts| > 0 && alts[0].len == n) <==> 1 <= HourOf(w) <= 12)
      && (|alts| > 0 && alts[0].len == n ==> alts[0].value == HourOf(w))
  {
    HourDigits(w);
  }

  lemma HourAltsOfTokenH(w: string)
    requires IsTimeToken(w)
    ensures var n := LeadingDigits(w); var alts := HourAlts(w);
      && |alts| > 0
      && (forall i :: 0 <= i < |alts| ==> alts[i].len <= n)
      && (forall i :: 1 <= i < |alts| ==> alts[i].len < n)
      && (alts[0].len == n <==> HourOf(w) < 24)
      && (alts[0].len == n ==> alts[0].value == HourOf(w))
  {
    HourDigits(w);
  }

  /** `am`/`pm` cannot start with a digit. */
  lemma MeridiemAtDigit(f: ClockFormat, w: string, o: nat, h: nat, mm: nat)
    requires f.twelveHour && o < |w| && IsDigit(w[o])
    ensures WithMeridiem(f, w, o, h, mm) == None
  {
    if o + 2 <= |w| {
      assert LowerStr(w[o..o + 2])[0] == Lower(w[o]) == w[o];
    }
  }

  /** A 12-hour format, or one with a separator, cannot go on at a digit. */
  lemma AfterHourAtDigit(f: ClockFormat, w: string, o: nat, h: nat)
    requires f in CLOCK_FORMATS && (f.twelveHour || f.sep.Some?)
    requires o < |w| && IsDigit(w[o])
    ensures MatchAfterHour(f, w, o, h) == None
  {
    if f.sep.None? {
      MeridiemAtDigit(f, w, o, h, 0);
    }
  }

  lemma {:induction false} ShortHoursFail(f: ClockFormat, w: string, alts: seq<Alt>, n: nat)
    requires f in CLOCK_FORMATS && (f.twelveHour || f.sep.Some?)
    requires n <= |w| && forall i :: 0 <= i < n ==> IsDigit(w[i])
    requires AltsWithin(alts, |w|) && forall i :: 0 <= i < |alts| ==> alts[i].len < n
    ensures MatchHour(f, w, alts) == None
  {
    if alts != [] {
      AfterHourAtDigit(f, w, alts[0].len, alts[0].value);
      ShortHoursFail(f, w, alts[1..], n);
    }
  }

  /** `%p` and the end check read the suffix from `o` on. */
  lemma MeridiemReading(f: ClockFormat, w: string, o: nat, h: nat, mm: nat)
    requires o <= |w| && mm < 60 && HourValid(f, h)
    ensures Convert(f, w, WithMeridiem(f, w, o, h, mm)) == SuffixReading(f, w[o..], h, mm)
  {
    if f.twelveHour {
      if IsAmPm(w[o..]) {
        assert w[o..o + 2] == w[o..];
      } else if o + 2 == |w| {
        assert w[o..o + 2] == w[o..];
      }
    }
  }

  /** The minutes field after a separator at offset `o`. */
  lemma MinuteReading(f: ClockFormat, w: string, o: nat, h: nat)
    requires o + 3 <= |w| && IsDigit(w[o + 1]) && IsDigit(w[o + 2]) && HourValid(f, h)
    ensures var mm := DigitsValue(w[o + 1..o + 3]);
      Convert(f, w, MatchMinute(f, w, o + 1, h, MinuteAlts(w[o + 1..])))
        == if mm < 60 then SuffixReading(f, w[o + 3..], h, mm) else None
  {
    var t := w[o + 1..];
    PrefixValue(t, 2);
    assert t[..2] == w[o + 1..o + 3];
    var mm := DigitsValue(w[o + 1..o + 3]);
    var alts := MinuteAlts(t);
    if mm < 60 {
      assert '0' <= w[o + 1] <= '5';
      assert alts == [Alt(mm, 2), Alt(DigitValue(w[o + 1]), 1)];
      MeridiemReading(f, w, o + 3, h, mm);
      if f.twelveHour {
        MeridiemAtDigit(f, w, o + 2, h, DigitValue(w[o + 1]));
        assert alts[1..][1..] == [];
        assert MatchMinute(f, w, o + 1, h, alts[1..]) == None;
      }
    } else {
      assert alts == [Alt(DigitValue(w[o + 1]), 1)];
      if f.twelveHour {
        MeridiemAtDigit(f, w, o + 2, h, DigitValue(w[o + 1]));
      }
    }
  }

  /** `%H` alone takes the first hour alternative and then needs the token to end. */
  lemma StrptimeHourOnly(w: string)
    requires IsTimeToken(w)
    ensures Strptime(ClockFormat(false, None), w) == FormatReading(ClockFormat(false, None), w)
  {
    var f := ClockFormat(false, None);
    var alts := HourAltsFor(f, w);
    HourAltsOfToken(f, w);
    assert MatchHour(f, w, alts) == Some(Fields(alts[0].value, 0, false, alts[0].len));
  }

  /** For the other formats only the full hour can be followed by the rest. */
  lemma StrptimeByHour(f: ClockFormat, w: string)
    requires IsTimeToken(w) && f in CLOCK_FORMATS && (f.twelveHour || f.sep.Some?)
    ensures HourValid(f, HourOf(w)) ==>
      Strptime(f, w) == Convert(f, w, MatchAfterHour(f, w, LeadingDigits(w), HourOf(w)))
    ensures !HourValid(f, HourOf(w)) ==> Strptime(f, w) == None
  {
    var n := LeadingDigits(w);
    var alts := HourAltsFor(f, w);
    HourAltsOfToken(f, w);
    HourDigits(w);
    assert forall i :: 0 <= i < n ==> IsDigit(w[i]);
    if !HourValid(f, HourOf(w)) {
      ShortHoursFail(f, w, alts, n);
    } else {
      ShortHoursFail(f, w, alts[1..], n);
    }
  }

  /** After a valid hour, the rest of a format reads the tail as FormatReading says. */
  lemma AfterHourReading(f: ClockFormat, w: string)
    requires IsTimeToken(w) && f in CLOCK_FORMATS && HourValid(f, HourOf(w))
    ensures Convert(f, w, MatchAfterHour(f, w, LeadingDigits(w), HourOf(w))) == FormatReading(f, w)
  {
    var n := LeadingDigits(w);
    var v := HourOf(w);
    var tail := w[n..];
    if f.sep.None? {
      MeridiemReading(f, w, n, v, 0);
    } else if |tail| >= 3 && tail[0] == f.sep.value {
      assert tail[1..3] == w[n + 1..n + 3];
      MinuteReading(f, w, n, v);
    }
  }

  /** Each format, run as strptime runs it, reads a time token as FormatReading says. */
  lemma StrptimeOnToken(f: ClockFormat, w: string)
    requires IsTimeToken(w) && f in CLOCK_FORMATS
    ensures Strptime(f, w) == FormatReading(f, w)
  {
    if !f.twelveHour && f.sep.None? {
      StrptimeHourOnly(w);
    } else {
      StrptimeByHour(f, w);
      if HourValid(f, HourOf(w)) {
        AfterHourReading(f, w);
      }
    }
  }

  /** The first of the readings from the `k`-th on that succeeds. */
  function FirstReading(rs: seq<Option<ClockTime>>, k: nat): Option<ClockTime>
    requires k <= |rs|
    decreases |rs| - k
  {
    if k == |rs| then None else if rs[k].Some? then rs[k] else FirstReading(rs, k + 1)
  }

  function Readings(w: string): (rs: seq<Option<ClockTime>>)
    requires IsTimeToken(w)
    ensures |rs| == |CLOCK_FORMATS|
  {
    seq(6, k requires 0 <= k < 6 => FormatReading(CLOCK_FORMATS[k], w))
  }

  /** Trying the formats is trying their readings. */
  lemma {:induction false} FirstClockReadings(k: nat, w: string)
    requires IsTimeToken(w) && k <= |CLOCK_FORMATS|
    ensures FirstClock(k, w) == FirstReading(Readings(w), k)
    decreases |CLOCK_FORMATS| - k
  {
    if k < |CLOCK_FORMATS| {
      StrptimeOnToken(CLOCK_FORMATS[k], w);
      FirstClockReadings(k + 1, w);
    }
  }

  /** ClockReading picks the one format family that fits the token's shape. */
  lemma ReadingsAgree(w: string)
    requires IsTimeToken(w)
    ensures FirstReading(Readings(w), 0) == ClockReading(w)
  {
    var rs := Readings(w);
    assert FirstReading(rs, 5) == rs[5];
    assert FirstReading(rs, 4) == if rs[4].Some? then rs[4] else rs[5];
    assert FirstReading(rs, 3) == if rs[3].Some? then rs[3] else FirstReading(rs, 4);
    assert FirstReading(rs, 2) == if rs[2].Some? then rs[2] else FirstReading(rs, 3);
    assert FirstReading(rs, 1) == if rs[1].Some? then rs[1] else FirstReading(rs, 2);
    assert FirstReading(rs, 0) == if rs[0].Some? then rs[0] else FirstReading(rs, 1);
    var n := LeadingDigits(w);
    var tail := w[n..];
    if |tail| >= 3 && (tail[0] == ':' || tail[0] == '.') {
      assert !IsAmPm(tail) by { assert LowerStr(tail)[0] == tail[0]; }
      assert rs[2] == None && rs[5] == None;
      if tail[0] == ':' {
        assert rs[1] == None && rs[4] == None;
        assert FirstReading(rs, 0) == if rs[0].Some? then rs[0] else rs[3];
      } else {
        assert rs[0] == None && rs[3] == None;
        assert FirstReading(rs, 0) == if rs[1].Some? then rs[1] else rs[4];
      }
    } else {
      assert rs[0] == None && rs[1] == None && rs[3] == None && rs[4] == None;
      assert FirstReading(rs, 0) == if rs[2].Some? then rs[2] else rs[5];
    }
  }

  /** The six formats together accept exactly what ClockReading describes. */
  lemma ParseClockReading(w: string)
    requires IsTimeToken(w)
    ensures ParseClock(w) == ClockReading(w)
  {
    FirstClockReadings(0, w);
    ReadingsAgree(w);
  }

  /** The hour digits of a token that has `n` of them. */
  lemma HourDigitsOf(w: string, n: nat)
    requires 1 <= n <= 2 && n < |w| && (forall k :: 0 <= k < n ==> IsDigit(w[k])) && !IsDigit(w[n])
    ensures LeadingDigits(w) == n
    ensures DigitsValue(w[..n]) == if n == 1 then DigitValue(w[0]) else DigitValue(w[0]) * 10 + DigitValue(w[1])
  {
    DigitsEndAt(w, 0, n);
    PrefixValue(w, n);
  }

  // ---------------------------------------------------------------------
  // ClockReading on the token shapes of the examples below.

  /** Hour digits and `am`/`pm` alone. */
  lemma MeridiemOnly(w: string, h: nat, pm: bool)
    requires IsTimeToken(w) && HourOf(w) == h && 1 <= h <= 12
    requires var tail := w[LeadingDigits(w)..]; |tail| < 3 && IsAmPm(tail) && (LowerStr(tail) == "pm") == pm
    ensures ClockReading(w) == Some(ClockTime(h % 12 + (if pm then 12 else 0), 0))
  {
  }

  /** `am`/`pm` after an hour outside 1..12. */
  lemma MeridiemBadHour(w: string)
    requires IsTimeToken(w) && !(1 <= HourOf(w) <= 12)
    requires var tail := w[LeadingDigits(w)..]; |tail| < 3 && IsAmPm(tail)
    ensures ClockReading(w) == None
  {
  }

  /** Hour digits alone. */
  lemma HourOnly(w: string, h: nat)
    requires IsTimeToken(w) && HourOf(w) == h && h < 24 && LeadingDigits(w) == |w|
    ensures ClockReading(w) == Some(ClockTime(h, 0))
  {
    assert !IsAmPm([]);
  }

  /** Hour, separator, minutes and `am`/`pm`. */
  lemma MinutesMeridiem(w: string, h: nat, mm: nat, pm: bool)
    requires IsTimeToken(w) && HourOf(w) == h && 1 <= h <= 12 && mm < 60
    requires var tail := w[LeadingDigits(w)..];
      |tail| >= 3 && tail[0] == ':' && DigitsValue(tail[1..3]) == mm
      && IsAmPm(tail[3..]) && (LowerStr(tail[3..]) == "pm") == pm
    ensures ClockReading(w) == Some(ClockTime(h % 12 + (if pm then 12 else 0), mm))
  {
  }

  /** Hour, separator and minutes with nothing after them. */
  lemma MinutesOnly(w: string, h: nat, mm: nat)
    requires IsTimeToken(w) && HourOf(w) == h && h < 24 && mm < 60
    requires var tail := w[LeadingDigits(w)..];
      |tail| == 3 && (tail[0] == ':' || tail[0] == '.') && DigitsValue(tail[1..3]) == mm
    ensures ClockReading(w) == Some(ClockTime(h, mm))
  {
    var tail := w[LeadingDigits(w)..];
    assert tail[3..] == [] && !IsAmPm([]);
  }

  /** Minutes of 60 or more. */
  lemma MinutesBad(w: string)
    requires IsTimeToken(w)
    requires var tail := w[LeadingDigits(w)..];
      |tail| >= 3 && (tail[0] == ':' || tail[0] == '.') && DigitsValue(tail[1..3]) >= 60
    ensures ClockReading(w) == None
  {
  }

  /** The value of a two-digit string. */
  lemma TwoDigits(t: string)
    requires |t| == 2 && IsDigit(t[0]) && IsDigit(t[1])
    ensures DigitsValue(t) == DigitValue(t[0]) * 10 + DigitValue(t[1])
  {
    PrefixValue(t, 2);
    assert t[..2] == t;
  }

  // ---------------------------------------------------------------------
  // Examples: the spellings the timer help text shows, and ones that fail.

  lemma ClockExamplePm()
    ensures ParseClock("6pm") == Some(ClockTime(18, 0))
  {
    var w := "6pm";
    HourDigitsOf(w, 1);
    assert w[1..] == "pm" && LowerStr("pm") == "pm";
    MeridiemOnly(w, 6, true);
    ParseClockReading(w);
  }

  lemma ClockExampleFivePm()
    ensures ParseClock("5pm") == Some(ClockTime(17, 0))
  {
    var w := "5pm";
    HourDigitsOf(w, 1);
    assert w[1..] == "pm" && LowerStr("pm") == "pm";
    MeridiemOnly(w, 5, true);
    ParseClockReading(w);
  }

  lemma ClockExampleMidnight()
    ensures ParseClock("12am") == Some(ClockTime(0, 0))
  {
    var w := "12am";
    HourDigitsOf(w, 2);
    assert w[2..] == "am" && LowerStr("am") == "am";
    MeridiemOnly(w, 12, false);
    ParseClockReading(w);
  }

  lemma ClockExampleNoon()
    ensures ParseClock("12pm") == Some(ClockTime(12, 0))
  {
    var w := "12pm";
    HourDigitsOf(w, 2);
    assert w[2..] == "pm" && LowerStr("pm") == "pm";
    MeridiemOnly(w, 12, true);
    ParseClockReading(w);
  }

  lemma ClockExampleBareHour()
    ensures ParseClock("6") == Some(ClockTime(6, 0))
  {
    var w := "6";
    DigitsEndAt(w, 0, 1);
    PrefixValue(w, 1);
    assert w[1..] == [] && w[..1] == w;
    HourOnly(w, 6);
    ParseClockReading(w);
  }

  lemma ClockExampleMinutes()
    ensures ParseClock("3:30pm") == Some(ClockTime(15, 30))
  {
    var w := "3:30pm";
    HourDigitsOf(w, 1);
    var tail := w[1..];
    assert tail == ":30pm" && tail[1..3] == "30" && tail[3..] == "pm";
    TwoDigits("30");
    assert LowerStr("pm") == "pm";
    MinutesMeridiem(w, 3, 30, true);
    ParseClockReading(w);
  }

  lemma ClockExampleTwentyFour()
    ensures ParseClock("18:30") == Some(ClockTime(18, 30))
  {
    var w := "18:30";
    HourDigitsOf(w, 2);
    var tail := w[2..];
    assert tail == ":30" && tail[1..3] == "30";
    TwoDigits("30");
    MinutesOnly(w, 18, 30);
    ParseClockReading(w);
  }

  lemma ClockExampleDot()
    ensures ParseClock("18.30") == Some(ClockTime(18, 30))
  {
    var w := "18.30";
    HourDigitsOf(w, 2);
    var tail := w[2..];
    assert tail == ".30" && tail[1..3] == "30";
    TwoDigits("30");
    MinutesOnly(w, 18, 30);
    ParseClockReading(w);
  }

  lemma ClockExampleBadHour()
    ensures ParseClock("13pm") == None
  {
    var w := "13pm";
    HourDigitsOf(w, 2);
    assert w[2..] == "pm" && LowerStr("pm") == "pm";
    MeridiemBadHour(w);
    ParseClockReading(w);
  }

  lemma ClockExampleZeroAm()
    ensures ParseClock("0am") == None
  {
    var w := "0am";
    HourDigitsOf(w, 1);
    assert w[1..] == "am" && LowerStr("am") == "am";
    MeridiemBadHour(w);
    ParseClockReading(w);
  }

  lemma ClockExampleBadMinutes()
    ensures ParseClock("99:99") == None
  {
    var w := "99:99";
    HourDigitsOf(w, 2);
    var tail := w[2..];
    assert tail == ":99" && tail[1..3] == "99";
    TwoDigits("99");
    MinutesBad(w);
    ParseClockReading(w);
  }
}
