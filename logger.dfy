/** Named logs of timestamped text lines (kilram/Logger.py). A log line is
    written `name: [YYYY-MM-DD HH:MM:SS] text`, the date or the whole bracket
    being optional. */
module Logging {
  import opened Text
  import opened Calendar

  /** A `datetime` as the entry keeps it: a date and a second of that day.
      Dates before 1970 are representable, as the bracket allows them. */
  datatype Stamp = Stamp(date: Date, second: nat)

  datatype LogEntry = LogEntry(logname: string, logtext: string, timestamp: Stamp)

  /** The `datetime` of a moment `now`. */
  function StampOf(t: nat): (st: Stamp)
    ensures EpochDate(st.date) && DayNumber(st.date) == DayOf(t) && st.second == TimeOfDay(t)
  {
    Stamp(DateOf(DayOf(t)), TimeOfDay(t))
  }

  const COULD_NOT_PARSE: string := "Couldn't parse log text."
  const BAD_TIMESTAMP: string := "Failed to parse timestamp."

  // ---------------------------------------------------------------------
  // The bracket `\[(\d\d\d\d-\d\d-\d\d)? *(\d\d:\d\d:\d\d)\]`.

  /** `\d\d:\d\d:\d\d`. */
  predicate TimeShape(t: string) {
    |t| == 8 && t[2] == ':' && t[5] == ':'
    && IsDigit(t[0]) && IsDigit(t[1]) && IsDigit(t[3]) && IsDigit(t[4]) && IsDigit(t[6]) && IsDigit(t[7])
  }

  /** `\d\d\d\d-\d\d-\d\d`. */
  predicate DateShape(d: string) {
    |d| == 10 && d[4] == '-' && d[7] == '-'
    && IsDigit(d[0]) && IsDigit(d[1]) && IsDigit(d[2]) && IsDigit(d[3])
    && IsDigit(d[5]) && IsDigit(d[6]) && IsDigit(d[8]) && IsDigit(d[9])
  }

  /** The two-digit number at position `i`. */
  function Two(s: string, i: nat): nat
    requires i + 1 < |s| && IsDigit(s[i]) && IsDigit(s[i + 1])
  {
    DigitValue(s[i]) * 10 + DigitValue(s[i + 1])
  }

  /** What the bracket matched: the date and time groups and its length. */
  datatype Bracket = Bracket(date: Option<string>, time: string, len: nat)

  /** The bracket without the date group: spaces, the time, `]`. `t` follows the `[`. */
  function BracketWithoutDate(t: string): (b: Option<Bracket>)
    ensures b.Some? ==> b.value.date.None? && TimeShape(b.value.time) && 0 < b.value.len <= |t| + 1
  {
    var g := LeadingSpaces(t);
    if g + 9 <= |t| && TimeShape(t[g..g + 8]) && t[g + 8] == ']' then Some(Bracket(None, t[g..g + 8], g + 10))
    else None
  }

  /** The bracket at the start of `s`, the date group tried first. */
  function MatchBracket(s: string): (b: Option<Bracket>)
    ensures b.Some? ==> TimeShape(b.value.time) && 0 < b.value.len <= |s|
    ensures b.Some? && b.value.date.Some? ==> DateShape(b.value.date.value)
  {
    if s == [] || s[0] != '[' then None
    else
      var t := s[1..];
      if |t| >= 10 && DateShape(t[..10]) then
        var g := LeadingSpaces(t[10..]);
        var o := 10 + g;
        if o + 9 <= |t| && TimeShape(t[o..o + 8]) && t[o + 8] == ']' then Some(Bracket(Some(t[..10]), t[o..o + 8], o + 10))
        else BracketWithoutDate(t)
      else BracketWithoutDate(t)
  }

  /** `strptime(time, '%H:%M:%S')`: hours to 23, minutes and seconds to 59
      (the 60 and 61 that `%S` reads are refused by `datetime`). */
  function SecondOfDay(t: string): (sec: Option<nat>)
    requires TimeShape(t)
    ensures sec.Some? ==> sec.value < SECONDS_PER_DAY
  {
    var h, m, s := Two(t, 0), Two(t, 3), Two(t, 6);
    if h <= 23 && m <= 59 && s <= 59 then Some(h * 3600 + m * 60 + s) else None
  }

  /** `strptime(date, '%Y-%m-%d')`: a real date of a year from 1 on. */
  function DateValue(d: string): (r: Option<Date>)
    requires DateShape(d)
    ensures r.Some? ==> ValidDate(r.value) && r.value.year <= 9999
  {
    var y := DigitValue(d[0]) * 1000 + DigitValue(d[1]) * 100 + DigitValue(d[2]) * 10 + DigitValue(d[3]);
    var date := Date(y, Two(d, 5), Two(d, 8));
    if ValidDate(date) then Some(date) else None
  }

  /** The moment a bracket names; a missing date is the day of `now`. */
  function BracketStamp(b: Bracket, now: nat): Option<Stamp>
    requires TimeShape(b.time) && (b.date.Some? ==> DateShape(b.date.value))
  {
    match SecondOfDay(b.time)
    case None => None
    case Some(sec) =>
      match b.date
      case None => Some(Stamp(StampOf(now).date, sec))
      case Some(d) =>
        match DateValue(d)
        case None => None
        case Some(date) => Some(Stamp(date, sec))
  }

  /** The remainder of `s` after its leading spaces. */
  function Unindent(s: string): (r: string)
    ensures r == [] || r[0] != ' '
  {
    s[LeadingSpaces(s)..]
  }

  /** What follows the colon, leading spaces removed: the optional bracket,
      then the text without its leading spaces. */
  function EntryAfterName(name: string, rest: string, now: nat): Result<LogEntry> {
    match MatchBracket(rest)
    case None => Ok(LogEntry(name, rest, StampOf(now)))
    case Some(b) =>
      match BracketStamp(b, now)
      case None => Err(BAD_TIMESTAMP)
      case Some(st) => Ok(LogEntry(name, Unindent(rest[b.len..]), st))
  }

  /** `LogEntry(args)`: the name before the first colon, an optional
      timestamp bracket after optional spaces, and the rest, without its
      leading spaces, as the text. */
  function ParseLogEntry(args: string, now: nat): (r: Result<LogEntry>)
    ensures r.Ok? ==> |r.value.logname| > 0 && NoColon(r.value.logname)
    ensures r.Ok? ==> r.value.logtext == [] || r.value.logtext[0] != ' '
  {
    var c := FirstColon(args);
    if c == |args| || c == 0 then Err(COULD_NOT_PARSE)
    else EntryAfterName(args[..c], Unindent(args[c + 1..]), now)
  }

  // ---------------------------------------------------------------------
  // Properties of the parser.

  /** The text cannot be parsed exactly when it has no colon or begins with one. */
  lemma UnparsableIff(args: string, now: nat)
    ensures ParseLogEntry(args, now) == Err(COULD_NOT_PARSE) <==> NoColon(args) || args[..1] == ":"
  {
    var c := FirstColon(args);
    if NoColon(args) {
      assert c == |args|;
    } else if args[..1] == ":" {
      assert args[0] == ':';
    } else {
      assert args[0] != ':' by { assert args[..1] == [args[0]]; }
    }
  }

  /** The name is the text before the first colon. */
  lemma NameBeforeColon(args: string, now: nat)
    requires ParseLogEntry(args, now).Ok?
    ensures var name := ParseLogEntry(args, now).value.logname;
      |name| < |args| && args[..|name|] == name && args[|name|] == ':'
  {
  }

  /** The colon that ends a colon-free name is the first. */
  lemma LeadColon(name: string, rest: string)
    requires NoColon(name)
    ensures var s := name + ":" + rest; FirstColon(s) == |name| && s[..|name|] == name
  {
    var s := name + ":" + rest;
    assert s[|name|] == ':';
    assert s[..|name|] == name;
  }

  lemma UnindentSpaces(gap: nat, text: string)
    requires text == [] || text[0] != ' '
    ensures Unindent(Spaces(gap) + text) == text
  {
    var s := Spaces(gap) + text;
    assert s[gap..] == text;
    assert LeadingSpaces(s) == gap by {
      assert forall i :: 0 <= i < gap ==> s[i] == ' ';
    }
  }

  /** A name, a colon and spaces: the rest is read as what follows them. */
  lemma NameAndRest(name: string, gap: nat, rest: string, now: nat)
    requires |name| > 0 && NoColon(name) && (rest == [] || rest[0] != ' ')
    ensures ParseLogEntry(name + ":" + Spaces(gap) + rest, now) == EntryAfterName(name, rest, now)
  {
    var args := name + ":" + Spaces(gap) + rest;
    LeadColon(name, Spaces(gap) + rest);
    assert args == name + ":" + (Spaces(gap) + rest);
    assert args[|name| + 1..] == Spaces(gap) + rest;
    UnindentSpaces(gap, rest);
  }

  /** Without a bracket the entry is stamped `now` and the text is the rest. */
  lemma NoBracketIsNow(name: string, gap: nat, text: string, now: nat)
    requires |name| > 0 && NoColon(name)
    requires text == [] || (text[0] != ' ' && text[0] != '[')
    ensures ParseLogEntry(name + ":" + Spaces(gap) + text, now) == Ok(LogEntry(name, text, StampOf(now)))
  {
    NameAndRest(name, gap, text, now);
  }

  /** A bracket with a date is matched with its date. */
  lemma DatedBracket(d: string, t: string, text: string)
    requires DateShape(d) && TimeShape(t)
    ensures var s := "[" + d + " " + t + "]" + " " + text;
      MatchBracket(s) == Some(Bracket(Some(d), t, 21)) && s[21..] == " " + text
  {
    var s := "[" + d + " " + t + "]" + " " + text;
    var u := s[1..];
    assert u == d + " " + t + "]" + " " + text;
    assert u[..10] == d;
    var v := u[10..];
    assert v == " " + t + "]" + " " + text;
    assert v[0] == ' ' && v[1] == t[0];
    assert LeadingSpaces(v) == 1 by {
      assert LeadingSpaces(v[1..]) == 0;
    }
    assert u[11..19] == t && u[19] == ']';
    assert s[21..] == " " + text;
  }

  /** A bracket with only a time is matched without a date. */
  lemma TimeBracket(t: string, text: string)
    requires TimeShape(t)
    ensures var s := "[" + t + "]" + " " + text;
      MatchBracket(s) == Some(Bracket(None, t, 10)) && s[10..] == " " + text
  {
    var s := "[" + t + "]" + " " + text;
    var u := s[1..];
    assert u == t + "]" + " " + text;
    assert u[2] == ':';
    assert LeadingSpaces(u) == 0;
    assert u[..8] == t && u[8] == ']';
    assert s[10..] == " " + text;
  }

  /** What a bracketed entry reads as: its stamp, or the timestamp error. */
  lemma BracketedEntry(name: string, b: Bracket, s: string, text: string, now: nat)
    requires |name| > 0 && NoColon(name) && (text == [] || text[0] != ' ')
    requires TimeShape(b.time) && (b.date.Some? ==> DateShape(b.date.value))
    requires s != [] && s[0] == '[' && MatchBracket(s) == Some(b) && s[b.len..] == " " + text
    ensures ParseLogEntry(name + ": " + s, now) ==
      match BracketStamp(b, now)
      case None => Err(BAD_TIMESTAMP)
      case Some(st) => Ok(LogEntry(name, text, st))
  {
    assert name + ": " + s == name + ":" + Spaces(1) + s;
    NameAndRest(name, 1, s, now);
    assert " " + text == Spaces(1) + text;
    UnindentSpaces(1, text);
  }

  // ---------------------------------------------------------------------
  // Writing an entry and reading it back.

  /** `%Y`: four digits. */
  function Digits4(n: nat): (s: string)
    requires n <= 9999
    ensures |s| == 4 && IsDigit(s[0]) && IsDigit(s[1]) && IsDigit(s[2]) && IsDigit(s[3])
    ensures DigitValue(s[0]) * 1000 + DigitValue(s[1]) * 100 + DigitValue(s[2]) * 10 + DigitValue(s[3]) == n
  {
    var q1 := n / 10;
    var q2 := q1 / 10;
    var q3 := q2 / 10;
    assert n == q1 * 10 + n % 10 && q1 == q2 * 10 + q1 % 10 && q2 == q3 * 10 + q2 % 10;
    assert q3 < 10;
    [DigitChar(q3), DigitChar(q2 % 10), DigitChar(q1 % 10), DigitChar(n % 10)]
  }

  /** `%H:%M:%S` of a second of the day. */
  function TimeText(sec: nat): (t: string)
    requires sec < SECONDS_PER_DAY
    ensures TimeShape(t) && SecondOfDay(t) == Some(sec)
  {
    var h, r := sec / 3600, sec % 3600;
    var t := Pad2(h) + ":" + Pad2(r / 60) + ":" + Pad2(r % 60);
    assert t[0] == Pad2(h)[0] && t[1] == Pad2(h)[1];
    assert t[3] == Pad2(r / 60)[0] && t[4] == Pad2(r / 60)[1];
    assert t[6] == Pad2(r % 60)[0] && t[7] == Pad2(r % 60)[1];
    assert r == (r / 60) * 60 + r % 60;
    t
  }

  /** `%Y-%m-%d` of a date. */
  function DateText(d: Date): (t: string)
    requires ValidDate(d) && d.year <= 9999
    ensures DateShape(t) && DateValue(t) == Some(d)
  {
    var y, m, dd := Digits4(d.year), Pad2(d.month), Pad2(d.day);
    var t := y + "-" + m + "-" + dd;
    assert t[..4] == y && t[5] == m[0] && t[6] == m[1] && t[8] == dd[0] && t[9] == dd[1];
    t
  }

  /** An entry written with its full timestamp. */
  function FormatEntry(e: LogEntry): string
    requires ValidDate(e.timestamp.date) && e.timestamp.date.year <= 9999 && e.timestamp.second < SECONDS_PER_DAY
  {
    e.logname + ": [" + DateText(e.timestamp.date) + " " + TimeText(e.timestamp.second) + "] " + e.logtext
  }

  /** An entry the parser can produce, with a stamp the bracket can write. */
  predicate Writable(e: LogEntry) {
    |e.logname| > 0 && NoColon(e.logname) && (e.logtext == [] || e.logtext[0] != ' ')
    && ValidDate(e.timestamp.date) && e.timestamp.date.year <= 9999 && e.timestamp.second < SECONDS_PER_DAY
  }

  /** An entry written with its date and time is read back unchanged. */
  lemma FormatRoundTrip(e: LogEntry, now: nat)
    requires Writable(e)
    ensures ParseLogEntry(FormatEntry(e), now) == Ok(e)
  {
    var d, t := DateText(e.timestamp.date), TimeText(e.timestamp.second);
    var s := "[" + d + " " + t + "]" + " " + e.logtext;
    assert FormatEntry(e) == e.logname + ": " + s;
    DatedBracket(d, t, e.logtext);
    BracketedEntry(e.logname, Bracket(Some(d), t, 21), s, e.logtext, now);
  }

  /** A bracket holding only a time stamps the entry on the day of `now`. */
  lemma TimeOnlyIsToday(name: string, sec: nat, text: string, now: nat)
    requires |name| > 0 && NoColon(name) && sec < SECONDS_PER_DAY && (text == [] || text[0] != ' ')
    ensures ParseLogEntry(name + ": [" + TimeText(sec) + "] " + text, now)
         == Ok(LogEntry(name, text, Stamp(StampOf(now).date, sec)))
  {
    var t := TimeText(sec);
    var s := "[" + t + "]" + " " + text;
    assert name + ": [" + t + "] " + text == name + ": " + s;
    TimeBracket(t, text);
    BracketedEntry(name, Bracket(None, t, 10), s, text, now);
  }

  /** A time of the right shape but past 23:59:59 is an error. */
  lemma BadTimeIsError(name: string, t: string, text: string, now: nat)
    requires |name| > 0 && NoColon(name) && TimeShape(t) && (text == [] || text[0] != ' ')
    requires Two(t, 0) > 23 || Two(t, 3) > 59 || Two(t, 6) > 59
    ensures ParseLogEntry(name + ": [" + t + "] " + text, now) == Err(BAD_TIMESTAMP)
  {
    var s := "[" + t + "]" + " " + text;
    assert name + ": [" + t + "] " + text == name + ": " + s;
    TimeBracket(t, text);
    BracketedEntry(name, Bracket(None, t, 10), s, text, now);
  }

  /** A date of the right shape that is no real date is an error. */
  lemma BadDateIsError(name: string, d: string, t: string, text: string, now: nat)
    requires |name| > 0 && NoColon(name) && DateShape(d) && TimeShape(t) && (text == [] || text[0] != ' ')
    requires DateValue(d).None?
    ensures ParseLogEntry(name + ": [" + d + " " + t + "] " + text, now) == Err(BAD_TIMESTAMP)
  {
    var s := "[" + d + " " + t + "]" + " " + text;
    assert name + ": [" + d + " " + t + "] " + text == name + ": " + s;
    DatedBracket(d, t, text);
    BracketedEntry(name, Bracket(Some(d), t, 21), s, text, now);
  }

  // ---------------------------------------------------------------------
  // A named log.

  class Logger {
    var logname: string
    var created: nat
    var entries: seq<LogEntry>

    /** `Logger(logname)`: a new log is empty and remembers when it was made. */
    constructor (logname: string, now: nat)
      ensures this.logname == logname && created == now && entries == []
    {
      this.logname := logname;
      created := now;
      entries := [];
    }

    /** `log(entry)`: the entry goes last and the earlier ones keep their order. */
    method Log(entry: LogEntry)
      modifies this
      ensures entries == old(entries) + [entry]
      ensures logname == old(logname) && created == old(created)
    {
      entries := entries + [entry];
    }
  }
}
