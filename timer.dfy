/** The timer expression parser, `Timer.__init__` (kilram/Timer.py:12-111).

    The source tries one regular expression per grammar,
      `^(?P<desc>[^:]+) *: *<grammar>( +(?P<flags>req-ack))? *$`  (case-insensitive),
    for the six grammars of kilram/Timer.py:19-38. Here the shared header is read
    once: the description is everything before the first colon, the rest is cut
    into space-separated tokens, and a last token equal to `req-ack` up to case
    is the flag. Each grammar is then a recogniser on the remaining tokens. */
module Timers {
  import opened Text
  import opened Calendar
  import opened Clock

  /** A reminder. Times are whole seconds since 1970-01-01 00:00 local time. */
  datatype Timer = Timer(description: string, target: nat, requireAck: bool, lastAlert: Option<nat>, created: nat)

  // ---------------------------------------------------------------------
  // The header.

  /** Up to ASCII case, `w` is the keyword `lit`. */
  predicate Keyword(w: string, lit: string) { MatchesIgnoreCase(w, lit) }

  /** What every grammar's expression shares: the description, the tokens of
      the time specification and the `req-ack` flag as written. */
  datatype Header = Header(desc: string, body: seq<Token>, flag: Option<string>)

  function SplitHeader(args: string): (h: Option<Header>)
    ensures h.Some? ==> |h.value.desc| > 0 && NoColon(h.value.desc)
  {
    var c := FirstColon(args);
    if c == |args| || c == 0 then None
    else Some(HeaderOf(args[..c], Tokens(args[c + 1..])))
  }

  /** The description and the tokens after the colon, with a last token
      `req-ack` (up to case) taken off as the flag. */
  function HeaderOf(desc: string, ts: seq<Token>): (h: Header)
    ensures h.desc == desc
  {
    if |ts| > 0 && Keyword(ts[|ts| - 1].word, "req-ack")
    then Header(desc, ts[..|ts| - 1], Some(ts[|ts| - 1].word))
    else Header(desc, ts, None)
  }

  // ---------------------------------------------------------------------
  // The six grammars.

  /** What a grammar captured. */
  datatype Spec =
    | Countdown(days: nat, hours: nat, minutes: nat, seconds: nat)  // in 2d 3h 4m 5s
    | InDays(count: nat, time: string)                              // in 2d at 6pm
    | OnWeekday(weekday: string, time: string)                      // on Sun at 6pm
    | OnMonthDay(group: string, month: string, day: string, time: string)  // on May 6 at 4am
    | Tomorrow(time: string)                                        // tomorrow at 4pm
    | Today(time: string)                                           // at 4pm

  datatype Grammar = CountdownCd | DayCd | WeekdayCd | MonthCd | TomorrowCd | TodayCd

  /** The grammars in the order they are written. */
  const GRAMMARS: seq<Grammar> := [CountdownCd, DayCd, WeekdayCd, MonthCd, TomorrowCd, TodayCd]

  /** Rank of a countdown unit: `d|days`, `h|hs`, `m|min`, `s|sec`. */
  function UnitRank(u: string): (r: Option<nat>)
    ensures r.Some? ==> r.value < 4
  {
    if Keyword(u, "d") || Keyword(u, "days") then Some(0)
    else if Keyword(u, "h") || Keyword(u, "hs") then Some(1)
    else if Keyword(u, "m") || Keyword(u, "min") then Some(2)
    else if Keyword(u, "s") || Keyword(u, "sec") then Some(3)
    else None
  }

  /** An amount and its unit, ` +(\d+) *(unit)`: written together (`5d`) or as
      two tokens (`5 d`). Gives the unit's rank, the amount and the tokens used. */
  datatype Group = Group(rank: nat, amount: nat, used: nat)

  function ReadGroup(ws: seq<string>): (g: Option<Group>)
    requires ws != []
    ensures g.Some? ==> g.value.rank < 4 && 1 <= g.value.used <= |ws|
  {
    var w := ws[0];
    var n := LeadingDigits(w);
    var amount := DigitsValue(w[..n]);
    if n == 0 then None
    else if n < |w| then
      match UnitRank(w[n..])
      case Some(r) => Some(Group(r, amount, 1))
      case None => None
    else if |ws| >= 2 then
      match UnitRank(ws[1])
      case Some(r) => Some(Group(r, amount, 2))
      case None => None
    else None
  }

  /** The optional groups of the countdown, each unit at most once and in the
      order days, hours, minutes, seconds; `next` is the lowest rank still
      allowed. The result holds one amount per rank, 0 where absent. */
  function CountdownAmounts(ws: seq<string>, next: nat): (v: Option<seq<nat>>)
    requires next <= 4
    ensures v.Some? ==> |v.value| == 4 && forall i :: 0 <= i < next ==> v.value[i] == 0
    decreases |ws|
  {
    if ws == [] then Some([0, 0, 0, 0])
    else
      match ReadGroup(ws)
      case None => None
      case Some(g) =>
        if g.rank < next then None
        else
          match CountdownAmounts(ws[g.used..], g.rank + 1)
          case None => None
          case Some(v) => Some(v[g.rank := g.amount])
  }

  predicate IsOnNext(w: string) { Keyword(w, "on") || Keyword(w, "next") }

  /** The grammar `g` on the tokens of a time specification. */
  function MatchGrammar(g: Grammar, ts: seq<Token>): Option<Spec> {
    var ws := Words(ts);
    match g
    case CountdownCd =>
      if |ws| >= 1 && Keyword(ws[0], "in") then
        match CountdownAmounts(ws[1..], 0)
        case Some(v) => Some(Countdown(v[0], v[1], v[2], v[3]))
        case None => None
      else None
    case DayCd =>
      if |ws| >= 4 && Keyword(ws[0], "in") then
        match ReadGroup(ws[1..])
        case Some(grp) =>
          if grp.rank == 0 && |ws| == grp.used + 3 && Keyword(ws[grp.used + 1], "at") && IsTimeToken(ws[grp.used + 2])
          then Some(InDays(grp.amount, ws[grp.used + 2]))
          else None
        case None => None
      else None
    case WeekdayCd =>
      if |ws| == 4 && IsOnNext(ws[0]) && AllWordChars(ws[1]) && Keyword(ws[2], "at") && IsTimeToken(ws[3])
      then Some(OnWeekday(ws[1], ws[3]))
      else None
    case MonthCd =>
      if |ws| == 5 && IsOnNext(ws[0]) && AllWordChars(ws[1]) && 1 <= |ws[2]| <= 2 && AllDigits(ws[2])
         && Keyword(ws[3], "at") && IsTimeToken(ws[4])
      then Some(OnMonthDay(ws[1] + Spaces(ts[2].gap) + ws[2], ws[1], ws[2], ws[4]))
      else None
    case TomorrowCd =>
      if |ws| == 3 && Keyword(ws[0], "tomorrow") && Keyword(ws[1], "at") && IsTimeToken(ws[2])
      then Some(Tomorrow(ws[2]))
      else None
    case TodayCd =>
      if |ws| == 2 && Keyword(ws[0], "at") && IsTimeToken(ws[1])
      then Some(Today(ws[1]))
      else None
  }

  /** The first of the grammars from the `k`-th on that matches. */
  function FirstMatch(k: nat, ts: seq<Token>): Option<Spec>
    requires k <= |GRAMMARS|
    decreases |GRAMMARS| - k
  {
    if k == |GRAMMARS| then None
    else
      var m := MatchGrammar(GRAMMARS[k], ts);
      if m.Some? then m else FirstMatch(k + 1, ts)
  }

  // ---------------------------------------------------------------------
  // The grammars are disjoint, so the order in which the source's dict
  // yields them does not matter.

  /** A keyword that starts with a letter does not start with a digit. */
  lemma KeywordNotAmount(w: string, lit: string)
    requires Keyword(w, lit) && |lit| > 0 && !IsDigit(lit[0])
    ensures LeadingDigits(w) == 0
  {
    assert LowerStr(w)[0] == Lower(w[0]);
  }

  /** After `in` and a group, countdown cannot read `at`. */
  lemma CountdownStopsAtAt(ws: seq<string>)
    requires |ws| >= 3 && ReadGroup(ws).Some?
    requires ReadGroup(ws).value.used + 2 == |ws| && Keyword(ws[ReadGroup(ws).value.used], "at")
    ensures CountdownAmounts(ws, 0).None?
  {
    var g := ReadGroup(ws).value;
    var rest := ws[g.used..];
    assert rest[0] == ws[g.used];
    KeywordNotAmount(rest[0], "at");
    assert ReadGroup(rest).None?;
  }

  lemma {:induction false} GrammarsDisjoint(g1: Grammar, g2: Grammar, ts: seq<Token>)
    requires MatchGrammar(g1, ts).Some? && MatchGrammar(g2, ts).Some?
    ensures g1 == g2
  {
    var ws := Words(ts);
    if {g1, g2} == {CountdownCd, DayCd} {
      CountdownStopsAtAt(ws[1..]);
    }
  }

  lemma {:induction false} FirstMatchOfSome(k: nat, j: nat, ts: seq<Token>)
    requires k <= j < |GRAMMARS| && MatchGrammar(GRAMMARS[j], ts).Some?
    ensures FirstMatch(k, ts) == MatchGrammar(GRAMMARS[j], ts)
    decreases |GRAMMARS| - k
  {
    if MatchGrammar(GRAMMARS[k], ts).Some? {
      GrammarsDisjoint(GRAMMARS[k], GRAMMARS[j], ts);
    } else {
      FirstMatchOfSome(k + 1, j, ts);
    }
  }

  lemma {:induction false} FirstMatchOfNone(k: nat, ts: seq<Token>)
    requires k <= |GRAMMARS| && forall j :: k <= j < |GRAMMARS| ==> MatchGrammar(GRAMMARS[j], ts).None?
    ensures FirstMatch(k, ts).None?
    decreases |GRAMMARS| - k
  {
    if k < |GRAMMARS| {
      FirstMatchOfNone(k + 1, ts);
    }
  }

  /** Every grammar is in the list. */
  lemma GrammarListed(g: Grammar) returns (j: nat)
    ensures j < |GRAMMARS| && GRAMMARS[j] == g
  {
    j := match g
      case CountdownCd => 0 case DayCd => 1 case WeekdayCd => 2
      case MonthCd => 3 case TomorrowCd => 4 case TodayCd => 5;
  }

  /** Trying the grammars in any order gives the same result: whichever
      grammar matches is the one used, and none matching gives nothing. */
  lemma GrammarOrderIrrelevant(g: Grammar, ts: seq<Token>)
    ensures MatchGrammar(g, ts).Some? ==> FirstMatch(0, ts) == MatchGrammar(g, ts)
    ensures FirstMatch(0, ts).None? <==> forall h: Grammar :: MatchGrammar(h, ts).None?
  {
    if MatchGrammar(g, ts).Some? {
      var j := GrammarListed(g);
      FirstMatchOfSome(0, j, ts);
    }
    if forall h: Grammar :: MatchGrammar(h, ts).None? {
      FirstMatchOfNone(0, ts);
    } else {
      var h: Grammar :| MatchGrammar(h, ts).Some?;
      var j := GrammarListed(h);
      FirstMatchOfSome(0, j, ts);
    }
  }

  // ---------------------------------------------------------------------
  // Weekday and month names, as strptime's `%a`/`%A` and `%b`/`%B` read them
  // in the C locale, up to case.

  /** strptime's abbreviated (`%a`, `%b`) or full (`%A`, `%B`) name fields. */
  datatype NameStyle = Abbreviated | Full

  /** `'%a %U'`, then `'%A %U'` (kilram/Timer.py:80); `'%b %d %Y'`, then `'%B %d %Y'` (kilram/Timer.py:96). */
  const NAME_STYLES: seq<NameStyle> := [Abbreviated, Full]

  const WEEKDAY_ABBREVIATIONS: seq<string> := ["mon", "tue", "wed", "thu", "fri", "sat", "sun"]
  const WEEKDAY_NAMES: seq<string> := ["monday", "tuesday", "wednesday", "thursday", "friday", "saturday", "sunday"]
  const MONTH_ABBREVIATIONS: seq<string> :=
    ["jan", "feb", "mar", "apr", "may", "jun", "jul", "aug", "sep", "oct", "nov", "dec"]
  const MONTH_NAMES: seq<string> :=
    ["january", "february", "march", "april", "may", "june",
     "july", "august", "september", "october", "november", "december"]

  /** Position of `w` in `names`, up to case. */
  function NameIndex(names: seq<string>, w: string): (i: Option<nat>)
    ensures i.Some? ==> i.value < |names| && Keyword(w, names[i.value])
    ensures i.None? ==> forall k :: 0 <= k < |names| ==> !Keyword(w, names[k])
  {
    if names == [] then None
    else if Keyword(w, names[0]) then Some(0)
    else
      match NameIndex(names[1..], w)
      case Some(k) => Some(k + 1)
      case None => None
  }

  /** ISO weekday (Monday = 1) of the weekday named `w`. */
  function WeekdayByName(style: NameStyle, w: string): (d: Option<int>)
    ensures d.Some? ==> 1 <= d.value <= 7
  {
    match NameIndex(if style == Abbreviated then WEEKDAY_ABBREVIATIONS else WEEKDAY_NAMES, w)
    case Some(i) => Some(i + 1)
    case None => None
  }

  /** Month number (January = 1) of the month named `w`. */
  function MonthByName(style: NameStyle, w: string): (m: Option<int>)
    ensures m.Some? ==> 1 <= m.value <= 12
  {
    match NameIndex(if style == Abbreviated then MONTH_ABBREVIATIONS else MONTH_NAMES, w)
    case Some(i) => Some(i + 1)
    case None => None
  }

  // ---------------------------------------------------------------------
  // Resolving an anchored grammar to a moment.

  /** The weekday anchor for ISO weekday `wd` at second-of-day `sod`. */
  function WeekdayTarget(wd: int, sod: nat, now: nat): nat
    requires 1 <= wd <= 7
  {
    var today := DayOf(now);
    var diff := (wd - IsoWeekday(today) + 7) % 7;
    var day := today + diff;
    if Combine(day, sod) <= now then Combine(day + 7, sod) else Combine(day, sod)
  }

  /** One weekday format: the target, or None where strptime fails. */
  function TryWeekday(style: NameStyle, w: string, sod: nat, now: nat): Option<nat> {
    match WeekdayByName(style, w)
    case Some(wd) => Some(WeekdayTarget(wd, sod, now))
    case None => None
  }

  /** The first of the weekday formats from the `k`-th on that reads `w`. */
  function FirstWeekday(k: nat, w: string, sod: nat, now: nat): Option<nat>
    requires k <= |NAME_STYLES|
    decreases |NAME_STYLES| - k
  {
    if k == |NAME_STYLES| then None
    else
      var t := TryWeekday(NAME_STYLES[k], w, sod, now);
      if t.Some? then t else FirstWeekday(k + 1, w, sod, now)
  }

  /** `strptime("<group> <year>", fmt).date()`: the month name, the day (the
      `%d` field, 1 to 31, then `datetime`'s check of the date) and a four-digit
      `%Y` year. */
  function StrptimeDate(style: NameStyle, month: string, day: string, year: int): (d: Option<Date>)
    requires AllDigits(day)
    ensures d.Some? ==> ValidDate(d.value) && d.value.year == year
  {
    match MonthByName(style, month)
    case None => None
    case Some(m) =>
      var date := Date(year, m, DigitsValue(day));
      if 1000 <= year <= 9999 && ValidDate(date) then Some(date) else None
  }

  /** One month format: this year's date unless that moment has passed, then
      next year's; None where either strptime call fails. */
  function TryMonth(style: NameStyle, month: string, day: string, sod: nat, now: nat): (t: Option<nat>)
    requires AllDigits(day)
  {
    var y := DateOf(DayOf(now)).year;
    match StrptimeDate(style, month, day, y)
    case None => None
    case Some(d) =>
      if Combine(DayNumber(d), sod) > now then Some(Combine(DayNumber(d), sod))
      else
        match StrptimeDate(style, month, day, y + 1)
        case None => None
        case Some(d') => Some(Combine(DayNumber(d'), sod))
  }

  /** The first of the month formats from the `k`-th on that reads the date. */
  function FirstMonth(k: nat, month: string, day: string, sod: nat, now: nat): Option<nat>
    requires k <= |NAME_STYLES| && AllDigits(day)
    decreases |NAME_STYLES| - k
  {
    if k == |NAME_STYLES| then None
    else
      var t := TryMonth(NAME_STYLES[k], month, day, sod, now);
      if t.Some? then t else FirstMonth(k + 1, month, day, sod, now)
  }

  /** `'%s'` interpolated between quotes. */
  function Quoted(before: string, s: string): string { before + " '" + s + "'" }

  /** The target of an anchored grammar once its clock time is known. */
  function AnchorTarget(spec: Spec, sod: nat, now: nat): Result<nat>
    requires !spec.Countdown?
    requires spec.OnMonthDay? ==> AllDigits(spec.day)
  {
    var today := DayOf(now);
    match spec
    case InDays(n, _) => Ok(Combine(today + n, sod))
    case Tomorrow(_) => Ok(Combine(today + 1, sod))
    case Today(_) =>
      if Combine(today, sod) > now then Ok(Combine(today, sod)) else Ok(Combine(today + 1, sod))
    case OnWeekday(w, _) =>
      (match FirstWeekday(0, w, sod, now)
       case Some(t) => Ok(t)
       case None => Err(Quoted("Failed to parse weekday", w)))
    case OnMonthDay(group, month, day, _) =>
      (match FirstMonth(0, month, day, sod, now)
       case Some(t) => Ok(t)
       case None => Err(Quoted("Failed to parse day", group)))
  }

  predicate WellFormedSpec(spec: Spec) { spec.OnMonthDay? ==> AllDigits(spec.day) }

  /** The target of what a grammar captured. */
  function Resolve(spec: Spec, now: nat): Result<nat>
    requires WellFormedSpec(spec)
  {
    match spec
    case Countdown(d, h, m, s) => Ok(now + d * 86400 + h * 3600 + m * 60 + s)
    case _ =>
      match ParseClock(spec.time)
      case None => Err(Quoted("Failed to parse time", spec.time))
      case Some(tm) => AnchorTarget(spec, SecondOfDay(tm), now)
  }

  /** The timer for a header whose time specification a grammar read. */
  function BuildTimer(h: Header, spec: Spec, now: nat): (r: Result<Timer>)
    requires WellFormedSpec(spec)
    ensures r.Ok? ==> r.value.description == h.desc && r.value.created == now && r.value.lastAlert.None?
    ensures r.Ok? ==> (r.value.requireAck <==> h.flag == Some("req-ack"))
  {
    match Resolve(spec, now)
    case Err(e) => Err(e)
    case Ok(target) => Ok(Timer(h.desc, target, h.flag == Some("req-ack"), None, now))
  }

  /** The timer `Timer(args)` builds at time `now`, or the message of the TimerError it raises. */
  function TimerOf(args: string, now: nat): Result<Timer> {
    var unparsable := Err(Quoted("Unable to parse timer for", args));
    match SplitHeader(args)
    case None => unparsable
    case Some(h) =>
      match FirstMatch(0, h.body)
      case None => unparsable
      case Some(spec) =>
        FirstMatchWellFormed(0, h.body);
        BuildTimer(h, spec, now)
  }

  lemma {:induction false} FirstMatchWellFormed(k: nat, ts: seq<Token>)
    requires k <= |GRAMMARS| && FirstMatch(k, ts).Some?
    ensures WellFormedSpec(FirstMatch(k, ts).value)
    decreases |GRAMMARS| - k
  {
    if MatchGrammar(GRAMMARS[k], ts).None? {
      FirstMatchWellFormed(k + 1, ts);
    }
  }

  // ---------------------------------------------------------------------
  // The parser as the source runs it: a loop over the grammars and, inside
  // it, loops over the clock, weekday and month formats, each leaving at the
  // first format that succeeds.

  /** The `for fmt in ('%a %U', '%A %U')` loop (kilram/Timer.py:80-91). */
  method ReadWeekday(w: string, sod: nat, now: nat) returns (t: Option<nat>)
    ensures t == FirstWeekday(0, w, sod, now)
  {
    var k := 0;
    while k < |NAME_STYLES|
      invariant 0 <= k <= |NAME_STYLES|
      invariant FirstWeekday(0, w, sod, now) == FirstWeekday(k, w, sod, now)
    {
      var wd := WeekdayByName(NAME_STYLES[k], w);
      if wd.Some? {
        var today := DayOf(now);
        var diff := (wd.value - IsoWeekday(today) + 7) % 7;
        var day := today + diff;
        if Combine(day, sod) <= now {
          day := day + 7;
        }
        return Some(Combine(day, sod));
      }
      k := k + 1;
    }
    return None;
  }

  /** The `for fmt in ('%b %d %Y', '%B %d %Y')` loop (kilram/Timer.py:95-107). */
  method ReadMonthDay(month: string, day: string, sod: nat, now: nat) returns (t: Option<nat>)
    requires AllDigits(day)
    ensures t == FirstMonth(0, month, day, sod, now)
  {
    var k := 0;
    while k < |NAME_STYLES|
      invariant 0 <= k <= |NAME_STYLES|
      invariant FirstMonth(0, month, day, sod, now) == FirstMonth(k, month, day, sod, now)
    {
      t := ReadMonthDayAs(NAME_STYLES[k], month, day, sod, now);
      if t.Some? {
        return;
      }
      k := k + 1;
    }
    return None;
  }

  /** One pass of that loop: the `try` block for format `style`. */
  method ReadMonthDayAs(style: NameStyle, month: string, day: string, sod: nat, now: nat) returns (t: Option<nat>)
    requires AllDigits(day)
    ensures t == TryMonth(style, month, day, sod, now)
  {
    var thisYear := DateOf(DayOf(now)).year;
    var d := StrptimeDate(style, month, day, thisYear);
    if d.None? {
      return None;
    }
    if Combine(DayNumber(d.value), sod) > now {
      return Some(Combine(DayNumber(d.value), sod));
    }
    d := StrptimeDate(style, month, day, thisYear + 1);
    if d.None? {
      return None;
    }
    return Some(Combine(DayNumber(d.value), sod));
  }

  /** The body of the grammar loop once a grammar has matched (kilram/Timer.py:44-108). */
  method ResolveSpec(spec: Spec, now: nat) returns (r: Result<nat>)
    requires WellFormedSpec(spec)
    ensures r == Resolve(spec, now)
  {
    if spec.Countdown? {
      return Ok(now + spec.days * 86400 + spec.hours * 3600 + spec.minutes * 60 + spec.seconds);
    }
    var tm := ReadClock(spec.time);
    if tm.None? {
      return Err(Quoted("Failed to parse time", spec.time));
    }
    r := ResolveAnchor(spec, SecondOfDay(tm.value), now);
  }

  /** The anchored grammars once the clock time is known (kilram/Timer.py:64-108). */
  method ResolveAnchor(spec: Spec, sod: nat, now: nat) returns (r: Result<nat>)
    requires !spec.Countdown? && WellFormedSpec(spec)
    ensures r == AnchorTarget(spec, sod, now)
  {
    var today := DayOf(now);
    match spec {
      case InDays(n, _) =>
        r := Ok(Combine(today + n, sod));
      case Tomorrow(_) =>
        r := Ok(Combine(today + 1, sod));
      case Today(_) =>
        if Combine(today, sod) > now {
          r := Ok(Combine(today, sod));
        } else {
          r := Ok(Combine(today + 1, sod));
        }
      case OnWeekday(w, _) =>
        var t := ReadWeekday(w, sod, now);
        if t.None? {
          return Err(Quoted("Failed to parse weekday", w));
        }
        r := Ok(t.value);
      case OnMonthDay(group, month, day, _) =>
        var t := ReadMonthDay(month, day, sod, now);
        if t.None? {
          return Err(Quoted("Failed to parse day", group));
        }
        r := Ok(t.value);
    }
  }

  /** `Timer(args)` at time `now` (kilram/Timer.py:12-111). */
  method NewTimer(args: string, now: nat) returns (r: Result<Timer>)
    ensures r == TimerOf(args, now)
  {
    var header := SplitHeader(args);
    if header.None? {
      return Err(Quoted("Unable to parse timer for", args));
    }
    var h := header.value;
    var k := 0;
    while k < |GRAMMARS|
      invariant 0 <= k <= |GRAMMARS|
      invariant FirstMatch(0, h.body) == FirstMatch(k, h.body)
    {
      var spec := MatchGrammar(GRAMMARS[k], h.body);
      if spec.Some? {
        FirstMatchWellFormed(k, h.body);
        var target := ResolveSpec(spec.value, now);
        if target.Err? {
          return Err(target.message);
        }
        return Ok(Timer(h.desc, target.value, h.flag == Some("req-ack"), None, now));
      }
      k := k + 1;
    }
    return Err(Quoted("Unable to parse timer for", args));
  }

  // ---------------------------------------------------------------------
  // What the parser promises.

  /** A timer is named by the text before the first colon, which is never
      empty and never holds a colon; it is created now and not yet alerted. */
  lemma TimerDescription(args: string, now: nat)
    requires TimerOf(args, now).Ok?
    ensures var t := TimerOf(args, now).value; var c := FirstColon(args);
      && 0 < c < |args| && args[c] == ':'
      && t.description == args[..c] && NoColon(t.description)
      && t.created == now && t.lastAlert.None?
  {
    var h := SplitHeader(args).value;
    var spec := FirstMatch(0, h.body).value;
    FirstMatchWellFormed(0, h.body);
    assert TimerOf(args, now) == BuildTimer(h, spec, now);
    HeaderDescription(args);
  }

  lemma HeaderDescription(args: string)
    requires SplitHeader(args).Some?
    ensures var c := FirstColon(args);
      0 < c < |args| && args[c] == ':' && SplitHeader(args).value.desc == args[..c]
  {
  }

  /** `require_ack` is set exactly when the last token is `req-ack` in lower
      case; other spellings such as `REQ-ACK` are accepted but ignored. */
  lemma TimerRequireAck(args: string, now: nat)
    requires TimerOf(args, now).Ok?
    ensures var ts := Tokens(args[FirstColon(args) + 1..]);
      TimerOf(args, now).value.requireAck <==> |ts| > 0 && ts[|ts| - 1].word == "req-ack"
  {
    var h := SplitHeader(args).value;
    var spec := FirstMatch(0, h.body).value;
    FirstMatchWellFormed(0, h.body);
    assert TimerOf(args, now) == BuildTimer(h, spec, now);
    var c := FirstColon(args);
    HeaderFlag(args[..c], Tokens(args[c + 1..]));
  }

  /** The header's flag is `req-ack` exactly when the last token is. */
  lemma HeaderFlag(desc: string, ts: seq<Token>)
    ensures HeaderOf(desc, ts).flag == Some("req-ack") <==> |ts| > 0 && ts[|ts| - 1].word == "req-ack"
  {
    if |ts| > 0 && ts[|ts| - 1].word == "req-ack" {
      assert LowerStr("req-ack") == "req-ack";
    }
  }

  /** Text that no grammar reads raises "Unable to parse timer for '<args>'". */
  lemma TimerUnparsable(args: string, now: nat)
    requires SplitHeader(args).None? || forall g: Grammar :: MatchGrammar(g, SplitHeader(args).value.body).None?
    ensures TimerOf(args, now) == Err(Quoted("Unable to parse timer for", args))
  {
    if SplitHeader(args).Some? {
      GrammarOrderIrrelevant(CountdownCd, SplitHeader(args).value.body);
    }
  }

  /** A countdown adds its amounts, missing units counting 0, to now. */
  lemma TimerCountdown(args: string, now: nat)
    requires SplitHeader(args).Some?
    requires MatchGrammar(CountdownCd, SplitHeader(args).value.body).Some?
    ensures var h := SplitHeader(args).value; var c := MatchGrammar(CountdownCd, h.body).value;
      TimerOf(args, now) == Ok(Timer(h.desc, now + c.days * 86400 + c.hours * 3600 + c.minutes * 60 + c.seconds,
                                     h.flag == Some("req-ack"), None, now))
  {
    TimerMatched(args, now, CountdownCd);
  }

  /** `desc: in` alone is a countdown of nothing: the timer is due at once. */
  lemma TimerBareIn(args: string, now: nat)
    requires SplitHeader(args).Some? && Words(SplitHeader(args).value.body) == ["in"]
    ensures var h := SplitHeader(args).value;
      TimerOf(args, now) == Ok(Timer(h.desc, now, h.flag == Some("req-ack"), None, now))
  {
    var ws := Words(SplitHeader(args).value.body);
    assert ws[1..] == [];
    assert LowerStr("in") == "in";
  }

  /** Whichever grammar reads the time specification decides the timer. */
  lemma TimerMatched(args: string, now: nat, g: Grammar)
    requires SplitHeader(args).Some? && MatchGrammar(g, SplitHeader(args).value.body).Some?
    ensures var h := SplitHeader(args).value; var spec := MatchGrammar(g, h.body).value;
      WellFormedSpec(spec) && TimerOf(args, now) == BuildTimer(h, spec, now)
  {
    var h := SplitHeader(args).value;
    GrammarOrderIrrelevant(g, h.body);
    FirstMatchWellFormed(0, h.body);
  }

  /** An anchored grammar fails on a clock token that no format reads. */
  lemma BuildBadClock(h: Header, spec: Spec, now: nat)
    requires !spec.Countdown? && WellFormedSpec(spec) && ParseClock(spec.time).None?
    ensures BuildTimer(h, spec, now) == Err(Quoted("Failed to parse time", spec.time))
  {
  }

  /** Otherwise it takes its target, or its error, from the anchor. */
  lemma BuildAnchored(h: Header, spec: Spec, now: nat)
    requires !spec.Countdown? && WellFormedSpec(spec) && ParseClock(spec.time).Some?
    ensures var r := AnchorTarget(spec, SecondOfDay(ParseClock(spec.time).value), now);
      BuildTimer(h, spec, now) == match r
        case Err(m) => Err(m)
        case Ok(target) => Ok(Timer(h.desc, target, h.flag == Some("req-ack"), None, now))
  {
  }

  // ---------------------------------------------------------------------
  // What a whole timer expression with an anchored grammar resolves to.

  /** The clock token of what grammar `g` read, as a second of the day. */
  function ClockOf(g: Grammar, args: string): nat
    requires SplitHeader(args).Some? && MatchGrammar(g, SplitHeader(args).value.body).Some?
    requires !MatchGrammar(g, SplitHeader(args).value.body).value.Countdown?
    requires ParseClock(MatchGrammar(g, SplitHeader(args).value.body).value.time).Some?
  {
    SecondOfDay(ParseClock(MatchGrammar(g, SplitHeader(args).value.body).value.time).value)
  }

  /** `desc: at T` is due at the first moment after now at time of day T. */
  lemma TimerAtToday(args: string, now: nat)
    requires SplitHeader(args).Some? && MatchGrammar(TodayCd, SplitHeader(args).value.body).Some?
    requires ParseClock(MatchGrammar(TodayCd, SplitHeader(args).value.body).value.time).Some?
    ensures TimerOf(args, now).Ok?
    ensures var sod := ClockOf(TodayCd, args); var target := TimerOf(args, now).value.target;
      && target > now && TimeOfDay(target) == sod
      && forall d: nat :: Combine(d, sod) > now ==> target <= Combine(d, sod)
  {
    var h := SplitHeader(args).value;
    var spec := MatchGrammar(TodayCd, h.body).value;
    TimerMatched(args, now, TodayCd);
    BuildAnchored(h, spec, now);
    TodayAnchor(spec.time, ClockOf(TodayCd, args), now);
  }

  /** `desc: in N d at T` is due N days after today at T. */
  lemma TimerInDays(args: string, now: nat)
    requires SplitHeader(args).Some? && MatchGrammar(DayCd, SplitHeader(args).value.body).Some?
    requires ParseClock(MatchGrammar(DayCd, SplitHeader(args).value.body).value.time).Some?
    ensures TimerOf(args, now).Ok?
    ensures var n := MatchGrammar(DayCd, SplitHeader(args).value.body).value.count;
      var target := TimerOf(args, now).value.target;
      DayOf(target) == DayOf(now) + n && TimeOfDay(target) == ClockOf(DayCd, args)
  {
    var h := SplitHeader(args).value;
    var spec := MatchGrammar(DayCd, h.body).value;
    TimerMatched(args, now, DayCd);
    BuildAnchored(h, spec, now);
    DayAnchors(spec.count, spec.time, ClockOf(DayCd, args), now);
  }

  /** `desc: tomorrow at T` is due tomorrow at T, which is after now. */
  lemma TimerTomorrow(args: string, now: nat)
    requires SplitHeader(args).Some? && MatchGrammar(TomorrowCd, SplitHeader(args).value.body).Some?
    requires ParseClock(MatchGrammar(TomorrowCd, SplitHeader(args).value.body).value.time).Some?
    ensures TimerOf(args, now).Ok?
    ensures var target := TimerOf(args, now).value.target;
      DayOf(target) == DayOf(now) + 1 && TimeOfDay(target) == ClockOf(TomorrowCd, args) && target > now
  {
    var h := SplitHeader(args).value;
    var spec := MatchGrammar(TomorrowCd, h.body).value;
    TimerMatched(args, now, TomorrowCd);
    BuildAnchored(h, spec, now);
    DayAnchors(0, spec.time, ClockOf(TomorrowCd, args), now);
  }

  /** The weekday a name stands for under the first format that reads it. */
  function NamedWeekday(w: string): Option<int> {
    if WeekdayByName(Abbreviated, w).Some? then WeekdayByName(Abbreviated, w) else WeekdayByName(Full, w)
  }

  lemma FirstWeekdayNamed(w: string, sod: nat, now: nat)
    ensures FirstWeekday(0, w, sod, now) ==
      match NamedWeekday(w)
      case Some(wd) => Some(WeekdayTarget(wd, sod, now))
      case None => None
  {
    assert NAME_STYLES[0] == Abbreviated && NAME_STYLES[1] == Full;
  }

  /** `desc: on <weekday> at T` is due on that weekday at T, the first such
      moment after now and at most a week ahead. */
  lemma TimerOnWeekday(args: string, now: nat)
    requires SplitHeader(args).Some? && MatchGrammar(WeekdayCd, SplitHeader(args).value.body).Some?
    requires ParseClock(MatchGrammar(WeekdayCd, SplitHeader(args).value.body).value.time).Some?
    requires NamedWeekday(MatchGrammar(WeekdayCd, SplitHeader(args).value.body).value.weekday).Some?
    ensures TimerOf(args, now).Ok?
    ensures var wd := NamedWeekday(MatchGrammar(WeekdayCd, SplitHeader(args).value.body).value.weekday).value;
      var sod := ClockOf(WeekdayCd, args); var target := TimerOf(args, now).value.target;
      && IsoWeekday(DayOf(target)) == wd && TimeOfDay(target) == sod
      && now < target <= now + 7 * SECONDS_PER_DAY
      && forall d: nat :: IsoWeekday(d) == wd && Combine(d, sod) > now ==> target <= Combine(d, sod)
  {
    var h := SplitHeader(args).value;
    var spec := MatchGrammar(WeekdayCd, h.body).value;
    var sod := ClockOf(WeekdayCd, args);
    TimerMatched(args, now, WeekdayCd);
    BuildAnchored(h, spec, now);
    FirstWeekdayNamed(spec.weekday, sod, now);
    WeekdayAnchor(NamedWeekday(spec.weekday).value, sod, now);
  }

  /** A weekday name that neither format reads raises "Failed to parse weekday '<name>'". */
  lemma TimerBadWeekday(args: string, now: nat)
    requires SplitHeader(args).Some? && MatchGrammar(WeekdayCd, SplitHeader(args).value.body).Some?
    requires ParseClock(MatchGrammar(WeekdayCd, SplitHeader(args).value.body).value.time).Some?
    requires NamedWeekday(MatchGrammar(WeekdayCd, SplitHeader(args).value.body).value.weekday).None?
    ensures var w := MatchGrammar(WeekdayCd, SplitHeader(args).value.body).value.weekday;
      TimerOf(args, now) == Err(Quoted("Failed to parse weekday", w))
  {
    var h := SplitHeader(args).value;
    var spec := MatchGrammar(WeekdayCd, h.body).value;
    var sod := ClockOf(WeekdayCd, args);
    TimerMatched(args, now, WeekdayCd);
    BuildAnchored(h, spec, now);
    FirstWeekdayNamed(spec.weekday, sod, now);
    assert AnchorTarget(spec, sod, now) == Err(Quoted("Failed to parse weekday", spec.weekday));
  }

  /** `desc: on <month> <day> at T` takes the date from the first of `%b` and
      `%B` that reads it; when neither does it raises "Failed to parse day
      '<month> <day>'". */
  lemma TimerOnMonth(args: string, now: nat)
    requires SplitHeader(args).Some? && MatchGrammar(MonthCd, SplitHeader(args).value.body).Some?
    requires ParseClock(MatchGrammar(MonthCd, SplitHeader(args).value.body).value.time).Some?
    ensures var h := SplitHeader(args).value; var spec := MatchGrammar(MonthCd, h.body).value;
      var sod := ClockOf(MonthCd, args); var ack := h.flag == Some("req-ack");
      && AllDigits(spec.day)
      && var a := TryMonth(Abbreviated, spec.month, spec.day, sod, now);
         var f := TryMonth(Full, spec.month, spec.day, sod, now);
         TimerOf(args, now) == if a.Some? then Ok(Timer(h.desc, a.value, ack, None, now))
                               else if f.Some? then Ok(Timer(h.desc, f.value, ack, None, now))
                               else Err(Quoted("Failed to parse day", spec.group))
  {
    var h := SplitHeader(args).value;
    var spec := MatchGrammar(MonthCd, h.body).value;
    TimerMatched(args, now, MonthCd);
    BuildAnchored(h, spec, now);
    MonthFormats(spec, ClockOf(MonthCd, args), now);
  }

  /** The month anchor tries `%b` first, then `%B`. */
  lemma MonthFormats(spec: Spec, sod: nat, now: nat)
    requires spec.OnMonthDay? && AllDigits(spec.day)
    ensures var a := TryMonth(Abbreviated, spec.month, spec.day, sod, now);
      var f := TryMonth(Full, spec.month, spec.day, sod, now);
      AnchorTarget(spec, sod, now) == if a.Some? then Ok(a.value) else if f.Some? then Ok(f.value)
                                      else Err(Quoted("Failed to parse day", spec.group))
  {
    assert NAME_STYLES[0] == Abbreviated && NAME_STYLES[1] == Full;
  }

  // ---------------------------------------------------------------------
  // The anchors.

  /** `at T`: the first moment after now at time of day T, today or tomorrow. */
  lemma TodayAnchor(time: string, sod: nat, now: nat)
    requires sod < SECONDS_PER_DAY
    ensures AnchorTarget(Today(time), sod, now).Ok?
    ensures var r := AnchorTarget(Today(time), sod, now).value;
      && r > now && TimeOfDay(r) == sod
      && (DayOf(r) == DayOf(now) <==> Combine(DayOf(now), sod) > now)
      && (DayOf(r) != DayOf(now) ==> DayOf(r) == DayOf(now) + 1)
      && forall d: nat :: Combine(d, sod) > now ==> r <= Combine(d, sod)
  {
    var today := DayOf(now);
    CombineSplit(now);
    DayOfCombine(today, sod);
    DayOfCombine(today + 1, sod);
  }

  /** `in N d at T` and `tomorrow at T`: day N (or 1) after today at T, with no
      roll-forward, so the target may already have passed. */
  lemma DayAnchors(n: nat, time: string, sod: nat, now: nat)
    requires sod < SECONDS_PER_DAY
    ensures AnchorTarget(InDays(n, time), sod, now).Ok? && AnchorTarget(Tomorrow(time), sod, now).Ok?
    ensures var r := AnchorTarget(InDays(n, time), sod, now).value;
      DayOf(r) == DayOf(now) + n && TimeOfDay(r) == sod
    ensures var r := AnchorTarget(Tomorrow(time), sod, now).value;
      DayOf(r) == DayOf(now) + 1 && TimeOfDay(r) == sod && r > now
    ensures n == 0 && sod < TimeOfDay(now) ==> AnchorTarget(InDays(n, time), sod, now).value < now
  {
    CombineSplit(now);
    DayOfCombine(DayOf(now) + n, sod);
    DayOfCombine(DayOf(now) + 1, sod);
  }

  /** Days with the same weekday are a multiple of seven apart. */
  lemma SameWeekdayApart(a: nat, b: nat)
    ensures a < b && IsoWeekday(a) == IsoWeekday(b) ==> a + 7 <= b
  {
    if a < b && IsoWeekday(a) == IsoWeekday(b) {
      var qa, qb := (a + 3) / 7, (b + 3) / 7;
      assert a + 3 == 7 * qa + (a + 3) % 7;
      assert b + 3 == 7 * qb + (b + 3) % 7;
      assert b - a == 7 * (qb - qa);
    }
  }

  /** Adding the day difference of the source reaches the wanted weekday. */
  lemma DayDiffReachesWeekday(today: nat, wd: int)
    requires 1 <= wd <= 7
    ensures var diff := (wd - IsoWeekday(today) + 7) % 7;
      0 <= diff < 7 && IsoWeekday(today + diff) == wd
  {
    var r := (today + 3) % 7;
    var q := (today + 3) / 7;
    assert today + 3 == 7 * q + r;
    var diff := (wd - IsoWeekday(today) + 7) % 7;
    assert diff == (wd - 1 - r + 7) % 7;
    var x := today + diff + 3;
    if wd - 1 >= r {
      assert diff == wd - 1 - r;
      assert x == 7 * q + (wd - 1);
    } else {
      assert diff == wd - 1 - r + 7;
      assert x == 7 * (q + 1) + (wd - 1);
    }
  }

  /** `on <weekday> at T`: the first moment after now on that weekday at T,
      at most a week ahead; a week is added only when the weekday is today's
      and T has passed. */
  lemma WeekdayAnchor(wd: int, sod: nat, now: nat)
    requires 1 <= wd <= 7 && sod < SECONDS_PER_DAY
    ensures var r := WeekdayTarget(wd, sod, now);
      && IsoWeekday(DayOf(r)) == wd && TimeOfDay(r) == sod
      && now < r <= now + 7 * SECONDS_PER_DAY
      && (DayOf(r) == DayOf(now) + 7 ==> IsoWeekday(DayOf(now)) == wd && Combine(DayOf(now), sod) <= now)
      && forall d: nat :: IsoWeekday(d) == wd && Combine(d, sod) > now ==> r <= Combine(d, sod)
  {
    WeekdayTargetDay(wd, sod, now);
    WeekdayTargetFirst(wd, sod, now);
  }

  /** The day WeekdayTarget lands on, and its bounds. */
  lemma WeekdayTargetDay(wd: int, sod: nat, now: nat)
    requires 1 <= wd <= 7 && sod < SECONDS_PER_DAY
    ensures var r := WeekdayTarget(wd, sod, now);
      && IsoWeekday(DayOf(r)) == wd && TimeOfDay(r) == sod
      && now < r <= now + 7 * SECONDS_PER_DAY
      && (DayOf(r) == DayOf(now) + 7 ==> IsoWeekday(DayOf(now)) == wd && Combine(DayOf(now), sod) <= now)
  {
    var today := DayOf(now);
    var diff := (wd - IsoWeekday(today) + 7) % 7;
    var day := today + diff;
    DayDiffReachesWeekday(today, wd);
    WeekdayShift(day, 7);
    CombineSplit(now);
    DayOfCombine(day, sod);
    DayOfCombine(day + 7, sod);
    assert Combine(day, sod) <= now ==> diff == 0;
  }

  /** No moment after now on that weekday at T comes before WeekdayTarget. */
  lemma WeekdayTargetFirst(wd: int, sod: nat, now: nat)
    requires 1 <= wd <= 7 && sod < SECONDS_PER_DAY
    ensures var r := WeekdayTarget(wd, sod, now);
      forall d: nat :: IsoWeekday(d) == wd && Combine(d, sod) > now ==> r <= Combine(d, sod)
  {
    var today := DayOf(now);
    var diff := (wd - IsoWeekday(today) + 7) % 7;
    var day := today + diff;
    DayDiffReachesWeekday(today, wd);
    WeekdayShift(day, 7);
    CombineSplit(now);
    var r := WeekdayTarget(wd, sod, now);
    var rolled := Combine(day, sod) <= now;
    assert rolled ==> diff == 0;
    forall d: nat | IsoWeekday(d) == wd && Combine(d, sod) > now
      ensures r <= Combine(d, sod)
    {
      var target := if rolled then day + 7 else day;
      SameWeekdayApart(d, target);
    }
  }

  /** Any date of a later year comes after today. */
  lemma LaterYearIsLater(today: nat, d: Date)
    requires EpochDate(d) && d.year > DateOf(today).year
    ensures DayNumber(d) > today
  {
    var t := DateOf(today);
    DayOfYearBound(t);
    DaysBeforeYearMonotone(t.year, d.year);
  }

  /** `on <month> <day> at T`: that month and day at T this year, or next
      year when this year's moment is not after now; always after now. */
  lemma MonthAnchor(style: NameStyle, month: string, day: string, sod: nat, now: nat)
    requires AllDigits(day) && sod < SECONDS_PER_DAY
    requires TryMonth(style, month, day, sod, now).Some?
    ensures var y := DateOf(DayOf(now)).year; var t := TryMonth(style, month, day, sod, now).value;
      && MonthByName(style, month).Some?
      && var thisYear := Date(y, MonthByName(style, month).value, DigitsValue(day));
      && EpochDate(thisYear)
      && t > now && TimeOfDay(t) == sod
      && DateOf(DayOf(t)) == if Combine(DayNumber(thisYear), sod) > now then thisYear
                             else thisYear.(year := y + 1)
  {
    var y := DateOf(DayOf(now)).year;
    var d := StrptimeDate(style, month, day, y).value;
    var t := TryMonth(style, month, day, sod, now).value;
    DayOfCombine(DayNumber(d), sod);
    DateOfDayNumber(d);
    if Combine(DayNumber(d), sod) <= now {
      var d' := StrptimeDate(style, month, day, y + 1).value;
      DayOfCombine(DayNumber(d'), sod);
      DateOfDayNumber(d');
      LaterYearIsLater(DayOf(now), d');
      CombineSplit(now);
    }
  }

  /** When one month format reads the date: it knows the month name, the day
      exists in this year's month, and this year's moment is ahead or the day
      exists in next year's month too; each year within `%Y`'s four digits. */
  lemma MonthAccepted(style: NameStyle, month: string, day: string, sod: nat, now: nat)
    requires AllDigits(day)
    ensures TryMonth(style, month, day, sod, now).Some? <==>
      && MonthByName(style, month).Some?
      && var y := DateOf(DayOf(now)).year;
         var thisYear := Date(y, MonthByName(style, month).value, DigitsValue(day));
         && y <= 9999 && ValidDate(thisYear)
         && (Combine(DayNumber(thisYear), sod) > now || (y < 9999 && ValidDate(thisYear.(year := y + 1))))
  {
    assert DateOf(DayOf(now)).year >= EPOCH_YEAR;
  }

  /** February 29 has a target only in a leap year whose February 29 at T is
      still ahead; otherwise every month format fails. */
  lemma {:induction false} LeapDayAnchor(k: nat, month: string, day: string, sod: nat, now: nat)
    requires k <= |NAME_STYLES| && AllDigits(day) && DigitsValue(day) == 29
    requires forall j :: k <= j < |NAME_STYLES| ==> MonthByName(NAME_STYLES[j], month).None? || MonthByName(NAME_STYLES[j], month) == Some(2)
    requires var y := DateOf(DayOf(now)).year;
      !IsLeapYear(y) || Combine(DayNumber(Date(y, 2, 29)), sod) <= now
    ensures FirstMonth(k, month, day, sod, now).None?
    decreases |NAME_STYLES| - k
  {
    if k < |NAME_STYLES| {
      LeapDayStyle(NAME_STYLES[k], month, day, sod, now);
      LeapDayAnchor(k + 1, month, day, sod, now);
    }
  }

  /** One month format on February 29 under the conditions of LeapDayAnchor. */
  lemma LeapDayStyle(style: NameStyle, month: string, day: string, sod: nat, now: nat)
    requires AllDigits(day) && DigitsValue(day) == 29
    requires MonthByName(style, month).None? || MonthByName(style, month) == Some(2)
    requires var y := DateOf(DayOf(now)).year;
      !IsLeapYear(y) || Combine(DayNumber(Date(y, 2, 29)), sod) <= now
    ensures TryMonth(style, month, day, sod, now).None?
  {
    var y := DateOf(DayOf(now)).year;
    assert IsLeapYear(y) ==> !IsLeapYear(y + 1);
  }

  lemma TeaHeader()
    ensures SplitHeader("tea: in") == Some(Header("tea", [Token(1, "in")], None))
  {
    var args := "tea: in";
    assert FirstColon(args) == 3;
    assert args[..3] == "tea" && args[4..] == " in";
    var body := " in";
    assert LeadingSpaces(body) == 1 && body[1..] == "in";
    assert LeadingWord(body[1..]) == 2;
    assert body[1..3] == "in" && body[3..] == [];
    assert Tokens(body) == [Token(1, "in")];
  }

  /** `tea: in` is due at once. */
  lemma CountdownExample(now: nat)
    ensures TimerOf("tea: in", now) == Ok(Timer("tea", now, false, None, now))
  {
    TeaHeader();
    assert Words([Token(1, "in")]) == ["in"];
    TimerBareIn("tea: in", now);
  }
}
