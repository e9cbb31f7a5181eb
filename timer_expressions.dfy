/** Timer expressions written out as a user types them, one space between
    words, and the timer that `Timer(args)` (kilram/Timer.py:12-111) builds from
    them: the amounts of a countdown and the day count of `in N days at T` are
    the numbers written, and a unit that is left out counts 0. */
module TimerExpressions {
  import opened Text
  import opened Calendar
  import opened Clock
  import opened Timers

  // ---------------------------------------------------------------------
  // Written groups.

  /** One `<amount> <unit>` group as typed: its digits, its unit word and
      whether the two are written together (`5m`) or apart (`5 m`). */
  datatype Amount = Amount(digits: string, unit: string, joined: bool)

  predicate Numeral(d: string) { d != [] && AllDigits(d) }

  /** Digits followed by one of the unit words of kilram/Timer.py:21-24, in any case. */
  predicate Written(a: Amount) { Numeral(a.digits) && UnitRank(a.unit).Some? }

  predicate AllWritten(amounts: seq<Amount>) {
    forall i :: 0 <= i < |amounts| ==> Written(amounts[i])
  }

  /** The number the digits stand for, `int(...)`. */
  function Value(a: Amount): nat requires Written(a) { DigitsValue(a.digits) }

  function Rank(a: Amount): nat requires Written(a) { UnitRank(a.unit).value }

  /** Each unit at most once, in the order days, hours, minutes, seconds. */
  predicate Ascending(amounts: seq<Amount>)
    requires AllWritten(amounts)
  {
    forall i, j :: 0 <= i < j < |amounts| ==> Rank(amounts[i]) < Rank(amounts[j])
  }

  function GroupWords(a: Amount): seq<string> {
    if a.joined then [a.digits + a.unit] else [a.digits, a.unit]
  }

  function CountdownWords(amounts: seq<Amount>): seq<string> {
    if amounts == [] then [] else GroupWords(amounts[0]) + CountdownWords(amounts[1..])
  }

  /** The amount written for the unit of rank `r`, 0 when no group has that unit. */
  function AmountOf(amounts: seq<Amount>, r: nat): nat
    requires AllWritten(amounts)
  {
    if amounts == [] then 0
    else if Rank(amounts[0]) == r then Value(amounts[0])
    else AmountOf(amounts[1..], r)
  }

  /** The length of the countdown in seconds: `timedelta(days=…, hours=…,
      minutes=…, seconds=…)` of the written amounts. */
  function CountdownSeconds(amounts: seq<Amount>): nat
    requires AllWritten(amounts)
  {
    AmountOf(amounts, 0) * 86400 + AmountOf(amounts, 1) * 3600 + AmountOf(amounts, 2) * 60 + AmountOf(amounts, 3)
  }

  function FlagWords(ack: bool): seq<string> { if ack then ["req-ack"] else [] }

  /** `desc: in <groups>[ req-ack]`. */
  function CountdownExpression(desc: string, amounts: seq<Amount>, ack: bool): string {
    desc + ":" + Spaced(["in"] + CountdownWords(amounts) + FlagWords(ack))
  }

  /** `desc: in <N> <days unit> at <T>[ req-ack]`. */
  function InDaysExpression(desc: string, days: Amount, time: string, ack: bool): string {
    desc + ":" + Spaced(["in"] + GroupWords(days) + ["at", time] + FlagWords(ack))
  }

  /** The same expressions as text: each group after one space. */
  function GroupText(a: Amount): string {
    if a.joined then " " + a.digits + a.unit else " " + a.digits + " " + a.unit
  }

  function CountdownText(amounts: seq<Amount>): string {
    if amounts == [] then [] else GroupText(amounts[0]) + CountdownText(amounts[1..])
  }

  function FlagText(ack: bool): string { if ack then " req-ack" else [] }

  lemma CountdownExpressionText(desc: string, amounts: seq<Amount>, ack: bool)
    ensures CountdownExpression(desc, amounts, ack) == desc + ": in" + CountdownText(amounts) + FlagText(ack)
  {
    var cw, ct, ft := CountdownWords(amounts), CountdownText(amounts), FlagText(ack);
    BodyText(cw, ack);
    CountdownSpaced(amounts);
    var x := desc + ":";
    calc {
      desc + ": in" + ct + ft;
      { ConcatAssoc(desc, ":", " in"); assert ":" + " in" == ": in"; }
      x + " in" + ct + ft;
      { ConcatAssoc(x, " in", ct); ConcatAssoc(x, " in" + ct, ft); }
      x + (" in" + ct + ft);
    }
  }

  lemma BodyText(cw: seq<string>, ack: bool)
    ensures Spaced(["in"] + cw + FlagWords(ack)) == " in" + Spaced(cw) + FlagText(ack)
  {
    SpacedAppend(["in"] + cw, FlagWords(ack));
    SpacedAppend(["in"], cw);
    assert Spaced(["in"]) == " in" by { assert ["in"][1..] == []; }
    FlagSpaced(ack);
  }

  lemma InDaysExpressionText(desc: string, days: Amount, time: string, ack: bool)
    ensures InDaysExpression(desc, days, time, ack) == desc + ": in" + GroupText(days) + " at " + time + FlagText(ack)
  {
    var gt, ft := GroupText(days), FlagText(ack);
    InDaysSpaced(days, time, ack);
    var x := desc + ":";
    var y := " in" + gt;
    calc {
      desc + ": in" + gt + " at " + time + ft;
      { ConcatAssoc(desc, ":", " in"); assert ":" + " in" == ": in"; }
      x + " in" + gt + " at " + time + ft;
      { ConcatAssoc(x, " in", gt); }
      x + y + " at " + time + ft;
      { ConcatAssoc(x + y, " at ", time); }
      x + y + (" at " + time) + ft;
      { ConcatAssoc(x, y, " at " + time); }
      x + (y + (" at " + time)) + ft;
      { ConcatAssoc(x, y + (" at " + time), ft); }
      x + (y + (" at " + time) + ft);
    }
  }

  lemma InDaysSpaced(days: Amount, time: string, ack: bool)
    ensures Spaced(["in"] + GroupWords(days) + ["at", time] + FlagWords(ack))
         == " in" + GroupText(days) + (" at " + time) + FlagText(ack)
  {
    var gw := GroupWords(days);
    SpacedAppend(["in"] + gw + ["at", time], FlagWords(ack));
    SpacedAppend(["in"] + gw, ["at", time]);
    InSpaced(gw);
    GroupSpaced(days);
    FlagSpaced(ack);
    AtSpaced(time);
  }

  lemma InSpaced(ws: seq<string>)
    ensures Spaced(["in"] + ws) == " in" + Spaced(ws)
  {
    SpacedAppend(["in"], ws);
    assert ["in"][1..] == [];
  }

  lemma AtSpaced(time: string)
    ensures Spaced(["at", time]) == " at " + time
  {
    assert ["at", time][1..] == [time] && [time][1..] == [];
    assert Spaced([time]) == " " + time;
    ConcatAssoc(" " + "at", " ", time);
  }

  lemma FlagSpaced(ack: bool)
    ensures Spaced(FlagWords(ack)) == FlagText(ack)
  {
    if ack { assert ["req-ack"][1..] == []; }
  }

  lemma GroupSpaced(a: Amount)
    ensures Spaced(GroupWords(a)) == GroupText(a)
  {
    if a.joined {
      assert [a.digits + a.unit][1..] == [];
    } else {
      assert [a.digits, a.unit][1..] == [a.unit] && [a.unit][1..] == [];
      assert Spaced([a.unit]) == " " + a.unit;
      ConcatAssoc(" " + a.digits, " ", a.unit);
    }
  }

  lemma {:induction false} CountdownSpaced(amounts: seq<Amount>)
    ensures Spaced(CountdownWords(amounts)) == CountdownText(amounts)
    decreases |amounts|
  {
    if amounts != [] {
      SpacedAppend(GroupWords(amounts[0]), CountdownWords(amounts[1..]));
      CountdownSpaced(amounts[1..]);
      GroupSpaced(amounts[0]);
    }
  }

  /** `desc: on <month> <day> at <T>[ req-ack]`. */
  function MonthExpression(desc: string, month: string, day: string, time: string, ack: bool): string {
    desc + ":" + Spaced(["on", month, day, "at", time] + FlagWords(ack))
  }

  // ---------------------------------------------------------------------
  // What the timer parser makes of them.

  /** A countdown is due at now plus the amounts written, each unit counting 0
      when it is left out; the flag is set exactly when `req-ack` is written. */
  lemma TimerOfCountdown(desc: string, amounts: seq<Amount>, ack: bool, now: nat)
    requires desc != [] && NoColon(desc)
    requires AllWritten(amounts) && Ascending(amounts)
    ensures TimerOf(CountdownExpression(desc, amounts, ack), now)
         == Ok(Timer(desc, now + CountdownSeconds(amounts), ack, None, now))
  {
    var body := ["in"] + CountdownWords(amounts);
    CountdownBodyWords(amounts);
    HeaderOfSpaced(desc, body, ack);
    CountdownMatch(amounts);
    var h := Header(desc, SpacedTokens(body), if ack then Some("req-ack") else None);
    CountdownOfHeader(CountdownExpression(desc, amounts, ack), h, desc, amounts, ack, now);
  }

  /** The countdown timer of a header whose words the countdown grammar reads as the written amounts. */
  lemma CountdownOfHeader(args: string, h: Header, desc: string, amounts: seq<Amount>, ack: bool, now: nat)
    requires AllWritten(amounts)
    requires SplitHeader(args) == Some(h) && h.desc == desc && (h.flag == Some("req-ack") <==> ack)
    requires MatchGrammar(CountdownCd, h.body)
         == Some(Countdown(AmountOf(amounts, 0), AmountOf(amounts, 1), AmountOf(amounts, 2), AmountOf(amounts, 3)))
    ensures TimerOf(args, now) == Ok(Timer(desc, now + CountdownSeconds(amounts), ack, None, now))
  {
    TimerMatched(args, now, CountdownCd);
    CountdownBuild(h, desc, amounts, ack, now);
  }

  lemma CountdownBuild(h: Header, desc: string, amounts: seq<Amount>, ack: bool, now: nat)
    requires AllWritten(amounts) && h.desc == desc && (h.flag == Some("req-ack") <==> ack)
    ensures var c := Countdown(AmountOf(amounts, 0), AmountOf(amounts, 1), AmountOf(amounts, 2), AmountOf(amounts, 3));
      BuildTimer(h, c, now) == Ok(Timer(desc, now + CountdownSeconds(amounts), ack, None, now))
  {
  }

  /** `desc: in N days at T` is due N days after today at T, where N is the
      number written; a clock token that no format reads is an error. */
  lemma TimerOfInDays(desc: string, days: Amount, time: string, ack: bool, now: nat)
    requires desc != [] && NoColon(desc)
    requires Written(days) && Rank(days) == 0 && IsTimeToken(time)
    ensures ParseClock(time).None? ==>
      TimerOf(InDaysExpression(desc, days, time, ack), now) == Err(Quoted("Failed to parse time", time))
    ensures ParseClock(time).Some? ==>
      var r := TimerOf(InDaysExpression(desc, days, time, ack), now);
      && r.Ok? && r.value.description == desc && r.value.requireAck == ack && r.value.created == now
      && DayOf(r.value.target) == DayOf(now) + Value(days)
      && TimeOfDay(r.value.target) == SecondOfDay(ParseClock(time).value)
  {
    var body := ["in"] + GroupWords(days) + ["at", time];
    InDaysBodyWords(days, time);
    HeaderOfSpaced(desc, body, ack);
    InDaysMatch(days, time);
    TimerMatched(InDaysExpression(desc, days, time, ack), now, DayCd);
    if ParseClock(time).Some? {
      DayAnchors(Value(days), time, SecondOfDay(ParseClock(time).value), now);
    }
  }

  /** `desc: on <month> <day> at T` reads `<month> <day>` with `%b`, then
      with `%B`; a clock token that no format reads is an error. */
  lemma TimerOfMonthDay(desc: string, month: string, day: string, time: string, ack: bool, now: nat)
    requires desc != [] && NoColon(desc)
    requires month != [] && AllWordChars(month) && 1 <= |day| <= 2 && AllDigits(day) && IsTimeToken(time)
    ensures ParseClock(time).None? ==>
      TimerOf(MonthExpression(desc, month, day, time, ack), now) == Err(Quoted("Failed to parse time", time))
    ensures ParseClock(time).Some? ==>
      var sod := SecondOfDay(ParseClock(time).value);
      var a := TryMonth(Abbreviated, month, day, sod, now);
      var f := TryMonth(Full, month, day, sod, now);
      TimerOf(MonthExpression(desc, month, day, time, ack), now)
        == if a.Some? then Ok(Timer(desc, a.value, ack, None, now))
           else if f.Some? then Ok(Timer(desc, f.value, ack, None, now))
           else Err(Quoted("Failed to parse day", month + " " + day))
  {
    var body := ["on", month, day, "at", time];
    MonthBodyWords(month, day, time);
    HeaderOfSpaced(desc, body, ack);
    MonthMatch(month, day, time);
    var h := Header(desc, SpacedTokens(body), if ack then Some("req-ack") else None);
    MonthOfHeader(MonthExpression(desc, month, day, time, ack), h, OnMonthDay(month + " " + day, month, day, time), now);
  }

  lemma MonthOfHeader(args: string, h: Header, spec: Spec, now: nat)
    requires SplitHeader(args) == Some(h) && MatchGrammar(MonthCd, h.body) == Some(spec)
    requires spec.OnMonthDay? && AllDigits(spec.day)
    ensures ParseClock(spec.time).None? ==> TimerOf(args, now) == Err(Quoted("Failed to parse time", spec.time))
    ensures ParseClock(spec.time).Some? ==>
      var sod := SecondOfDay(ParseClock(spec.time).value); var ack := h.flag == Some("req-ack");
      var a := TryMonth(Abbreviated, spec.month, spec.day, sod, now);
      var f := TryMonth(Full, spec.month, spec.day, sod, now);
      TimerOf(args, now) == if a.Some? then Ok(Timer(h.desc, a.value, ack, None, now))
                            else if f.Some? then Ok(Timer(h.desc, f.value, ack, None, now))
                            else Err(Quoted("Failed to parse day", spec.group))
  {
    TimerMatched(args, now, MonthCd);
    if ParseClock(spec.time).Some? {
      TimerOnMonth(args, now);
    } else {
      BuildBadClock(h, spec, now);
    }
  }

  lemma MonthMatch(month: string, day: string, time: string)
    requires month != [] && AllWordChars(month) && 1 <= |day| <= 2 && AllDigits(day) && IsTimeToken(time)
    ensures MatchGrammar(MonthCd, SpacedTokens(["on", month, day, "at", time]))
         == Some(OnMonthDay(month + " " + day, month, day, time))
  {
    var ts := SpacedTokens(["on", month, day, "at", time]);
    assert Words(ts) == ["on", month, day, "at", time];
    assert ts[2].gap == 1 && Spaces(1) == " ";
    assert LowerStr("on") == "on" && LowerStr("at") == "at";
  }

  lemma MonthBodyWords(month: string, day: string, time: string)
    requires month != [] && AllWordChars(month) && 1 <= |day| <= 2 && AllDigits(day) && IsTimeToken(time)
    ensures var body := ["on", month, day, "at", time];
      (forall i :: 0 <= i < |body| ==> Word(body[i])) && !Keyword(body[|body| - 1], "req-ack")
  {
    TimeTokenWord(time);
    NotFlag(time);
    assert NoSpace(month) by {
      assert forall i :: 0 <= i < |month| ==> IsWordChar(month[i]);
    }
    assert NoSpace(day) by {
      assert forall i :: 0 <= i < |day| ==> IsDigit(day[i]);
    }
  }

  // ---------------------------------------------------------------------
  // Examples.

  /** `tea: in 1d 2h 3m 4s`: all four units, each written together with its amount. */
  lemma CountdownAllUnits(now: nat)
    ensures TimerOf("tea: in 1d 2h 3m 4s", now) == Ok(Timer("tea", now + 86400 + 2 * 3600 + 3 * 60 + 4, false, None, now))
  {
    var amounts := AllUnits();
    AllUnitsText();
    AllUnitsAmounts();
    TeaDescription();
    TimerOfCountdown("tea", amounts, false, now);
  }

  function AllUnits(): seq<Amount> {
    [Amount("1", "d", true), Amount("2", "h", true), Amount("3", "m", true), Amount("4", "s", true)]
  }

  lemma AllUnitsText()
    ensures "tea: in 1d 2h 3m 4s" == CountdownExpression("tea", AllUnits(), false)
  {
    var amounts := AllUnits();
    CountdownExpressionText("tea", amounts, false);
    FourGroups(amounts);
    assert GroupText(amounts[0]) == " 1d" && GroupText(amounts[1]) == " 2h";
    assert GroupText(amounts[2]) == " 3m" && GroupText(amounts[3]) == " 4s";
  }

  lemma FourGroups(amounts: seq<Amount>)
    requires |amounts| == 4
    ensures CountdownText(amounts)
         == GroupText(amounts[0]) + (GroupText(amounts[1]) + (GroupText(amounts[2]) + GroupText(amounts[3])))
  {
    var r1 := amounts[1..];
    var r2 := r1[1..];
    var r3 := r2[1..];
    assert r1[0] == amounts[1] && r2[0] == amounts[2] && r3[0] == amounts[3] && r3[1..] == [];
    assert CountdownText(r3) == GroupText(amounts[3]) + [];
    assert CountdownText(r2) == GroupText(amounts[2]) + CountdownText(r3);
    assert CountdownText(r1) == GroupText(amounts[1]) + CountdownText(r2);
    assert CountdownText(amounts) == GroupText(amounts[0]) + CountdownText(r1);
  }

  lemma AllUnitsAmounts()
    ensures AllWritten(AllUnits()) && Ascending(AllUnits())
    ensures CountdownSeconds(AllUnits()) == 86400 + 2 * 3600 + 3 * 60 + 4
  {
    var amounts := AllUnits();
    AllUnitsRanks();
    RanksInOrder(amounts);
    AmountOfWritten(amounts, 0);
    AmountOfWritten(amounts, 1);
    AmountOfWritten(amounts, 2);
    AmountOfWritten(amounts, 3);
  }

  lemma AllUnitsRanks()
    ensures AllWritten(AllUnits())
    ensures forall k :: 0 <= k < |AllUnits()| ==> Rank(AllUnits()[k]) == k && Value(AllUnits()[k]) == k + 1
  {
    UnitExamples();
    SingleDigits();
  }

  /** Groups whose ranks are their positions are in ascending order. */
  lemma RanksInOrder(amounts: seq<Amount>)
    requires AllWritten(amounts) && forall k :: 0 <= k < |amounts| ==> Rank(amounts[k]) == k
    ensures Ascending(amounts)
  {
  }

  lemma SingleDigits()
    ensures DigitsValue("1") == 1 && DigitsValue("2") == 2 && DigitsValue("3") == 3
    ensures DigitsValue("4") == 4 && DigitsValue("5") == 5
  {
    assert "1"[..0] == [] && "2"[..0] == [] && "3"[..0] == [] && "4"[..0] == [] && "5"[..0] == [];
  }

  /** `tea: in 5m` is due five minutes from now. */
  lemma CountdownFiveMinutes(now: nat)
    ensures TimerOf("tea: in 5m", now) == Ok(Timer("tea", now + 300, false, None, now))
  {
    var amounts := [Amount("5", "m", true)];
    FiveMinutesText();
    FiveMinutesAmounts();
    TeaDescription();
    TimerOfCountdown("tea", amounts, false, now);
  }

  lemma TeaDescription()
    ensures "tea" != [] && NoColon("tea")
  {
  }

  lemma FiveMinutesText()
    ensures "tea: in 5m" == CountdownExpression("tea", [Amount("5", "m", true)], false)
  {
    var amounts := [Amount("5", "m", true)];
    CountdownExpressionText("tea", amounts, false);
    assert CountdownText(amounts) == " 5m" by { assert amounts[1..] == []; }
  }

  lemma FiveMinutesAmounts()
    ensures AllWritten([Amount("5", "m", true)]) && Ascending([Amount("5", "m", true)])
    ensures CountdownSeconds([Amount("5", "m", true)]) == 300
  {
    UnitExamples();
    SingleDigits();
  }

  /** `tea: in 1h 30 min req-ack`: the days are absent and count 0, the
      minutes are written apart from their unit, and the flag is set. */
  lemma CountdownHourAndHalf(now: nat)
    ensures TimerOf("tea: in 1h 30 min req-ack", now) == Ok(Timer("tea", now + 5400, true, None, now))
  {
    var amounts := [Amount("1", "h", true), Amount("30", "min", false)];
    HourAndHalfText();
    HourAndHalfAmounts();
    TeaDescription();
    TimerOfCountdown("tea", amounts, true, now);
  }

  lemma HourAndHalfText()
    ensures "tea: in 1h 30 min req-ack" == CountdownExpression("tea", [Amount("1", "h", true), Amount("30", "min", false)], true)
  {
    var amounts := [Amount("1", "h", true), Amount("30", "min", false)];
    CountdownExpressionText("tea", amounts, true);
    assert CountdownText(amounts) == " 1h" + " 30 min" by {
      assert amounts[1..][1..] == [];
    }
  }

  lemma HourAndHalfAmounts()
    ensures var amounts := [Amount("1", "h", true), Amount("30", "min", false)];
      AllWritten(amounts) && Ascending(amounts) && CountdownSeconds(amounts) == 5400
  {
    var amounts := [Amount("1", "h", true), Amount("30", "min", false)];
    UnitExamples();
    assert DigitsValue("1") == 1 by { assert "1"[..0] == []; }
    assert DigitsValue("30") == 30 by { assert "30"[..1] == "3" && "3"[..0] == []; }
    assert AmountOf(amounts[1..], 2) == 30;
  }

  /** `tea: in 2 days at 3:30pm` is due the day after tomorrow at 15:30. */
  lemma InTwoDaysExample(now: nat)
    ensures var r := TimerOf("tea: in 2 days at 3:30pm", now);
      && r.Ok? && r.value.description == "tea"
      && DayOf(r.value.target) == DayOf(now) + 2 && TimeOfDay(r.value.target) == 15 * 3600 + 30 * 60
  {
    var days := Amount("2", "days", false);
    InTwoDaysText();
    InTwoDaysAmounts();
    HalfPastThree();
    TeaDescription();
    TimerOfInDays("tea", days, "3:30pm", false, now);
  }

  lemma InTwoDaysText()
    ensures "tea: in 2 days at 3:30pm" == InDaysExpression("tea", Amount("2", "days", false), "3:30pm", false)
  {
    InDaysExpressionText("tea", Amount("2", "days", false), "3:30pm", false);
  }

  lemma InTwoDaysAmounts()
    ensures Written(Amount("2", "days", false)) && Rank(Amount("2", "days", false)) == 0 && Value(Amount("2", "days", false)) == 2
  {
    UnitExamples();
    SingleDigits();
  }

  lemma HalfPastThree()
    ensures IsTimeToken("3:30pm") && ParseClock("3:30pm") == Some(ClockTime(15, 30))
    ensures SecondOfDay(ClockTime(15, 30)) == 15 * 3600 + 30 * 60
  {
    ClockExampleMinutes();
    HalfPastThreeToken();
  }

  lemma HalfPastThreeToken()
    ensures IsTimeToken("3:30pm")
  {
    var w := "3:30pm";
    DigitsEndAt(w, 0, 1);
    var t := w[1..];
    assert t == ":30pm";
    assert t[3..] == "pm";
    PmLetters();
  }

  lemma PmLetters()
    ensures IsAmPm("pm")
  {
    assert LowerStr("pm") == "pm";
  }

  /** `cumple: on Feb 14 at 5pm` is due on the next February 14 at 17:00 that
      is still ahead: this year's or next year's, while `%Y` can write it. */
  lemma MonthDayExample(now: nat)
    ensures var y := DateOf(DayOf(now)).year; var r := TimerOf("cumple: on Feb 14 at 5pm", now);
      y < 9999 ==>
        && r.Ok? && r.value.description == "cumple" && !r.value.requireAck
        && r.value.target > now && TimeOfDay(r.value.target) == 17 * 3600
        && var d := DateOf(DayOf(r.value.target));
           d.month == 2 && d.day == 14 && (d.year == y || d.year == y + 1)
  {
    var y := DateOf(DayOf(now)).year;
    CumpleText();
    CumpleWords();
    TimerOfMonthDay("cumple", "Feb", "14", "5pm", false, now);
    if y < 9999 {
      FebruaryFourteenth(17 * 3600, now);
    }
  }

  /** Below year 9999 the `%b` format always reads February 14. */
  lemma FebruaryFourteenth(sod: nat, now: nat)
    requires sod < SECONDS_PER_DAY && DateOf(DayOf(now)).year < 9999
    requires AllDigits("14") && DigitsValue("14") == 14 && MonthByName(Abbreviated, "Feb") == Some(2)
    ensures var y := DateOf(DayOf(now)).year; var t := TryMonth(Abbreviated, "Feb", "14", sod, now);
      && t.Some? && t.value > now && TimeOfDay(t.value) == sod
      && var d := DateOf(DayOf(t.value)); d.month == 2 && d.day == 14 && (d.year == y || d.year == y + 1)
  {
    MonthAccepted(Abbreviated, "Feb", "14", sod, now);
    MonthAnchor(Abbreviated, "Feb", "14", sod, now);
  }

  lemma CumpleText()
    ensures "cumple: on Feb 14 at 5pm" == MonthExpression("cumple", "Feb", "14", "5pm", false)
  {
    var ws := ["on", "Feb", "14", "at", "5pm"];
    assert ws + FlagWords(false) == ["on"] + (["Feb"] + (["14"] + (["at"] + ["5pm"])));
    SpacedCons("on", ["Feb"] + (["14"] + (["at"] + ["5pm"])));
    SpacedCons("Feb", ["14"] + (["at"] + ["5pm"]));
    SpacedCons("14", ["at"] + ["5pm"]);
    SpacedCons("at", ["5pm"]);
    SpacedCons("5pm", []);
  }

  lemma SpacedCons(w: string, ws: seq<string>)
    ensures Spaced([w] + ws) == " " + w + Spaced(ws)
  {
    assert ([w] + ws)[1..] == ws;
  }

  lemma CumpleWords()
    ensures "cumple" != [] && NoColon("cumple")
    ensures "Feb" != [] && AllWordChars("Feb") && AllDigits("14") && DigitsValue("14") == 14
    ensures IsTimeToken("5pm") && ParseClock("5pm") == Some(ClockTime(17, 0)) && SecondOfDay(ClockTime(17, 0)) == 17 * 3600
    ensures MonthByName(Abbreviated, "Feb") == Some(2)
  {
    ClockExampleFivePm();
    FourteenValue();
    FiveOClockToken();
    FebruaryName();
    CumpleLetters();
  }

  lemma CumpleLetters()
    ensures NoColon("cumple") && AllWordChars("Feb")
  {
    assert "cumple" == ['c', 'u', 'm', 'p', 'l', 'e'] && "Feb" == ['F', 'e', 'b'];
  }

  lemma FourteenValue()
    ensures AllDigits("14") && DigitsValue("14") == 14
  {
    assert "14"[..1] == "1" && "1"[..0] == [];
  }

  lemma FiveOClockToken()
    ensures IsTimeToken("5pm")
  {
    DigitsEndAt("5pm", 0, 1);
    assert "5pm"[1..] == "pm";
    PmLetters();
  }

  lemma FebruaryName()
    ensures MonthByName(Abbreviated, "Feb") == Some(2)
  {
    assert LowerStr("Feb") == "feb" && LowerStr("jan") == "jan";
    assert MONTH_ABBREVIATIONS[0] == "jan" && MONTH_ABBREVIATIONS[1..][0] == "feb";
  }

  // ---------------------------------------------------------------------
  // The grammars on the written words.

  lemma CountdownMatch(amounts: seq<Amount>)
    requires AllWritten(amounts) && Ascending(amounts)
    ensures MatchGrammar(CountdownCd, SpacedTokens(["in"] + CountdownWords(amounts)))
         == Some(Countdown(AmountOf(amounts, 0), AmountOf(amounts, 1), AmountOf(amounts, 2), AmountOf(amounts, 3)))
  {
    var ws := ["in"] + CountdownWords(amounts);
    assert ws[0] == "in" && ws[1..] == CountdownWords(amounts);
    assert LowerStr("in") == "in";
    CountdownGroups(amounts, 0);
  }

  lemma InDaysMatch(days: Amount, time: string)
    requires Written(days) && Rank(days) == 0 && IsTimeToken(time)
    ensures MatchGrammar(DayCd, SpacedTokens(["in"] + GroupWords(days) + ["at", time])) == Some(InDays(Value(days), time))
  {
    var ws := ["in"] + GroupWords(days) + ["at", time];
    var used := |GroupWords(days)|;
    assert ws[0] == "in" && ws[1..] == GroupWords(days) + ["at", time];
    assert |ws| == used + 3 && ws[used + 1] == "at" && ws[used + 2] == time;
    ReadGroupWritten(days, ["at", time]);
    assert LowerStr("in") == "in" && LowerStr("at") == "at";
  }

  /** A unit that is written contributes the number written for it. */
  lemma {:induction false} AmountOfWritten(amounts: seq<Amount>, k: nat)
    requires AllWritten(amounts) && Ascending(amounts) && k < |amounts|
    ensures AmountOf(amounts, Rank(amounts[k])) == Value(amounts[k])
    decreases k
  {
    if k > 0 {
      AscendingTail(amounts, 0);
      assert amounts[1..][k - 1] == amounts[k];
      AmountOfWritten(amounts[1..], k - 1);
    }
  }

  /** A unit that is left out counts 0. */
  lemma {:induction false} AmountOfAbsent(amounts: seq<Amount>, r: nat)
    requires AllWritten(amounts) && forall i :: 0 <= i < |amounts| ==> Rank(amounts[i]) != r
    ensures AmountOf(amounts, r) == 0
    decreases |amounts|
  {
    if amounts != [] {
      var rest := amounts[1..];
      assert forall i :: 0 <= i < |rest| ==> rest[i] == amounts[i + 1];
      AmountOfAbsent(rest, r);
    }
  }

  /** The written groups read back as their amounts, one slot per unit. */
  lemma {:induction false} CountdownGroups(amounts: seq<Amount>, next: nat)
    requires next <= 4 && AllWritten(amounts) && Ascending(amounts)
    requires forall i :: 0 <= i < |amounts| ==> Rank(amounts[i]) >= next
    ensures CountdownAmounts(CountdownWords(amounts), next)
         == Some([AmountOf(amounts, 0), AmountOf(amounts, 1), AmountOf(amounts, 2), AmountOf(amounts, 3)])
    decreases |amounts|
  {
    if amounts != [] {
      var a, rest := amounts[0], amounts[1..];
      AscendingTail(amounts, next);
      ReadGroupWritten(a, CountdownWords(rest));
      CountdownGroups(rest, Rank(a) + 1);
      AmountsCons(amounts);
    }
  }

  /** After the first group, the rest are written, ascending, and of higher rank. */
  lemma AscendingTail(amounts: seq<Amount>, next: nat)
    requires amounts != [] && AllWritten(amounts) && Ascending(amounts)
    requires forall i :: 0 <= i < |amounts| ==> Rank(amounts[i]) >= next
    ensures Rank(amounts[0]) >= next
    ensures AllWritten(amounts[1..]) && Ascending(amounts[1..])
    ensures forall i :: 0 <= i < |amounts| - 1 ==> Rank(amounts[1..][i]) >= Rank(amounts[0]) + 1
  {
    assert forall i :: 0 <= i < |amounts| - 1 ==> amounts[1..][i] == amounts[i + 1];
  }

  /** The slots of a group list are the slots of its tail with the first group's amount filled in. */
  lemma AmountsCons(amounts: seq<Amount>)
    requires amounts != [] && AllWritten(amounts)
    ensures AllWritten(amounts[1..])
    ensures var a, rest := amounts[0], amounts[1..];
      [AmountOf(rest, 0), AmountOf(rest, 1), AmountOf(rest, 2), AmountOf(rest, 3)][Rank(a) := Value(a)]
      == [AmountOf(amounts, 0), AmountOf(amounts, 1), AmountOf(amounts, 2), AmountOf(amounts, 3)]
  {
    assert forall i :: 0 <= i < |amounts| - 1 ==> amounts[1..][i] == amounts[i + 1];
  }

  /** One written group is read as its rank and amount, using its words. */
  lemma ReadGroupWritten(a: Amount, more: seq<string>)
    requires Written(a)
    ensures ReadGroup(GroupWords(a) + more) == Some(Group(Rank(a), Value(a), |GroupWords(a)|))
    ensures (GroupWords(a) + more)[|GroupWords(a)|..] == more
  {
    var ws := GroupWords(a) + more;
    UnitWordShape(a.unit);
    if a.joined {
      var w := ws[0];
      assert w == a.digits + a.unit;
      LeadingDigitsOfNumeral(a.digits, a.unit);
      assert w[..|a.digits|] == a.digits && w[|a.digits|..] == a.unit;
    } else {
      assert ws[0] == a.digits + [] && ws[1] == a.unit;
      LeadingDigitsOfNumeral(a.digits, []);
      assert ws[0][..|a.digits|] == a.digits;
    }
  }

  // ---------------------------------------------------------------------
  // Words and the header.

  /** A unit word is a short word of letters. */
  lemma UnitWordShape(u: string)
    requires UnitRank(u).Some?
    ensures Word(u) && !IsDigit(u[0]) && |u| <= 4
  {
    var lit := if Keyword(u, "d") then "d" else if Keyword(u, "days") then "days"
      else if Keyword(u, "h") then "h" else if Keyword(u, "hs") then "hs"
      else if Keyword(u, "m") then "m" else if Keyword(u, "min") then "min"
      else if Keyword(u, "s") then "s" else "sec";
    FoldsToLetters(u, lit);
  }

  /** The unit words that the examples use. */
  lemma UnitExamples()
    ensures UnitRank("d") == Some(0) && UnitRank("days") == Some(0) && UnitRank("h") == Some(1)
    ensures UnitRank("m") == Some(2) && UnitRank("min") == Some(2) && UnitRank("s") == Some(3)
  {
    assert LowerStr("d") == "d" && LowerStr("days") == "days" && LowerStr("h") == "h";
    assert LowerStr("m") == "m" && LowerStr("min") == "min" && LowerStr("s") == "s";
  }

  /** The words of a group: digits first, then letters. */
  lemma GroupWordsAreWords(a: Amount)
    requires Written(a)
    ensures forall i :: 0 <= i < |GroupWords(a)| ==> Word(GroupWords(a)[i])
    ensures var g := GroupWords(a); IsDigit(g[0][0]) && (IsDigit(g[|g| - 1][0]) || UnitRank(g[|g| - 1]).Some?)
  {
    UnitWordShape(a.unit);
    var w := a.digits + a.unit;
    assert forall k :: 0 <= k < |w| ==> w[k] == if k < |a.digits| then a.digits[k] else a.unit[k - |a.digits|];
  }

  /** The words after the colon of a countdown are words, and the last is
      `in`, starts with a digit or is a unit: never the flag. */
  lemma CountdownBodyWords(amounts: seq<Amount>)
    requires AllWritten(amounts)
    ensures var body := ["in"] + CountdownWords(amounts);
      (forall i :: 0 <= i < |body| ==> Word(body[i])) && !Keyword(body[|body| - 1], "req-ack")
  {
    var cw := CountdownWords(amounts);
    CountdownWordsAreWords(amounts);
    var body := ["in"] + cw;
    assert forall i :: 1 <= i < |body| ==> body[i] == cw[i - 1];
    if cw != [] {
      assert body[|body| - 1] == cw[|cw| - 1];
    }
    NotFlag(body[|body| - 1]);
  }

  lemma InDaysBodyWords(days: Amount, time: string)
    requires Written(days) && IsTimeToken(time)
    ensures var body := ["in"] + GroupWords(days) + ["at", time];
      (forall i :: 0 <= i < |body| ==> Word(body[i])) && !Keyword(body[|body| - 1], "req-ack")
  {
    TimeTokenWord(time);
    GroupWordsAreWords(days);
    NotFlag(time);
  }

  lemma {:induction false} CountdownWordsAreWords(amounts: seq<Amount>)
    requires AllWritten(amounts)
    ensures forall i :: 0 <= i < |CountdownWords(amounts)| ==> Word(CountdownWords(amounts)[i])
    ensures CountdownWords(amounts) != [] ==>
      var ws := CountdownWords(amounts); var last := ws[|ws| - 1];
      |last| > 0 && (IsDigit(last[0]) || UnitRank(last).Some?)
    decreases |amounts|
  {
    if amounts != [] {
      var rest := amounts[1..];
      assert AllWritten(rest) by {
        assert forall i :: 0 <= i < |rest| ==> rest[i] == amounts[i + 1];
      }
      GroupWordsAreWords(amounts[0]);
      CountdownWordsAreWords(rest);
      var g, r := GroupWords(amounts[0]), CountdownWords(rest);
      assert CountdownWords(amounts) == g + r;
      assert forall i :: 0 <= i < |g + r| ==> (g + r)[i] == if i < |g| then g[i] else r[i - |g|];
    }
  }

  /** A word of another length than `req-ack`, or one starting with a digit, is not the flag. */
  lemma NotFlag(w: string)
    requires |w| != 7 || (|w| > 0 && IsDigit(w[0])) || UnitRank(w).Some?
    ensures !Keyword(w, "req-ack")
  {
    if UnitRank(w).Some? {
      UnitWordShape(w);
    }
    if |w| == 7 && IsDigit(w[0]) {
      assert LowerStr(w)[0] == Lower(w[0]) == w[0];
    }
  }

  /** The header of `desc:` followed by spaced words, with `req-ack` appended
      when `ack` holds. */
  lemma HeaderOfSpaced(desc: string, body: seq<string>, ack: bool)
    requires desc != [] && NoColon(desc)
    requires body != [] && (forall i :: 0 <= i < |body| ==> Word(body[i])) && !Keyword(body[|body| - 1], "req-ack")
    ensures SplitHeader(desc + ":" + Spaced(body + FlagWords(ack)))
         == Some(Header(desc, SpacedTokens(body), if ack then Some("req-ack") else None))
  {
    var ws := body + FlagWords(ack);
    FlagWordsAreWords(ack);
    WordsAppend(body, FlagWords(ack));
    TokensOfSpaced(ws);
    SplitHeaderText(desc, Spaced(ws));
    HeaderOfFlag(desc, body, ack);
  }

  lemma FlagWord()
    ensures Word("req-ack") && Keyword("req-ack", "req-ack")
  {
    assert "req-ack" == ['r', 'e', 'q', '-', 'a', 'c', 'k'];
    assert LowerStr("req-ack") == "req-ack";
  }

  lemma FlagWordsAreWords(ack: bool)
    ensures forall i :: 0 <= i < |FlagWords(ack)| ==> Word(FlagWords(ack)[i])
  {
    FlagWord();
  }

  lemma WordsAppend(xs: seq<string>, ys: seq<string>)
    requires forall i :: 0 <= i < |xs| ==> Word(xs[i])
    requires forall i :: 0 <= i < |ys| ==> Word(ys[i])
    ensures forall i :: 0 <= i < |xs + ys| ==> Word((xs + ys)[i])
  {
    assert forall i :: 0 <= i < |xs + ys| ==> (xs + ys)[i] == if i < |xs| then xs[i] else ys[i - |xs|];
  }

  lemma SplitHeaderText(desc: string, rest: string)
    requires desc != [] && NoColon(desc)
    ensures SplitHeader(desc + ":" + rest) == Some(HeaderOf(desc, Tokens(rest)))
  {
    var args := desc + ":" + rest;
    FirstColonAfter(desc, rest);
    assert args[..|desc|] == desc && args[|desc| + 1..] == rest;
  }

  lemma HeaderOfFlag(desc: string, body: seq<string>, ack: bool)
    requires body != [] && !Keyword(body[|body| - 1], "req-ack")
    ensures HeaderOf(desc, SpacedTokens(body + FlagWords(ack)))
         == Header(desc, SpacedTokens(body), if ack then Some("req-ack") else None)
  {
    var ws := body + FlagWords(ack);
    var ts := SpacedTokens(ws);
    if ack {
      assert ts[|ts| - 1].word == "req-ack" && LowerStr("req-ack") == "req-ack";
      assert ts[..|ts| - 1] == SpacedTokens(body);
    } else {
      assert ws == body;
      assert ts[|ts| - 1].word == body[|body| - 1];
    }
  }
}
