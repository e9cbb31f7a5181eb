/** What a timer reports about itself: `remaining`, `done`, `remaining_str` and
    `target_str` (kilram/Timer.py:114-143). A duration is a signed number of
    whole seconds; `timedelta` normalises it to days (rounded down) and a
    non-negative number of seconds below one day, which Dafny's Euclidean `/`
    and `%` by the positive 86400 reproduce. */
module TimerQueries {
  import opened Text
  import opened Calendar
  import opened Timers

  /** `target - now` in whole seconds. */
  function Remaining(t: Timer, now: nat): int { t.target as int - now as int }

  /** `r.days * 24 * 3600 + r.seconds <= 0` for the normalised `r`. */
  predicate Done(t: Timer, now: nat) {
    var r := Remaining(t, now);
    (r / SECONDS_PER_DAY) * 86400 + r % SECONDS_PER_DAY <= 0
  }

  /** A timer is done exactly when its target is not after now. */
  lemma DoneIff(t: Timer, now: nat)
    ensures Done(t, now) <==> t.target <= now
  {
    var r := Remaining(t, now);
    assert (r / SECONDS_PER_DAY) * 86400 + r % SECONDS_PER_DAY == r;
  }

  // ---------------------------------------------------------------------
  // Days, hours, minutes and seconds.

  datatype Parts = Parts(days: int, hours: nat, minutes: nat, seconds: nat)

  function Total(p: Parts): int { p.days * 86400 + p.hours * 3600 + p.minutes * 60 + p.seconds }

  predicate Bounded(p: Parts) { p.hours < 24 && p.minutes < 60 && p.seconds < 60 }

  /** The `{'d': t.days, 'h': t.seconds/3600, ...}` table of a duration. */
  function Decompose(t: int): (p: Parts)
    ensures Bounded(p) && Total(p) == t
    ensures t >= 0 ==> p.days >= 0
  {
    var secs := t % SECONDS_PER_DAY;
    Parts(t / SECONDS_PER_DAY, secs / 3600, secs % 3600 / 60, secs % 3600 % 60)
  }

  /** The bounded decomposition is unique. */
  lemma DecomposeTotal(p: Parts)
    requires Bounded(p)
    ensures Decompose(Total(p)) == p
  {
    var t := Total(p);
    var sod := p.hours * 3600 + p.minutes * 60 + p.seconds;
    assert 0 <= sod < 86400;
    assert t == p.days * 86400 + sod;
    assert t / 86400 == p.days && t % 86400 == sod;
    assert sod / 3600 == p.hours && sod % 3600 == p.minutes * 60 + p.seconds;
  }

  function Amounts(p: Parts): seq<int> { [p.days, p.hours, p.minutes, p.seconds] }

  /** The unit letters, in the order `('d', 'h', 'm', 's')`. */
  const UNIT_LETTERS: string := "dhms"

  /** `"%s%s" % (amount, letter)`. */
  function Item(v: int, k: nat): string
    requires k < 4
  {
    IntText(v) + [UNIT_LETTERS[k]]
  }

  /** What one pass of the loop adds to `ret`: `", <amount><letter>"` when nonzero. */
  function Piece(a: seq<int>, k: nat): string
    requires |a| == 4 && k < 4
  {
    if a[k] != 0 then ", " + Item(a[k], k) else ""
  }

  /** The piece of a nonzero amount, as the loop formats it. */
  lemma PieceText(a: seq<int>, k: nat)
    requires |a| == 4 && k < 4 && a[k] != 0
    ensures Piece(a, k) == ", " + IntText(a[k]) + [UNIT_LETTERS[k]]
  {
    ConcatAssoc(", ", IntText(a[k]), [UNIT_LETTERS[k]]);
  }

  /** `ret` after the first `k` passes. */
  function Accumulated(a: seq<int>, k: nat): string
    requires |a| == 4 && k <= 4
  {
    if k == 0 then "" else Accumulated(a, k - 1) + Piece(a, k - 1)
  }

  /** `ret[2:]`. */
  function DropSeparator(s: string): string { if |s| >= 2 then s[2..] else [] }

  /** `uptime`'s reply and the text inside `remaining_str`: the nonzero units
      of `p`, joined by `", "`. */
  function UnitsText(p: Parts): string { DropSeparator(Accumulated(Amounts(p), 4)) }

  /** The loop of kilram/kilram.py:74-77 and kilram/Timer.py:140-143. */
  method RenderUnits(p: Parts) returns (s: string)
    ensures s == UnitsText(p)
  {
    var a := [p.days, p.hours, p.minutes, p.seconds];
    var ret := "";
    var k := 0;
    while k < 4
      invariant 0 <= k <= 4
      invariant ret == Accumulated(a, k)
    {
      if a[k] != 0 {
        var piece := ", " + IntText(a[k]) + [UNIT_LETTERS[k]];
        PieceText(a, k);
        ret := ret + piece;
      }
      k := k + 1;
    }
    s := if |ret| >= 2 then ret[2..] else "";
  }

  // ---------------------------------------------------------------------
  // Reading the units back.

  function LetterRank(c: char): Option<nat> {
    if c == 'd' then Some(0) else if c == 'h' then Some(1)
    else if c == 'm' then Some(2) else if c == 's' then Some(3) else None
  }

  function Zeros(): seq<int> { [0, 0, 0, 0] }

  /** Reads `<amount><letter>` items separated by `", "`, units in increasing
      order and amounts nonzero, from rank `next` on. */
  function ReadItems(s: string, next: nat): (v: Option<seq<int>>)
    ensures v.Some? ==> |v.value| == 4
    decreases |s|
  {
    if s == [] then Some(Zeros())
    else
      match ReadInt(s)
      case None => None
      case Some((amount, n)) =>
        if n >= |s| then None
        else
          match LetterRank(s[n])
          case None => None
          case Some(r) =>
            if r < next || amount == 0 then None
            else
              var rest := s[n + 1..];
              if rest == [] then Some(Zeros()[r := amount])
              else if |rest| > 2 && rest[..2] == ", " then
                match ReadItems(rest[2..], r + 1)
                case None => None
                case Some(v) => Some(v[r := amount])
              else None
  }

  /** Reads a UnitsText back. */
  function ReadUnits(s: string): Option<Parts> {
    match ReadItems(s, 0)
    case None => None
    case Some(v) =>
      if v[1] >= 0 && v[2] >= 0 && v[3] >= 0 then Some(Parts(v[0], v[1], v[2], v[3])) else None
  }

  /** The pieces from rank `k` on. */
  function Suffix(a: seq<int>, k: nat): string
    requires |a| == 4 && k <= 4
    decreases 4 - k
  {
    if k == 4 then "" else Piece(a, k) + Suffix(a, k + 1)
  }

  /** The amounts from rank `k` on, zero below. */
  function From(a: seq<int>, k: nat): seq<int>
    requires |a| == 4
  {
    seq(4, j requires 0 <= j < 4 => if j < k then 0 else a[j])
  }

  /** The loop's text so far, followed by the pieces still to come, is the whole text. */
  lemma {:induction false} AccumulatedSplit(a: seq<int>, k: nat)
    requires |a| == 4 && k <= 4
    ensures Accumulated(a, k) + Suffix(a, k) == Suffix(a, 0)
  {
    if k > 0 {
      AccumulatedSplit(a, k - 1);
      ConcatAssoc(Accumulated(a, k - 1), Piece(a, k - 1), Suffix(a, k));
    } else {
      assert "" + Suffix(a, 0) == Suffix(a, 0);
    }
  }

  lemma AccumulatedIsSuffix(a: seq<int>)
    requires |a| == 4
    ensures Accumulated(a, 4) == Suffix(a, 0)
  {
    AccumulatedSplit(a, 4);
    assert Accumulated(a, 4) + "" == Accumulated(a, 4);
  }

  /** The pieces from rank `k` on are empty exactly when the amounts are zero. */
  lemma {:induction false} SuffixEmpty(a: seq<int>, k: nat)
    requires |a| == 4 && k <= 4
    ensures Suffix(a, k) == [] <==> forall j :: k <= j < 4 ==> a[j] == 0
    decreases 4 - k
  {
    if k < 4 {
      SuffixEmpty(a, k + 1);
    }
  }

  /** Pieces that are there start with the separator. */
  lemma {:induction false} SuffixSeparated(a: seq<int>, k: nat)
    requires |a| == 4 && k <= 4
    ensures Suffix(a, k) != [] ==> |Suffix(a, k)| > 2 && Suffix(a, k)[..2] == ", "
    decreases 4 - k
  {
    if k < 4 {
      SuffixSeparated(a, k + 1);
      if a[k] != 0 {
        var s := ", " + Item(a[k], k);
        assert (s + Suffix(a, k + 1))[..2] == s[..2];
      }
    }
  }

  /** Reading one item and what follows it. */
  lemma ReadOneItem(v: int, k: nat, next: nat, rest: string)
    requires v != 0 && next <= k < 4
    requires rest == [] || (|rest| > 2 && rest[..2] == ", ")
    ensures ReadItems(Item(v, k) + rest, next) ==
      if rest == [] then Some(Zeros()[k := v])
      else match ReadItems(rest[2..], k + 1)
        case None => None
        case Some(w) => Some(w[k := v])
  {
    ItemHead(v, k, rest);
    assert LetterRank(UNIT_LETTERS[k]) == Some(k);
  }

  /** The amount of an item, then its letter, then what follows. */
  lemma ItemHead(v: int, k: nat, rest: string)
    requires k < 4
    ensures var s := Item(v, k) + rest; var n := |IntText(v)|;
      ReadInt(s) == Some((v, n)) && n < |s| && s[n] == UNIT_LETTERS[k] && s[n + 1..] == rest
  {
    var s := Item(v, k) + rest;
    var c := UNIT_LETTERS[k];
    assert s == IntText(v) + ([c] + rest);
    ReadIntText(v, [c] + rest);
    var n := |IntText(v)|;
    assert s[n] == c && s[n + 1..] == rest;
  }

  /** A zero amount contributes nothing. */
  lemma SkipZero(a: seq<int>, k: nat)
    requires |a| == 4 && k < 4 && a[k] == 0
    ensures Suffix(a, k) == Suffix(a, k + 1)
  {
    assert Suffix(a, k) == "" + Suffix(a, k + 1);
  }

  /** ... and leaves the amounts read so far as they are. */
  lemma SkipZeroAmount(a: seq<int>, k: nat)
    requires |a| == 4 && k < 4 && a[k] == 0
    ensures From(a, k) == From(a, k + 1)
  {
  }

  /** A nonzero amount contributes its item, after the separator. */
  lemma TakeItem(a: seq<int>, k: nat)
    requires |a| == 4 && k < 4 && a[k] != 0
    ensures DropSeparator(Suffix(a, k)) == Item(a[k], k) + Suffix(a, k + 1)
  {
    var x := Item(a[k], k);
    ConcatAssoc(", ", x, Suffix(a, k + 1));
    assert (", " + (x + Suffix(a, k + 1)))[2..] == x + Suffix(a, k + 1);
  }

  /** ... and its amount. */
  lemma TakeAmount(a: seq<int>, k: nat)
    requires |a| == 4 && k < 4
    ensures From(a, k) == From(a, k + 1)[k := a[k]]
    ensures (forall j :: k < j < 4 ==> a[j] == 0) ==> From(a, k) == Zeros()[k := a[k]]
  {
  }

  /** ReadItems reads each suffix of the accumulated text back. */
  lemma {:induction false} ReadSuffix(a: seq<int>, k: nat, next: nat)
    requires |a| == 4 && next <= k <= 4
    ensures ReadItems(DropSeparator(Suffix(a, k)), next) == Some(From(a, k))
    decreases 4 - k, 1
  {
    if k == 4 {
      assert From(a, k) == Zeros();
    } else if a[k] == 0 {
      SkipZero(a, k);
      SkipZeroAmount(a, k);
      ReadSuffix(a, k + 1, next);
    } else {
      ReadSuffixItem(a, k, next);
    }
  }

  /** The step of ReadSuffix for a nonzero amount at rank `k`. */
  lemma {:induction false} ReadSuffixItem(a: seq<int>, k: nat, next: nat)
    requires |a| == 4 && next <= k < 4 && a[k] != 0
    ensures ReadItems(DropSeparator(Suffix(a, k)), next) == Some(From(a, k))
    decreases 4 - k, 0
  {
    var rest := Suffix(a, k + 1);
    TakeItem(a, k);
    TakeAmount(a, k);
    SuffixEmpty(a, k + 1);
    SuffixSeparated(a, k + 1);
    ReadOneItem(a[k], k, next, rest);
    if rest != [] {
      ReadSuffix(a, k + 1, k + 1);
      assert rest[2..] == DropSeparator(rest);
    }
  }

  /** The units text is read back to the very parts it was made from. */
  lemma UnitsRoundTrip(p: Parts)
    ensures ReadUnits(UnitsText(p)) == Some(p)
  {
    var a := Amounts(p);
    AccumulatedIsSuffix(a);
    ReadSuffix(a, 0, 0);
    assert From(a, 0) == a;
  }

  // ---------------------------------------------------------------------
  // remaining_str.

  /** `remaining_str()`: "in <units>" for a remaining time not below zero,
      "<units> ago" for one in the past, the units those of its magnitude. */
  function RemainingText(r: int): string {
    if r < 0 then UnitsText(Decompose(-r)) + " ago" else "in " + UnitsText(Decompose(r))
  }

  function RemainingStr(t: Timer, now: nat): string { RemainingText(Remaining(t, now)) }

  /** `remaining_str()`, with its loop over the units. */
  method RenderRemaining(t: Timer, now: nat) returns (s: string)
    ensures s == RemainingStr(t, now)
  {
    var r := Remaining(t, now);
    if r < 0 {
      var units := RenderUnits(Decompose(-r));
      s := units + " ago";
    } else {
      var units := RenderUnits(Decompose(r));
      s := "in " + units;
    }
  }

  /** Reads a RemainingText back to the signed number of seconds. */
  function ReadRemaining(s: string): Option<int> {
    if |s| >= 3 && s[..3] == "in " then
      match ReadUnits(s[3..])
      case Some(p) => if Total(p) >= 0 then Some(Total(p)) else None
      case None => None
    else if |s| >= 4 && s[|s| - 4..] == " ago" then
      match ReadUnits(s[..|s| - 4])
      case Some(p) => if Total(p) > 0 then Some(-Total(p)) else None
      case None => None
    else None
  }

  /** A units text of a positive duration starts with a digit. */
  lemma UnitsTextStartsWithDigit(t: int)
    requires t > 0
    ensures var u := UnitsText(Decompose(t)); |u| > 0 && IsDigit(u[0])
  {
    var a := Amounts(Decompose(t));
    AccumulatedIsSuffix(a);
    var k := if a[0] != 0 then 0 else if a[1] != 0 then 1 else if a[2] != 0 then 2 else 3;
    SuffixSkipsZeros(a, k);
    SuffixStartsWithDigit(a, k);
  }

  /** Leading zero amounts contribute nothing. */
  lemma {:induction false} SuffixSkipsZeros(a: seq<int>, k: nat)
    requires |a| == 4 && k <= 4 && forall j :: 0 <= j < k ==> a[j] == 0
    ensures Suffix(a, 0) == Suffix(a, k)
  {
    if k > 0 {
      SuffixSkipsZeros(a, k - 1);
      SkipZero(a, k - 1);
    }
  }

  /** The pieces from a positive amount on start with the separator and a digit. */
  lemma SuffixStartsWithDigit(a: seq<int>, k: nat)
    requires |a| == 4 && k < 4 && a[k] > 0
    ensures |Suffix(a, k)| > 2 && IsDigit(Suffix(a, k)[2])
  {
    var s := ", " + Item(a[k], k);
    assert Suffix(a, k) == s + Suffix(a, k + 1);
    assert s[2] == IntText(a[k])[0];
  }

  /** remaining_str determines the remaining time, sign included. */
  lemma RemainingRoundTrip(r: int)
    ensures ReadRemaining(RemainingText(r)) == Some(r)
  {
    if r < 0 {
      RemainingRoundTripPast(r);
    } else {
      RemainingRoundTripFuture(r);
    }
  }

  lemma RemainingRoundTripFuture(r: int)
    requires r >= 0
    ensures ReadRemaining(RemainingText(r)) == Some(r)
  {
    var p := Decompose(r);
    UnitsRoundTrip(p);
    InRoundTrip(UnitsText(p), p);
  }

  lemma RemainingRoundTripPast(r: int)
    requires r < 0
    ensures ReadRemaining(RemainingText(r)) == Some(r)
  {
    var p := Decompose(-r);
    UnitsRoundTrip(p);
    UnitsTextStartsWithDigit(-r);
    AgoRoundTrip(UnitsText(p), p);
  }

  /** "in " followed by a units text is read back to its total. */
  lemma InRoundTrip(u: string, p: Parts)
    requires ReadUnits(u) == Some(p) && Total(p) >= 0
    ensures ReadRemaining("in " + u) == Some(Total(p))
  {
    var s := "in " + u;
    assert s[..3] == "in " && s[3..] == u;
  }

  /** A units text starting with a digit, then " ago", is read back to minus its total. */
  lemma AgoRoundTrip(u: string, p: Parts)
    requires ReadUnits(u) == Some(p) && Total(p) > 0 && |u| > 0 && IsDigit(u[0])
    ensures ReadRemaining(u + " ago") == Some(-Total(p))
  {
    AgoFields(u);
  }

  /** Where the units lie in a " ago" text. */
  lemma AgoFields(u: string)
    requires |u| > 0 && IsDigit(u[0])
    ensures var s := u + " ago";
      |s| >= 4 && !(|s| >= 3 && s[..3] == "in ") && s[|s| - 4..] == " ago" && s[..|s| - 4] == u
  {
    var s := u + " ago";
    assert s[..3][0] == u[0];
    assert s[|s| - 4..] == " ago";
    assert s[..|s| - 4] == u;
  }

  // ---------------------------------------------------------------------
  // target_str.

  /** `%a` and `%b` in the C locale. */
  const WEEKDAY_LABELS: seq<string> := ["Mon", "Tue", "Wed", "Thu", "Fri", "Sat", "Sun"]
  const MONTH_LABELS: seq<string> :=
    ["Jan", "Feb", "Mar", "Apr", "May", "Jun", "Jul", "Aug", "Sep", "Oct", "Nov", "Dec"]

  /** The first position of `w` in `names` from `i` on. */
  function IndexFrom(names: seq<string>, w: string, i: nat): (r: Option<nat>)
    requires i <= |names|
    ensures r.Some? ==> i <= r.value < |names| && names[r.value] == w
    ensures r.Some? ==> forall k :: i <= k < r.value ==> names[k] != w
    ensures r.None? ==> forall k :: i <= k < |names| ==> names[k] != w
    decreases |names| - i
  {
    if i == |names| then None
    else if names[i] == w then Some(i)
    else IndexFrom(names, w, i + 1)
  }

  /** The first position of `w` in `names`. */
  function IndexOf(names: seq<string>, w: string): (r: Option<nat>)
    ensures r.Some? ==> r.value < |names| && names[r.value] == w
    ensures r.Some? ==> forall k :: 0 <= k < r.value ==> names[k] != w
    ensures r.None? ==> forall k :: 0 <= k < |names| ==> names[k] != w
  {
    IndexFrom(names, w, 0)
  }

  /** `%I:%M:%S%p` of a time of day: a 12-hour clock from 12 to 11, then AM or PM. */
  function Clock12(sod: nat): (s: string)
    requires sod < SECONDS_PER_DAY
    ensures |s| == 10
  {
    var h := sod / 3600;
    var h12 := if h % 12 == 0 then 12 else h % 12;
    Pad2(h12) + ":" + Pad2(sod % 3600 / 60) + ":" + Pad2(sod % 60) + (if h < 12 then "AM" else "PM")
  }

  /** Reads a Clock12 text back to the second of the day. */
  function ReadClock12(s: string): Option<nat> {
    if |s| == 10 && s[2] == ':' && s[5] == ':' && (s[8..] == "AM" || s[8..] == "PM")
       && AllDigits(s[..2]) && AllDigits(s[3..5]) && AllDigits(s[6..8]) then
      var h12, m, sec := DigitsValue(s[..2]), DigitsValue(s[3..5]), DigitsValue(s[6..8]);
      if 1 <= h12 <= 12 && m < 60 && sec < 60 then
        var h := h12 % 12 + (if s[8..] == "PM" then 12 else 0);
        Some(h * 3600 + m * 60 + sec)
      else None
    else None
  }

  /** Where the fields of a `hh:mm:ssPP` text lie. */
  lemma ClockFields(a: string, b: string, c: string, p: string)
    requires |a| == 2 && |b| == 2 && |c| == 2 && |p| == 2
    ensures var s := a + ":" + b + ":" + c + p;
      |s| == 10 && s[..2] == a && s[2] == ':' && s[3..5] == b && s[5] == ':' && s[6..8] == c && s[8..] == p
  {
    var s := a + ":" + b + ":" + c + p;
    assert s[..2] == a;
    assert s[3..5] == b;
    assert s[6..8] == c;
    assert s[8..] == p;
  }

  lemma Clock12RoundTrip(sod: nat)
    requires sod < SECONDS_PER_DAY
    ensures ReadClock12(Clock12(sod)) == Some(sod)
  {
    var h := sod / 3600;
    var h12 := if h % 12 == 0 then 12 else h % 12;
    var a, b, c := Pad2(h12), Pad2(sod % 3600 / 60), Pad2(sod % 60);
    var p := if h < 12 then "AM" else "PM";
    ClockFields(a, b, c, p);
    assert Clock12(sod) == a + ":" + b + ":" + c + p;
    Clock12Arith(sod);
  }

  /** The twelve-hour clock and the minutes and seconds give the second of the day back. */
  lemma Clock12Arith(sod: nat)
    requires sod < SECONDS_PER_DAY
    ensures var h := sod / 3600; var h12 := if h % 12 == 0 then 12 else h % 12;
      1 <= h12 <= 12 && h12 % 12 + (if h < 12 then 0 else 12) == h
      && (h12 % 12 + (if h < 12 then 0 else 12)) * 3600 + sod % 3600 / 60 * 60 + sod % 60 == sod
  {
    var h := sod / 3600;
    var r := sod % 3600;
    assert sod == h * 3600 + r;
    assert r == (r / 60) * 60 + r % 60 && r % 60 == sod % 60;
  }

  /** `%a %d %b %Y` of a day number. */
  function DayText(n: nat): string {
    var d := DateOf(n);
    WEEKDAY_LABELS[IsoWeekday(n) - 1] + " " + Pad2(d.day) + " " + MONTH_LABELS[d.month - 1] + " " + NatText(d.year)
  }

  /** Reads a DayText back to its day number; the weekday must agree with the date. */
  function ReadDayText(s: string): Option<nat> {
    if |s| > 11 && s[3] == ' ' && s[6] == ' ' && s[10] == ' ' && AllDigits(s[4..6]) && AllDigits(s[11..]) then
      match (IndexOf(WEEKDAY_LABELS, s[..3]), IndexOf(MONTH_LABELS, s[7..10]))
      case (Some(w), Some(m)) =>
        var d := Date(DigitsValue(s[11..]), m + 1, DigitsValue(s[4..6]));
        if EpochDate(d) && IsoWeekday(DayNumber(d)) == w + 1 then Some(DayNumber(d)) else None
      case _ => None
    else None
  }

  lemma LabelsDistinct()
    ensures forall i, j :: 0 <= i < j < |WEEKDAY_LABELS| ==> WEEKDAY_LABELS[i] != WEEKDAY_LABELS[j]
    ensures forall i, j :: 0 <= i < j < |MONTH_LABELS| ==> MONTH_LABELS[i] != MONTH_LABELS[j]
  {
  }

  /** Where the fields of a `Www DD Mmm Y...` text lie. */
  lemma DayFields(w: string, dd: string, m: string, y: string)
    requires |w| == 3 && |dd| == 2 && |m| == 3 && |y| > 0
    ensures var s := w + " " + dd + " " + m + " " + y;
      |s| > 11 && s[..3] == w && s[3] == ' ' && s[4..6] == dd && s[6] == ' ' && s[7..10] == m && s[10] == ' ' && s[11..] == y
  {
    var s := w + " " + dd + " " + m + " " + y;
    assert s[..3] == w;
    assert s[4..6] == dd;
    assert s[7..10] == m;
    assert s[11..] == y;
  }

  lemma LabelIndex(n: nat, month: int)
    requires 1 <= month <= 12
    ensures IndexOf(WEEKDAY_LABELS, WEEKDAY_LABELS[IsoWeekday(n) - 1]) == Some(IsoWeekday(n) - 1)
    ensures IndexOf(MONTH_LABELS, MONTH_LABELS[month - 1]) == Some(month - 1)
  {
    LabelsDistinct();
  }

  /** The fields of a DayText. */
  lemma DayTextParts(n: nat)
    ensures var s := DayText(n); var d := DateOf(n);
      |s| > 11 && s[3] == ' ' && s[6] == ' ' && s[10] == ' '
      && s[..3] == WEEKDAY_LABELS[IsoWeekday(n) - 1] && s[4..6] == Pad2(d.day)
      && s[7..10] == MONTH_LABELS[d.month - 1] && s[11..] == NatText(d.year)
  {
    var d := DateOf(n);
    DayFields(WEEKDAY_LABELS[IsoWeekday(n) - 1], Pad2(d.day), MONTH_LABELS[d.month - 1], NatText(d.year));
  }

  lemma DayTextRoundTrip(n: nat)
    ensures ReadDayText(DayText(n)) == Some(n)
  {
    var d := DateOf(n);
    DayTextLabels(n);
    DayTextNumbers(n);
    assert DayNumber(d) == n;
    ReadDayTextFields(DayText(n), IsoWeekday(n) - 1, d.month - 1, d);
  }

  /** The labels of a DayText name its weekday and month. */
  lemma DayTextLabels(n: nat)
    ensures var s := DayText(n);
      |s| > 11 && s[3] == ' ' && s[6] == ' ' && s[10] == ' '
      && IndexOf(WEEKDAY_LABELS, s[..3]) == Some(IsoWeekday(n) - 1)
      && IndexOf(MONTH_LABELS, s[7..10]) == Some(DateOf(n).month - 1)
  {
    DayTextParts(n);
    LabelIndex(n, DateOf(n).month);
  }

  /** The numerals of a DayText give its day and year back. */
  lemma DayTextNumbers(n: nat)
    ensures var s := DayText(n); var d := DateOf(n);
      |s| > 11 && AllDigits(s[4..6]) && AllDigits(s[11..])
      && d == Date(DigitsValue(s[11..]), d.month, DigitsValue(s[4..6]))
  {
    DayTextParts(n);
  }

  /** ReadDayText on a text whose fields are known. */
  lemma ReadDayTextFields(s: string, wi: nat, mi: nat, d: Date)
    requires |s| > 11 && s[3] == ' ' && s[6] == ' ' && s[10] == ' ' && AllDigits(s[4..6]) && AllDigits(s[11..])
    requires IndexOf(WEEKDAY_LABELS, s[..3]) == Some(wi) && IndexOf(MONTH_LABELS, s[7..10]) == Some(mi)
    requires d == Date(DigitsValue(s[11..]), mi + 1, DigitsValue(s[4..6]))
    requires EpochDate(d) && IsoWeekday(DayNumber(d)) == wi + 1
    ensures ReadDayText(s) == Some(DayNumber(d))
  {
  }

  /** `target_str()`: the clock time alone when the target falls on the day
      of `now`, the full date and clock time otherwise. */
  function TargetText(target: nat, now: nat): string {
    if DayOf(target) == DayOf(now) then "at " + Clock12(TimeOfDay(target))
    else "on " + DayText(DayOf(target)) + ", " + Clock12(TimeOfDay(target))
  }

  function TargetStr(t: Timer, now: nat): string { TargetText(t.target, now) }

  /** Reads a TargetText back, the day of `now` standing for a missing date. */
  function ReadTarget(s: string, now: nat): Option<nat> {
    if |s| == 13 && s[..3] == "at " then
      match ReadClock12(s[3..])
      case Some(sod) => Some(Combine(DayOf(now), sod))
      case None => None
    else if |s| > 15 && s[..3] == "on " && s[|s| - 12..|s| - 10] == ", " then
      match (ReadDayText(s[3..|s| - 12]), ReadClock12(s[|s| - 10..]))
      case (Some(day), Some(sod)) => Some(Combine(day, sod))
      case _ => None
    else None
  }

  /** target_str determines the target, given the day it is shown on. */
  lemma TargetRoundTrip(target: nat, now: nat)
    ensures ReadTarget(TargetText(target, now), now) == Some(target)
  {
    if DayOf(target) == DayOf(now) {
      TargetRoundTripToday(target, now);
    } else {
      TargetRoundTripOther(target, now);
    }
  }

  lemma TargetRoundTripToday(target: nat, now: nat)
    requires DayOf(target) == DayOf(now)
    ensures ReadTarget(TargetText(target, now), now) == Some(target)
  {
    var c := Clock12(TimeOfDay(target));
    Clock12RoundTrip(TimeOfDay(target));
    CombineSplit(target);
    var s := "at " + c;
    assert s[..3] == "at " && s[3..] == c;
  }

  lemma TargetRoundTripOther(target: nat, now: nat)
    requires DayOf(target) != DayOf(now)
    ensures ReadTarget(TargetText(target, now), now) == Some(target)
  {
    var c := Clock12(TimeOfDay(target));
    var dt := DayText(DayOf(target));
    Clock12RoundTrip(TimeOfDay(target));
    DayTextRoundTrip(DayOf(target));
    DayTextParts(DayOf(target));
    CombineSplit(target);
    DatedFields(dt, c);
  }

  /** Where the date and the clock lie in an `on ...` text. */
  lemma DatedFields(dt: string, c: string)
    requires |dt| > 11 && |c| == 10
    ensures var s := "on " + dt + ", " + c;
      |s| > 15 && s[..3] == "on " && s[3..|s| - 12] == dt && s[|s| - 12..|s| - 10] == ", " && s[|s| - 10..] == c
  {
    var s := "on " + dt + ", " + c;
    assert s[..3] == "on ";
    assert s[3..|s| - 12] == dt;
    assert s[|s| - 12..|s| - 10] == ", ";
    assert s[|s| - 10..] == c;
  }

  /** The two forms: "at" exactly when the target is on the day of `now`. */
  lemma TargetForm(target: nat, now: nat)
    ensures TargetText(target, now)[..3] == (if DayOf(target) == DayOf(now) then "at " else "on ")
  {
  }
}
