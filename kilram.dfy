/** The bot's own logic (kilram/kilram.py): the periodic sweep that alerts
    users whose timers are due, the `uptime` reply and the `timer` command.
    Sending a chat message appends it to `outbox`. */
module Bot {
  import opened Text
  import opened Timers
  import opened TimerQueries
  import opened Users

  /** The presence the chat library reports for a user who went away. */
  const OFFLINE: string := "unavailable"

  /** `timedelta(minutes=5)`, the least pause between two alerts. */
  const ALERT_INTERVAL: nat := 300

  /** Anything but the offline presence counts as online, no presence too. */
  predicate Online(status: Option<string>) { status != Some(OFFLINE) }

  datatype Message = Message(to: Jid, text: string)

  function DoneText(desc: string, t: Timer, now: nat): string {
    "Timer '" + desc + "' done " + TargetText(t.target, now)
  }

  function AckText(desc: string, t: Timer, now: nat): string {
    DoneText(desc, t, now) + ". Ack the timer to stop alerts."
  }

  // ---------------------------------------------------------------------
  // One timer in the sweep.

  /** A timer that asks for acknowledgement is alerted again once five
      minutes have passed since the last alert. */
  predicate AlertDue(t: Timer, now: nat) {
    t.lastAlert.None? || now as int - t.lastAlert.value as int > ALERT_INTERVAL
  }

  /** The two alerts: a one-shot timer's last word, and the reminder of a
      timer that waits for acknowledgement. */
  datatype Alert = Fired | Reminded

  function AlertText(a: Alert, desc: string, t: Timer, now: nat): string {
    if a == Fired then DoneText(desc, t, now) else AckText(desc, t, now)
  }

  /** What the sweep does with one timer: the alert it sends, if any, and
      the timer left in its place (`None` when it is deleted). */
  datatype Step = Step(alert: Option<Alert>, after: Option<Timer>)

  function SweepStep(t: Timer, online: bool, now: nat): Step {
    if !online || !Done(t, now) then Step(None, Some(t))
    else if !t.requireAck then Step(Some(Fired), None)
    else if AlertDue(t, now) then Step(Some(Reminded), Some(t.(lastAlert := Some(now))))
    else Step(None, Some(t))
  }

  /** Timers of offline users and timers not yet due are left alone, silently. */
  lemma IdleTimerUntouched(t: Timer, online: bool, now: nat)
    requires !online || t.target > now
    ensures SweepStep(t, online, now) == Step(None, Some(t))
  {
    DoneIff(t, now);
  }

  /** A due timer without acknowledgement gets its one message and is deleted. */
  lemma OneShotFires(desc: string, t: Timer, now: nat)
    requires t.target <= now && !t.requireAck
    ensures SweepStep(t, true, now) == Step(Some(Fired), None)
    ensures AlertText(Fired, desc, t, now) == "Timer '" + desc + "' done " + TargetText(t.target, now)
  {
    DoneIff(t, now);
  }

  /** A timer that asks for acknowledgement is never deleted by the sweep; it
      is alerted exactly when it is due, its user online and the last alert
      more than five minutes old, and only then is the alert time set. */
  lemma AckTimerKept(desc: string, t: Timer, online: bool, now: nat)
    requires t.requireAck
    ensures var s := SweepStep(t, online, now);
      s.after.Some?
      && (s.alert.Some? <==> online && t.target <= now
                             && (t.lastAlert.None? || now as int - t.lastAlert.value as int > 300))
      && (s.alert.Some? ==> s.alert.value == Reminded && s.after.value == t.(lastAlert := Some(now)))
      && AlertText(Reminded, desc, t, now) == DoneText(desc, t, now) + ". Ack the timer to stop alerts."
      && (s.alert.None? ==> s.after.value == t)
  {
    DoneIff(t, now);
  }

  /** After an alert, sweeps in the next five minutes stay silent and keep
      the timer; the first sweep after that, with the user online, alerts
      again. */
  lemma AlertThrottled(t: Timer, online: bool, now: nat, online': bool, later: nat)
    requires SweepStep(t, online, now).alert.Some? && t.requireAck && now <= later
    ensures var t' := SweepStep(t, online, now).after.value;
      (later <= now + 300 ==> SweepStep(t', online', later) == Step(None, Some(t')))
      && (later > now + 300 && online' ==> SweepStep(t', online', later).alert == Some(Reminded))
  {
    var t' := SweepStep(t, online, now).after.value;
    DoneIff(t, now);
    DoneIff(t', later);
    assert t'.lastAlert == Some(now) && t'.target == t.target;
  }

  // ---------------------------------------------------------------------
  // One user's timers.

  /** The timers left after a sweep of all of them. */
  function Swept(timers: map<string, Timer>, online: bool, now: nat): map<string, Timer> {
    map k | k in timers && SweepStep(timers[k], online, now).after.Some? :: SweepStep(timers[k], online, now).after.value
  }

  /** The timers left once the sweep has dealt with the descriptions in `done`. */
  function SweptOn(timers: map<string, Timer>, done: set<string>, online: bool, now: nat): map<string, Timer> {
    map k | k in timers && (k !in done || SweepStep(timers[k], online, now).after.Some?) ::
      if k in done then SweepStep(timers[k], online, now).after.value else timers[k]
  }

  /** Exactly the due one-shot timers of an online user disappear; the
      others stay, changed at most in their alert time. */
  lemma SweptKeys(timers: map<string, Timer>, online: bool, now: nat)
    ensures forall k :: k in Swept(timers, online, now) <==>
      k in timers && !(online && timers[k].target <= now && !timers[k].requireAck)
    ensures forall k :: k in Swept(timers, online, now) ==>
      Swept(timers, online, now)[k] == timers[k].(lastAlert := Swept(timers, online, now)[k].lastAlert)
  {
    forall k | k in timers {
      DoneIff(timers[k], now);
    }
  }

  lemma SweptOnNone(timers: map<string, Timer>, online: bool, now: nat)
    ensures SweptOn(timers, {}, online, now) == timers
  {
  }

  lemma SweptOnAll(timers: map<string, Timer>, done: set<string>, online: bool, now: nat)
    requires timers.Keys <= done
    ensures SweptOn(timers, done, online, now) == Swept(timers, online, now)
  {
  }

  /** The table `m` once the sweep has dealt with the timer `t` filed under `k`. */
  function Apply(m: map<string, Timer>, k: string, t: Timer, online: bool, now: nat): map<string, Timer> {
    var s := SweepStep(t, online, now);
    if s.after.None? then m - {k} else m[k := s.after.value]
  }

  /** Dealing with one more timer changes its entry only. */
  lemma SweptOnStep(timers: map<string, Timer>, done: set<string>, k: string, online: bool, now: nat)
    requires k in timers && k !in done
    ensures SweptOn(timers, done + {k}, online, now) == Apply(SweptOn(timers, done, online, now), k, timers[k], online, now)
  {
  }

  /** The message, if any, the sweep sends for one timer. */
  function AlertList(to: Jid, desc: string, t: Timer, online: bool, now: nat): (ms: seq<Message>)
    ensures |ms| <= 1
  {
    match SweepStep(t, online, now).alert
    case Some(a) => [Message(to, AlertText(a, desc, t, now))]
    case None => []
  }

  /** The messages a sweep sends for the timers `items`, in that order. */
  function Messages(to: Jid, items: seq<(string, Timer)>, online: bool, now: nat): seq<Message> {
    if items == [] then []
    else
      var last := items[|items| - 1];
      Messages(to, items[..|items| - 1], online, now) + AlertList(to, last.0, last.1, online, now)
  }

  lemma MessagesSnoc(to: Jid, items: seq<(string, Timer)>, i: nat, online: bool, now: nat)
    requires i < |items|
    ensures Messages(to, items[..i + 1], online, now)
         == Messages(to, items[..i], online, now) + AlertList(to, items[i].0, items[i].1, online, now)
  {
    assert items[..i + 1][..i] == items[..i];
  }

  /** The step of the sweep over the snapshot `items` of `timers`: the
      `i`-th timer is still in the table as listed, and dealing with it
      extends both the table and the messages by one timer. */
  lemma SweepAdvance(timers: map<string, Timer>, items: seq<(string, Timer)>, i: nat, done: set<string>,
                     to: Jid, online: bool, now: nat)
    requires Listing(timers, items) && i < |items|
    requires forall j :: 0 <= j < i ==> items[j].0 in done
    requires forall j :: i <= j < |items| ==> items[j].0 !in done
    ensures var cur := SweptOn(timers, done, online, now);
      items[i].0 in cur && cur[items[i].0] == items[i].1
    ensures forall j :: 0 <= j < i + 1 ==> items[j].0 in done + {items[i].0}
    ensures forall j :: i + 1 <= j < |items| ==> items[j].0 !in done + {items[i].0}
    ensures SweptOn(timers, done + {items[i].0}, online, now)
         == Apply(SweptOn(timers, done, online, now), items[i].0, items[i].1, online, now)
    ensures Messages(to, items[..i + 1], online, now)
         == Messages(to, items[..i], online, now) + AlertList(to, items[i].0, items[i].1, online, now)
  {
    SweptOnStep(timers, done, items[i].0, online, now);
    MessagesSnoc(to, items, i, online, now);
  }

  /** At the end of the snapshot every timer has been dealt with. */
  lemma SweepFinish(timers: map<string, Timer>, items: seq<(string, Timer)>, done: set<string>,
                    to: Jid, online: bool, now: nat)
    requires Listing(timers, items)
    requires forall j :: 0 <= j < |items| ==> items[j].0 in done
    ensures SweptOn(timers, done, online, now) == Swept(timers, online, now)
    ensures Messages(to, items[..|items|], online, now) == Messages(to, items, online, now)
  {
    assert items[..|items|] == items;
    assert timers.Keys <= done by {
      forall k | k in timers
        ensures k in done
      {
        var j :| 0 <= j < |items| && items[j].0 == k;
      }
    }
    SweptOnAll(timers, done, online, now);
  }

  /** One message per timer at most, each to the timer's user. */
  lemma {:induction false} MessagesPerTimer(to: Jid, items: seq<(string, Timer)>, online: bool, now: nat)
    ensures |Messages(to, items, online, now)| <= |items|
    ensures forall m :: m in Messages(to, items, online, now) ==> m.to == to
    ensures !online ==> Messages(to, items, online, now) == []
  {
    if items != [] {
      MessagesPerTimer(to, items[..|items| - 1], online, now);
    }
  }

  function Flatten(lists: seq<seq<Message>>): seq<Message> {
    if lists == [] then [] else Flatten(lists[..|lists| - 1]) + lists[|lists| - 1]
  }

  lemma FlattenSnoc(lists: seq<seq<Message>>, l: seq<Message>)
    ensures Flatten(lists + [l]) == Flatten(lists) + l
  {
    assert (lists + [l])[..|lists|] == lists;
  }

  // ---------------------------------------------------------------------
  // The `timer` command.

  /** `Timer.help()`. */
  const TIMER_HELP: string :=
    "\nTry: timer description: timespec [req-ack]\nTry: timer ack description\n"
    + "  timer fideos con tuco: in 8min\n  timer dentista: on thursday at 6pm\n"
    + "  timer reunion: in 2 days at 3:30pm\n  timer cumple: on Feb 14 at 5pm\n"

  /** How the command reads its argument: empty, `ack +<name>` up to case,
      or a timer to set. */
  datatype Command = ShowHelp | Ack(name: string) | Set(args: string)

  function Route(args: string): Command {
    if args == [] then ShowHelp
    else if |args| > 3 && MatchesIgnoreCase(args[..3], "ack") && args[3] == ' ' then
      var rest := args[3..];
      Ack(rest[LeadingSpaces(rest)..])
    else Set(args)
  }

  /** `ack`, in any case, then spaces: the rest is the name acknowledged. */
  lemma RouteAck(word: string, gap: nat, name: string)
    requires MatchesIgnoreCase(word, "ack") && gap > 0 && (name == [] || name[0] != ' ')
    ensures Route(word + Spaces(gap) + name) == Ack(name)
  {
    var args := word + Spaces(gap) + name;
    assert |word| == 3;
    assert args[..3] == word && args[3] == ' ';
    var rest := args[3..];
    assert rest == Spaces(gap) + name;
    assert rest[gap..] == name;
    assert LeadingSpaces(rest) == gap by {
      assert forall i :: 0 <= i < gap ==> rest[i] == ' ';
    }
  }

  /** Anything else that is not empty is a timer to set. */
  lemma RouteSet(args: string)
    requires args != [] && !(|args| > 3 && MatchesIgnoreCase(args[..3], "ack") && args[3] == ' ')
    ensures Route(args) == Set(args)
  {
  }

  /** The reply to `timer <args>` from a user with timer table `timers`. */
  function TimerReply(timers: map<string, Timer>, args: string, now: nat): string {
    match Route(args)
    case ShowHelp => TIMER_HELP
    case Ack(name) => if name in timers then "Timer acknowledged." else "Timer '" + name + "' not found."
    case Set(a) =>
      match SetTimerResult(timers, a, now)
      case Err(m) => m
      case Ok(t) => "Timer '" + t.description + "' " + TargetText(t.target, now) + " (" + RemainingText(Remaining(t, now)) + ")"
  }

  /** The timer table after `timer <args>`. */
  function TimersAfterCommand(timers: map<string, Timer>, args: string, now: nat): map<string, Timer> {
    match Route(args)
    case ShowHelp => timers
    case Ack(name) => timers - {name}
    case Set(a) => TimersAfterSet(timers, a, now)
  }

  /** Acknowledging deletes that timer only, or reports it missing and changes nothing. */
  lemma AckReply(timers: map<string, Timer>, args: string, now: nat)
    requires Route(args).Ack?
    ensures var name := Route(args).name;
      (name in timers ==> TimerReply(timers, args, now) == "Timer acknowledged.")
      && (name !in timers ==> TimerReply(timers, args, now) == "Timer '" + name + "' not found."
                              && TimersAfterCommand(timers, args, now) == timers)
      && TimersAfterCommand(timers, args, now).Keys == timers.Keys - {name}
      && forall k :: k in timers && k != name ==> TimersAfterCommand(timers, args, now)[k] == timers[k]
  {
  }

  /** Setting replies with the error raised, or with the new timer's
      description, target and remaining time. */
  lemma SetReply(timers: map<string, Timer>, args: string, now: nat)
    requires Route(args).Set?
    ensures TimersAfterCommand(timers, args, now) == TimersAfterSet(timers, args, now)
    ensures TimerOf(args, now).Err? ==> TimerReply(timers, args, now) == TimerOf(args, now).message
    ensures TimerOf(args, now).Ok? && TimerOf(args, now).value.description in timers ==>
      TimerReply(timers, args, now) == TIMER_EXISTS
    ensures SetTimerResult(timers, args, now).Ok? ==> var t := TimerOf(args, now).value;
      TimerReply(timers, args, now) == "Timer '" + t.description + "' " + TargetStr(t, now) + " (" + RemainingStr(t, now) + ")"
  {
  }

  // ---------------------------------------------------------------------
  // The bot.

  class Kilram {
    var registry: Registry
    var outbox: seq<Message>
    var spawnTime: nat

    constructor (now: nat)
      ensures fresh(registry) && registry.users == map[] && outbox == [] && spawnTime == now
    {
      registry := new Registry();
      outbox := [];
      spawnTime := now;
    }

    /** `uptime`: the time since start in nonzero days, hours, minutes and seconds. */
    method Uptime(now: nat) returns (s: string)
      ensures s == UnitsText(Decompose(now as int - spawnTime as int))
    {
      s := RenderUnits(Decompose(now as int - spawnTime as int));
    }

    /** The body of the inner loop of `check_timers`, for the timer `timer`
        filed under `desc`; `sent` holds the message it sends, if any. */
    method SweepTimer(u: User, desc: string, timer: Timer, now: nat) returns (sent: seq<Message>)
      requires desc in u.timers && u.timers[desc] == timer
      modifies u
      ensures u.timers == Apply(old(u.timers), desc, timer, Online(u.status), now)
      ensures sent == AlertList(u.jid, desc, timer, Online(u.status), now)
      ensures u.jid == old(u.jid) && u.logs == old(u.logs) && u.status == old(u.status)
    {
      sent := [];
      if Online(u.status) && Done(timer, now) {
        if !timer.requireAck {
          sent := [Message(u.jid, DoneText(desc, timer, now))];
          var _ := u.DelTimer(desc);
        } else if AlertDue(timer, now) {
          sent := [Message(u.jid, AckText(desc, timer, now))];
          u.timers := u.timers[desc := timer.(lastAlert := Some(now))];
        }
      }
    }

    /** The inner loop of `check_timers`, over a snapshot of one user's
        timers; `sent` holds the messages it sends, in order. */
    method SweepUser(u: User, now: nat) returns (items: seq<(string, Timer)>, sent: seq<Message>)
      modifies u
      ensures Listing(old(u.timers), items)
      ensures u.timers == Swept(old(u.timers), Online(old(u.status)), now)
      ensures sent == Messages(u.jid, items, Online(u.status), now)
      ensures u.jid == old(u.jid) && u.logs == old(u.logs) && u.status == old(u.status)
    {
      ghost var timers := u.timers;
      ghost var online := Online(u.status);
      items := u.GetTimers();
      sent := [];
      ghost var done: set<string> := {};
      var i := 0;
      SweptOnNone(timers, online, now);
      while i < |items|
        invariant 0 <= i <= |items|
        invariant forall j :: 0 <= j < i ==> items[j].0 in done
        invariant forall j :: i <= j < |items| ==> items[j].0 !in done
        invariant u.timers == SweptOn(timers, done, online, now)
        invariant sent == Messages(u.jid, items[..i], online, now)
        invariant u.jid == old(u.jid) && u.logs == old(u.logs) && u.status == old(u.status)
      {
        SweepAdvance(timers, items, i, done, u.jid, online, now);
        var m := SweepTimer(u, items[i].0, items[i].1, now);
        sent := sent + m;
        done := done + {items[i].0};
        i := i + 1;
      }
      SweepFinish(timers, items, done, u.jid, online, now);
    }

    /** The outer loop of `check_timers`, over the cached users in the order
        `order`; `perUser[i]` holds the messages sent to the `i`-th of them. */
    method SweepUsers(users: map<string, User>, order: seq<string>, now: nat)
      returns (snapshots: seq<seq<(string, Timer)>>, perUser: seq<seq<Message>>)
      requires forall k :: k in users ==> Stripped(users[k].jid) == k
      requires forall i :: 0 <= i < |order| ==> order[i] in users
      requires forall k :: k in users ==> k in order
      requires forall i, j :: 0 <= i < j < |order| ==> order[i] != order[j]
      modifies users.Values
      ensures |snapshots| == |order| && |perUser| == |order|
      ensures forall k :: k in users ==> var u := users[k];
        u.jid == old(u.jid) && u.logs == old(u.logs) && u.status == old(u.status)
        && u.timers == Swept(old(u.timers), Online(old(u.status)), now)
      ensures forall i :: 0 <= i < |order| ==> var u := users[order[i]];
        Listing(old(u.timers), snapshots[i]) && perUser[i] == Messages(u.jid, snapshots[i], Online(u.status), now)
    {
      snapshots, perUser := [], [];
      ghost var visited: set<string> := {};
      var i := 0;
      while i < |order|
        invariant 0 <= i <= |order| && |snapshots| == i && |perUser| == i
        invariant forall j :: 0 <= j < |order| ==> (order[j] in visited <==> j < i)
        invariant forall k :: k in users ==> var u := users[k];
          u.jid == old(u.jid) && u.logs == old(u.logs) && u.status == old(u.status)
          && u.timers == if k in visited then Swept(old(u.timers), Online(old(u.status)), now) else old(u.timers)
        invariant forall j :: 0 <= j < i ==> var u := users[order[j]];
          Listing(old(u.timers), snapshots[j]) && perUser[j] == Messages(u.jid, snapshots[j], Online(u.status), now)
      {
        var u := users[order[i]];
        assert forall k :: k in users && k != order[i] ==> users[k] != u by {
          forall k | k in users && k != order[i]
            ensures users[k] != u
          {
            assert Stripped(users[k].jid) == k;
          }
        }
        var items, sent := SweepUser(u, now);
        snapshots, perUser := snapshots + [items], perUser + [sent];
        visited := visited + {order[i]};
        i := i + 1;
      }
      assert forall k :: k in users ==> k in visited by {
        forall k | k in users
          ensures k in visited
        {
          var j :| 0 <= j < |order| && order[j] == k;
        }
      }
    }

    /** `check_timers`: every user's timers, in the unspecified order `order`
        of the user cache and the order `snapshots[i]` of each timer table;
        `perUser[i]` holds the messages sent to the `i`-th user. */
    method CheckTimers(now: nat) returns (order: seq<string>, snapshots: seq<seq<(string, Timer)>>,
                                          perUser: seq<seq<Message>>)
      requires registry.Valid()
      modifies this, registry.users.Values
      ensures registry == old(registry) && registry.users == old(registry.users) && spawnTime == old(spawnTime)
      ensures registry.Valid()
      ensures forall i :: 0 <= i < |order| ==> order[i] in registry.users
      ensures forall k :: k in registry.users ==> k in order
      ensures forall i, j :: 0 <= i < j < |order| ==> order[i] != order[j]
      ensures |snapshots| == |order| && |perUser| == |order|
      ensures forall k :: k in registry.users ==> var u := registry.users[k];
        u.jid == old(u.jid) && u.logs == old(u.logs) && u.status == old(u.status)
        && u.timers == Swept(old(u.timers), Online(old(u.status)), now)
      ensures forall i :: 0 <= i < |order| ==> var u := registry.users[order[i]];
        Listing(old(u.timers), snapshots[i]) && perUser[i] == Messages(u.jid, snapshots[i], Online(u.status), now)
      ensures outbox == old(outbox) + Flatten(perUser)
    {
      var users := registry.users;
      order := KeyOrder(users);
      snapshots, perUser := SweepUsers(users, order, now);
      outbox := outbox + Flatten(perUser);
    }

    /** `status_type_changed`: records the presence of the user it concerns,
        caching that user first if need be; nothing else changes. */
    method StatusChanged(jid: Jid, status: Option<string>)
      requires registry.Valid()
      modifies registry, registry.users.Values
      ensures registry == old(registry) && registry.Valid()
      ensures registry.users.Keys == old(registry.users).Keys + {Stripped(jid)}
      ensures forall k :: k in old(registry.users) && k != Stripped(jid) ==>
        registry.users[k] == old(registry.users[k]) && unchanged(registry.users[k])
      ensures var k := Stripped(jid); var u := registry.users[k];
        && u.status == status
        && (k in old(registry.users) ==>
              u == old(registry.users[k]) && u.jid == old(registry.users[k].jid)
              && u.timers == old(registry.users[k].timers) && u.logs == old(registry.users[k].logs))
        && (k !in old(registry.users) ==> fresh(u) && u.jid == jid && u.timers == map[] && u.logs == map[])
    {
      var u := registry.Jid2User(jid);
      u.status := status;
    }

    /** The `timer` command from the user `u`, whose argument `args` is not empty. */
    method TimerFor(u: User, args: string, now: nat) returns (reply: string)
      requires args != []
      modifies u
      ensures reply == TimerReply(old(u.timers), args, now)
      ensures u.timers == TimersAfterCommand(old(u.timers), args, now)
      ensures u.jid == old(u.jid) && u.logs == old(u.logs) && u.status == old(u.status)
    {
      match Route(args)
      case Ack(name) =>
        var found := u.DelTimer(name);
        reply := if found then "Timer acknowledged." else "Timer '" + name + "' not found.";
      case Set(a) =>
        var r := u.SetTimer(a, now);
        match r
        case Err(m) => reply := m;
        case Ok(t) =>
          var remaining := RenderRemaining(t, now);
          reply := "Timer '" + t.description + "' " + TargetText(t.target, now) + " (" + remaining + ")";
    }

    /** The `timer` command from `from` with argument `args`: only the
        sender's timer table changes, the sender being cached first if need be. */
    method TimerCommand(from: Jid, args: string, now: nat) returns (reply: string)
      requires registry.Valid()
      modifies registry, registry.users.Values
      ensures registry == old(registry) && registry.Valid()
      ensures args == [] ==>
        reply == TIMER_HELP && unchanged(registry) && forall k :: k in registry.users ==> unchanged(registry.users[k])
      ensures forall k :: k in old(registry.users) && k != Stripped(from) ==>
        k in registry.users && registry.users[k] == old(registry.users[k]) && unchanged(registry.users[k])
      ensures args != [] ==>
        var k := Stripped(from);
        var before := if k in old(registry.users) then old(registry.users[k].timers) else map[];
        && registry.users.Keys == old(registry.users).Keys + {k}
        && reply == TimerReply(before, args, now)
        && registry.users[k].timers == TimersAfterCommand(before, args, now)
        && registry.users[k].status == (if k in old(registry.users) then old(registry.users[k].status) else None)
        && registry.users[k].logs == (if k in old(registry.users) then old(registry.users[k].logs) else map[])
        && registry.users[k].jid == (if k in old(registry.users) then old(registry.users[k].jid) else from)
        && (k in old(registry.users) ==> registry.users[k] == old(registry.users[k]))
    {
      if args == [] {
        return TIMER_HELP;
      }
      var u := registry.Jid2User(from);
      reply := TimerFor(u, args, now);
    }
  }
}
