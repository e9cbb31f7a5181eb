/** A user of the bot and the registry of users (kilram/User.py): each user
    keeps a table of timers keyed by description and a table of logs keyed by
    name. Saving to and loading from disk are not modelled. */
module Users {
  import opened Text
  import opened Timers
  import opened Logging

  /** A Jabber id; `getStripped()` drops the resource. */
  datatype Jid = Jid(bare: string, resource: string)

  function Stripped(j: Jid): string { j.bare }

  const TIMER_EXISTS: string := "Timer already exists."

  /** `items` lists the entries of `m`, each key once, in some order. */
  predicate Listing<V(==)>(m: map<string, V>, items: seq<(string, V)>) {
    (forall i :: 0 <= i < |items| ==> items[i].0 in m && m[items[i].0] == items[i].1)
    && (forall k :: k in m ==> exists i :: 0 <= i < |items| && items[i].0 == k)
    && (forall i, j :: 0 <= i < j < |items| ==> items[i].0 != items[j].0)
  }

  /** The keys of a dictionary, in the unspecified order `dict.keys()` has. */
  method KeyOrder<V>(m: map<string, V>) returns (keys: seq<string>)
    ensures forall i :: 0 <= i < |keys| ==> keys[i] in m
    ensures forall k :: k in m ==> k in keys
    ensures forall i, j :: 0 <= i < j < |keys| ==> keys[i] != keys[j]
  {
    keys := [];
    var rest := m.Keys;
    while rest != {}
      invariant rest <= m.Keys
      invariant forall k :: k in m ==> (k in rest <==> k !in keys)
      invariant forall i :: 0 <= i < |keys| ==> keys[i] in m
      invariant forall i, j :: 0 <= i < j < |keys| ==> keys[i] != keys[j]
      decreases |rest|
    {
      var k :| k in rest;
      keys := keys + [k];
      rest := rest - {k};
    }
  }

  /** `dict.items()`: a snapshot of the entries. */
  method Items<V(==)>(m: map<string, V>) returns (items: seq<(string, V)>)
    ensures Listing(m, items)
  {
    var keys := KeyOrder(m);
    items := seq(|keys|, i requires 0 <= i < |keys| => (keys[i], m[keys[i]]));
    forall k | k in m
      ensures exists i :: 0 <= i < |items| && items[i].0 == k
    {
      var i :| 0 <= i < |keys| && keys[i] == k;
      assert items[i].0 == k;
    }
  }

  // ---------------------------------------------------------------------
  // set_timer, as a function of the timer table before the call.

  /** The timer `set_timer(args)` returns, or the message of what it raises. */
  function SetTimerResult(timers: map<string, Timer>, args: string, now: nat): Result<Timer> {
    match TimerOf(args, now)
    case Err(m) => Err(m)
    case Ok(t) => if t.description in timers then Err(TIMER_EXISTS) else Ok(t)
  }

  /** The timer table after `set_timer(args)`. */
  function TimersAfterSet(timers: map<string, Timer>, args: string, now: nat): map<string, Timer> {
    match SetTimerResult(timers, args, now)
    case Ok(t) => timers[t.description := t]
    case Err(_) => timers
  }

  /** A description already in use is refused and nothing changes. */
  lemma SetTimerDuplicate(timers: map<string, Timer>, args: string, now: nat)
    requires TimerOf(args, now).Ok? && TimerOf(args, now).value.description in timers
    ensures SetTimerResult(timers, args, now) == Err(TIMER_EXISTS)
    ensures TimersAfterSet(timers, args, now) == timers
  {
  }

  /** A parse error comes back unchanged, before anything is stored. */
  lemma SetTimerParseError(timers: map<string, Timer>, args: string, now: nat)
    requires TimerOf(args, now).Err?
    ensures SetTimerResult(timers, args, now) == TimerOf(args, now)
    ensures TimersAfterSet(timers, args, now) == timers
  {
  }

  /** A stored timer is filed under its description, which was free, and no
      other entry changes. */
  lemma SetTimerAdds(timers: map<string, Timer>, args: string, now: nat)
    requires SetTimerResult(timers, args, now).Ok?
    ensures var t := SetTimerResult(timers, args, now).value; var after := TimersAfterSet(timers, args, now);
      t == TimerOf(args, now).value && t.description !in timers
      && after.Keys == timers.Keys + {t.description} && after[t.description] == t
      && |after.Keys| == |timers.Keys| + 1
      && forall k :: k in timers ==> after[k] == timers[k]
  {
  }

  // ---------------------------------------------------------------------
  // Users.

  /** What `get_logs(logname)` returns: every log for an empty name, else
      the named log, or the KeyError of a missing one. */
  datatype LogsReply = AllLogs(items: seq<(string, Logger)>) | OneLog(log: Logger) | NoSuchLog

  class User {
    var jid: Jid
    var timers: map<string, Timer>
    var logs: map<string, Logger>
    var status: Option<string>

    /** `User(jid)`: nothing stored yet and no presence known. */
    constructor (jid: Jid)
      ensures this.jid == jid && timers == map[] && logs == map[] && status == None
    {
      this.jid := jid;
      timers := map[];
      logs := map[];
      status := None;
    }

    /** Every log is filed under its own name, so no two names share a log. */
    predicate LogsNamed()
      reads this, logs.Values
    {
      forall k :: k in logs ==> logs[k].logname == k
    }

    /** `get_timers()`. */
    method GetTimers() returns (items: seq<(string, Timer)>)
      ensures Listing(timers, items)
    {
      items := Items(timers);
    }

    /** `set_timer(args)`. */
    method SetTimer(args: string, now: nat) returns (r: Result<Timer>)
      modifies this
      ensures r == SetTimerResult(old(timers), args, now)
      ensures timers == TimersAfterSet(old(timers), args, now)
      ensures jid == old(jid) && logs == old(logs) && status == old(status)
    {
      r := NewTimer(args, now);
      if r.Ok? {
        if r.value.description in timers {
          r := Err(TIMER_EXISTS);
        } else {
          timers := timers[r.value.description := r.value];
        }
      }
    }

    /** `del_timer(desc)`; `found` is false where the source raises KeyError. */
    method DelTimer(desc: string) returns (found: bool)
      modifies this
      ensures found == (desc in old(timers))
      ensures timers == old(timers) - {desc}
      ensures jid == old(jid) && logs == old(logs) && status == old(status)
    {
      found := desc in timers;
      if found {
        timers := timers - {desc};
      }
    }

    /** `log_entry(args)`: parses the entry, opens its log if it has none
        yet, and appends the entry to it. */
    method AddLogEntry(args: string, now: nat) returns (r: Result<LogEntry>)
      requires LogsNamed()
      modifies this, logs.Values
      ensures r == ParseLogEntry(args, now)
      ensures LogsNamed()
      ensures jid == old(jid) && timers == old(timers) && status == old(status)
      ensures r.Err? ==> logs == old(logs) && forall k :: k in logs ==> unchanged(logs[k])
      ensures r.Ok? ==> var name := r.value.logname;
        logs.Keys == old(logs).Keys + {name}
        && (forall k :: k in old(logs) && k != name ==> logs[k] == old(logs[k]) && unchanged(logs[k]))
        && (name in old(logs) ==> logs[name] == old(logs[name]) && logs[name].entries == old(logs[name].entries) + [r.value]
                                  && logs[name].created == old(logs[name].created))
        && (name !in old(logs) ==> fresh(logs[name]) && logs[name].entries == [r.value] && logs[name].created == now)
    {
      r := ParseLogEntry(args, now);
      if r.Ok? {
        var name := r.value.logname;
        if name !in logs {
          var log := new Logger(name, now);
          logs := logs[name := log];
        }
        var l := logs[name];
        l.Log(r.value);
      }
    }

    /** `get_logs(logname)`. */
    method GetLogs(name: string) returns (r: LogsReply)
      ensures name == "" ==> r.AllLogs? && Listing(logs, r.items)
      ensures name != "" && name in logs ==> r == OneLog(logs[name])
      ensures name != "" && name !in logs ==> r == NoSuchLog
    {
      if name == "" {
        var items := Items(logs);
        r := AllLogs(items);
      } else if name in logs {
        r := OneLog(logs[name]);
      } else {
        r := NoSuchLog;
      }
    }

    /** `del_log(logname)`; `found` is false where the source raises KeyError. */
    method DelLog(name: string) returns (found: bool)
      modifies this
      ensures found == (name in old(logs))
      ensures logs == old(logs) - {name}
      ensures jid == old(jid) && timers == old(timers) && status == old(status)
    {
      found := name in logs;
      if found {
        logs := logs - {name};
      }
    }
  }

  /** The class-level `User.users` cache, keyed by stripped Jabber id. */
  class Registry {
    var users: map<string, User>

    constructor ()
      ensures users == map[]
    {
      users := map[];
    }

    /** Every user is cached under its own stripped id, so each is cached once. */
    predicate Valid()
      reads this, users.Values
    {
      forall k :: k in users ==> Stripped(users[k].jid) == k
    }

    /** `jid2user(jid)`: the cached user, made and cached on first sight. */
    method Jid2User(jid: Jid) returns (u: User)
      requires Valid()
      modifies this
      ensures Valid()
      ensures users.Keys == old(users).Keys + {Stripped(jid)} && u == users[Stripped(jid)]
      ensures forall k :: k in old(users) ==> users[k] == old(users)[k]
      ensures Stripped(jid) in old(users) ==> users == old(users)
      ensures Stripped(jid) !in old(users) ==>
        fresh(u) && u.jid == jid && u.timers == map[] && u.logs == map[] && u.status == None
    {
      var key := Stripped(jid);
      if key !in users {
        var made := new User(jid);
        users := users[key := made];
      }
      u := users[key];
    }
  }
}
