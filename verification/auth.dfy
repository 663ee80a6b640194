/** The per-stream login state machine (`CurrentUser`) of the asyncio,
    threading and Go handlers. A session holds the index of its current
    account (`-1` for none); the handlers for `sudo` and `dir` only read, and
    the `ssh` handler is modelled as one atomic step on the directory. That
    is exact for the asyncio copy, whose critical section never yields; the
    threading and Go copies also clear the previous account while holding
    only the target's lock, which the model abstracts away. The three copies
    differ only in the name search, which is a parameter. */
module Auth {
  import opened Directory
  import opened Events
  import opened Seqs

  /** What a handler call did; the handlers report it only in their logs. */
  datatype Outcome =
    | UnknownUser       // the name matches no account and the session has none
    | AlreadyLoggedIn   // the account is occupied by this very stream
    | Occupied          // the account is occupied by another stream
    | Blocked           // three failed logins
    | WrongPassword
    | LoggedIn
    | SudoAccepted
    | SudoDenied
    | DirAccepted
    | Unbound           // `sudo` or `dir` without a current account: silently skipped
    | Ignored           // an event type no handler takes

  /** The directory and the session's account index after one call. */
  datatype Step = Step(dir: seq<Account>, cuid: int, outcome: Outcome)

  /** Only occupancy and retry counters ever change. */
  predicate SameCredentials(before: seq<Account>, after: seq<Account>) {
    && |after| == |before|
    && forall k :: 0 <= k < |before| ==> after[k].name == before[k].name && after[k].passwd == before[k].passwd
  }

  /** The session's account is occupied by its own stream, if it has one. */
  predicate SessionOk(dir: seq<Account>, cuid: int, sid: string) {
    cuid == -1 || (0 <= cuid < |dir| && dir[cuid].authd == sid)
  }

  /** The account a login acts on: the one the name search finds, or, when it
      finds none, the session's current one (which the search leaves in
      place). */
  function Target(dir: seq<Account>, cuid: int, name: string, order: LookupOrder): (t: int)
    requires ValidIndex(dir, cuid)
    ensures ValidIndex(dir, t)
    ensures t != -1 && t != cuid ==> dir[t].name == name
  {
    var found := Lookup(dir, name, order);
    if found != -1 then found else cuid
  }

  /** `handle_ssh` / `HandleSSH`: a cascade of guards on the target account,
      checked in order: already mine, occupied by another stream, blocked,
      wrong password (which counts), and success, which releases the
      session's previous account and occupies the target. */
  function Login(dir: seq<Account>, cuid: int, sid: string, e: Event, order: LookupOrder): (r: Step)
    requires ValidIndex(dir, cuid)
    ensures SameCredentials(dir, r.dir)
    ensures ValidIndex(r.dir, r.cuid)
    ensures r.outcome in {UnknownUser, AlreadyLoggedIn, Occupied, Blocked, WrongPassword, LoggedIn}
    ensures r.outcome != LoggedIn && r.outcome != WrongPassword ==> r.dir == dir
    ensures r.outcome != LoggedIn && r.outcome != AlreadyLoggedIn ==> r.cuid == -1
  {
    var t := Target(dir, cuid, e.name, order);
    if t == -1 then Step(dir, -1, UnknownUser)
    else
      var a := dir[t];
      if a.authd == sid then Step(dir, t, AlreadyLoggedIn)
      else if a.authd != "" then Step(dir, -1, Occupied)
      else if a.retries >= MaxRetries then Step(dir, -1, Blocked)
      else if e.passwd != a.passwd then Step(dir[t := a.(retries := a.retries + 1)], -1, WrongPassword)
      else
        var released := if cuid != -1 then dir[cuid := dir[cuid].(authd := "")] else dir;
        Step(released[t := a.(authd := sid, retries := 0)], t, LoggedIn)
  }

  /** `handle_sudo` / `HandleSudo`: checks the password against the current
      account and changes nothing. */
  function SudoCmd(dir: seq<Account>, cuid: int, e: Event): (r: Step)
    requires ValidIndex(dir, cuid)
    ensures r.dir == dir && r.cuid == cuid
    ensures r.outcome == SudoAccepted <==> cuid != -1 && e.passwd == dir[cuid].passwd
    ensures r.outcome == Unbound <==> cuid == -1
  {
    if cuid == -1 then Step(dir, cuid, Unbound)
    else if e.passwd == dir[cuid].passwd then Step(dir, cuid, SudoAccepted)
    else Step(dir, cuid, SudoDenied)
  }

  /** `handle_dir` / `HandlerDir`: accepted whenever there is a current
      account; changes nothing. */
  function DirCmd(dir: seq<Account>, cuid: int): (r: Step)
    requires ValidIndex(dir, cuid)
    ensures r.dir == dir && r.cuid == cuid
    ensures r.outcome == DirAccepted <==> cuid != -1
  {
    if cuid == -1 then Step(dir, cuid, Unbound) else Step(dir, cuid, DirAccepted)
  }

  /** The dispatch in `handle_stream` / `HandleStream`: by exact type string,
      anything else skipped. */
  function HandleEvent(dir: seq<Account>, cuid: int, sid: string, e: Event, order: LookupOrder): (r: Step)
    requires ValidIndex(dir, cuid)
    ensures SameCredentials(dir, r.dir)
    ensures ValidIndex(r.dir, r.cuid)
    ensures e.kind != Ssh ==> r.dir == dir && r.cuid == cuid
    ensures !KnownKind(e.kind) <==> r.outcome == Ignored
  {
    if e.kind == Ssh then Login(dir, cuid, sid, e, order)
    else if e.kind == Sudo then SudoCmd(dir, cuid, e)
    else if e.kind == Dir then DirCmd(dir, cuid)
    else Step(dir, cuid, Ignored)
  }

  /** The state after a stream's events, and what each event did. */
  datatype Run = Run(dir: seq<Account>, cuid: int, outcomes: seq<Outcome>)

  /** The events of one stream, handled one after the other in list order. */
  function RunEvents(dir: seq<Account>, cuid: int, sid: string, events: seq<Event>, order: LookupOrder): (r: Run)
    requires ValidIndex(dir, cuid)
    ensures SameCredentials(dir, r.dir)
    ensures ValidIndex(r.dir, r.cuid)
    ensures |r.outcomes| == |events|
    decreases |events|
  {
    if events == [] then Run(dir, cuid, [])
    else
      var s := HandleEvent(dir, cuid, sid, events[0], order);
      var rest := RunEvents(s.dir, s.cuid, sid, events[1..], order);
      Run(rest.dir, rest.cuid, [s.outcome] + rest.outcomes)
  }

  /** A stream starts with no current account. */
  function HandleStream(dir: seq<Account>, id: string, events: seq<Event>, order: LookupOrder): (r: Run)
    ensures SameCredentials(dir, r.dir)
    ensures |r.outcomes| == |events|
  {
    RunEvents(dir, -1, id, events, order)
  }

  // ---- One login step ----

  /** Retries never exceed three and an occupied account has none. */
  lemma LoginKeepsWellFormed(dir: seq<Account>, cuid: int, sid: string, e: Event, order: LookupOrder)
    requires ValidIndex(dir, cuid) && WellFormed(dir)
    ensures WellFormed(Login(dir, cuid, sid, e, order).dir)
  {
  }

  /** A retry counter changes only at the target: up by one on a wrong
      password for an unoccupied account below three, or back to zero on a
      successful login. */
  lemma RetriesChangeOnlyAtTarget(dir: seq<Account>, cuid: int, sid: string, e: Event, order: LookupOrder, k: nat)
    requires ValidIndex(dir, cuid) && k < |dir|
    ensures var r := Login(dir, cuid, sid, e, order);
            r.dir[k].retries != dir[k].retries ==>
              && k == Target(dir, cuid, e.name, order)
              && ((&& r.outcome == WrongPassword
                   && dir[k].authd == "" && dir[k].retries < MaxRetries
                   && e.passwd != dir[k].passwd
                   && r.dir[k].retries == dir[k].retries + 1)
                  || (r.outcome == LoggedIn && r.dir[k].retries == 0))
  {
  }

  /** ... and conversely every wrong password on a free account below three
      retries counts: the target's counter goes up by one, nothing else
      changes, and the session is left with no account. */
  lemma WrongPasswordCounts(dir: seq<Account>, cuid: int, sid: string, e: Event, order: LookupOrder)
    requires ValidIndex(dir, cuid)
    requires var t := Target(dir, cuid, e.name, order);
             t != -1 && dir[t].authd == "" && sid != "" && dir[t].retries < MaxRetries && e.passwd != dir[t].passwd
    ensures var t := Target(dir, cuid, e.name, order);
            Login(dir, cuid, sid, e, order) == Step(dir[t := dir[t].(retries := dir[t].retries + 1)], -1, WrongPassword)
  {
  }

  /** Three wrong passwords for `dev_user`, from three different streams,
      block it: a fourth login, with the right password, is refused. */
  lemma ThreeFailuresBlock()
    ensures var d0 := Initial();
            var bad := Event(Ssh, "dev_user", "wrong");
            var s1 := Login(d0, -1, "a", bad, FirstMatch);
            var s2 := Login(s1.dir, -1, "b", bad, FirstMatch);
            var s3 := Login(s2.dir, -1, "c", bad, FirstMatch);
            var s4 := Login(s3.dir, -1, "d", Event(Ssh, "dev_user", "d3v3l0p3r"), FirstMatch);
            && s1.outcome == WrongPassword && s2.outcome == WrongPassword && s3.outcome == WrongPassword
            && s3.dir[2].retries == MaxRetries
            && s4.outcome == Blocked && s4.dir == s3.dir
  {
    var d0 := Initial();
    var bad := Event(Ssh, "dev_user", "wrong");
    var d1 := d0[2 := Account("dev_user", "d3v3l0p3r", "", 1)];
    var d2 := d0[2 := Account("dev_user", "d3v3l0p3r", "", 2)];
    var d3 := d0[2 := Account("dev_user", "d3v3l0p3r", "", 3)];
    assert Lookup(d0, "dev_user", FirstMatch) == 2;
    assert Login(d0, -1, "a", bad, FirstMatch) == Step(d1, -1, WrongPassword);
    assert Lookup(d1, "dev_user", FirstMatch) == 2;
    assert d1[2 := d1[2].(retries := 2)] == d2;
    assert Login(d1, -1, "b", bad, FirstMatch) == Step(d2, -1, WrongPassword);
    assert Lookup(d2, "dev_user", FirstMatch) == 2;
    assert d2[2 := d2[2].(retries := 3)] == d3;
    assert Login(d2, -1, "c", bad, FirstMatch) == Step(d3, -1, WrongPassword);
    assert Lookup(d3, "dev_user", FirstMatch) == 2;
  }

  /** An account occupied by another stream refuses the login and nothing
      but the session's index (now none) changes. */
  lemma OccupiedByOtherRefused(dir: seq<Account>, cuid: int, sid: string, e: Event, order: LookupOrder)
    requires ValidIndex(dir, cuid)
    requires var t := Target(dir, cuid, e.name, order);
             t != -1 && dir[t].authd != "" && dir[t].authd != sid
    ensures Login(dir, cuid, sid, e, order) == Step(dir, -1, Occupied)
  {
  }

  /** For a non-empty stream id, a blocked account refuses every login, with
      the right password too, and nothing in the directory changes. A
      stream with an empty id is instead bound to a free account even when
      it is blocked; see `EmptyIdTakesFreeAccount`. */
  lemma BlockedRefused(dir: seq<Account>, cuid: int, sid: string, e: Event, order: LookupOrder)
    requires ValidIndex(dir, cuid)
    requires var t := Target(dir, cuid, e.name, order);
             t != -1 && dir[t].authd == "" && sid != "" && dir[t].retries >= MaxRetries
    ensures Login(dir, cuid, sid, e, order) == Step(dir, -1, Blocked)
  {
  }

  /** A login succeeds exactly when the target is free, not blocked and the
      password is right (and the stream id is not empty, since an empty id
      matches every free account's empty occupant). Success occupies the
      target with the stream, clears its retries, releases the session's
      previous account and changes nothing else. */
  lemma LoginSuccess(dir: seq<Account>, cuid: int, sid: string, e: Event, order: LookupOrder)
    requires ValidIndex(dir, cuid)
    ensures var t := Target(dir, cuid, e.name, order);
            var r := Login(dir, cuid, sid, e, order);
            r.outcome == LoggedIn
            <==> t != -1 && dir[t].authd == "" && sid != "" && dir[t].retries < MaxRetries && e.passwd == dir[t].passwd
    ensures var t := Target(dir, cuid, e.name, order);
            var r := Login(dir, cuid, sid, e, order);
            r.outcome == LoggedIn ==>
              && r.cuid == t
              && r.dir[t] == dir[t].(authd := sid, retries := 0)
              && (cuid != -1 && cuid != t ==> r.dir[cuid] == dir[cuid].(authd := ""))
              && forall k :: 0 <= k < |dir| && k != t && k != cuid ==> r.dir[k] == dir[k]
  {
  }

  /** Logging in to an account the stream already occupies changes nothing in
      the directory; the session's index becomes that account, so a session
      already on it is not changed at all. */
  lemma ReLoginNoChange(dir: seq<Account>, cuid: int, sid: string, e: Event, order: LookupOrder)
    requires ValidIndex(dir, cuid)
    requires var t := Target(dir, cuid, e.name, order);
             t != -1 && dir[t].authd == sid
    ensures var t := Target(dir, cuid, e.name, order);
            Login(dir, cuid, sid, e, order) == Step(dir, t, AlreadyLoggedIn)
    ensures Target(dir, cuid, e.name, order) == cuid ==>
              Login(dir, cuid, sid, e, order) == Step(dir, cuid, AlreadyLoggedIn)
  {
  }

  /** A name that matches no account: an unbound session stays unbound; a
      bound session that occupies its account (always the case for a
      non-empty id, by `LoginKeepsSessionOk`) keeps its index and ends in the
      "already logged in" branch, password unchecked. */
  lemma UnknownName(dir: seq<Account>, cuid: int, sid: string, e: Event, order: LookupOrder)
    requires ValidIndex(dir, cuid) && SessionOk(dir, cuid, sid)
    requires Lookup(dir, e.name, order) == -1
    ensures cuid == -1 ==> Login(dir, cuid, sid, e, order) == Step(dir, -1, UnknownUser)
    ensures cuid != -1 ==> Login(dir, cuid, sid, e, order) == Step(dir, cuid, AlreadyLoggedIn)
  {
  }

  /** A login never takes an account another stream occupies: occupancy only
      changes from free to this stream or from this stream to free, and
      accounts of other streams are untouched. */
  lemma LoginRespectsOthers(dir: seq<Account>, cuid: int, sid: string, e: Event, order: LookupOrder, k: nat)
    requires ValidIndex(dir, cuid) && SessionOk(dir, cuid, sid) && k < |dir|
    ensures var r := Login(dir, cuid, sid, e, order);
            r.dir[k].authd != dir[k].authd ==>
              (dir[k].authd == "" && r.dir[k].authd == sid) || (dir[k].authd == sid && r.dir[k].authd == "")
    ensures dir[k].authd != "" && dir[k].authd != sid ==> Login(dir, cuid, sid, e, order).dir[k] == dir[k]
  {
  }

  /** After a login the session's account, if any, is occupied by its own
      stream. */
  lemma LoginKeepsSessionOk(dir: seq<Account>, cuid: int, sid: string, e: Event, order: LookupOrder)
    requires ValidIndex(dir, cuid) && SessionOk(dir, cuid, sid)
    ensures var r := Login(dir, cuid, sid, e, order); SessionOk(r.dir, r.cuid, sid)
  {
  }

  /** A stream with an empty id can never change the directory and never
      gets the `LoggedIn` outcome: every free account looks occupied by it,
      so it never gets past the first guard on a free account and is refused
      on an occupied one. */
  lemma EmptyIdNeverChanges(dir: seq<Account>, cuid: int, e: Event, order: LookupOrder)
    requires ValidIndex(dir, cuid)
    ensures Login(dir, cuid, "", e, order).dir == dir
    ensures Login(dir, cuid, "", e, order).outcome != LoggedIn
  {
  }

  /** ... yet it is bound to any free account it names, without a password
      check and even when that account is blocked, and from then on its
      `dir` is accepted and so is a `sudo` with that account's password. */
  lemma EmptyIdTakesFreeAccount(dir: seq<Account>, cuid: int, e: Event, order: LookupOrder)
    requires ValidIndex(dir, cuid)
    requires var t := Target(dir, cuid, e.name, order); t != -1 && dir[t].authd == ""
    ensures var t := Target(dir, cuid, e.name, order);
            && Login(dir, cuid, "", e, order) == Step(dir, t, AlreadyLoggedIn)
            && DirCmd(dir, t).outcome == DirAccepted
            && SudoCmd(dir, t, Event(Sudo, "", dir[t].passwd)).outcome == SudoAccepted
  {
  }

  /** A blocked account stays exactly as it is under any login. */
  lemma LoginKeepsBlocked(dir: seq<Account>, cuid: int, sid: string, e: Event, order: LookupOrder, k: nat)
    requires ValidIndex(dir, cuid) && WellFormed(dir) && k < |dir| && dir[k].retries >= MaxRetries
    ensures Login(dir, cuid, sid, e, order).dir[k] == dir[k]
  {
  }

  /** A failed login on another account while bound drops the session's
      index but leaves its old account occupied by the stream, so that
      account stays taken while the stream's later `sudo` and `dir` are
      skipped. */
  lemma FailedLoginOrphans(dir: seq<Account>, cuid: int, sid: string, e: Event, order: LookupOrder)
    requires ValidIndex(dir, cuid) && cuid != -1 && dir[cuid].authd == sid
    requires Login(dir, cuid, sid, e, order).outcome in {Occupied, Blocked, WrongPassword}
    ensures var r := Login(dir, cuid, sid, e, order);
            && r.cuid == -1
            && r.dir[cuid].authd == sid
            && SudoCmd(r.dir, r.cuid, e).outcome == Unbound
            && DirCmd(r.dir, r.cuid).outcome == Unbound
  {
  }

  // ---- Whole streams ----

  /** Handling `a + b` is handling `a`, then `b` from where `a` left off. */
  lemma {:induction false} RunEventsAppend(dir: seq<Account>, cuid: int, sid: string, a: seq<Event>, b: seq<Event>, order: LookupOrder)
    requires ValidIndex(dir, cuid)
    ensures var ra := RunEvents(dir, cuid, sid, a, order);
            var rb := RunEvents(ra.dir, ra.cuid, sid, b, order);
            RunEvents(dir, cuid, sid, a + b, order) == Run(rb.dir, rb.cuid, ra.outcomes + rb.outcomes)
    decreases |a|
  {
    if a == [] {
      assert a + b == b;
    } else {
      var s := HandleEvent(dir, cuid, sid, a[0], order);
      assert (a + b)[0] == a[0];
      assert (a + b)[1..] == a[1..] + b;
      RunEventsAppend(s.dir, s.cuid, sid, a[1..], b, order);
      var ra' := RunEvents(s.dir, s.cuid, sid, a[1..], order);
      var rb := RunEvents(ra'.dir, ra'.cuid, sid, b, order);
      Associate([s.outcome], ra'.outcomes, rb.outcomes);
    }
  }

  /** An event of an unknown type is skipped: the run goes on as if it were
      not there. */
  lemma UnknownKindSkipped(dir: seq<Account>, cuid: int, sid: string, e: Event, rest: seq<Event>, order: LookupOrder)
    requires ValidIndex(dir, cuid) && !KnownKind(e.kind)
    ensures var r := RunEvents(dir, cuid, sid, [e] + rest, order);
            var q := RunEvents(dir, cuid, sid, rest, order);
            r == Run(q.dir, q.cuid, [Ignored] + q.outcomes)
  {
    assert ([e] + rest)[1..] == rest;
  }

  /** A stream only ever keeps the directory well formed. */
  lemma {:induction false} RunKeepsWellFormed(dir: seq<Account>, cuid: int, sid: string, events: seq<Event>, order: LookupOrder)
    requires ValidIndex(dir, cuid) && WellFormed(dir)
    ensures WellFormed(RunEvents(dir, cuid, sid, events, order).dir)
    decreases |events|
  {
    if events != [] {
      var s := HandleEvent(dir, cuid, sid, events[0], order);
      if events[0].kind == Ssh {
        LoginKeepsWellFormed(dir, cuid, sid, events[0], order);
      }
      RunKeepsWellFormed(s.dir, s.cuid, sid, events[1..], order);
    }
  }

  /** Once blocked, an account stays blocked and unchanged for the rest of
      the stream. */
  lemma {:induction false} RunKeepsBlocked(dir: seq<Account>, cuid: int, sid: string, events: seq<Event>, order: LookupOrder, k: nat)
    requires ValidIndex(dir, cuid) && WellFormed(dir) && k < |dir| && dir[k].retries >= MaxRetries
    ensures RunEvents(dir, cuid, sid, events, order).dir[k] == dir[k]
    decreases |events|
  {
    if events != [] {
      var s := HandleEvent(dir, cuid, sid, events[0], order);
      if events[0].kind == Ssh {
        LoginKeepsWellFormed(dir, cuid, sid, events[0], order);
        LoginKeepsBlocked(dir, cuid, sid, events[0], order, k);
      }
      RunKeepsBlocked(s.dir, s.cuid, sid, events[1..], order, k);
    }
  }

  /** Handling one event is one step. */
  lemma RunSingle(dir: seq<Account>, cuid: int, sid: string, e: Event, order: LookupOrder)
    requires ValidIndex(dir, cuid)
    ensures var s := HandleEvent(dir, cuid, sid, e, order);
            RunEvents(dir, cuid, sid, [e], order) == Run(s.dir, s.cuid, [s.outcome])
  {
    assert [e][1..] == [];
  }

  /** Handling one more event continues from where the earlier ones left
      off. */
  lemma RunEventsSnoc(dir: seq<Account>, cuid: int, sid: string, events: seq<Event>, e: Event, order: LookupOrder,
                      d: seq<Account>, c: int, outs: seq<Outcome>)
    requires ValidIndex(dir, cuid) && ValidIndex(d, c)
    requires RunEvents(dir, cuid, sid, events, order) == Run(d, c, outs)
    ensures var s := HandleEvent(d, c, sid, e, order);
            RunEvents(dir, cuid, sid, events + [e], order) == Run(s.dir, s.cuid, outs + [s.outcome])
  {
    RunEventsAppend(dir, cuid, sid, events, [e], order);
    RunSingle(d, c, sid, e, order);
  }

  /** The loop of `handle_stream` / `HandleStream`. */
  method HandleStreamLoop(dir: seq<Account>, id: string, events: seq<Event>, order: LookupOrder)
    returns (d: seq<Account>, cuid: int, outcomes: seq<Outcome>)
    ensures Run(d, cuid, outcomes) == HandleStream(dir, id, events, order)
  {
    d, cuid, outcomes := dir, -1, [];
    var i := 0;
    while i < |events|
      invariant 0 <= i <= |events|
      invariant ValidIndex(d, cuid)
      invariant RunEvents(dir, -1, id, events[..i], order) == Run(d, cuid, outcomes)
    {
      var s := HandleEvent(d, cuid, id, events[i], order);
      RunEventsSnoc(dir, -1, id, events[..i], events[i], order, d, cuid, outcomes);
      TakeSnoc(events, i);
      d, cuid, outcomes := s.dir, s.cuid, outcomes + [s.outcome];
      i := i + 1;
    }
    assert events[..i] == events;
  }

  /** A concrete stream: logging in, then failing on another account, leaves
      the first account occupied by the stream while its `sudo` is skipped. */
  lemma OrphanedOccupancyExample()
    ensures var r := HandleStream(Initial(), "s1",
                                  [ Event(Ssh, "superadmin", "P@ssw0rd!"),
                                    Event(Ssh, "auditor", "wrong"),
                                    Event(Sudo, "", "P@ssw0rd!") ], FirstMatch);
            && r.outcomes == [LoggedIn, WrongPassword, Unbound]
            && r.cuid == -1
            && r.dir[0].authd == "s1"
            && r.dir[1].retries == 1
  {
    var d0 := Initial();
    var e0, e1, e2 := Event(Ssh, "superadmin", "P@ssw0rd!"), Event(Ssh, "auditor", "wrong"), Event(Sudo, "", "P@ssw0rd!");
    var d1 := d0[0 := Account("superadmin", "P@ssw0rd!", "s1", 0)];
    var d2 := d1[1 := Account("auditor", "Secur3!2023", "", 1)];
    assert Lookup(d0, "superadmin", FirstMatch) == 0;
    assert HandleEvent(d0, -1, "s1", e0, FirstMatch) == Step(d1, 0, LoggedIn);
    assert FirstFrom(d1, "auditor", 1) == 1;
    assert Lookup(d1, "auditor", FirstMatch) == 1;
    assert HandleEvent(d1, 0, "s1", e1, FirstMatch) == Step(d2, -1, WrongPassword);
    RunSingle(d2, -1, "s1", e2, FirstMatch);
    assert [e1, e2][1..] == [e2];
    assert RunEvents(d1, 0, "s1", [e1, e2], FirstMatch) == Run(d2, -1, [WrongPassword, Unbound]);
    assert [e0, e1, e2][1..] == [e1, e2];
  }
}
