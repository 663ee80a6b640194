/** The multiprocessing handler's replay of a stream (`cu_cuid` in
    `handle_stream`). Its directory lives in a manager process and the
    handler only ever changes a copy of an account, so the shared directory
    never changes; there is no occupancy or lockout check and a wrong
    password does not drop the current account. `sudo` and `dir` are the
    same read-only handlers as in the locking variants. */
module MpAuth {
  import opened Directory
  import opened Events
  import opened Auth

  /** An `ssh` event: the first account with the name becomes current
      whatever the password, a name that matches nothing keeps the current
      account, and the password is checked against the current account. */
  function MpLogin(dir: seq<Account>, cuid: int, e: Event): (r: Step)
    requires ValidIndex(dir, cuid)
    ensures r.dir == dir && ValidIndex(dir, r.cuid)
    ensures r.outcome in {UnknownUser, WrongPassword, LoggedIn}
    ensures r.cuid == -1 <==> r.outcome == UnknownUser
  {
    var t := Target(dir, cuid, e.name, FirstMatch);
    if t == -1 then Step(dir, -1, UnknownUser)
    else if e.passwd == dir[t].passwd then Step(dir, t, LoggedIn)
    else Step(dir, t, WrongPassword)
  }

  function MpHandleEvent(dir: seq<Account>, cuid: int, e: Event): (r: Step)
    requires ValidIndex(dir, cuid)
    ensures r.dir == dir && ValidIndex(dir, r.cuid)
    ensures e.kind != Ssh ==> r.cuid == cuid
    ensures !KnownKind(e.kind) <==> r.outcome == Ignored
  {
    if e.kind == Ssh then MpLogin(dir, cuid, e)
    else if e.kind == Sudo then SudoCmd(dir, cuid, e)
    else if e.kind == Dir then DirCmd(dir, cuid)
    else Step(dir, cuid, Ignored)
  }

  /** A stream's events in order, from no current account. The directory
      comes out as it went in. */
  function MpRunEvents(dir: seq<Account>, cuid: int, events: seq<Event>): (r: Run)
    requires ValidIndex(dir, cuid)
    ensures r.dir == dir && ValidIndex(dir, r.cuid)
    ensures |r.outcomes| == |events|
    decreases |events|
  {
    if events == [] then Run(dir, cuid, [])
    else
      var s := MpHandleEvent(dir, cuid, events[0]);
      var rest := MpRunEvents(dir, s.cuid, events[1..]);
      Run(rest.dir, rest.cuid, [s.outcome] + rest.outcomes)
  }

  function MpHandleStream(dir: seq<Account>, events: seq<Event>): (r: Run)
    ensures r.dir == dir
    ensures |r.outcomes| == |events|
  {
    MpRunEvents(dir, -1, events)
  }

  /** A known name becomes current whatever the password; the login is
      accepted exactly when the password is that account's, with no look at
      occupancy or retries. */
  lemma MpKnownName(dir: seq<Account>, cuid: int, e: Event)
    requires ValidIndex(dir, cuid) && Lookup(dir, e.name, FirstMatch) != -1
    ensures var t := Lookup(dir, e.name, FirstMatch);
            && MpLogin(dir, cuid, e).cuid == t
            && (MpLogin(dir, cuid, e).outcome == LoggedIn <==> e.passwd == dir[t].passwd)
  {
  }

  /** A name that matches nothing keeps the current account, and the
      password is then checked against it. */
  lemma MpUnknownName(dir: seq<Account>, cuid: int, e: Event)
    requires ValidIndex(dir, cuid) && Lookup(dir, e.name, FirstMatch) == -1
    ensures MpLogin(dir, cuid, e).cuid == cuid
    ensures cuid != -1 ==> (MpLogin(dir, cuid, e).outcome == LoggedIn <==> e.passwd == dir[cuid].passwd)
  {
  }

  /** After a wrong password the account stays current, so a following `dir`
      is accepted and a `sudo` with the account's password too. */
  lemma MpWrongPasswordKeepsAccount(dir: seq<Account>, cuid: int, e: Event, next: Event)
    requires ValidIndex(dir, cuid) && e.kind == Ssh
    requires MpHandleEvent(dir, cuid, e).outcome == WrongPassword
    ensures var s := MpHandleEvent(dir, cuid, e);
            && s.cuid != -1
            && (next.kind == Dir ==> MpHandleEvent(dir, s.cuid, next).outcome == DirAccepted)
            && (next.kind == Sudo && next.passwd == dir[s.cuid].passwd ==>
                  MpHandleEvent(dir, s.cuid, next).outcome == SudoAccepted)
  {
  }

  /** Every login the locking handler accepts, the multiprocessing handler
      accepts too, on the same account. */
  lemma MpAcceptsLockingLogins(dir: seq<Account>, cuid: int, sid: string, e: Event)
    requires ValidIndex(dir, cuid)
    requires Login(dir, cuid, sid, e, FirstMatch).outcome == LoggedIn
    ensures MpLogin(dir, cuid, e) == Step(dir, Login(dir, cuid, sid, e, FirstMatch).cuid, LoggedIn)
  {
    LoginSuccess(dir, cuid, sid, e, FirstMatch);
  }

  /** ... but not the other way round: whenever the account a name finds is
      occupied by another stream, the locking handler refuses the login and
      this one accepts it with the right password. */
  lemma MpIgnoresOccupancy(dir: seq<Account>, cuid: int, sid: string, e: Event)
    requires ValidIndex(dir, cuid)
    requires var t := Target(dir, cuid, e.name, FirstMatch);
             t != -1 && dir[t].authd != "" && dir[t].authd != sid && e.passwd == dir[t].passwd
    ensures Login(dir, cuid, sid, e, FirstMatch).outcome == Occupied
    ensures MpLogin(dir, cuid, e) == Step(dir, Target(dir, cuid, e.name, FirstMatch), LoggedIn)
  {
  }
}
