/** Many streams handled at once. Each login is modelled as one atomic step
    (see the `Auth` module for where that abstracts the threading and Go
    locking), and `sudo`/`dir` only read, so a run of the server is some
    interleaving of the streams' events: a schedule saying which session
    handles its next event at each step. The properties below hold for every
    schedule. */
module Interleaving {
  import opened Directory
  import opened Events
  import opened Auth

  /** A stream being handled: its id, its events, how many are done, and its
      current account. */
  datatype Session = Session(id: string, events: seq<Event>, next: nat, cuid: int)

  datatype System = System(dir: seq<Account>, sessions: seq<Session>)

  predicate Valid(sys: System) {
    forall i :: 0 <= i < |sys.sessions| ==>
      ValidIndex(sys.dir, sys.sessions[i].cuid) && sys.sessions[i].next <= |sys.sessions[i].events|
  }

  /** Every stream starts with no account and nothing handled. */
  function Start(dir: seq<Account>, streams: seq<Stream>): (sys: System)
    ensures Valid(sys) && sys.dir == dir && |sys.sessions| == |streams|
    ensures forall i :: 0 <= i < |streams| ==>
              sys.sessions[i] == Session(streams[i].id, streams[i].events, 0, -1)
  {
    System(dir, seq(|streams|, i requires 0 <= i < |streams| => Session(streams[i].id, streams[i].events, 0, -1)))
  }

  /** Session `i` handles its next event; a session that is finished, or an
      index that names no session, leaves everything as it is. */
  function StepSession(sys: System, i: int, order: LookupOrder): (r: System)
    requires Valid(sys)
    ensures Valid(r)
    ensures SameCredentials(sys.dir, r.dir)
    ensures |r.sessions| == |sys.sessions|
    ensures forall j :: 0 <= j < |sys.sessions| && j != i ==> r.sessions[j] == sys.sessions[j]
  {
    if !(0 <= i < |sys.sessions|) || sys.sessions[i].next == |sys.sessions[i].events| then sys
    else
      var ss := sys.sessions[i];
      var s := HandleEvent(sys.dir, ss.cuid, ss.id, ss.events[ss.next], order);
      var sessions := sys.sessions[i := ss.(next := ss.next + 1, cuid := s.cuid)];
      assert forall j :: 0 <= j < |sessions| && j != i ==> sessions[j] == sys.sessions[j];
      System(s.dir, sessions)
  }

  function RunSchedule(sys: System, schedule: seq<int>, order: LookupOrder): (r: System)
    requires Valid(sys)
    ensures Valid(r)
    ensures SameCredentials(sys.dir, r.dir)
    ensures |r.sessions| == |sys.sessions|
    decreases |schedule|
  {
    if schedule == [] then sys
    else RunSchedule(StepSession(sys, schedule[0], order), schedule[1..], order)
  }

  predicate IdsDistinct(sessions: seq<Session>) {
    forall i, j :: 0 <= i < j < |sessions| ==> sessions[i].id != sessions[j].id
  }

  /** What every reachable system satisfies: the directory is well formed,
      and every session with a non-empty id either has no account or has one
      its own stream occupies. */
  predicate Inv(sys: System) {
    && Valid(sys)
    && WellFormed(sys.dir)
    && IdsDistinct(sys.sessions)
    && forall i :: 0 <= i < |sys.sessions| && sys.sessions[i].id != "" ==>
         SessionOk(sys.dir, sys.sessions[i].cuid, sys.sessions[i].id)
  }

  /** A login by one session leaves every other session's account as it was. */
  lemma LoginKeepsOtherSession(dir: seq<Account>, cuid: int, sid: string, e: Event, order: LookupOrder,
                               other: int, otherId: string)
    requires ValidIndex(dir, cuid) && ValidIndex(dir, other)
    requires sid == "" || SessionOk(dir, cuid, sid)
    requires otherId != "" && otherId != sid && SessionOk(dir, other, otherId)
    ensures SessionOk(Login(dir, cuid, sid, e, order).dir, other, otherId)
  {
    if other != -1 {
      if sid == "" {
        EmptyIdNeverChanges(dir, cuid, e, order);
      } else {
        LoginRespectsOthers(dir, cuid, sid, e, order, other);
      }
    }
  }

  lemma StepKeepsInv(sys: System, i: int, order: LookupOrder)
    requires Inv(sys)
    ensures Inv(StepSession(sys, i, order))
  {
    if 0 <= i < |sys.sessions| && sys.sessions[i].next < |sys.sessions[i].events| {
      var ss := sys.sessions[i];
      var e := ss.events[ss.next];
      var r := StepSession(sys, i, order);
      if e.kind == Ssh {
        LoginKeepsWellFormed(sys.dir, ss.cuid, ss.id, e, order);
        if ss.id != "" {
          LoginKeepsSessionOk(sys.dir, ss.cuid, ss.id, e, order);
        }
        forall j | 0 <= j < |r.sessions| && r.sessions[j].id != ""
          ensures SessionOk(r.dir, r.sessions[j].cuid, r.sessions[j].id)
        {
          if j != i {
            var o := sys.sessions[j];
            LoginKeepsOtherSession(sys.dir, ss.cuid, ss.id, e, order, o.cuid, o.id);
          }
        }
      }
    }
  }

  /** The invariant holds after every schedule. */
  lemma {:induction false} ScheduleKeepsInv(sys: System, schedule: seq<int>, order: LookupOrder)
    requires Inv(sys)
    ensures Inv(RunSchedule(sys, schedule, order))
    decreases |schedule|
  {
    if schedule != [] {
      StepKeepsInv(sys, schedule[0], order);
      ScheduleKeepsInv(StepSession(sys, schedule[0], order), schedule[1..], order);
    }
  }

  /** Streams with distinct ids started on the shipped directory satisfy the
      invariant, so after any interleaving: retries stay at most three, and
      each session with a non-empty id is on an account occupied by its own
      stream. */
  lemma AnyInterleaving(streams: seq<Stream>, schedule: seq<int>, order: LookupOrder)
    requires forall i, j :: 0 <= i < j < |streams| ==> streams[i].id != streams[j].id
    ensures var r := RunSchedule(Start(Initial(), streams), schedule, order);
            && (forall k :: 0 <= k < |r.dir| ==> r.dir[k].retries <= MaxRetries)
            && (forall i :: 0 <= i < |r.sessions| && r.sessions[i].id != "" && r.sessions[i].cuid != -1 ==>
                  r.dir[r.sessions[i].cuid].authd == r.sessions[i].id)
  {
    var sys := Start(Initial(), streams);
    InitialWellFormed();
    StartInv(Initial(), streams);
    ScheduleKeepsInv(sys, schedule, order);
  }

  /** A run starts in the invariant: a well-formed directory and streams with
      distinct ids, none of them logged in yet. */
  lemma StartInv(dir: seq<Account>, streams: seq<Stream>)
    requires WellFormed(dir)
    requires forall i, j :: 0 <= i < j < |streams| ==> streams[i].id != streams[j].id
    ensures Inv(Start(dir, streams))
  {
    var sys := Start(dir, streams);
    assert IdsDistinct(sys.sessions);
  }

  /** No two sessions with ids share a current account. */
  lemma NoSharedAccount(sys: System, i: nat, j: nat)
    requires Inv(sys) && i < |sys.sessions| && j < |sys.sessions| && i != j
    requires sys.sessions[i].id != "" && sys.sessions[j].id != "" && sys.sessions[i].cuid != -1
    ensures sys.sessions[i].cuid != sys.sessions[j].cuid
  {
    if i > j {
      assert sys.sessions[j].id != sys.sessions[i].id;
    }
  }

  /** In any step, an account's occupant changes only from free to the
      stepping stream or from the stepping stream to free: no stream ever
      overwrites another's occupancy. */
  lemma StepRespectsOccupants(sys: System, i: int, order: LookupOrder, k: nat)
    requires Inv(sys) && k < |sys.dir|
    ensures var r := StepSession(sys, i, order);
            r.dir[k].authd != sys.dir[k].authd ==>
              && 0 <= i < |sys.sessions|
              && ((sys.dir[k].authd == "" && r.dir[k].authd == sys.sessions[i].id)
                  || (sys.dir[k].authd == sys.sessions[i].id && r.dir[k].authd == ""))
  {
    if 0 <= i < |sys.sessions| && sys.sessions[i].next < |sys.sessions[i].events| {
      var ss := sys.sessions[i];
      var e := ss.events[ss.next];
      if e.kind == Ssh {
        if ss.id == "" {
          EmptyIdNeverChanges(sys.dir, ss.cuid, e, order);
        } else {
          LoginRespectsOthers(sys.dir, ss.cuid, ss.id, e, order, k);
        }
      }
    }
  }

  /** A blocked account stays unchanged under every schedule. */
  lemma {:induction false} BlockedUnderAnySchedule(sys: System, schedule: seq<int>, order: LookupOrder, k: nat)
    requires Inv(sys) && k < |sys.dir| && sys.dir[k].retries >= MaxRetries
    ensures RunSchedule(sys, schedule, order).dir[k] == sys.dir[k]
    decreases |schedule|
  {
    if schedule != [] {
      var i := schedule[0];
      var next := StepSession(sys, i, order);
      if 0 <= i < |sys.sessions| && sys.sessions[i].next < |sys.sessions[i].events| {
        var ss := sys.sessions[i];
        var e := ss.events[ss.next];
        if e.kind == Ssh {
          LoginKeepsBlocked(sys.dir, ss.cuid, ss.id, e, order, k);
        }
      }
      StepKeepsInv(sys, i, order);
      BlockedUnderAnySchedule(next, schedule[1..], order, k);
    }
  }

  /** `m` steps of session `i`. */
  function Repeat(i: int, m: nat): (schedule: seq<int>)
    ensures |schedule| == m
  {
    if m == 0 then [] else [i] + Repeat(i, m - 1)
  }

  /** A lone session stepped to the end ends where handling its remaining
      events in order ends. */
  lemma {:induction false} LoneSession(dir: seq<Account>, s: Session, order: LookupOrder)
    requires ValidIndex(dir, s.cuid) && s.next <= |s.events|
    ensures var r := RunEvents(dir, s.cuid, s.id, s.events[s.next..], order);
            RunSchedule(System(dir, [s]), Repeat(0, |s.events| - s.next), order)
            == System(r.dir, [s.(next := |s.events|, cuid := r.cuid)])
    decreases |s.events| - s.next
  {
    var sys := System(dir, [s]);
    if s.next < |s.events| {
      var e := s.events[s.next];
      var h := HandleEvent(dir, s.cuid, s.id, e, order);
      var s' := s.(next := s.next + 1, cuid := h.cuid);
      assert StepSession(sys, 0, order) == System(h.dir, [s']);
      assert s.events[s.next..][1..] == s.events[s.next + 1..];
      LoneSession(h.dir, s', order);
    } else {
      assert s.(next := |s.events|, cuid := s.cuid) == s;
    }
  }

  /** A single stream handled alone behaves as `HandleStream`. */
  lemma SingleStream(dir: seq<Account>, st: Stream, order: LookupOrder)
    ensures var r := HandleStream(dir, st.id, st.events, order);
            RunSchedule(Start(dir, [st]), Repeat(0, |st.events|), order)
            == System(r.dir, [Session(st.id, st.events, |st.events|, r.cuid)])
  {
    assert Start(dir, [st]) == System(dir, [Session(st.id, st.events, 0, -1)]);
    LoneSession(dir, Session(st.id, st.events, 0, -1), order);
    assert st.events[0..] == st.events;
  }
}
