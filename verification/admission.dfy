/** The admission counter in front of the stream handlers. Under one lock a
    request is refused once the number of admitted streams has reached the
    limit; otherwise the count goes up by one, and the request that brings it
    to the limit fires the "all streams admitted" signal. */
module Admission {

  /** `MAX_STREAMS` in the three Python servers. */
  const PyMaxStreams: int := 50

  /** The default of the Go server's `-max` flag, which may be set to any
      integer, zero and negatives included. */
  const GoDefaultMaxStreams: int := 5

  /** The outcome of one request: refused (HTTP 429), or admitted as the
      `count`-th stream, with `done` when that fires the signal. */
  datatype Decision = Rejected | Accepted(count: nat, done: bool)

  function Admit(total: nat, limit: int): (r: Decision)
    ensures r.Rejected? <==> total >= limit
    ensures r.Accepted? ==> r.count == total + 1 && r.count <= limit
    ensures r.Accepted? ==> (r.done <==> r.count == limit)
  {
    if total >= limit then Rejected
    else Accepted(total + 1, total + 1 == limit)
  }

  /** The request fires the signal. */
  predicate Fires(r: Decision) {
    r.Accepted? && r.done
  }

  /** The counter after a request. */
  function After(total: nat, r: Decision): nat {
    if r.Accepted? then r.count else total
  }

  function Max0(limit: int): nat {
    if limit > 0 then limit else 0
  }

  function Min(a: int, b: int): int {
    if a <= b then a else b
  }

  /** The counter never passes the limit (or zero, for a limit below one);
      a refusal leaves it as it was and an admission adds exactly one. */
  lemma AdmitKeepsBound(total: nat, limit: int)
    requires total <= Max0(limit)
    ensures var r := Admit(total, limit);
            && After(total, r) <= Max0(limit)
            && (r.Rejected? ==> After(total, r) == total)
            && (r.Accepted? ==> After(total, r) == total + 1)
  {
  }

  /** The outcomes of `n` requests in a row, from counter `total`: request
      `i` is decided as if `total + i` streams were in, because every request
      before it was admitted, or, once the limit is reached, every later one
      is refused as well. */
  function Requests(total: nat, limit: int, n: nat): (rs: seq<Decision>)
    ensures |rs| == n
    ensures forall i :: 0 <= i < n ==> rs[i] == Admit(total + i, limit)
    decreases n
  {
    if n == 0 then []
    else
      var r := Admit(total, limit);
      [r] + Requests(After(total, r), limit, n - 1)
  }

  function CounterAfter(total: nat, limit: int, n: nat): nat
    decreases n
  {
    if n == 0 then total else CounterAfter(After(total, Admit(total, limit)), limit, n - 1)
  }

  /** From a counter within bounds, request `i` is decided as if `total + i`
      streams were in: admitted exactly when that is below the limit, as the
      next stream, firing the signal exactly when it reaches the limit. The
      counter ends at the limit or at `total` plus the number of requests,
      whichever is smaller. */
  lemma {:induction false} RequestsShape(total: nat, limit: int, n: nat)
    requires total <= Max0(limit)
    ensures forall i :: 0 <= i < n ==> Requests(total, limit, n)[i] == Admit(total + i, limit)
    ensures CounterAfter(total, limit, n) == Min(total + n, Max0(limit))
    decreases n
  {
    if n > 0 {
      var r := Admit(total, limit);
      var t := After(total, r);
      var rs := Requests(total, limit, n);
      var rest := Requests(t, limit, n - 1);
      RequestsShape(t, limit, n - 1);
      assert rs == [r] + rest;
      forall i | 0 < i < n
        ensures rs[i] == Admit(total + i, limit)
      {
        assert rs[i] == rest[i - 1];
      }
    }
  }

  /** Starting from no streams, the signal fires at most once, and it fires
      exactly when the limit is positive and that many requests arrive. */
  lemma DoneAtMostOnce(limit: int, n: nat)
    ensures forall i, j :: 0 <= i < j < n && Fires(Requests(0, limit, n)[i]) ==> !Fires(Requests(0, limit, n)[j])
    ensures (exists i :: 0 <= i < n && Fires(Requests(0, limit, n)[i])) <==> 0 < limit <= n
  {
    RequestsShape(0, limit, n);
    var rs := Requests(0, limit, n);
    forall i | 0 <= i < n && Fires(rs[i])
      ensures i + 1 == limit
    {
      assert rs[i] == Admit(0 + i, limit);
    }
    if 0 < limit <= n {
      var k := limit - 1;
      assert rs[k] == Admit(0 + k, limit);
      assert 0 <= k < n && Fires(rs[k]);
      assert exists i :: 0 <= i < n && Fires(Requests(0, limit, n)[i]);
    }
  }

  /** The request handlers, `n` requests in turn: how many streams were
      admitted and how often the signal fired. */
  method Serve(limit: int, n: nat) returns (total: nat, signals: nat)
    ensures total == Min(n, Max0(limit))
    ensures signals <= 1
    ensures signals == 1 <==> 0 < limit <= n
  {
    total, signals := 0, 0;
    var i := 0;
    while i < n
      invariant 0 <= i <= n
      invariant total == Min(i, Max0(limit))
      invariant signals == (if 0 < limit <= i then 1 else 0)
    {
      var r := Admit(total, limit);
      if r.Accepted? {
        total := r.count;
        if r.done {
          signals := signals + 1;
        }
      }
      i := i + 1;
    }
  }
}
