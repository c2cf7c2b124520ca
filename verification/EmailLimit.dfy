/** The per-address limit on outgoing e-mail: one expiring counter, and what it bounds over a whole run. */
module EmailLimit {
  import opened Keyspace

  /** What the counter key of one address amounts to. */
  datatype Phase = Idle | Counting(n: int, until: int) {
    function At(now: int): Phase { if Idle? || until <= now then Idle else this }

    function Count(): int { if Idle? then 0 else n }
  }

  /** A limit of `count` e-mails and the lifetime of a counter. */
  datatype Limit = Limit(count: int, window: int) {
    predicate Admits(p: Phase) { p.Count() < count }

    function Step(p: Phase, now: int): Phase {
      var q := p.At(now);
      if !Admits(q) then q
      else if q.Idle? then Counting(1, now + window).At(now)
      else Counting(q.n + 1, q.until)
    }
  }

  class EmailLimiter {
    const limit: Limit
    var counters: map<string, Entry<int>>
    /** The instant of the latest call. */
    ghost var clock: int

    constructor (limit: Limit, now: int)
      ensures Valid() && clock == now && this.limit == limit
      ensures forall ip :: PhaseOf(ip) == Idle
    {
      this.limit, counters, clock := limit, map[], now;
    }

    ghost predicate Valid()
      reads this
    {
      forall ip <- counters :: counters[ip].expires.Some? && 1 <= counters[ip].value <= limit.count
    }

    ghost function PhaseOf(ip: string): (p: Phase)
      requires Valid()
      reads this
      ensures p.At(clock) == p && (p.Counting? ==> 1 <= p.n <= limit.count)
    {
      if Live(counters, ip, clock) then Counting(counters[ip].value, counters[ip].expires.value) else Idle
    }

    /** The e-mails that the counter of the address holds. */
    ghost function Sent(ip: string, now: int): int
      reads this
    {
      if ip in counters && counters[ip].expires.Some? && now < counters[ip].expires.value then counters[ip].value else 0
    }

    /** An unknown address is never limited; otherwise this address moves by one step and no other moves. */
    method CheckEmailRateLimit(clientIP: string, now: int) returns (ok: bool)
      requires Valid() && clock <= now
      modifies this
      ensures Valid() && clock == now
      ensures ok == (clientIP == "" || limit.Admits(old(PhaseOf(clientIP)).At(now)))
      ensures PhaseOf(clientIP) == if clientIP == "" then old(PhaseOf(clientIP)).At(now) else limit.Step(old(PhaseOf(clientIP)), now)
      ensures forall other | other != clientIP :: PhaseOf(other) == old(PhaseOf(other)).At(now)
      ensures var sent := old(Sent(clientIP, now));
              && (ok <==> clientIP == "" || sent < limit.count)
              && (clientIP == "" || !ok ==> counters == old(counters))
              && (clientIP != "" && ok && sent == 0 ==> counters == old(counters)[clientIP := Entry(1, Some(now + limit.window))])
              && (clientIP != "" && ok && sent > 0 ==>
                    counters == old(counters)[clientIP := Entry(sent + 1, old(counters)[clientIP].expires)])
    {
      clock := now;
      if clientIP == "" { return true; }
      var found := Get(counters, clientIP, now);
      var count := if found.Some? then found.value else 0;
      if count >= limit.count { return false; }
      counters := Incr(counters, clientIP, now);
      if count == 0 {
        counters := Expire(counters, clientIP, now, limit.window);
      }
      return true;
    }
  }

  // ---------------------------------------------------------------- runs of one address

  /** The instants of the requests of one address, in order, none before `from`. */
  predicate Timed(run: seq<int>, from: int)
    decreases |run|
  {
    run == [] || (from <= run[0] && Timed(run[1..], run[0]))
  }

  /** E-mails admitted in the half-open window of length l.window that starts at t. */
  function AdmittedIn(l: Limit, p: Phase, run: seq<int>, t: int): nat
    decreases |run|
  {
    if run == [] then 0 else
      (if t <= run[0] < t + l.window && l.Admits(p.At(run[0])) then 1 else 0) + AdmittedIn(l, l.Step(p, run[0]), run[1..], t)
  }

  /** How many more e-mails phase p leaves room for between `now` and the end of the window of t. */
  function Room(l: Limit, p: Phase, now: int, t: int): int {
    if t + l.window <= now then 0
    else if p.Idle? then l.count
    else if t + l.window <= p.until then l.count - p.n
    else 2 * l.count - p.n
  }

  lemma {:induction false} AdmittedFitRoom(l: Limit, p: Phase, run: seq<int>, now: int, t: int)
    requires l.count >= 1 && (p.Counting? ==> 1 <= p.n <= l.count) && t <= now && Timed(run, now)
    ensures AdmittedIn(l, p, run, t) <= Room(l, p.At(now), now, t)
    decreases |run|
  {
    if run != [] {
      AdmittedFitRoom(l, l.Step(p, run[0]), run[1..], run[0], t);
    }
  }

  /** At most 2L - 1 e-mails in any window, over every run and from every phase a counter can be in. */
  lemma {:induction false} AtMostTwiceTheLimit(l: Limit, p: Phase, run: seq<int>, from: int, t: int)
    requires (p.Counting? ==> 1 <= p.n <= l.count) && Timed(run, from)
    ensures AdmittedIn(l, p, run, t) <= if l.count >= 1 then 2 * l.count - 1 else 0
    decreases |run|
  {
    if run != [] {
      if t <= run[0] && l.count >= 1 {
        AdmittedFitRoom(l, p, run, run[0], t);
      } else {
        AtMostTwiceTheLimit(l, l.Step(p, run[0]), run[1..], run[0], t);
      }
    }
  }

  function Repeat(now: int, k: nat): seq<int> { if k == 0 then [] else [now] + Repeat(now, k - 1) }

  /** k requests at one instant on a live counter with room for all of them. */
  lemma {:induction false} Burst(l: Limit, n: int, until: int, now: int, k: nat, rest: seq<int>, t: int)
    requires now < until && n + k <= l.count
    ensures AdmittedIn(l, Counting(n, until), Repeat(now, k) + rest, t) ==
              (if t <= now < t + l.window then k else 0) + AdmittedIn(l, Counting(n + k, until), rest, t)
    ensures forall from :: Timed(Repeat(now, k) + rest, from) <==> if k == 0 then Timed(rest, from) else from <= now && Timed(rest, now)
    decreases k
  {
    if k == 0 {
      assert Repeat(now, k) + rest == rest;
    } else {
      assert (Repeat(now, k) + rest)[1..] == Repeat(now, k - 1) + rest;
      Burst(l, n + 1, until, now, k - 1, rest, t);
    }
  }

  /** The bound is reached for every limit: one early, L - 1 just before the counter expires, L just after. */
  lemma TwiceTheLimitReached(l: Limit) returns (run: seq<int>, t: int)
    requires l.count >= 1 && l.window >= 2
    ensures Timed(run, 0) && AdmittedIn(l, Idle, run, t) == 2 * l.count - 1
  {
    t := l.window - 1;
    var again := Repeat(l.window, l.count - 1) + [];
    var late := [l.window] + again;
    var early := Repeat(t, l.count - 1) + late;
    run := [0] + early;
    assert run[1..] == early && late[1..] == again;
    Burst(l, 1, l.window, t, l.count - 1, late, t);
    Burst(l, 1, 2 * l.window, l.window, l.count - 1, [], t);
    assert l.Step(Counting(l.count, l.window), l.window) == Counting(1, 2 * l.window);
    assert AdmittedIn(l, Counting(1, 2 * l.window), again, t) == l.count - 1;
    assert AdmittedIn(l, Counting(l.count, l.window), late, t) == l.count;
    assert l.Step(Idle, 0) == Counting(1, l.window);
    assert AdmittedIn(l, Counting(1, l.window), early, t) == 2 * l.count - 1;
    assert Timed(again, l.window) && Timed(late, t) && Timed(early, 0);
  }
}
