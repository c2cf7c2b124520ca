/** The gateway's sliding-window limiter: a sorted set per path and identifier, and a ban key per identifier. */
module RateLimit {
  import opened Collections
  import opened Keyspace

  const MILLISECOND := 1_000_000
  const BAN_TTL := 5 * MINUTE

  /**
   * A request by an identified client at a nanosecond instant, on a route with its own limit. `key` names the
   * sorted set the middleware uses for it, which it builds from the route and the identifier.
   */
  datatype Request = Request(key: string, id: string, now: int, limit: int)

  function Score(now: int): int { now / MILLISECOND }

  datatype Verdict = Admitted | TooMany | TooManyAndBanned | Forbidden

  /** The window all limiters share, a whole, positive number of milliseconds. */
  datatype Config = Config(window: int) {
    predicate Ok() { window > 0 }
  }

  /** int64(float64(limit) * 1.5), which rounds toward zero. */
  function BanThreshold(limit: int): int { if limit >= 0 then limit * 3 / 2 else -((-limit) * 3 / 2) }

  predicate Bans(count: int, limit: int, id: string) {
    count > limit && count > BanThreshold(limit) && id != "127.0.0.1" && id != "::1" && id != "localhost"
  }

  // ---------------------------------------------------------------- what the full history says

  /** The instants of the requests in h with r's key that lie in the window ending at r. */
  function Recent(c: Config, h: seq<Request>, r: Request): set<int> {
    set q | q in h && q.key == r.key && Score(q.now) > Score(r.now) - c.window :: q.now
  }

  function Count(c: Config, h: seq<Request>, r: Request): nat { |Recent(c, h + [r], r)| }

  predicate InForce(ban: Option<int>, now: int) { ban.Some? && now < ban.value }

  /** When the latest ban of an identifier ends. */
  function BanOf(c: Config, h: seq<Request>, id: string): Option<int>
    decreases |h|, 0
  {
    if h == [] then None else
      var r, before := h[|h| - 1], h[..|h| - 1];
      if r.id == id && VerdictOf(c, before, r) == TooManyAndBanned then Some(r.now + BAN_TTL) else BanOf(c, before, id)
  }

  /** The answer to r after the requests h. */
  function VerdictOf(c: Config, h: seq<Request>, r: Request): Verdict
    decreases |h|, 1
  {
    Decision(InForce(BanOf(c, h, r.id), r.now), Count(c, h, r), r)
  }

  function Decision(banned: bool, count: int, r: Request): Verdict {
    if banned then Forbidden
    else if count <= r.limit then Admitted
    else if Bans(count, r.limit, r.id) then TooManyAndBanned
    else TooMany
  }

  /** Every request has its own nanosecond, later than all before it. */
  predicate Ordered(run: seq<Request>) { forall i, j | 0 <= i < j < |run| :: run[i].now < run[j].now }

  // ---------------------------------------------------------------- the middleware

  type Sets = map<string, Entry<map<int, int>>>

  /** q is stored in its set, which will not expire before q has left the window. */
  ghost predicate Stored(c: Config, sets: Sets, q: Request) {
    && q.key in sets && q.now in sets[q.key].value
    && sets[q.key].expires.Some? && q.now + c.window * MILLISECOND <= sets[q.key].expires.value
  }

  /** Nothing is stored that was not requested, and no request of the last window is missing or about to expire. */
  ghost predicate SetsFollow(c: Config, sets: Sets, h: seq<Request>) {
    && (forall k <- sets, m <- sets[k].value :: sets[k].value[m] == Score(m) && Requested(h, k, m))
    && (forall q <- h :: Score(q.now) > Score(h[|h| - 1].now) - c.window ==> Stored(c, sets, q))
  }

  ghost predicate Requested(h: seq<Request>, k: string, m: int) { exists q :: q in h && q.key == k && q.now == m }

  ghost predicate BansFollow(c: Config, bans: map<string, Entry<string>>, h: seq<Request>) {
    && (forall id <- bans :: bans[id].expires.Some?)
    && (forall id :: BanOf(c, h, id) == if id in bans then bans[id].expires else None)
  }

  /** The members left after trimming, before the new one is added. */
  function Trimmed(c: Config, sets: Sets, r: Request): map<int, int> {
    if Live(sets, r.key, r.now)
    then map m | m in sets[r.key].value && sets[r.key].value[m] > Score(r.now) - c.window :: sets[r.key].value[m]
    else map[]
  }

  lemma WithinWindow(c: Config, q: int, now: int)
    requires Score(q) > Score(now) - c.window
    ensures now < q + c.window * MILLISECOND
  {
  }

  lemma ScoreMonotone(s: int, t: int)
    requires s <= t
    ensures Score(s) <= Score(t)
  {
  }

  lemma LastBefore(h: seq<Request>, r: Request)
    requires Ordered(h + [r]) && h != []
    ensures h[|h| - 1].now < r.now && Ordered(h) && forall q <- h :: q.now < r.now
  {
    var g := h + [r];
    assert g[|h|] == r && forall i | 0 <= i < |h| :: g[i] == h[i];
  }

  /** The live members after trimming are exactly the earlier requests of the window. */
  lemma TrimmedIsRecent(c: Config, sets: Sets, h: seq<Request>, r: Request)
    requires c.Ok() && SetsFollow(c, sets, h) && Ordered(h + [r])
    ensures Trimmed(c, sets, r).Keys == Recent(c, h, r)
  {
    var k, trimmed := r.key, Trimmed(c, sets, r);
    forall m | m in Recent(c, h, r) ensures m in trimmed {
      var q :| q in h && q.key == k && Score(q.now) > Score(r.now) - c.window && q.now == m;
      LastBefore(h, r);
      ScoreMonotone(h[|h| - 1].now, r.now);
      assert Stored(c, sets, q);
      WithinWindow(c, q.now, r.now);
    }
    forall m | m in trimmed ensures m in Recent(c, h, r) {
      assert Requested(h, k, m);
    }
  }

  lemma RecentAppend(c: Config, h: seq<Request>, r: Request)
    requires c.Ok()
    ensures Recent(c, h + [r], r) == Recent(c, h, r) + {r.now}
  {
    forall m | m in Recent(c, h, r) + {r.now} ensures m in Recent(c, h + [r], r) {
      if m == r.now {
        assert r in h + [r];
      } else {
        var q :| q in h && q.key == r.key && Score(q.now) > Score(r.now) - c.window && q.now == m;
        assert q in h + [r];
      }
    }
  }

  lemma SetsFollowNext(c: Config, sets: Sets, h: seq<Request>, r: Request)
    requires c.Ok() && SetsFollow(c, sets, h) && Ordered(h + [r])
    ensures SetsFollow(c, SetFor(sets, r.key, Trimmed(c, sets, r)[r.now := Score(r.now)], r.now, c.window * MILLISECOND), h + [r])
  {
    var g, k := h + [r], r.key;
    var after := SetFor(sets, k, Trimmed(c, sets, r)[r.now := Score(r.now)], r.now, c.window * MILLISECOND);
    forall j, m | j in after && m in after[j].value ensures after[j].value[m] == Score(m) && Requested(g, j, m) {
      if j == k && m == r.now {
        assert r in g;
      } else {
        assert Requested(h, j, m);
        var q :| q in h && q.key == j && q.now == m;
        assert q in g;
      }
    }
    forall q | q in g && Score(q.now) > Score(r.now) - c.window ensures Stored(c, after, q) {
      if q in h {
        LastBefore(h, r);
        ScoreMonotone(h[|h| - 1].now, r.now);
        assert Stored(c, sets, q);
        WithinWindow(c, q.now, r.now);
        if q.key == k {
          assert q.now in Trimmed(c, sets, r);
        }
      }
    }
  }

  lemma MembersAreRecent(c: Config, sets: Sets, h: seq<Request>, r: Request)
    requires c.Ok() && SetsFollow(c, sets, h) && Ordered(h + [r])
    ensures Trimmed(c, sets, r)[r.now := Score(r.now)].Keys == Recent(c, h + [r], r)
  {
    TrimmedIsRecent(c, sets, h, r);
    RecentAppend(c, h, r);
  }

  lemma BansFollowNext(c: Config, bans: map<string, Entry<string>>, h: seq<Request>, r: Request, next: map<string, Entry<string>>)
    requires BansFollow(c, bans, h)
    requires next == if VerdictOf(c, h, r) == TooManyAndBanned then bans[r.id := Entry("1", Some(r.now + BAN_TTL))] else bans
    ensures BansFollow(c, next, h + [r])
  {
    assert (h + [r])[..|h|] == h && (h + [r])[|h|] == r;
  }

  /** What the answers mean: n is the number of requests of the window that ends with r, the last of h. */
  ghost predicate Answers(c: Config, h: seq<Request>, r: Request, banned: bool, verdict: Verdict) {
    var n := |set q | q in h && q.key == r.key && q.now / 1_000_000 > r.now / 1_000_000 - c.window :: q.now|;
    && (verdict == Forbidden <==> banned)
    && (verdict == Admitted <==> !banned && n <= r.limit)
    && (verdict == TooManyAndBanned <==>
          !banned && n > r.limit && 2 * n > 3 * r.limit && r.id !in {"127.0.0.1", "::1", "localhost"})
  }

  lemma VerdictAnswers(c: Config, h: seq<Request>, r: Request, banned: bool)
    requires banned == InForce(BanOf(c, h, r.id), r.now)
    ensures Answers(c, h + [r], r, banned, VerdictOf(c, h, r))
  {
    assert (set q | q in h + [r] && q.key == r.key && q.now / 1_000_000 > r.now / 1_000_000 - c.window :: q.now) == Recent(c, h + [r], r);
  }

  class RateLimiter {
    const config: Config
    /** Members and scores of each sorted set. */
    var sets: Sets
    var bans: map<string, Entry<string>>
    /** Every request handled so far. */
    ghost var history: seq<Request>

    constructor (config: Config)
      requires config.Ok()
      ensures Valid() && this.config == config && history == []
    {
      this.config, sets, bans, history := config, map[], map[], [];
    }

    ghost predicate Valid()
      reads this
    {
      config.Ok() && SetsFollow(config, sets, history) && BansFollow(config, bans, history)
    }

    ghost predicate IsBanned(r: Request)
      reads this
    {
      r.id in bans && bans[r.id].expires.Some? && r.now < bans[r.id].expires.value
    }

    /** The pipeline: the ban key is looked up, and the request joins its trimmed set, which is then counted. */
    method Execute(r: Request) returns (banned: bool, count: nat)
      requires Valid() && Ordered(history + [r])
      modifies this`sets
      ensures SetsFollow(config, sets, history + [r])
      ensures r.key in sets && sets[r.key].value.Keys == Recent(config, history + [r], r)
      ensures count == Count(config, history, r)
      ensures banned == IsBanned(r) == InForce(BanOf(config, history, r.id), r.now)
    {
      MembersAreRecent(config, sets, history, r);
      SetsFollowNext(config, sets, history, r);
      banned := Live(bans, r.id, r.now);
      var members := Trimmed(config, sets, r)[r.now := Score(r.now)];
      sets := SetFor(sets, r.key, members, r.now, config.window * MILLISECOND);
      count := |members.Keys|;
    }

    /** The answer to r, and the ban that may go with it. */
    method Judge(r: Request, banned: bool, count: nat) returns (verdict: Verdict)
      modifies this`bans
      ensures verdict == Decision(banned, count, r)
      ensures bans == if verdict == TooManyAndBanned then old(bans)[r.id := Entry("1", Some(r.now + 300_000_000_000))] else old(bans)
    {
      if banned { return Forbidden; }
      if count > r.limit {
        if Bans(count, r.limit, r.id) {
          bans := SetFor(bans, r.id, "1", r.now, BAN_TTL);
          return TooManyAndBanned;
        }
        return TooMany;
      }
      return Admitted;
    }

    /**
     * One request. The answer is the one the whole history calls for, and afterwards the set of its key
     * holds exactly the requests of the last window.
     */
    method Handle(r: Request) returns (verdict: Verdict)
      requires Valid() && Ordered(history + [r])
      modifies this
      ensures Valid() && history == old(history) + [r]
      ensures verdict == VerdictOf(config, old(history), r)
      ensures r.key in sets && sets[r.key].value.Keys == Recent(config, history, r)
      ensures Answers(config, history, r, old(IsBanned(r)), verdict)
      ensures bans == if verdict == TooManyAndBanned then old(bans)[r.id := Entry("1", Some(r.now + 300_000_000_000))] else old(bans)
    {
      ghost var h := history;
      var banned, count := Execute(r);
      VerdictAnswers(config, h, r, banned);
      verdict := Judge(r, banned, count);
      BansFollowNext(config, old(bans), h, r, bans);
      history := h + [r];
    }
  }

  // ---------------------------------------------------------------- whole runs

  function VerdictAt(c: Config, run: seq<Request>, i: nat): Verdict
    requires i < |run|
  {
    VerdictOf(c, run[..i], run[i])
  }

  predicate AdmittedAt(c: Config, run: seq<Request>, key: string, a: int, i: int) {
    0 <= i < |run| && run[i].key == key && a <= Score(run[i].now) < a + c.window && VerdictAt(c, run, i) == Admitted
  }

  /** The instants of the requests with one key admitted in the window of milliseconds that starts at a. */
  ghost function AdmittedIn(c: Config, run: seq<Request>, key: string, a: int): set<int> {
    set i | 0 <= i < |run| && AdmittedAt(c, run, key, a, i) :: run[i].now
  }

  lemma LatestAdmitted(c: Config, run: seq<Request>, key: string, a: int) returns (j: nat)
    requires AdmittedIn(c, run, key, a) != {}
    ensures AdmittedAt(c, run, key, a, j) && forall i | AdmittedAt(c, run, key, a, i) :: i <= j
  {
    var indices := set i | 0 <= i < |run| && AdmittedAt(c, run, key, a, i);
    var m := Any(AdmittedIn(c, run, key, a));
    var i :| 0 <= i < |run| && AdmittedAt(c, run, key, a, i) && run[i].now == m;
    assert i in indices;
    j := Greatest(indices);
    forall k | AdmittedAt(c, run, key, a, k) ensures k <= j { assert k in indices; }
  }

  lemma {:induction false} Greatest(s: set<int>) returns (top: int)
    requires s != {}
    ensures top in s && forall x <- s :: x <= top
  {
    var y := Any(s);
    if s == {y} {
      top := y;
    } else {
      var other := Greatest(s - {y});
      top := if other > y then other else y;
      assert s == (s - {y}) + {y};
    }
  }

  lemma WithinRecent(c: Config, run: seq<Request>, a: int, i: nat, j: nat)
    requires i <= j < |run| && run[i].key == run[j].key
    requires a <= Score(run[i].now) && Score(run[j].now) < a + c.window
    ensures run[i].now in Recent(c, run[..j] + [run[j]], run[j])
  {
    assert (run[..j] + [run[j]])[i] == run[i];
  }

  /** No request with this key comes in on a route with a higher limit. */
  predicate LimitedTo(run: seq<Request>, key: string, limit: int) { forall q <- run :: q.key == key ==> q.limit <= limit }

  /** At most `limit` requests per key are admitted in any window of milliseconds, over every run. */
  lemma AtMostLimitAdmitted(c: Config, run: seq<Request>, key: string, limit: int, a: int)
    requires c.Ok() && Ordered(run) && LimitedTo(run, key, limit)
    ensures |AdmittedIn(c, run, key, a)| <= if limit >= 0 then limit else 0
  {
    var admitted := AdmittedIn(c, run, key, a);
    if admitted != {} {
      var j := LatestAdmitted(c, run, key, a);
      var recent := Recent(c, run[..j] + [run[j]], run[j]);
      assert |recent| <= run[j].limit <= limit;
      forall i | AdmittedAt(c, run, key, a, i) ensures run[i].now in recent { WithinRecent(c, run, a, i, j); }
      SubsetSize(admitted, recent);
    }
  }

  // ---------------------------------------------------------------- windows that start between two milliseconds

  predicate AdmittedFrom(c: Config, run: seq<Request>, key: string, t: int, i: int) {
    0 <= i < |run| && run[i].key == key && t <= run[i].now < t + c.window * MILLISECOND && VerdictAt(c, run, i) == Admitted
  }

  /** The instants of the requests with one key admitted in the window that starts at nanosecond t. */
  ghost function AdmittedSince(c: Config, run: seq<Request>, key: string, t: int): set<int> {
    set i | 0 <= i < |run| && AdmittedFrom(c, run, key, t, i) :: run[i].now
  }

  /** Over every run, the window that starts at nanosecond t admits no more than the limit. */
  ghost predicate Bounded(c: Config, limit: int, t: int) {
    forall run, key | Ordered(run) && LimitedTo(run, key, limit) ::
      |AdmittedSince(c, run, key, t)| <= if limit >= 0 then limit else 0
  }

  lemma WholeMillisecondsBounded(c: Config, limit: int, t: int)
    requires c.Ok() && t % MILLISECOND == 0
    ensures Bounded(c, limit, t)
  {
    forall run: seq<Request>, key | Ordered(run) && LimitedTo(run, key, limit)
      ensures |AdmittedSince(c, run, key, t)| <= if limit >= 0 then limit else 0
    {
      AtMostLimitAdmitted(c, run, key, limit, Score(t));
      forall i: int | 0 <= i < |run| ensures AdmittedFrom(c, run, key, t, i) <==> AdmittedAt(c, run, key, Score(t), i) {}
      assert AdmittedSince(c, run, key, t) == AdmittedIn(c, run, key, Score(t));
    }
  }

  function Instants(run: seq<Request>): set<int> { set q | q in run :: q.now }

  lemma {:induction false} InstantsSize(run: seq<Request>)
    ensures |Instants(run)| <= |run| && (Ordered(run) ==> |Instants(run)| == |run|)
    decreases |run|
  {
    if run != [] {
      var before, q := run[..|run| - 1], run[|run| - 1];
      assert run == before + [q];
      InstantsSize(before);
      assert Instants(run) == Instants(before) + {q.now};
      if Ordered(run) {
        forall r | r in before ensures r.now < q.now {}
        assert q.now !in Instants(before);
      }
    }
  }

  /** If the first `gone` requests have left the window, at most the others count. */
  lemma CountAtMost(c: Config, run: seq<Request>, gone: nat, i: nat)
    requires gone <= i < |run| && forall j | 0 <= j < gone :: Score(run[j].now) <= Score(run[i].now) - c.window
    ensures Count(c, run[..i], run[i]) <= i + 1 - gone
  {
    var h := run[..i] + [run[i]];
    assert h == run[..i + 1];
    forall q | q in h && Score(q.now) > Score(run[i].now) - c.window ensures q in h[gone..] {
      var j :| 0 <= j < |h| && h[j] == q;
      assert h[gone..][j - gone] == q;
    }
    SubsetSize(Recent(c, h, run[i]), Instants(h[gone..]));
    InstantsSize(h[gone..]);
  }

  /** While no count exceeds its limit, everybody is admitted and nobody banned. */
  lemma {:induction false} NobodyBanned(c: Config, run: seq<Request>, i: nat, id: string)
    requires i <= |run| && forall j | 0 <= j < i :: Count(c, run[..j], run[j]) <= run[j].limit
    ensures BanOf(c, run[..i], id).None?
  {
    if i > 0 {
      assert run[..i][..i - 1] == run[..i - 1] && run[..i][i - 1] == run[i - 1];
      NobodyBanned(c, run, i - 1, id);
      NobodyBanned(c, run, i - 1, run[i - 1].id);
    }
  }

  /** One request at t, all but one of the others in the next millisecond, and one when t's millisecond is trimmed. */
  function StraddleTime(c: Config, limit: int, t: int, i: int): int {
    if i <= 0 then t
    else if i < limit then (Score(t) + 1) * MILLISECOND + i - 1
    else (Score(t) + c.window) * MILLISECOND
  }

  function Straddle(c: Config, limit: int, t: int): (run: seq<Request>)
    requires limit >= 1
  {
    seq(limit + 1, i => Request("/p:u", "u", StraddleTime(c, limit, t, i), limit))
  }

  lemma StraddleTimes(c: Config, limit: int, t: int)
    requires c.Ok() && limit >= 1 && limit - 1 <= (c.window - 1) * MILLISECOND && t % MILLISECOND != 0
    ensures Ordered(Straddle(c, limit, t)) && LimitedTo(Straddle(c, limit, t), "/p:u", limit)
    ensures forall i | 0 <= i <= limit :: t <= StraddleTime(c, limit, t, i) < t + c.window * MILLISECOND
    ensures Score(StraddleTime(c, limit, t, limit)) == Score(t) + c.window
  {
    assert Score(t) * MILLISECOND < t < (Score(t) + 1) * MILLISECOND;
  }

  lemma StraddleAdmitsMore(c: Config, limit: int, t: int)
    requires c.Ok() && limit >= 1 && limit - 1 <= (c.window - 1) * MILLISECOND && t % MILLISECOND != 0
    ensures var run := Straddle(c, limit, t);
            Ordered(run) && LimitedTo(run, "/p:u", limit) && |AdmittedSince(c, run, "/p:u", t)| == limit + 1
  {
    StraddleTimes(c, limit, t);
    var run := Straddle(c, limit, t);
    forall i | 0 <= i < |run| ensures Count(c, run[..i], run[i]) <= run[i].limit {
      CountAtMost(c, run, if i < limit then 0 else 1, i);
    }
    EverybodyAdmitted(c, run, "/p:u", t);
  }

  lemma EverybodyAdmitted(c: Config, run: seq<Request>, key: string, t: int)
    requires Ordered(run) && forall i | 0 <= i < |run| :: Count(c, run[..i], run[i]) <= run[i].limit
    requires forall i | 0 <= i < |run| :: run[i].key == key && t <= run[i].now < t + c.window * MILLISECOND
    ensures |AdmittedSince(c, run, key, t)| == |run|
  {
    forall i | 0 <= i < |run| ensures AdmittedFrom(c, run, key, t, i) { NobodyBanned(c, run, i, run[i].id); }
    forall q | q in run ensures q.now in AdmittedSince(c, run, key, t) {
      var i :| 0 <= i < |run| && run[i] == q;
      assert AdmittedFrom(c, run, key, t, i);
    }
    assert AdmittedSince(c, run, key, t) == Instants(run);
    InstantsSize(run);
  }

  /** The sorted set keeps scores in milliseconds, so the limit holds for a window of nanoseconds exactly when
      it starts on a whole millisecond, or when nothing is ever admitted. */
  lemma BoundedExactly(c: Config, limit: int, t: int)
    requires c.Ok() && limit - 1 <= (c.window - 1) * MILLISECOND
    ensures Bounded(c, limit, t) <==> t % MILLISECOND == 0 || limit <= 0
  {
    if t % MILLISECOND == 0 {
      WholeMillisecondsBounded(c, limit, t);
    } else if limit <= 0 {
      forall run: seq<Request>, key | Ordered(run) && LimitedTo(run, key, limit) ensures |AdmittedSince(c, run, key, t)| <= 0 {
        forall i: int | 0 <= i < |run| ensures !AdmittedFrom(c, run, key, t, i) {
          if run[i].key == key { NothingAdmitted(c, run, i); }
        }
        assert AdmittedSince(c, run, key, t) == {};
      }
    } else {
      StraddleAdmitsMore(c, limit, t);
    }
  }

  lemma NothingAdmitted(c: Config, run: seq<Request>, i: nat)
    requires c.Ok() && i < |run| && run[i].limit <= 0
    ensures VerdictAt(c, run, i) != Admitted
  {
    assert (run[..i] + [run[i]])[i] == run[i];
    assert run[i].now in Recent(c, run[..i] + [run[i]], run[i]);
  }

  predicate BannedAt(c: Config, run: seq<Request>, id: string, j: int) {
    0 <= j < |run| && run[j].id == id && VerdictAt(c, run, j) == TooManyAndBanned
  }

  /** The last index below i at which p holds, or -1. */
  function LastBelow(p: int -> bool, i: nat): (last: int)
    ensures -1 <= last < i && (last >= 0 ==> p(last)) && forall j | last < j < i :: !p(j)
  {
    if i == 0 then -1 else if p(i - 1) then i - 1 else LastBelow(p, i - 1)
  }

  lemma {:induction false} BanOfIsLatest(c: Config, run: seq<Request>, i: nat, id: string, banned: int -> bool)
    requires i <= |run| && banned == (j => BannedAt(c, run, id, j))
    ensures BanOf(c, run[..i], id) ==
              if LastBelow(banned, i) < 0 then None else Some(run[LastBelow(banned, i)].now + BAN_TTL)
  {
    if i > 0 {
      BanOfIsLatest(c, run, i - 1, id, banned);
      assert run[..i][..i - 1] == run[..i - 1] && run[..i][i - 1] == run[i - 1];
    }
  }

  lemma LatestBan(c: Config, run: seq<Request>, i: nat, id: string) returns (last: int)
    requires i <= |run|
    ensures -1 <= last < i && (last >= 0 ==> BannedAt(c, run, id, last)) && forall j | last < j < i :: !BannedAt(c, run, id, j)
    ensures BanOf(c, run[..i], id) == if last < 0 then None else Some(run[last].now + BAN_TTL)
  {
    var banned := j => BannedAt(c, run, id, j);
    BanOfIsLatest(c, run, i, id, banned);
    last := LastBelow(banned, i);
    assert last >= 0 ==> banned(last);
    forall j | last < j < i ensures !BannedAt(c, run, id, j) { assert !banned(j); }
  }

  /** Of all bans before request i the latest is the last to end. */
  lemma LatestEndsLast(c: Config, run: seq<Request>, i: nat, id: string, last: int)
    requires Ordered(run) && i < |run| && -1 <= last < i && (last >= 0 ==> BannedAt(c, run, id, last))
    requires forall j | last < j < i :: !BannedAt(c, run, id, j)
    ensures (exists j :: 0 <= j < i && BannedAt(c, run, id, j) && run[i].now < run[j].now + BAN_TTL)
            <==> last >= 0 && run[i].now < run[last].now + BAN_TTL
  {
    forall j | 0 <= j < i && BannedAt(c, run, id, j) ensures j <= last && run[j].now <= run[last].now {}
  }

  /** A request is forbidden exactly when its identifier was banned less than five minutes before, on whatever route. */
  lemma ForbiddenExactly(c: Config, run: seq<Request>, i: nat)
    requires Ordered(run) && i < |run|
    ensures VerdictAt(c, run, i) == Forbidden <==>
              exists j :: 0 <= j < i && BannedAt(c, run, run[i].id, j) && run[i].now < run[j].now + BAN_TTL
  {
    var last := LatestBan(c, run, i, run[i].id);
    LatestEndsLast(c, run, i, run[i].id, last);
  }

  /** Bans are never prolonged: a new one starts only once the earlier one is over. */
  lemma BansFiveMinutesApart(c: Config, run: seq<Request>, i: nat, j: nat, id: string)
    requires Ordered(run) && i < j < |run| && BannedAt(c, run, id, i) && BannedAt(c, run, id, j)
    ensures run[i].now + BAN_TTL <= run[j].now
  {
    ForbiddenExactly(c, run, j);
  }

  /** Loopback clients are never shut out, however many requests they make. */
  lemma LoopbackNeverForbidden(c: Config, run: seq<Request>, i: nat)
    requires Ordered(run) && i < |run| && run[i].id in {"127.0.0.1", "::1", "localhost"}
    ensures VerdictAt(c, run, i) in {Admitted, TooMany}
  {
    ForbiddenExactly(c, run, i);
  }
}
