/** Fixed-window throttling of the authentication endpoints, with a Redis counter
    and a PostgreSQL fallback (quansec/core/ratelimit.py).

    Instants are in milliseconds, durations of the configuration in seconds. Both
    stores report remaining times rounded to whole seconds, halves upward. Whether
    Redis still holds a key at the very instant of its deadline is a parameter. */
module RateLimit {
  import opened Options

  datatype Config = Config(limit: nat, window: nat, lockout: nat, keepAtDeadline: bool)

  datatype Backend = Redis | Postgres | NoBackend

  datatype Result = Result(allowed: bool, remaining: nat, retryAfter: int, backend: Backend)

  function Millis(seconds: nat): nat {
    1000 * seconds
  }

  function Rounded(millis: int): int {
    (millis + 500) / 1000
  }

  // ----- The two stores of one bucket

  datatype Counter = Counter(count: nat, deadline: Option<int>)
  datatype RedisKeys = RedisKeys(counter: Option<Counter>, lock: Option<int>)
  datatype Row = Row(attempts: nat, firstAt: int, blockedUntil: Option<int>)

  datatype Store = Store(redis: RedisKeys, row: Option<Row>)

  const EMPTY := Store(RedisKeys(None, None), None)

  // Where a backend fails during a check; a lost command may have been applied.
  datatype RedisFault = RedisUp | RedisDown | PipeLost(applied: bool) | ExpireLost(applied: bool) | SetexLost(applied: bool)
  datatype PostgresFault = PostgresUp | UpsertLost(applied: bool) | UpdateLost(applied: bool)

  datatype Attempt = Attempt(now: int, redis: RedisFault, postgres: PostgresFault)

  predicate Alive(cfg: Config, deadline: int, now: int) {
    now < deadline || (cfg.keepAtDeadline && now == deadline)
  }

  function LiveCounter(cfg: Config, keys: RedisKeys, now: int): Option<Counter> {
    match keys.counter
    case Some(Counter(_, Some(deadline))) => if Alive(cfg, deadline, now) then keys.counter else None
    case _ => keys.counter
  }

  predicate RedisLocked(cfg: Config, keys: RedisKeys, now: int) {
    keys.lock.Some? && Alive(cfg, keys.lock.value, now) && Rounded(keys.lock.value - now) > 0
  }

  // One check against Redis: the keys afterwards, and the result unless it raised.
  function RedisCheck(cfg: Config, keys: RedisKeys, now: int, fault: RedisFault): (RedisKeys, Option<Result>) {
    if fault.RedisDown? then (keys, None)
    else if RedisLocked(cfg, keys, now) then
      (keys, Some(Result(false, 0, Rounded(keys.lock.value - now), Redis)))
    else if fault == PipeLost(false) then (keys, None)
    else
      var live := LiveCounter(cfg, keys, now);
      var count := if live.Some? then live.value.count + 1 else 1;
      var deadline := if live.Some? then live.value.deadline else None;
      var untimed := keys.(counter := Some(Counter(count, deadline)));
      if fault.PipeLost? || (fault == ExpireLost(false) && deadline.None?) then (untimed, None)
      else
        var until := if deadline.Some? then deadline.value else now + Millis(cfg.window);
        var timed := keys.(counter := Some(Counter(count, Some(until))));
        if fault.ExpireLost? && deadline.None? then (timed, None)
        else if count <= cfg.limit then (timed, Some(Result(true, cfg.limit - count, 0, Redis)))
        else if cfg.lockout == 0 then (timed, Some(Result(false, 0, Rounded(until - now), Redis)))
        else if fault == SetexLost(false) then (timed, None)
        else
          (timed.(lock := Some(now + Millis(cfg.lockout))),
           if fault.SetexLost? then None else Some(Result(false, 0, cfg.lockout, Redis)))
  }

  function Upsert(cfg: Config, row: Option<Row>, now: int): Row {
    match row
    case None => Row(1, now, None)
    case Some(r) =>
      if r.firstAt < now - Millis(cfg.window) then Row(1, now, r.blockedUntil)
      else Row(r.attempts + 1, r.firstAt, r.blockedUntil)
  }

  predicate RowBlocked(row: Row, now: int) {
    row.blockedUntil.Some? && Rounded(row.blockedUntil.value - now) > 0
  }

  // One check against PostgreSQL.
  function PostgresCheck(cfg: Config, row: Option<Row>, now: int, fault: PostgresFault): (Option<Row>, Option<Result>) {
    if fault == UpsertLost(false) then (row, None)
    else
      var r := Upsert(cfg, row, now);
      if fault.UpsertLost? then (Some(r), None)
      else if RowBlocked(r, now) then
        (Some(r), Some(Result(false, 0, Rounded(r.blockedUntil.value - now), Postgres)))
      else if r.attempts <= cfg.limit then
        (Some(r), Some(Result(true, cfg.limit - r.attempts, 0, Postgres)))
      else if cfg.lockout == 0 then
        (Some(r), Some(Result(false, 0, cfg.window, Postgres)))
      else if fault == UpdateLost(false) then (Some(r), None)
      else
        (Some(r.(blockedUntil := Some(now + Millis(cfg.lockout)))),
         if fault.UpdateLost? then None else Some(Result(false, 0, cfg.lockout, Postgres)))
  }

  // Redis first, PostgreSQL when Redis raises, and the request when both do.
  function Check(cfg: Config, s: Store, a: Attempt): (Store, Result) {
    var (keys, viaRedis) := RedisCheck(cfg, s.redis, a.now, a.redis);
    if viaRedis.Some? then (s.(redis := keys), viaRedis.value)
    else
      var (row, viaPostgres) := PostgresCheck(cfg, s.row, a.now, a.postgres);
      (Store(keys, row), if viaPostgres.Some? then viaPostgres.value else Result(true, cfg.limit, 0, NoBackend))
  }

  // ----- The throttle as the code runs it, command by command

  class Throttle {
    const cfg: Config
    var counter: Option<Counter>
    var lock: Option<int>
    var row: Option<Row>

    function Contents(): Store
      reads this
    {
      Store(RedisKeys(counter, lock), row)
    }

    constructor (cfg: Config)
      ensures this.cfg == cfg && Contents() == EMPTY
    {
      this.cfg := cfg;
      counter, lock, row := None, None, None;
    }

    // INCR followed by TTL in one transaction; TTL is -1 for a key without a deadline.
    method IncrAndTtl(now: int) returns (count: nat, ttl: int)
      modifies this`counter
      ensures var live := old(LiveCounter(cfg, Contents().redis, now));
              count == (if live.Some? then live.value.count + 1 else 1)
              && counter == Some(Counter(count, if live.Some? then live.value.deadline else None))
              && ttl == (if counter.value.deadline.Some? then Rounded(counter.value.deadline.value - now) else -1)
    {
      var live := LiveCounter(cfg, RedisKeys(counter, lock), now);
      count := if live.Some? then live.value.count + 1 else 1;
      var deadline := if live.Some? then live.value.deadline else None;
      counter := Some(Counter(count, deadline));
      ttl := if deadline.Some? then Rounded(deadline.value - now) else -1;
    }

    method CheckRedis(now: int, fault: RedisFault) returns (r: Option<Result>)
      modifies this`counter, this`lock
      ensures (Contents().redis, r) == RedisCheck(cfg, old(Contents().redis), now, fault)
    {
      if fault.RedisDown? {
        return None;
      }
      if lock.Some? && Alive(cfg, lock.value, now) {
        var lockedTtl := Rounded(lock.value - now);
        if lockedTtl > 0 {
          return Some(Result(false, 0, lockedTtl, Redis));
        }
      }
      if fault == PipeLost(false) {
        return None;
      }
      var count, ttl := IncrAndTtl(now);
      if fault.PipeLost? {
        return None;
      }
      if ttl < 0 {
        if fault == ExpireLost(false) {
          return None;
        }
        counter := Some(Counter(count, Some(now + Millis(cfg.window))));
        if fault.ExpireLost? {
          return None;
        }
        ttl := cfg.window;
      }
      if count > cfg.limit {
        if cfg.lockout != 0 {
          if fault == SetexLost(false) {
            return None;
          }
          lock := Some(now + Millis(cfg.lockout));
          if fault.SetexLost? {
            return None;
          }
          return Some(Result(false, 0, cfg.lockout, Redis));
        }
        return Some(Result(false, 0, ttl, Redis));
      }
      return Some(Result(true, cfg.limit - count, 0, Redis));
    }

    method CheckPostgres(now: int, fault: PostgresFault) returns (r: Option<Result>)
      modifies this`row
      ensures (row, r) == PostgresCheck(cfg, old(row), now, fault)
    {
      if fault == UpsertLost(false) {
        return None;
      }
      if row.None? {
        row := Some(Row(1, now, None));
      } else if row.value.firstAt < now - Millis(cfg.window) {
        row := Some(Row(1, now, row.value.blockedUntil));
      } else {
        row := Some(row.value.(attempts := row.value.attempts + 1));
      }
      if fault.UpsertLost? {
        return None;
      }
      if row.value.blockedUntil.Some? {
        var remainingBlock := Rounded(row.value.blockedUntil.value - now);
        if remainingBlock > 0 {
          return Some(Result(false, 0, remainingBlock, Postgres));
        }
      }
      if row.value.attempts > cfg.limit {
        if cfg.lockout != 0 {
          if fault == UpdateLost(false) {
            return None;
          }
          row := Some(row.value.(blockedUntil := Some(now + Millis(cfg.lockout))));
          if fault.UpdateLost? {
            return None;
          }
          return Some(Result(false, 0, cfg.lockout, Postgres));
        }
        return Some(Result(false, 0, cfg.window, Postgres));
      }
      return Some(Result(true, cfg.limit - row.value.attempts, 0, Postgres));
    }

    method CheckAttempt(a: Attempt) returns (r: Result)
      modifies this
      ensures (Contents(), r) == Check(cfg, old(Contents()), a)
    {
      var viaRedis := CheckRedis(a.now, a.redis);
      if viaRedis.Some? {
        return viaRedis.value;
      }
      var viaPostgres := CheckPostgres(a.now, a.postgres);
      if viaPostgres.Some? {
        return viaPostgres.value;
      }
      return Result(true, cfg.limit, 0, NoBackend);
    }

    // After a successful login; a store that cannot be reached keeps its bucket.
    method Reset(redisUp: bool, postgresUp: bool)
      modifies this
      ensures Contents().redis == if redisUp then EMPTY.redis else old(Contents().redis)
      ensures row == if postgresUp then None else old(row)
    {
      if redisUp {
        counter, lock := None, None;
      }
      if postgresUp {
        row := None;
      }
    }
  }

  // ----- What both stores have in common: a window, open or not

  datatype Window = Fresh | Open(used: nat, until: int) | Untimed(used: nat)

  function WindowOf(cfg: Config, b: Backend, s: Store, now: int): Window {
    if b.Redis? then
      match LiveCounter(cfg, s.redis, now)
      case None => Fresh
      case Some(Counter(count, None)) => Untimed(count)
      case Some(Counter(count, Some(deadline))) => Open(count, deadline)
    else
      match s.row
      case None => Fresh
      case Some(r) => if r.firstAt < now - Millis(cfg.window) then Fresh else Open(r.attempts, r.firstAt + Millis(cfg.window))
  }

  // Either nothing is counted and nothing allowed, or one more attempt is counted
  // in the same window, and allowed only if it is within the limit.
  ghost predicate Counts(cfg: Config, w: Window, w': Window, allowed: bool, now: int) {
    || (!allowed && w' == w)
    || (match w
        case Fresh => (w' == Open(1, now + Millis(cfg.window)) || w' == Untimed(1)) && (allowed ==> 1 <= cfg.limit)
        case Open(used, until) => w' == Open(used + 1, until) && (allowed ==> used + 1 <= cfg.limit)
        case Untimed(used) =>
          (w' == Open(used + 1, now + Millis(cfg.window)) || w' == Untimed(used + 1)) && (allowed ==> used + 1 <= cfg.limit))
  }

  predicate AllowedBy(r: Result, b: Backend) {
    r.allowed && r.backend == b
  }

  // Whatever fails, each store only ever counts.
  lemma CheckCounts(cfg: Config, b: Backend, s: Store, a: Attempt)
    requires cfg.window > 0 && !b.NoBackend?
    ensures var (s', r) := Check(cfg, s, a);
            Counts(cfg, WindowOf(cfg, b, s, a.now), WindowOf(cfg, b, s', a.now), AllowedBy(r, b), a.now)
  {
  }

  // ----- At most (k + 1) * limit attempts in k windows

  ghost predicate Nondecreasing(trace: seq<Attempt>) {
    forall i, j :: 0 <= i < j < |trace| ==> trace[i].now <= trace[j].now
  }

  // How many attempts with lo <= now < hi the backend allows in the course of the trace.
  function AllowedIn(cfg: Config, b: Backend, s: Store, trace: seq<Attempt>, lo: int, hi: int): nat
    decreases |trace|
  {
    if trace == [] then 0
    else
      var (s', r) := Check(cfg, s, trace[0]);
      (if AllowedBy(r, b) && lo <= trace[0].now < hi then 1 else 0) + AllowedIn(cfg, b, s', trace[1..], lo, hi)
  }

  // The attempts that windows starting within the next `length` can still allow.
  function Budget(cfg: Config, length: int): (n: nat)
    requires cfg.window > 0
    decreases length
  {
    if length <= 0 then 0 else cfg.limit + Budget(cfg, length - Millis(cfg.window))
  }

  lemma {:induction false} BudgetMonotone(cfg: Config, shorter: int, longer: int)
    requires cfg.window > 0 && shorter <= longer
    ensures Budget(cfg, shorter) <= Budget(cfg, longer)
    decreases longer
  {
    if longer > 0 {
      BudgetMonotone(cfg, shorter - Millis(cfg.window), longer - Millis(cfg.window));
    }
  }

  lemma {:induction false} BudgetOfWindows(cfg: Config, k: nat)
    requires cfg.window > 0
    ensures Budget(cfg, k * Millis(cfg.window)) == k * cfg.limit
  {
    if k > 0 {
      BudgetOfWindows(cfg, k - 1);
      assert k * Millis(cfg.window) == (k - 1) * Millis(cfg.window) + Millis(cfg.window);
      assert k * cfg.limit == (k - 1) * cfg.limit + cfg.limit;
      assert k * Millis(cfg.window) > 0 by {
        assert (k - 1) * Millis(cfg.window) >= 0;
      }
    }
  }

  function Left(cfg: Config, used: nat): nat {
    if used < cfg.limit then cfg.limit - used else 0
  }

  // What the store can still allow before hi, seen from its window at `now`.
  function Potential(cfg: Config, w: Window, now: int, hi: int): nat
    requires cfg.window > 0
  {
    match w
    case Fresh => Budget(cfg, hi - now)
    case Open(used, until) => Left(cfg, used) + Budget(cfg, hi - until)
    case Untimed(used) => Left(cfg, used) + Budget(cfg, hi - now - Millis(cfg.window))
  }

  lemma CountingSpends(cfg: Config, w: Window, w': Window, allowed: bool, now: int, hi: int)
    requires cfg.window > 0 && now < hi && Counts(cfg, w, w', allowed, now)
    ensures Potential(cfg, w', now, hi) + (if allowed then 1 else 0) <= Potential(cfg, w, now, hi)
  {
  }

  lemma WaitingLoses(cfg: Config, b: Backend, s: Store, now: int, later: int, hi: int)
    requires cfg.window > 0 && now <= later
    ensures Potential(cfg, WindowOf(cfg, b, s, later), later, hi) <= Potential(cfg, WindowOf(cfg, b, s, now), now, hi)
  {
    BudgetMonotone(cfg, hi - later, hi - now);
    BudgetMonotone(cfg, hi - later - Millis(cfg.window), hi - now - Millis(cfg.window));
    match WindowOf(cfg, b, s, now)
    case Open(_, until) =>
      if until <= later { BudgetMonotone(cfg, hi - later, hi - until); }
    case _ =>
  }

  lemma {:induction false} NothingAfter(cfg: Config, b: Backend, s: Store, trace: seq<Attempt>, lo: int, hi: int)
    requires forall i :: 0 <= i < |trace| ==> trace[i].now >= hi
    ensures AllowedIn(cfg, b, s, trace, lo, hi) == 0
    decreases |trace|
  {
    if trace != [] {
      NothingAfter(cfg, b, Check(cfg, s, trace[0]).0, trace[1..], lo, hi);
    }
  }

  lemma {:induction false} PotentialBounds(cfg: Config, b: Backend, s: Store, trace: seq<Attempt>, lo: int, hi: int)
    requires cfg.window > 0 && !b.NoBackend?
    requires trace != [] && Nondecreasing(trace)
    ensures AllowedIn(cfg, b, s, trace, lo, hi) <= Potential(cfg, WindowOf(cfg, b, s, trace[0].now), trace[0].now, hi)
    decreases |trace|
  {
    if trace[0].now >= hi {
      NothingAfter(cfg, b, s, trace, lo, hi);
    } else {
      var now := trace[0].now;
      var (s', r) := Check(cfg, s, trace[0]);
      CheckCounts(cfg, b, s, trace[0]);
      CountingSpends(cfg, WindowOf(cfg, b, s, now), WindowOf(cfg, b, s', now), AllowedBy(r, b), now, hi);
      if |trace| > 1 {
        PotentialBounds(cfg, b, s', trace[1..], lo, hi);
        WaitingLoses(cfg, b, s', now, trace[1].now, hi);
      }
    }
  }

  lemma PotentialAtMost(cfg: Config, b: Backend, s: Store, lo: int, now: int, hi: int)
    requires cfg.window > 0 && lo <= now
    ensures Potential(cfg, WindowOf(cfg, b, s, now), now, hi) <= cfg.limit + Budget(cfg, hi - lo)
  {
    BudgetMonotone(cfg, hi - now, hi - lo);
    BudgetMonotone(cfg, hi - now - Millis(cfg.window), hi - lo);
    match WindowOf(cfg, b, s, now)
    case Open(_, until) => BudgetMonotone(cfg, hi - until, hi - lo);
    case _ =>
  }

  lemma {:induction false} AllowedWithin(cfg: Config, b: Backend, s: Store, trace: seq<Attempt>, lo: int, hi: int)
    requires cfg.window > 0 && !b.NoBackend? && Nondecreasing(trace)
    ensures AllowedIn(cfg, b, s, trace, lo, hi) <= cfg.limit + Budget(cfg, hi - lo)
    decreases |trace|
  {
    if trace != [] {
      if trace[0].now < lo {
        AllowedWithin(cfg, b, Check(cfg, s, trace[0]).0, trace[1..], lo, hi);
      } else {
        PotentialBounds(cfg, b, s, trace, lo, hi);
        PotentialAtMost(cfg, b, s, lo, trace[0].now, hi);
      }
    }
  }

  /** Without a reset, and whatever fails: from any state and along any trace, each
      store allows at most (k + 1) * limit attempts in a half-open interval of k windows. */
  lemma BackendBound(cfg: Config, b: Backend, s: Store, trace: seq<Attempt>, lo: int, k: nat)
    requires cfg.window > 0 && !b.NoBackend? && Nondecreasing(trace)
    ensures AllowedIn(cfg, b, s, trace, lo, lo + k * Millis(cfg.window)) <= (k + 1) * cfg.limit
  {
    hide *;
    var length := k * Millis(cfg.window);
    AllowedWithin(cfg, b, s, trace, lo, lo + length);
    BudgetOfWindows(cfg, k);
    assert (lo + length) - lo == length;
    assert (k + 1) * cfg.limit == k * cfg.limit + cfg.limit;
  }

  // Attempts allowed by either store, that is, not because both had failed.
  function ThrottledIn(cfg: Config, s: Store, trace: seq<Attempt>, lo: int, hi: int): nat
    decreases |trace|
  {
    if trace == [] then 0
    else
      var (s', r) := Check(cfg, s, trace[0]);
      (if r.allowed && !r.backend.NoBackend? && lo <= trace[0].now < hi then 1 else 0)
      + ThrottledIn(cfg, s', trace[1..], lo, hi)
  }

  lemma {:induction false} ThrottledIsSum(cfg: Config, s: Store, trace: seq<Attempt>, lo: int, hi: int)
    ensures ThrottledIn(cfg, s, trace, lo, hi)
         == AllowedIn(cfg, Redis, s, trace, lo, hi) + AllowedIn(cfg, Postgres, s, trace, lo, hi)
    decreases |trace|
  {
    if trace != [] {
      ThrottledIsSum(cfg, Check(cfg, s, trace[0]).0, trace[1..], lo, hi);
    }
  }

  /** With arbitrary failover between the two stores, twice that. */
  lemma FailoverBound(cfg: Config, s: Store, trace: seq<Attempt>, lo: int, k: nat)
    requires cfg.window > 0 && Nondecreasing(trace)
    ensures ThrottledIn(cfg, s, trace, lo, lo + k * Millis(cfg.window)) <= 2 * ((k + 1) * cfg.limit)
  {
    ThrottledIsSum(cfg, s, trace, lo, lo + k * Millis(cfg.window));
    BackendBound(cfg, Redis, s, trace, lo, k);
    BackendBound(cfg, Postgres, s, trace, lo, k);
  }

  // ----- Attempts that reach one store only

  function Via(b: Backend, now: int): Attempt {
    Attempt(now, if b.Redis? then RedisUp else RedisDown, PostgresUp)
  }

  function Results(cfg: Config, b: Backend, s: Store, times: seq<int>): (rs: seq<Result>)
    ensures |rs| == |times|
    decreases |times|
  {
    if times == [] then []
    else
      var (s', r) := Check(cfg, s, Via(b, times[0]));
      [r] + Results(cfg, b, s', times[1..])
  }

  ghost predicate Sorted(times: seq<int>) {
    forall i, j :: 0 <= i < j < |times| ==> times[i] <= times[j]
  }

  // No lock refuses an attempt at `now` or later.
  predicate Unlocked(cfg: Config, b: Backend, s: Store, now: int) {
    if b.Redis? then !RedisLocked(cfg, s.redis, now)
    else s.row.Some? ==> !RowBlocked(s.row.value, now)
  }

  // Whether an attempt at `now` still falls into a window that lasts until `until`.
  predicate Within(cfg: Config, b: Backend, now: int, until: int) {
    if b.Redis? then Alive(cfg, until, now) else now <= until
  }

  lemma {:induction false} ExactLeft(cfg: Config, b: Backend, s: Store, now: int, until: int, used: nat, times: seq<int>)
    requires cfg.window > 0 && !b.NoBackend? && Sorted(times)
    requires WindowOf(cfg, b, s, now) == Open(used, until)
    requires Unlocked(cfg, b, s, now) || used >= cfg.limit
    requires forall i :: 0 <= i < |times| ==> now <= times[i] && Within(cfg, b, times[i], until)
    ensures forall i :: 0 <= i < |times| ==>
              var r := Results(cfg, b, s, times)[i];
              && r.backend == b
              && (r.allowed <==> i < Left(cfg, used))
              && r.remaining == if i < Left(cfg, used) then Left(cfg, used) - 1 - i else 0
    decreases |times|
  {
    if times != [] {
      var (s', r) := Check(cfg, s, Via(b, times[0]));
      var used' := WindowOf(cfg, b, s', times[0]).used;
      ExactLeft(cfg, b, s', times[0], until, used', times[1..]);
      var rest := Results(cfg, b, s', times[1..]);
      assert Results(cfg, b, s, times) == [r] + rest;
      forall i | 0 <= i < |times|
        ensures var r := Results(cfg, b, s, times)[i];
                && r.backend == b
                && (r.allowed <==> i < Left(cfg, used))
                && r.remaining == if i < Left(cfg, used) then Left(cfg, used) - 1 - i else 0
      {
        if i > 0 { assert Results(cfg, b, s, times)[i] == rest[i - 1]; }
      }
    }
  }

  /** An allowed result with remaining r means that exactly the next r attempts in
      that window succeed, counting down to 0, and every later one is refused. */
  lemma RemainingIsExact(cfg: Config, b: Backend, s: Store, now: int, times: seq<int>)
    requires cfg.window > 0 && !b.NoBackend? && Sorted(times)
    requires Check(cfg, s, Via(b, now)).1.allowed
    ensures var (s', r) := Check(cfg, s, Via(b, now));
            var w := WindowOf(cfg, b, s', now);
            && w.Open?
            && ((forall i :: 0 <= i < |times| ==> now <= times[i] && Within(cfg, b, times[i], w.until)) ==>
                 forall i :: 0 <= i < |times| ==>
                   var next := Results(cfg, b, s', times)[i];
                   && (next.allowed <==> i < r.remaining)
                   && next.remaining == if i < r.remaining then r.remaining - 1 - i else 0)
  {
    var (s', r) := Check(cfg, s, Via(b, now));
    var w := WindowOf(cfg, b, s', now);
    if forall i :: 0 <= i < |times| ==> now <= times[i] && Within(cfg, b, times[i], w.until) {
      ExactLeft(cfg, b, s', now, w.until, w.used, times);
    }
  }

  // ----- Where the two stores agree

  // Up to the first refusal, no attempt falls on the very instant at which the window
  // open before it ends.
  ghost predicate OffDeadlines(cfg: Config, w: Window, times: seq<int>)
    decreases |times|
  {
    times == [] ||
    var now := times[0];
    var w' := if w.Open? && now <= w.until then Open(w.used + 1, w.until) else Open(1, now + Millis(cfg.window));
    && (w.Open? ==> now != w.until)
    && (w'.used <= cfg.limit ==> OffDeadlines(cfg, w', times[1..]))
  }

  ghost predicate AllAllowed(rs: seq<Result>) {
    forall i :: 0 <= i < |rs| ==> rs[i].allowed
  }

  // Two stores that have counted the same attempts and locked nothing.
  ghost predicate Alike(cfg: Config, w: Window, r: Store, p: Store) {
    && !w.Untimed?
    && r.redis.counter == (if w.Open? then Some(Counter(w.used, Some(w.until))) else None) && r.redis.lock == None
    && p.row == (if w.Open? then Some(Row(w.used, w.until - Millis(cfg.window), None)) else None)
  }

  lemma {:induction false} AlikeAgree(cfg: Config, w: Window, r: Store, p: Store, times: seq<int>, i: nat)
    requires cfg.window > 0 && Sorted(times) && i < |times|
    requires Alike(cfg, w, r, p)
    requires cfg.keepAtDeadline || OffDeadlines(cfg, w, times)
    requires AllAllowed(Results(cfg, Redis, r, times)[..i]) || AllAllowed(Results(cfg, Postgres, p, times)[..i])
    ensures SameVerdict(Results(cfg, Redis, r, times)[i], Results(cfg, Postgres, p, times)[i])
    decreases |times|
  {
    var now := times[0];
    var (r', x) := Check(cfg, r, Via(Redis, now));
    var (p', y) := Check(cfg, p, Via(Postgres, now));
    assert x.allowed == y.allowed && x.remaining == y.remaining;
    var xs, ys := Results(cfg, Redis, r, times), Results(cfg, Postgres, p, times);
    var xs', ys' := Results(cfg, Redis, r', times[1..]), Results(cfg, Postgres, p', times[1..]);
    assert xs == [x] + xs' && ys == [y] + ys';
    if i > 0 {
      assert xs[..i] == [x] + xs'[..i - 1] && ys[..i] == [y] + ys'[..i - 1];
      assert AllAllowed(xs[..i]) ==> xs[..i][0].allowed;
      assert AllAllowed(ys[..i]) ==> ys[..i][0].allowed;
      forall k | 0 <= k < i - 1
        ensures (AllAllowed(xs[..i]) ==> xs'[k].allowed) && (AllAllowed(ys[..i]) ==> ys'[k].allowed)
      {
        assert xs[..i][k + 1] == xs'[k] && ys[..i][k + 1] == ys'[k];
      }
      var w' := if w.Open? && now <= w.until then Open(w.used + 1, w.until) else Open(1, now + Millis(cfg.window));
      AlikeAgree(cfg, w', r', p', times[1..], i - 1);
    }
  }

  // On the very deadline Redis starts over while PostgreSQL still counts.
  lemma {:induction false} AlikeDisagree(cfg: Config, w: Window, r: Store, p: Store, times: seq<int>) returns (i: nat)
    requires cfg.window > 0 && Sorted(times) && Alike(cfg, w, r, p)
    requires !cfg.keepAtDeadline && !OffDeadlines(cfg, w, times)
    requires w.Open? ==> 1 <= w.used <= cfg.limit
    ensures i < |times|
    ensures AllAllowed(Results(cfg, Redis, r, times)[..i]) && AllAllowed(Results(cfg, Postgres, p, times)[..i])
    ensures !SameVerdict(Results(cfg, Redis, r, times)[i], Results(cfg, Postgres, p, times)[i])
    decreases |times|
  {
    var now := times[0];
    var (r', x) := Check(cfg, r, Via(Redis, now));
    var (p', y) := Check(cfg, p, Via(Postgres, now));
    var xs', ys' := Results(cfg, Redis, r', times[1..]), Results(cfg, Postgres, p', times[1..]);
    assert Results(cfg, Redis, r, times) == [x] + xs' && Results(cfg, Postgres, p, times) == [y] + ys';
    if w.Open? && now == w.until {
      i := 0;
    } else {
      var w' := if w.Open? && now <= w.until then Open(w.used + 1, w.until) else Open(1, now + Millis(cfg.window));
      var k := AlikeDisagree(cfg, w', r', p', times[1..]);
      i := k + 1;
      assert x.allowed && y.allowed;
      assert ([x] + xs')[..i] == [x] + xs'[..k] && ([y] + ys')[..i] == [y] + ys'[..k];
    }
  }

  predicate SameVerdict(x: Result, y: Result) {
    x.allowed == y.allowed && x.remaining == y.remaining
  }

  // The two stores, from empty, answer alike as long as either has refused nothing.
  ghost predicate AgreeUntilRefusal(cfg: Config, times: seq<int>) {
    forall i :: 0 <= i < |times| &&
                (AllAllowed(Results(cfg, Redis, EMPTY, times)[..i]) || AllAllowed(Results(cfg, Postgres, EMPTY, times)[..i])) ==>
                SameVerdict(Results(cfg, Redis, EMPTY, times)[i], Results(cfg, Postgres, EMPTY, times)[i])
  }

  /** From empty stores, Redis and PostgreSQL give the same verdicts and remaining counts
      up to and including the first refusal, exactly when Redis keeps a key at its
      deadline or no attempt until then comes one window after a window start. */
  lemma StoresAgreeIff(cfg: Config, times: seq<int>)
    requires cfg.window > 0 && Sorted(times)
    ensures AgreeUntilRefusal(cfg, times) <==> cfg.keepAtDeadline || OffDeadlines(cfg, Fresh, times)
  {
    if cfg.keepAtDeadline || OffDeadlines(cfg, Fresh, times) {
      forall i | 0 <= i < |times| &&
                 (AllAllowed(Results(cfg, Redis, EMPTY, times)[..i]) || AllAllowed(Results(cfg, Postgres, EMPTY, times)[..i]))
        ensures SameVerdict(Results(cfg, Redis, EMPTY, times)[i], Results(cfg, Postgres, EMPTY, times)[i])
      {
        AlikeAgree(cfg, Fresh, EMPTY, EMPTY, times, i);
      }
    } else {
      var i := AlikeDisagree(cfg, Fresh, EMPTY, EMPTY, times);
    }
  }

  // The exception is real: one attempt a second, with a window of one second.
  lemma StoresDisagreeOnDeadline()
    ensures var cfg := Config(1, 1, 0, false);
            Results(cfg, Redis, EMPTY, [0, 1000])[1].allowed && !Results(cfg, Postgres, EMPTY, [0, 1000])[1].allowed
  {
    var cfg := Config(1, 1, 0, false);
    assert [0, 1000][1..] == [1000];
    assert Results(cfg, Redis, EMPTY, [0, 1000])
        == [Check(cfg, EMPTY, Via(Redis, 0)).1] + Results(cfg, Redis, Check(cfg, EMPTY, Via(Redis, 0)).0, [1000]);
    assert Results(cfg, Postgres, EMPTY, [0, 1000])
        == [Check(cfg, EMPTY, Via(Postgres, 0)).1] + Results(cfg, Postgres, Check(cfg, EMPTY, Via(Postgres, 0)).0, [1000]);
  }

  // ----- Lockout

  predicate LockedUntil(b: Backend, s: Store, deadline: int) {
    if b.Redis? then s.redis.lock == Some(deadline)
    else s.row.Some? && s.row.value.blockedUntil == Some(deadline)
  }

  lemma {:induction false} LockHolds(cfg: Config, b: Backend, s: Store, deadline: int, times: seq<int>)
    requires !b.NoBackend? && LockedUntil(b, s, deadline)
    requires forall i :: 0 <= i < |times| ==> times[i] <= deadline - 500
    ensures forall i :: 0 <= i < |times| ==> !Results(cfg, b, s, times)[i].allowed
    decreases |times|
  {
    if times != [] {
      var (s', r) := Check(cfg, s, Via(b, times[0]));
      LockHolds(cfg, b, s', deadline, times[1..]);
      assert Results(cfg, b, s, times) == [r] + Results(cfg, b, s', times[1..]);
    }
  }

  /** An overflow refusal locks the bucket, in whatever state: absent a reset, every
      further attempt is refused up to half a second before the lockout ends. */
  lemma OverflowLocks(cfg: Config, b: Backend, s: Store, now: int, times: seq<int>)
    requires !b.NoBackend? && cfg.lockout > 0
    requires Unlocked(cfg, b, s, now) && !Check(cfg, s, Via(b, now)).1.allowed
    requires forall i :: 0 <= i < |times| ==> times[i] <= now + Millis(cfg.lockout) - 500
    ensures forall i :: 0 <= i < |times| ==> !Results(cfg, b, Check(cfg, s, Via(b, now)).0, times)[i].allowed
  {
    var (s', r) := Check(cfg, s, Via(b, now));
    LockHolds(cfg, b, s', now + Millis(cfg.lockout), times);
  }

  // The limit is used up: one more attempt in this window would pass it.
  predicate Exhausted(cfg: Config, w: Window) {
    cfg.limit <= if w.Fresh? then 0 else w.used
  }

  /** With a lock until `deadline`, an attempt is refused exactly up to half a second
      before it, because the remaining time is rounded to whole seconds before it is
      compared with zero, or when its window is exhausted. */
  lemma LockRefusesIff(cfg: Config, b: Backend, s: Store, deadline: int, now: int)
    requires !b.NoBackend? && LockedUntil(b, s, deadline)
    ensures !Check(cfg, s, Via(b, now)).1.allowed <==>
            now <= deadline - 500 || Exhausted(cfg, WindowOf(cfg, b, s, now))
  {
  }

  ghost predicate AllRefused(rs: seq<Result>) {
    forall i :: 0 <= i < |rs| ==> !rs[i].allowed
  }

  // Attempts in order of time, from `now` on and before `deadline`.
  ghost predicate During(times: seq<int>, now: int, deadline: int) {
    Sorted(times) && forall i :: 0 <= i < |times| ==> now <= times[i] < deadline
  }

  lemma {:induction false} ZeroLimitRefuses(cfg: Config, b: Backend, s: Store, times: seq<int>)
    requires !b.NoBackend? && cfg.limit == 0
    ensures AllRefused(Results(cfg, b, s, times))
    decreases |times|
  {
    if times != [] {
      ZeroLimitRefuses(cfg, b, Check(cfg, s, Via(b, times[0])).0, times[1..]);
    }
  }

  // After an overflow the window it exceeded is open, and exhausted.
  lemma OverflowExhausts(cfg: Config, b: Backend, s: Store, now: int)
    requires cfg.window > 0 && !b.NoBackend? && cfg.lockout > 0
    requires Unlocked(cfg, b, s, now) && !Check(cfg, s, Via(b, now)).1.allowed
    ensures var s' := Check(cfg, s, Via(b, now)).0;
            && LockedUntil(b, s', now + Millis(cfg.lockout))
            && WindowOf(cfg, b, s', now).Open? && Exhausted(cfg, WindowOf(cfg, b, s', now))
  {
  }

  /** An overflow refusal with lockout L refuses every attempt of the next L seconds
      exactly when the window it exceeded is still open in the last of them, or nothing
      is ever allowed. */
  lemma OverflowLocksIff(cfg: Config, b: Backend, s: Store, now: int)
    requires cfg.window > 0 && !b.NoBackend? && cfg.lockout > 0
    requires Unlocked(cfg, b, s, now) && !Check(cfg, s, Via(b, now)).1.allowed
    ensures var s' := Check(cfg, s, Via(b, now)).0;
            var w := WindowOf(cfg, b, s', now);
            var deadline := now + Millis(cfg.lockout);
            && w.Open?
            && ((forall times :: During(times, now, deadline) ==> AllRefused(Results(cfg, b, s', times)))
                <==> cfg.limit == 0 || Within(cfg, b, deadline - 1, w.until))
  {
    OverflowExhausts(cfg, b, s, now);
    var s' := Check(cfg, s, Via(b, now)).0;
    var w := WindowOf(cfg, b, s', now);
    var deadline := now + Millis(cfg.lockout);
    var last := [deadline - 1];
    if cfg.limit == 0 || Within(cfg, b, deadline - 1, w.until) {
      forall times | During(times, now, deadline) ensures AllRefused(Results(cfg, b, s', times)) {
        if cfg.limit == 0 {
          ZeroLimitRefuses(cfg, b, s', times);
        } else {
          ExactLeft(cfg, b, s', now, w.until, w.used, times);
        }
      }
    } else {
      LockRefusesIff(cfg, b, s', deadline, deadline - 1);
      WindowEnds(cfg, b, s', now, deadline - 1);
      assert Results(cfg, b, s', last)[0] == Check(cfg, s', Via(b, deadline - 1)).1;
      assert During(last, now, deadline) && !AllRefused(Results(cfg, b, s', last));
    }
  }

  lemma WindowEnds(cfg: Config, b: Backend, s: Store, now: int, later: int)
    requires !b.NoBackend? && WindowOf(cfg, b, s, now).Open? && now <= later
    ensures WindowOf(cfg, b, s, later) ==
            if Within(cfg, b, later, WindowOf(cfg, b, s, now).until) then WindowOf(cfg, b, s, now) else Fresh
  {
  }

  // ----- What a refused caller is told to wait

  // A lock that refuses an attempt, or starts with it.
  predicate LockRefuses(cfg: Config, b: Backend, s: Store, now: int) {
    !Unlocked(cfg, b, s, now) || cfg.lockout > 0
  }

  /** A caller refused by a lock is told to wait exactly for it: after the announced number
      of seconds the lock refuses no more, and one second earlier it still does. */
  lemma RetryAfterIsTheLock(cfg: Config, b: Backend, s: Store, now: int, later: int)
    requires !b.NoBackend? && LockRefuses(cfg, b, s, now) && !Check(cfg, s, Via(b, now)).1.allowed
    ensures var (s', r) := Check(cfg, s, Via(b, now));
            && r.retryAfter > 0 && r.remaining == 0
            && (later >= now + 1000 * r.retryAfter ==> Unlocked(cfg, b, s', later))
            && (later <= now + 1000 * (r.retryAfter - 1) ==> !Unlocked(cfg, b, s', later))
  {
  }

  /** Without a lockout the caller waits for the window: half a second after the announced
      time it is over. Redis announces the time left to the nearest second, PostgreSQL the
      whole window. */
  lemma RetryAfterIsTheWindow(cfg: Config, b: Backend, s: Store, now: int, later: int)
    requires !b.NoBackend? && cfg.window > 0 && cfg.lockout == 0
    requires s.row.Some? ==> s.row.value.firstAt <= now // not written in the future
    requires Unlocked(cfg, b, s, now) && !Check(cfg, s, Via(b, now)).1.allowed
    ensures var (s', r) := Check(cfg, s, Via(b, now));
            && r.remaining == 0
            && (later > now + 1000 * r.retryAfter + 500 ==> WindowOf(cfg, b, s', later).Fresh?)
            && (b.Redis? && now <= later < now + 1000 * r.retryAfter - 500 ==> WindowOf(cfg, b, s', later).Open?)
            && (b.Postgres? ==> r.retryAfter == cfg.window)
  {
  }

  // ----- What a failing store leaves behind

  // Redis answers unless a command that the check sends fails.
  lemma RedisRaisesIff(cfg: Config, keys: RedisKeys, now: int, fault: RedisFault)
    ensures var live := LiveCounter(cfg, keys, now);
            var used := if live.Some? then live.value.count else 0;
            var untimed := live.None? || live.value.deadline.None?;
            RedisCheck(cfg, keys, now, fault).1.None? <==>
              || fault.RedisDown?
              || (!RedisLocked(cfg, keys, now) &&
                  (fault.PipeLost? || (fault.ExpireLost? && untimed) ||
                   (fault.SetexLost? && used >= cfg.limit && cfg.lockout > 0)))
  {
  }

  /** An attempt is counted unless it is locked out or the increment never reached Redis,
      even if a later command fails; its window starts unless EXPIRE never did, and an
      attempt over the limit locks unless the check ended before SETEX reached Redis. */
  lemma RedisCountsIff(cfg: Config, keys: RedisKeys, now: int, fault: RedisFault)
    requires cfg.window > 0
    ensures var keys' := RedisCheck(cfg, keys, now, fault).0;
            var live := LiveCounter(cfg, keys, now);
            if fault.RedisDown? || RedisLocked(cfg, keys, now) || fault == PipeLost(false) then keys' == keys
            else
              && keys'.counter.Some?
              && keys'.counter.value.count == (if live.Some? then live.value.count + 1 else 1)
              && keys'.counter.value.deadline ==
                   (if live.Some? && live.value.deadline.Some? then live.value.deadline
                    else if fault.PipeLost? || fault == ExpireLost(false) then None
                    else Some(now + 1000 * cfg.window))
              && keys'.lock ==
                   (if keys'.counter.value.count > cfg.limit && cfg.lockout > 0 && keys'.counter.value.deadline.Some?
                       && fault != SetexLost(false) && !fault.PipeLost?
                       && !(fault.ExpireLost? && (live.None? || live.value.deadline.None?))
                    then Some(now + 1000 * cfg.lockout) else keys.lock)
  {
  }

  /** PostgreSQL counts every attempt that reaches it, also while it is blocked, and starts
      a new window once the old one has passed; the block is kept until an attempt
      over the limit renews it. */
  lemma PostgresCountsIff(cfg: Config, row: Option<Row>, now: int, fault: PostgresFault)
    ensures var (row', r) := PostgresCheck(cfg, row, now, fault);
            if fault == UpsertLost(false) then row' == row && r.None?
            else
              var over := row.None? || row.value.firstAt + 1000 * cfg.window < now;
              && row'.Some?
              && row'.value.attempts == (if over then 1 else row.value.attempts + 1)
              && row'.value.firstAt == (if over then now else row.value.firstAt)
              && row'.value.blockedUntil ==
                   (if row'.value.attempts > cfg.limit && cfg.lockout > 0 && !fault.UpsertLost? && fault != UpdateLost(false)
                       && (row.None? || !RowBlocked(row.value, now))
                    then Some(now + 1000 * cfg.lockout)
                    else if row.Some? then row.value.blockedUntil else None)
              && (r.None? <==>
                    || fault.UpsertLost?
                    || (fault.UpdateLost? && cfg.lockout > 0 && row'.value.attempts > cfg.limit
                        && (row.None? || !RowBlocked(row.value, now))))
  {
  }

  /** Redis answers if it can, then PostgreSQL; if neither does the request is allowed. */
  lemma WhoAnswers(cfg: Config, s: Store, a: Attempt)
    ensures var (s', r) := Check(cfg, s, a);
            var viaRedis := RedisCheck(cfg, s.redis, a.now, a.redis);
            var viaPostgres := PostgresCheck(cfg, s.row, a.now, a.postgres);
            && s'.redis == viaRedis.0
            && (viaRedis.1.Some? ==> r == viaRedis.1.value && r.backend == Redis && s'.row == s.row)
            && (viaRedis.1.None? ==> s'.row == viaPostgres.0)
            && (viaRedis.1.None? && viaPostgres.1.Some? ==> r == viaPostgres.1.value && r.backend == Postgres)
            && (viaRedis.1.None? && viaPostgres.1.None? ==>
                  r.allowed && r.remaining == cfg.limit && r.retryAfter == 0 && r.backend == NoBackend)
  {
  }

  // So a two-second lockout lets an attempt through 1.5 seconds after it began.
  lemma LockoutEndsEarly(b: Backend)
    requires !b.NoBackend?
    ensures var rs := Results(Config(1, 1, 2, true), b, EMPTY, [0, 100, 1601]);
            rs[0].allowed && !rs[1].allowed && rs[1].retryAfter == 2 && rs[2].allowed
  {
    var cfg := Config(1, 1, 2, true);
    var times := [0, 100, 1601];
    assert times[1..] == [100, 1601] && [100, 1601][1..] == [1601];
    var (s, r) := Check(cfg, EMPTY, Via(b, 0));
    var (s', r') := Check(cfg, s, Via(b, 100));
    var (s'', r'') := Check(cfg, s', Via(b, 1601));
    assert Results(cfg, b, s', [1601]) == [r''];
    assert Results(cfg, b, s, [100, 1601]) == [r'] + [r''];
    assert Results(cfg, b, EMPTY, times) == [r] + ([r'] + [r'']);
  }
}
