/** Retrying with doubling pauses: Retry in pkg/util/common/util.go. */
module Retrying {
  import opened Wrappers

  /** What one call of the retried function returns: nil, a StopRetry around an error, or another error. */
  datatype Outcome<+E> = Success | Stop(inner: E) | Failure(err: E)

  function Pow2(n: nat): (p: nat)
    ensures p > n
  {
    if n == 0 then 1 else 2 * Pow2(n - 1)
  }

  /** Retrying from call first on ends with this many calls: the counter is taken down and must not be zero to go on. */
  predicate EndsAfter<E>(attempts: int, f: nat -> Outcome<E>, first: nat, calls: nat)
    decreases calls
  {
    calls >= 1
    && if f(first).Failure? && attempts - 1 != 0 then EndsAfter(attempts - 1, f, first + 1, calls - 1) else calls == 1
  }

  lemma {:induction false} EndsOnlyIfSettled<E>(attempts: int, f: nat -> Outcome<E>, first: nat, calls: nat)
    requires EndsAfter(attempts, f, first, calls) && attempts < 1
    ensures exists k: nat :: first <= k && !f(k).Failure?
    decreases calls
  {
    if f(first).Failure? {
      EndsOnlyIfSettled(attempts - 1, f, first + 1, calls - 1);
    }
  }

  lemma {:induction false} EndsWhenAttemptsDo<E>(attempts: int, f: nat -> Outcome<E>, first: nat)
    requires attempts >= 1
    ensures exists calls: nat :: EndsAfter(attempts, f, first, calls)
    decreases attempts
  {
    if f(first).Failure? && attempts > 1 {
      EndsWhenAttemptsDo(attempts - 1, f, first + 1);
      var calls: nat :| EndsAfter(attempts - 1, f, first + 1, calls);
      assert EndsAfter(attempts, f, first, calls + 1);
    } else {
      assert EndsAfter(attempts, f, first, 1);
    }
  }

  lemma {:induction false} EndsWhenSettled<E>(attempts: int, f: nat -> Outcome<E>, first: nat, k: nat)
    requires first <= k && !f(k).Failure?
    ensures exists calls: nat :: EndsAfter(attempts, f, first, calls)
    decreases k - first
  {
    if f(first).Failure? && attempts - 1 != 0 {
      EndsWhenSettled(attempts - 1, f, first + 1, k);
      var calls: nat :| EndsAfter(attempts - 1, f, first + 1, calls);
      assert EndsAfter(attempts, f, first, calls + 1);
    } else {
      assert EndsAfter(attempts, f, first, 1);
    }
  }

  /** Retrying ends if and only if it is given a positive number of attempts, or some call does not fail. */
  lemma RetryEndsExactly<E>(attempts: int, f: nat -> Outcome<E>, first: nat)
    ensures (exists calls: nat :: EndsAfter(attempts, f, first, calls))
       <==> attempts >= 1 || exists k: nat :: first <= k && !f(k).Failure?
  {
    if attempts >= 1 {
      EndsWhenAttemptsDo(attempts, f, first);
    } else if k: nat :| first <= k && !f(k).Failure? {
      EndsWhenSettled(attempts, f, first, k);
    } else if calls: nat :| EndsAfter(attempts, f, first, calls) {
      EndsOnlyIfSettled(attempts, f, first, calls);
    }
  }

  /** The k-th call of the function returns f(k), and calls before the first have been made already.
      Zero and negative attempts retry without end, so for them some call from here on must settle it. */
  method Retry<E>(attempts: int, sleep: nat, f: nat -> Outcome<E>, first: nat, ghost settled: nat)
      returns (err: Option<E>, calls: nat, slept: nat)
    requires attempts <= 0 ==> first <= settled && !f(settled).Failure?
    ensures EndsAfter(attempts, f, first, calls)
    ensures calls >= 1 && (attempts >= 1 ==> calls <= attempts)
    ensures forall i :: first <= i < first + calls - 1 ==> f(i).Failure?
    ensures f(first + calls - 1).Failure? ==> calls == attempts
    ensures err.None? <==> f(first + calls - 1).Success?
    ensures forall e :: err == Some(e) <==> f(first + calls - 1) == Stop(e) || f(first + calls - 1) == Failure(e)
    ensures slept == sleep * (Pow2(calls - 1) - 1)
    decreases if attempts >= 1 then attempts else settled - first
  {
    var outcome := f(first);
    match outcome
    case Success => return None, 1, 0;
    case Stop(inner) => return Some(inner), 1, 0;
    case Failure(e) =>
      if attempts - 1 > 0 || attempts - 1 < 0 {
        var laterCalls, laterSlept;
        err, laterCalls, laterSlept := Retry(attempts - 1, 2 * sleep, f, first + 1, settled);
        calls, slept := 1 + laterCalls, sleep + laterSlept;
        DoubledPauses(sleep, laterCalls);
      } else {
        return Some(e), 1, 0;
      }
  }

  lemma DoubledPauses(sleep: nat, calls: nat)
    requires calls >= 1
    ensures sleep + 2 * sleep * (Pow2(calls - 1) - 1) == sleep * (Pow2(calls) - 1)
  {
    assert Pow2(calls) == 2 * Pow2(calls - 1);
    assert 2 * sleep * (Pow2(calls - 1) - 1) == sleep * (2 * Pow2(calls - 1) - 2);
  }

  lemma {:induction false} Pow2Monotone(m: nat, n: nat)
    requires m <= n
    ensures Pow2(m) <= Pow2(n)
  {
    if m < n {
      Pow2Monotone(m, n - 1);
    }
  }
}

/** How long Acquire waits for a lock nobody else touches: pkg/util/lock/lock.go. Times are in nanoseconds. */
module LockTiming {
  import opened Wrappers
  import opened Retrying
  import opened LockProtocol

  datatype AcquireError = TimedOut | AlreadyExists

  /** When the k-th attempt is made, the calls themselves taking no time. */
  function AttemptTime(start: int, k: nat): int {
    start + SECOND * (Pow2(k) - 1)
  }

  /** A contender regards the lock as up for removal. */
  predicate Stale(c: Contender, found: ConfigMap, t: int) {
    match found.expiresAt
    case None => Timed(c)
    case Some(e) => t > e * SECOND
  }

  /** One pass through the function that Acquire retries, at time t. */
  function AttemptAt(c: Contender, start: int, existing: Option<ConfigMap>, t: int): Outcome<AcquireError> {
    if existing.None? then Success
    else if Timed(c) && t > start + c.timeout then Stop(TimedOut)
    else if Stale(c, existing.value, t) then Success
    else Failure(AlreadyExists)
  }

  /** The moves one contender makes in one pass when it moves alone. */
  function SoloMoves(who: nat, n: nat): seq<Step> {
    if n == 0 then [] else [Move(who, true)] + SoloMoves(who, n - 1)
  }

  lemma SoloStep(cfg: seq<Contender>, s: State, who: nat, n: nat)
    requires |s.pcs| == |cfg| && n > 0
    ensures Run(cfg, s, SoloMoves(who, n)) == Run(cfg, Next(cfg, s, Move(who, true)), SoloMoves(who, n - 1))
  {
    assert SoloMoves(who, n)[1..] == SoloMoves(who, n - 1);
  }

  /** What a contender that gives up leaves behind: a lock it found expired too late is removed all the same. */
  function LeftBehind(c: Contender, existing: Option<ConfigMap>, t: int): Option<ConfigMap> {
    if existing.Some? && Stale(c, existing.value, t) then None else existing
  }

  /** Where a pass that starts in s ends: the contender's place, and the ConfigMap. */
  ghost predicate SoloEnd(c: Contender, s: State, start: int, pc: Pc, cm: Option<ConfigMap>) {
    match AttemptAt(c, start, s.cm, s.now)
    case Success => var lock := NewAttempt(c, start).cm; pc == Holding(lock) && cm == Some(lock)
    case Stop(_) => pc == Idle && cm == LeftBehind(c, s.cm, s.now)
    case Failure(_) => pc == Sleeping(NewAttempt(c, start)) && cm == s.cm
  }

  /** From the expiry check on: two moves end a pass that comes too late, three end any other. */
  lemma PassFromCheckTimeout(cfg: seq<Contender>, s: State, who: nat, a: Attempt) returns (n: nat)
    requires who < |cfg| == |s.pcs| && s.pcs[who] == CheckTimeout(a)
    ensures var t := Run(cfg, s, SoloMoves(who, n));
            if Timed(cfg[who]) && s.now > a.failTimeout then t.pcs[who] == Idle && t.cm == s.cm
            else if s.cm.None? then t.pcs[who] == Holding(a.cm) && t.cm == Some(a.cm)
            else t.pcs[who] == Sleeping(a) && t.cm == s.cm
  {
    var s1 := Next(cfg, s, Move(who, true));
    SoloStep(cfg, s, who, 1);
    SoloStep(cfg, s, who, 2);
    SoloStep(cfg, s1, who, 1);
    n := if Timed(cfg[who]) && s.now > a.failTimeout then 1 else 2;
  }

  lemma PassFromCheckExpiry(cfg: seq<Contender>, s: State, who: nat, start: int) returns (n: nat)
    requires who < |cfg| == |s.pcs| && s.cm.Some?
    requires s.pcs[who] == CheckExpiry(NewAttempt(cfg[who], start), s.cm.value)
    ensures SoloEnd(cfg[who], s, start, Run(cfg, s, SoloMoves(who, n)).pcs[who], Run(cfg, s, SoloMoves(who, n)).cm)
  {
    var a := NewAttempt(cfg[who], start);
    var s1 := Next(cfg, s, Move(who, true));
    var s2 := Next(cfg, s1, Move(who, true));
    if Stale(cfg[who], s.cm.value, s.now) {
      assert s1.pcs[who] == DeleteStale(a) && s1.cm == s.cm && s1.now == s.now;
      assert s2.pcs[who] == CheckTimeout(a) && s2.cm == None && s2.now == s.now;
      var k := PassFromCheckTimeout(cfg, s2, who, a);
      SoloStep(cfg, s, who, k + 2);
      SoloStep(cfg, s1, who, k + 1);
      n := k + 2;
    } else {
      assert s1.pcs[who] == CheckTimeout(a) && s1.cm == s.cm && s1.now == s.now;
      var k := PassFromCheckTimeout(cfg, s1, who, a);
      SoloStep(cfg, s, who, k + 1);
      n := k + 1;
    }
  }

  /** A pass is what the interleaved protocol does when only this contender moves: it ends in possession,
      gives up, or goes to sleep exactly as AttemptAt says. */
  lemma AttemptIsASoloRun(cfg: seq<Contender>, s: State, who: nat, start: int)
    requires who < |cfg| == |s.pcs| && s.pcs[who] == CreateLock(NewAttempt(cfg[who], start))
    ensures exists n: nat ::
      SoloEnd(cfg[who], s, start, Run(cfg, s, SoloMoves(who, n)).pcs[who], Run(cfg, s, SoloMoves(who, n)).cm)
  {
    var n: nat;
    var a := NewAttempt(cfg[who], start);
    var s1 := Next(cfg, s, Move(who, true));
    if s.cm.None? {
      SoloStep(cfg, s, who, 1);
      n := 1;
    } else {
      assert s1.pcs[who] == GetLock(a) && s1.cm == s.cm && s1.now == s.now;
      var s2 := Next(cfg, s1, Move(who, true));
      assert s2.pcs[who] == CheckExpiry(a, s.cm.value) && s2.cm == s.cm && s2.now == s.now;
      var k := PassFromCheckExpiry(cfg, s2, who, start);
      SoloStep(cfg, s, who, k + 2);
      SoloStep(cfg, s1, who, k + 1);
      n := k + 2;
    }
    assert SoloEnd(cfg[who], s, start, Run(cfg, s, SoloMoves(who, n)).pcs[who], Run(cfg, s, SoloMoves(who, n)).cm);
  }

  /** At this attempt the lock is free for the taking and the limit has not passed. */
  ghost predicate Available(c: Contender, start: int, existing: Option<ConfigMap>, k: nat) {
    var t := AttemptTime(start, k);
    existing.None? || (Stale(c, existing.value, t) && (Timed(c) ==> t <= start + c.timeout))
  }

  lemma EventuallyAfter(start: int, deadline: int) returns (k: nat)
    ensures AttemptTime(start, k) > deadline
  {
    k := if deadline - start > 0 then deadline - start else 1;
    assert SECOND * (Pow2(k) - 1) >= Pow2(k) - 1;
    if k == 1 {
      assert Pow2(1) == 2 * Pow2(0);
    } else {
      assert Pow2(k) == 2 * Pow2(k - 1);
    }
  }

  /** Exactly an untimed contender before a lock without expiry is told to try again for ever. */
  lemma NeverSettles(c: Contender, start: int, existing: Option<ConfigMap>)
    ensures (forall k: nat :: AttemptAt(c, start, existing, AttemptTime(start, k)).Failure?)
       <==> existing.Some? && existing.value.expiresAt.None? && !Timed(c)
  {
    if existing.None? {
      assert !AttemptAt(c, start, existing, AttemptTime(start, 0)).Failure?;
    } else if Timed(c) || existing.value.expiresAt.Some? {
      var k := EventuallyAfter(start, if Timed(c) then start + c.timeout else existing.value.expiresAt.value * SECOND);
      assert !AttemptAt(c, start, existing, AttemptTime(start, k)).Failure?;
    }
  }

  lemma EarlierAttempt(start: int, i: nat, j: nat)
    requires i <= j
    ensures AttemptTime(start, i) <= AttemptTime(start, j)
  {
    Pow2Monotone(i, j);
  }

  lemma NextAttempt(start: int, k: nat)
    ensures AttemptTime(start, k + 1) - start == 2 * (AttemptTime(start, k) - start) + SECOND
  {
  }

  /** The cluster as far as one lock name goes: its ConfigMap and the clock. */
  class Cluster {
    var cm: Option<ConfigMap>
    var now: int

    constructor (cm: Option<ConfigMap>, now: int)
      ensures this.cm == cm && this.now == now
    {
      this.cm, this.now := cm, now;
    }
  }

  datatype ReleaseError = NotOwner | ApiError

  class Lock {
    const client: Cluster
    const self: Contender

    constructor (client: Cluster, self: Contender)
      ensures this.client == client && this.self == self
    {
      this.client, this.self := client, self;
    }

    /** Acquire against a lock its holder never releases: it succeeds exactly when one of the attempts, made after
        0, 1, 3, 7, ... seconds, finds the lock expired within the limit; otherwise it gives up after the limit and
        no later than twice the limit and a second. Without a limit and an expiry it would wait forever. */
    method Acquire() returns (err: Option<AcquireError>, attempts: nat)
      requires Timed(self) || client.cm.None? || client.cm.value.expiresAt.Some?
      modifies client
      ensures attempts >= 1 && client.now == AttemptTime(old(client.now), attempts - 1)
      ensures err.None? <==> exists k: nat :: Available(self, old(client.now), old(client.cm), k)
      ensures err.None? ==> Available(self, old(client.now), old(client.cm), attempts - 1)
      ensures forall k: nat :: k < attempts - 1 ==> !Available(self, old(client.now), old(client.cm), k)
      ensures err.Some? ==> err == Some(TimedOut) && Timed(self)
      ensures err.None? ==> client.cm.Some? && client.cm.value.owner == self.pod
      ensures err.None? && self.timeout <= 0 ==> client.cm.value.expiresAt.None?
      ensures err.None? && self.timeout > 0 ==>
        var deadline := old(client.now) + self.timeout;
        && client.cm.value.expiresAt.Some?
        && deadline - 1_000_000_000 < client.cm.value.expiresAt.value * 1_000_000_000 <= deadline
      ensures err.Some? ==> self.timeout < client.now - old(client.now) <= 2 * self.timeout + SECOND
      ensures err.None? && attempts > 1 ==> old(client.cm.Some? && client.cm.value.expiresAt.Some?)
      ensures err.None? && attempts > 1 ==>
        client.now - old(client.now) <= 2 * (old(client.cm.value.expiresAt.value) * SECOND - old(client.now)) + SECOND
      ensures client.cm == if err.None? then Some(NewAttempt(self, old(client.now)).cm)
                           else LeftBehind(self, old(client.cm), client.now)
    {
      var c, start, existing := self, client.now, client.cm;
      var f: nat -> Outcome<AcquireError> := (k: nat) => AttemptAt(c, start, existing, AttemptTime(start, k));
      ghost var settled := 0;
      if existing.Some? {
        var horizon := if Timed(c) then start + c.timeout else existing.value.expiresAt.value * SECOND;
        settled := EventuallyAfter(start, horizon);
      }
      var waited;
      err, attempts, waited := Retry(-1, SECOND, f, 0, settled);
      assert forall k: nat :: f(k) == AttemptAt(c, start, existing, AttemptTime(start, k));
      FirstSettled(c, start, existing, attempts);
      LockOfAttempt(c, start);
      client.now := start + waited;
      client.cm := if err.None? then Some(NewAttempt(c, start).cm) else LeftBehind(c, existing, client.now);
    }

    /** Deletes the lock when this pod's reference is on it, and reports anyone else's; getUp and deleteUp tell whether
        the API answers. */
    method Release(getUp: bool, deleteUp: bool) returns (err: Option<ReleaseError>)
      modifies client`cm
      ensures err == Some(NotOwner) <==> getUp && old(client.cm.Some?) && old(client.cm.value.owner) != self.pod
      ensures err == Some(ApiError) <==>
        !getUp || (!deleteUp && old(client.cm.Some?) && old(client.cm.value.owner) == self.pod)
      ensures client.cm == if err.Some? then old(client.cm) else None
    {
      if !getUp {
        return Some(ApiError);
      }
      if client.cm.None? {
        return None;
      }
      if client.cm.value.owner != self.pod {
        return Some(NotOwner);
      }
      if !deleteUp {
        return Some(ApiError);
      }
      client.cm := None;
      return None;
    }
  }

  /** The first attempt that is not told to try again either takes the lock or comes too late. */
  lemma FirstSettled(c: Contender, start: int, existing: Option<ConfigMap>, attempts: nat)
    requires attempts >= 1
    requires forall k: nat :: k < attempts - 1 ==> AttemptAt(c, start, existing, AttemptTime(start, k)).Failure?
    requires !AttemptAt(c, start, existing, AttemptTime(start, attempts - 1)).Failure?
    ensures var o := AttemptAt(c, start, existing, AttemptTime(start, attempts - 1));
            var waited := AttemptTime(start, attempts - 1) - start;
            && (o.Success? <==> exists k: nat :: Available(c, start, existing, k))
            && (o.Success? ==> Available(c, start, existing, attempts - 1))
            && (forall k: nat :: k < attempts - 1 ==> !Available(c, start, existing, k))
            && (o.Stop? ==> Timed(c) && c.timeout < waited <= 2 * c.timeout + SECOND)
            && (o.Success? && attempts > 1 ==> existing.Some? && existing.value.expiresAt.Some?)
            && (o.Success? && attempts > 1 ==> waited <= 2 * (existing.value.expiresAt.value * SECOND - start) + SECOND)
  {
    var last: nat := attempts - 1;
    forall k: nat | k < last ensures !Available(c, start, existing, k) {
      assert AttemptAt(c, start, existing, AttemptTime(start, k)).Failure?;
    }
    if AttemptAt(c, start, existing, AttemptTime(start, last)).Stop? {
      forall k: nat ensures !Available(c, start, existing, k) {
        if k >= last {
          EarlierAttempt(start, last, k);
        }
      }
    } else {
      assert Available(c, start, existing, last);
    }
    if last > 0 {
      NextAttempt(start, last - 1);
      assert AttemptAt(c, start, existing, AttemptTime(start, last - 1)).Failure?;
    }
  }
}
