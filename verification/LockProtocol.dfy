/** The ConfigMap lock under contention: every API call of pkg/util/lock/lock.go is one atomic step,
    and any number of contenders interleave in any order, any number of times. */
module LockProtocol {
  import opened Wrappers

  const SECOND := 1_000_000_000

  /** A user of the lock: the pod it runs in and the timeout it passes, in nanoseconds; none unless positive. */
  datatype Contender = Contender(pod: nat, timeout: int)

  /** The lock's ConfigMap: the pod in its owner reference, and its expiry in Unix seconds. */
  datatype ConfigMap = ConfigMap(owner: nat, expiresAt: Option<int>)

  /** What one call to Acquire fixes at its start. */
  datatype Attempt = Attempt(cm: ConfigMap, failTimeout: int)

  /** Where a contender stands, named after the call it makes next; from Holding on with the lock it created. */
  datatype Pc =
    | Idle
    | CreateLock(a: Attempt)
    | GetLock(a: Attempt)
    | CheckExpiry(a: Attempt, found: ConfigMap)
    | DeleteStale(a: Attempt)
    | CheckTimeout(a: Attempt)
    | RecreateLock(a: Attempt)
    | Sleeping(a: Attempt)
    | Holding(lock: ConfigMap)
    | ReleaseGet(lock: ConfigMap)
    | ReleaseDelete(lock: ConfigMap)
    | ReleaseFailed  // Release returned an error and the contender is done

  datatype State = State(now: int, cm: Option<ConfigMap>, pcs: seq<Pc>)

  /** Time passes, or a contender moves; up tells whether its API call gets through. */
  datatype Step = Tick(elapsed: nat) | Move(who: nat, up: bool)

  function Timed(c: Contender): bool {
    c.timeout > 0
  }

  function NewAttempt(c: Contender, now: int): Attempt {
    Attempt(ConfigMap(c.pod, if Timed(c) then Some((now + c.timeout) / SECOND) else None), now + c.timeout)
  }

  function AfterCreate(s: State, who: nat, a: Attempt, refused: Pc): State
    requires who < |s.pcs|
  {
    if s.cm.None? then s.(cm := Some(a.cm), pcs := s.pcs[who := Holding(a.cm)])
    else s.(pcs := s.pcs[who := refused])
  }

  /** The code after a successful Get decides without calling the API. */
  function ExpiryVerdict(c: Contender, now: int, a: Attempt, found: ConfigMap): Pc {
    match found.expiresAt
    case None => if Timed(c) then DeleteStale(a) else CheckTimeout(a)
    case Some(e) => if now > e * SECOND then DeleteStale(a) else CheckTimeout(a)
  }

  function Moved(c: Contender, s: State, who: nat, up: bool): State
    requires who < |s.pcs|
  {
    match s.pcs[who]
    case Idle => s.(pcs := s.pcs[who := CreateLock(NewAttempt(c, s.now))])
    case CreateLock(a) => if up then AfterCreate(s, who, a, GetLock(a)) else s.(pcs := s.pcs[who := Sleeping(a)])
    case GetLock(a) =>
      if !up then s.(pcs := s.pcs[who := Sleeping(a)])
      else if s.cm.None? then s.(pcs := s.pcs[who := RecreateLock(a)])
      else s.(pcs := s.pcs[who := CheckExpiry(a, s.cm.value)])
    case CheckExpiry(a, found) => s.(pcs := s.pcs[who := ExpiryVerdict(c, s.now, a, found)])
    case DeleteStale(a) =>
      if up then s.(cm := None, pcs := s.pcs[who := CheckTimeout(a)]) else s.(pcs := s.pcs[who := Sleeping(a)])
    case CheckTimeout(a) =>
      s.(pcs := s.pcs[who := if Timed(c) && s.now > a.failTimeout then Idle else RecreateLock(a)])
    case RecreateLock(a) => if up then AfterCreate(s, who, a, Sleeping(a)) else s.(pcs := s.pcs[who := Sleeping(a)])
    case Sleeping(a) => s.(pcs := s.pcs[who := CreateLock(a)])
    case Holding(lock) => s.(pcs := s.pcs[who := ReleaseGet(lock)])
    case ReleaseGet(lock) =>
      if !up then s.(pcs := s.pcs[who := ReleaseFailed])
      else if s.cm.None? then s.(pcs := s.pcs[who := Idle])
      else s.(pcs := s.pcs[who := if s.cm.value.owner == c.pod then ReleaseDelete(lock) else ReleaseFailed])
    case ReleaseDelete(_) =>
      if up then s.(cm := None, pcs := s.pcs[who := Idle]) else s.(pcs := s.pcs[who := ReleaseFailed])
    case ReleaseFailed => s
  }

  function Next(cfg: seq<Contender>, s: State, step: Step): State
    requires |s.pcs| == |cfg|
  {
    match step
    case Tick(elapsed) => s.(now := s.now + elapsed)
    case Move(who, up) => if who < |cfg| then Moved(cfg[who], s, who, up) else s
  }

  function AllIdle(n: nat): (pcs: seq<Pc>)
    ensures |pcs| == n && forall i :: 0 <= i < n ==> pcs[i] == Idle
  {
    if n == 0 then [] else AllIdle(n - 1) + [Idle]
  }

  function Init(cfg: seq<Contender>, now: int): State {
    State(now, None, AllIdle(|cfg|))
  }

  function Run(cfg: seq<Contender>, s: State, steps: seq<Step>): (r: State)
    requires |s.pcs| == |cfg|
    ensures |r.pcs| == |cfg|
    decreases |steps|
  {
    if steps == [] then s else Run(cfg, Next(cfg, s, steps[0]), steps[1..])
  }

  /** Between a successful Acquire and the Delete in its Release. */
  predicate InPossession(pc: Pc) {
    pc.Holding? || pc.ReleaseGet? || pc.ReleaseDelete?
  }

  /** Also counting a contender whose Release failed, which leaves its ConfigMap behind. */
  predicate Occupies(pc: Pc) {
    InPossession(pc) || pc.ReleaseFailed?
  }

  ghost predicate Exclusive(s: State) {
    forall i, j :: 0 <= i < |s.pcs| && 0 <= j < |s.pcs| && InPossession(s.pcs[i]) && InPossession(s.pcs[j]) ==> i == j
  }

  /** In possession, and no one may consider the lock it created expired yet. */
  predicate HoldsUnexpired(pc: Pc, now: int) {
    InPossession(pc) && (pc.lock.expiresAt.Some? ==> now <= pc.lock.expiresAt.value * SECOND)
  }

  /** The least one would ask for: a lock that has not expired excludes every other that has not. */
  ghost predicate UnexpiredExclusive(s: State) {
    forall i, j ::
      0 <= i < |s.pcs| && 0 <= j < |s.pcs| && HoldsUnexpired(s.pcs[i], s.now) && HoldsUnexpired(s.pcs[j], s.now)
      ==> i == j
  }

  ghost predicate AllUntimed(cfg: seq<Contender>) {
    forall c <- cfg :: !Timed(c)
  }

  /** Inside Acquire. */
  predicate Acquiring(pc: Pc) {
    || pc.CreateLock? || pc.GetLock? || pc.CheckExpiry? || pc.DeleteStale?
    || pc.CheckTimeout? || pc.RecreateLock? || pc.Sleeping?
  }

  ghost predicate AttemptUntimed(pc: Pc) {
    && (Acquiring(pc) ==> pc.a.cm.expiresAt.None?)
    && (pc.CheckExpiry? ==> pc.found.expiresAt.None?)
    && !pc.DeleteStale?
  }

  /** Untimed contenders: the ConfigMap is there exactly while one contender occupies it, and names its pod. */
  ghost predicate Inv(cfg: seq<Contender>, s: State) {
    AttemptsInv(cfg, s) && OccupantInv(cfg, s)
  }

  ghost predicate AttemptsInv(cfg: seq<Contender>, s: State) {
    && |s.pcs| == |cfg|
    && (forall i :: 0 <= i < |cfg| ==> AttemptUntimed(s.pcs[i]))
    && (forall i :: 0 <= i < |cfg| ==> AttemptOwn(cfg[i], s.pcs[i]))
    && (s.cm.Some? ==> s.cm.value.expiresAt.None?)
  }

  ghost predicate OccupantInv(cfg: seq<Contender>, s: State) {
    && |s.pcs| == |cfg|
    && (forall i, j :: 0 <= i < |cfg| && 0 <= j < |cfg| && Occupies(s.pcs[i]) && Occupies(s.pcs[j]) ==> i == j)
    && (forall i :: 0 <= i < |cfg| && Occupies(s.pcs[i]) ==> s.cm.Some? && s.cm.value.owner == cfg[i].pod)
    && (s.cm.Some? ==> exists i :: 0 <= i < |cfg| && Occupies(s.pcs[i]))
  }

  ghost predicate AttemptOwn(c: Contender, pc: Pc) {
    Acquiring(pc) ==> pc.a.cm.owner == c.pod
  }

  lemma NextKeepsAttempts(cfg: seq<Contender>, s: State, step: Step)
    requires AllUntimed(cfg) && AttemptsInv(cfg, s)
    ensures AttemptsInv(cfg, Next(cfg, s, step))
  {
    if step.Move? && step.who < |cfg| {
      var t := Next(cfg, s, step);
      assert !Timed(cfg[step.who]);
      assert forall i :: 0 <= i < |cfg| && i != step.who ==> t.pcs[i] == s.pcs[i];
    }
  }

  lemma NextKeepsInv(cfg: seq<Contender>, s: State, step: Step)
    requires AllUntimed(cfg) && Inv(cfg, s)
    ensures Inv(cfg, Next(cfg, s, step))
  {
    NextKeepsAttempts(cfg, s, step);
    if step.Move? && step.who < |cfg| {
      var t := Next(cfg, s, step);
      assert !Timed(cfg[step.who]);
      assert forall i :: 0 <= i < |cfg| && i != step.who ==> t.pcs[i] == s.pcs[i];
      if s.cm.Some? {
        var k :| 0 <= k < |cfg| && Occupies(s.pcs[k]);
        assert k != step.who ==> Occupies(t.pcs[k]);
      }
      if t.cm.Some? && s.cm.None? {
        assert Occupies(t.pcs[step.who]);
      }
    }
  }

  lemma {:induction false} RunKeepsInv(cfg: seq<Contender>, s: State, steps: seq<Step>)
    requires AllUntimed(cfg) && Inv(cfg, s)
    ensures Inv(cfg, Run(cfg, s, steps))
    decreases |steps|
  {
    if steps != [] {
      NextKeepsInv(cfg, s, steps[0]);
      RunKeepsInv(cfg, Next(cfg, s, steps[0]), steps[1..]);
    }
  }

  /** Without expiry, in every interleaving, API failures included: at most one contender is in possession, and the
      ConfigMap exists exactly when one is, or when one failed to release it. */
  lemma MutualExclusion(cfg: seq<Contender>, now: int, steps: seq<Step>)
    requires AllUntimed(cfg)
    ensures var s := Run(cfg, Init(cfg, now), steps);
            && Exclusive(s)
            && (s.cm.Some? <==> exists pc <- s.pcs :: Occupies(pc))
            && forall i :: 0 <= i < |cfg| && Occupies(s.pcs[i]) ==> s.cm.Some? && s.cm.value.owner == cfg[i].pod
  {
    RunKeepsInv(cfg, Init(cfg, now), steps);
    var s := Run(cfg, Init(cfg, now), steps);
    if s.cm.Some? {
      var k :| 0 <= k < |cfg| && Occupies(s.pcs[k]);
      assert s.pcs[k] in s.pcs;
    }
  }

  /** An untimed contender's Release only fails when the API does: it never meets another pod's lock. */
  lemma ReleaseFindsOwnLock(cfg: seq<Contender>, now: int, steps: seq<Step>, who: nat)
    requires AllUntimed(cfg) && who < |cfg|
    ensures var s := Run(cfg, Init(cfg, now), steps);
            s.pcs[who].ReleaseGet? ==> Next(cfg, s, Move(who, true)).pcs[who].ReleaseDelete?
  {
    RunKeepsInv(cfg, Init(cfg, now), steps);
  }

  lemma {:induction false} RunAppend(cfg: seq<Contender>, s: State, xs: seq<Step>, ys: seq<Step>)
    requires |s.pcs| == |cfg|
    ensures Run(cfg, s, xs + ys) == Run(cfg, Run(cfg, s, xs), ys)
    decreases |xs|
  {
    if xs == [] {
      assert xs + ys == ys;
    } else {
      assert (xs + ys)[0] == xs[0] && (xs + ys)[1..] == xs[1..] + ys;
      RunAppend(cfg, Next(cfg, s, xs[0]), xs[1..], ys);
    }
  }

  /** The lock an attempt makes names the contender's pod. With a timeout it expires on the last full second before the
      timeout is over, counted from the start of the attempt; without one it never does. */
  lemma LockOfAttempt(c: Contender, start: int)
    ensures NewAttempt(c, start).cm.owner == c.pod
    ensures c.timeout > 0 ==>
      var e := NewAttempt(c, start).cm.expiresAt;
      e.Some? && start + c.timeout - 1_000_000_000 < e.value * 1_000_000_000 <= start + c.timeout
    ensures c.timeout <= 0 ==> NewAttempt(c, start).cm.expiresAt.None?
    ensures NewAttempt(c, start).failTimeout == start + c.timeout
  {
  }

  /** Whoever finds a lock removes it once its holder's timeout is over and not before the last second of it; a lock of
      an untimed holder is removed at once by a timed contender, and never by another. */
  lemma StaleAfterTimeout(holder: Contender, start: int, c: Contender, a: Attempt, now: int)
    ensures var verdict := ExpiryVerdict(c, now, a, NewAttempt(holder, start).cm);
      && verdict in {DeleteStale(a), CheckTimeout(a)}
      && (holder.timeout > 0 && now > start + holder.timeout ==> verdict == DeleteStale(a))
      && (holder.timeout > 0 && now <= start + holder.timeout - 1_000_000_000 ==> verdict == CheckTimeout(a))
      && (holder.timeout <= 0 ==> (verdict == DeleteStale(a) <==> c.timeout > 0))
  {
    LockOfAttempt(holder, start);
  }

  function Moves(who: nat, n: nat): seq<Step> {
    if n == 0 then [] else [Move(who, true)] + Moves(who, n - 1)
  }

  lemma {:induction false} MovesAppend(who: nat, m: nat, n: nat)
    ensures Moves(who, m + n) == Moves(who, m) + Moves(who, n)
  {
    if m > 0 {
      MovesAppend(who, m - 1, n);
    }
  }

  lemma {:induction false} FirstMove(cfg: seq<Contender>, s: State, who: nat, n: nat)
    requires |s.pcs| == |cfg| && n > 0
    ensures Run(cfg, s, Moves(who, n)) == Run(cfg, Next(cfg, s, Move(who, true)), Moves(who, n - 1))
  {
    assert Moves(who, n)[1..] == Moves(who, n - 1);
  }

  lemma {:induction false} OneTick(cfg: seq<Contender>, s: State, elapsed: nat)
    requires |s.pcs| == |cfg|
    ensures Run(cfg, s, [Tick(elapsed)]) == s.(now := s.now + elapsed)
  {
    assert Run(cfg, Next(cfg, s, Tick(elapsed)), []) == Next(cfg, s, Tick(elapsed));
  }

  lemma {:induction false} Acquires(cfg: seq<Contender>, s: State, who: nat)
    requires |s.pcs| == |cfg| && who < |cfg| && s.pcs[who] == Idle && s.cm.None?
    ensures var lock := NewAttempt(cfg[who], s.now).cm;
      Run(cfg, s, Moves(who, 2)) == s.(cm := Some(lock), pcs := s.pcs[who := Holding(lock)])
  {
    var a := NewAttempt(cfg[who], s.now);
    var s1 := s.(pcs := s.pcs[who := CreateLock(a)]);
    assert Next(cfg, s1, Move(who, true)) == s.(cm := Some(a.cm), pcs := s.pcs[who := Holding(a.cm)]);
    FirstMove(cfg, s, who, 2);
    FirstMove(cfg, s1, who, 1);
  }

  lemma {:induction false} FindsStale(cfg: seq<Contender>, s: State, who: nat)
    requires |s.pcs| == |cfg| && who < |cfg| && s.pcs[who] == Idle && Timed(cfg[who])
    requires s.cm.Some? && (s.cm.value.expiresAt.Some? ==> s.now > s.cm.value.expiresAt.value * SECOND)
    ensures Run(cfg, s, Moves(who, 4)) == s.(pcs := s.pcs[who := DeleteStale(NewAttempt(cfg[who], s.now))])
  {
    var a, m := NewAttempt(cfg[who], s.now), Move(who, true);
    var s1 := s.(pcs := s.pcs[who := CreateLock(a)]);
    var s2 := s.(pcs := s.pcs[who := GetLock(a)]);
    var s3 := s.(pcs := s.pcs[who := CheckExpiry(a, s.cm.value)]);
    assert Next(cfg, s1, m) == s2 && Next(cfg, s2, m) == s3;
    assert Next(cfg, s3, m) == s.(pcs := s.pcs[who := DeleteStale(a)]);
    FirstMove(cfg, s, who, 4);
    FirstMove(cfg, s1, who, 3);
    FirstMove(cfg, s2, who, 2);
    FirstMove(cfg, s3, who, 1);
  }

  lemma {:induction false} Replaces(cfg: seq<Contender>, s: State, who: nat, a: Attempt)
    requires |s.pcs| == |cfg| && who < |cfg| && s.pcs[who] == DeleteStale(a) && s.now <= a.failTimeout
    ensures Run(cfg, s, Moves(who, 3)) == s.(cm := Some(a.cm), pcs := s.pcs[who := Holding(a.cm)])
  {
    var m := Move(who, true);
    var s1 := s.(cm := None, pcs := s.pcs[who := CheckTimeout(a)]);
    var s2 := s.(cm := None, pcs := s.pcs[who := RecreateLock(a)]);
    assert Next(cfg, s, m) == s1 && Next(cfg, s1, m) == s2;
    assert Next(cfg, s2, m) == s.(cm := Some(a.cm), pcs := s.pcs[who := Holding(a.cm)]);
    FirstMove(cfg, s, who, 3);
    FirstMove(cfg, s1, who, 2);
    FirstMove(cfg, s2, who, 1);
  }

  lemma {:induction false} Releases(cfg: seq<Contender>, s: State, who: nat)
    requires |s.pcs| == |cfg| && who < |cfg| && s.pcs[who].Holding?
    requires s.cm.Some? && s.cm.value.owner == cfg[who].pod
    ensures Run(cfg, s, Moves(who, 3)) == s.(cm := None, pcs := s.pcs[who := Idle])
  {
    var m, lock := Move(who, true), s.pcs[who].lock;
    var s1 := s.(pcs := s.pcs[who := ReleaseGet(lock)]);
    var s2 := s.(pcs := s.pcs[who := ReleaseDelete(lock)]);
    assert Next(cfg, s, m) == s1 && Next(cfg, s1, m) == s2;
    assert Next(cfg, s2, m) == s.(cm := None, pcs := s.pcs[who := Idle]);
    FirstMove(cfg, s, who, 3);
    FirstMove(cfg, s1, who, 2);
    FirstMove(cfg, s2, who, 1);
  }

  /** A failed call changes nothing in the cluster: Acquire sleeps and tries again with the same attempt, Release gives
      up. */
  lemma FailedCall(cfg: seq<Contender>, s: State, who: nat)
    requires |s.pcs| == |cfg| && who < |cfg|
    ensures var t := Next(cfg, s, Move(who, false));
      match s.pcs[who]
      case CreateLock(a) => t == s.(pcs := s.pcs[who := Sleeping(a)])
      case GetLock(a) => t == s.(pcs := s.pcs[who := Sleeping(a)])
      case DeleteStale(a) => t == s.(pcs := s.pcs[who := Sleeping(a)])
      case RecreateLock(a) => t == s.(pcs := s.pcs[who := Sleeping(a)])
      case ReleaseGet(_) => t == s.(pcs := s.pcs[who := ReleaseFailed])
      case ReleaseDelete(_) => t == s.(pcs := s.pcs[who := ReleaseFailed])
      case _ => t == Next(cfg, s, Move(who, true))
  {
  }

  /** The most moves a contender alone makes in Acquire before it tries to create the lock. */
  function MovesToCreate(pc: Pc): nat {
    if pc.CheckExpiry? then 3
    else if pc.DeleteStale? then 2
    else if pc.GetLock? || pc.CheckTimeout? || pc.Sleeping? then 1
    else 0
  }

  /** Wherever in Acquire a contender stands, alone it takes a lock that is free by then, unless its time is over. */
  lemma {:induction false} FreeLockIsTaken(cfg: seq<Contender>, s: State, who: nat) returns (n: nat)
    requires |s.pcs| == |cfg| && who < |cfg| && Acquiring(s.pcs[who]) && s.cm.None?
    requires Timed(cfg[who]) ==> s.now <= s.pcs[who].a.failTimeout
    ensures var lock := s.pcs[who].a.cm;
      && n <= MovesToCreate(s.pcs[who]) + 1
      && Run(cfg, s, Moves(who, n)) == s.(cm := Some(lock), pcs := s.pcs[who := Holding(lock)])
    decreases MovesToCreate(s.pcs[who])
  {
    var a := s.pcs[who].a;
    var s' := Next(cfg, s, Move(who, true));
    FirstMove(cfg, s, who, 1);
    if s.pcs[who].CreateLock? || s.pcs[who].RecreateLock? {
      n := 1;
    } else {
      assert s'.pcs[who].a == a && s' == s.(pcs := s.pcs[who := s'.pcs[who]]);
      var k := FreeLockIsTaken(cfg, s', who);
      n := k + 1;
      FirstMove(cfg, s, who, n);
      assert s'.pcs[who := Holding(a.cm)] == s.pcs[who := Holding(a.cm)];
    }
  }

  /** Release alone ends with the lock gone, unless another pod's is in its place: that one stays, with an error. */
  lemma {:induction false} ReleaseEnds(cfg: seq<Contender>, s: State, who: nat)
    requires |s.pcs| == |cfg| && who < |cfg| && s.pcs[who].Holding?
    ensures s.cm.None? ==> Run(cfg, s, Moves(who, 2)) == s.(pcs := s.pcs[who := Idle])
    ensures s.cm.Some? && s.cm.value.owner == cfg[who].pod ==>
      Run(cfg, s, Moves(who, 3)) == s.(cm := None, pcs := s.pcs[who := Idle])
    ensures s.cm.Some? && s.cm.value.owner != cfg[who].pod ==>
      Run(cfg, s, Moves(who, 2)) == s.(pcs := s.pcs[who := ReleaseFailed])
  {
    if s.cm.Some? && s.cm.value.owner == cfg[who].pod {
      Releases(cfg, s, who);
    } else {
      var s1 := Next(cfg, s, Move(who, true));
      var end := if s.cm.None? then Idle else ReleaseFailed;
      assert Next(cfg, s1, Move(who, true)) == s.(pcs := s.pcs[who := end]);
      FirstMove(cfg, s, who, 2);
      FirstMove(cfg, s1, who, 1);
    }
  }

  lemma {:induction false} TakeOverSucceeds(cfg: seq<Contender>, s: State, taker: nat)
    requires |s.pcs| == |cfg| && taker < |cfg| && s.pcs[taker] == Idle && Timed(cfg[taker])
    requires s.cm.Some? && (s.cm.value.expiresAt.Some? ==> s.now > s.cm.value.expiresAt.value * SECOND)
    ensures var lock := NewAttempt(cfg[taker], s.now).cm;
      Run(cfg, s, Moves(taker, 7)) == s.(cm := Some(lock), pcs := s.pcs[taker := Holding(lock)])
  {
    FindsStale(cfg, s, taker);
    var a := NewAttempt(cfg[taker], s.now);
    var found := s.(pcs := s.pcs[taker := DeleteStale(a)]);
    Replaces(cfg, found, taker, a);
    MovesAppend(taker, 4, 3);
    RunAppend(cfg, s, Moves(taker, 4), Moves(taker, 3));
    assert found.pcs[taker := Holding(a.cm)] == s.pcs[taker := Holding(a.cm)];
  }

  /** Whoever found a lock stale removes the next one too: the holder releases and acquires afresh, and the taker, which
      deletes by name, puts its own lock in place of the fresh one. */
  lemma {:induction false} FreshLockIsReplaced(cfg: seq<Contender>, s: State, holder: nat, taker: nat)
    requires |s.pcs| == |cfg| && holder < |cfg| && taker < |cfg| && holder != taker && Timed(cfg[taker])
    requires s.pcs[holder].Holding? && s.pcs[taker] == Idle && s.cm.Some? && s.cm.value.owner == cfg[holder].pod
    requires s.cm.value.expiresAt.Some? ==> s.now > s.cm.value.expiresAt.value * SECOND
    ensures var lock, fresh' := NewAttempt(cfg[taker], s.now).cm, NewAttempt(cfg[holder], s.now).cm;
      Run(cfg, s, Moves(taker, 4) + Moves(holder, 3) + Moves(holder, 2) + Moves(taker, 3))
      == s.(cm := Some(lock), pcs := s.pcs[holder := Holding(fresh')][taker := Holding(lock)])
  {
    var a, b := NewAttempt(cfg[taker], s.now), NewAttempt(cfg[holder], s.now);
    var found := s.(pcs := s.pcs[taker := DeleteStale(a)]);
    var released := s.(cm := None, pcs := found.pcs[holder := Idle]);
    var again := s.(cm := Some(b.cm), pcs := released.pcs[holder := Holding(b.cm)]);
    FindsStale(cfg, s, taker);
    Releases(cfg, found, holder);
    Acquires(cfg, released, holder);
    Replaces(cfg, again, taker, a);
    RunAppend(cfg, s, Moves(taker, 4), Moves(holder, 3));
    RunAppend(cfg, s, Moves(taker, 4) + Moves(holder, 3), Moves(holder, 2));
    RunAppend(cfg, s, Moves(taker, 4) + Moves(holder, 3) + Moves(holder, 2), Moves(taker, 3));
    assert again.pcs[taker := Holding(a.cm)] == s.pcs[holder := Holding(b.cm)][taker := Holding(a.cm)];
  }

  /** The holder acquires on a full second, and the taker comes on the first one after the holder's lock has expired. */
  lemma {:induction false} HeldPastExpiry(cfg: seq<Contender>, now: int, holder: nat)
    returns (steps: seq<Step>, s: State)
    requires holder < |cfg|
    ensures Run(cfg, Init(cfg, now), steps) == s && s.now % SECOND == 0
    ensures s.cm.Some? && s.cm.value.owner == cfg[holder].pod && s.pcs == AllIdle(|cfg|)[holder := Holding(s.cm.value)]
    ensures s.cm.value.expiresAt.Some? ==> s.now > s.cm.value.expiresAt.value * SECOND
  {
    var start := (now / SECOND + 1) * SECOND;
    var lock := NewAttempt(cfg[holder], start).cm;
    var wait := if Timed(cfg[holder]) then (cfg[holder].timeout / SECOND + 1) * SECOND else 0;
    s := State(start + wait, Some(lock), AllIdle(|cfg|)[holder := Holding(lock)]);
    var first, last: seq<Step> := [Tick(start - now)], [Tick(wait)];
    steps := first + Moves(holder, 2) + last;
    OneTick(cfg, Init(cfg, now), start - now);
    Acquires(cfg, Init(cfg, start), holder);
    OneTick(cfg, Init(cfg, start).(cm := s.cm, pcs := s.pcs), wait);
    RunAppend(cfg, Init(cfg, now), first, Moves(holder, 2));
    RunAppend(cfg, Init(cfg, now), first + Moves(holder, 2), last);
  }

  /** A lock made on a full second has not expired there, however short its timeout. */
  lemma FreshLockIsUnexpired(c: Contender, now: int)
    requires now % SECOND == 0
    ensures HoldsUnexpired(Holding(NewAttempt(c, now).cm), now)
  {
  }

  /** A timed contender breaks exclusion, even of unexpired locks, as soon as there is anyone else. */
  lemma {:induction false} UsurpationBreaksExclusion(cfg: seq<Contender>, now: int, holder: nat, taker: nat)
    requires holder < |cfg| && taker < |cfg| && holder != taker && Timed(cfg[taker])
    ensures exists steps :: !UnexpiredExclusive(Run(cfg, Init(cfg, now), steps))
  {
    var before, s := HeldPastExpiry(cfg, now, holder);
    var after := Moves(taker, 4) + Moves(holder, 3) + Moves(holder, 2) + Moves(taker, 3);
    FreshLockIsReplaced(cfg, s, holder, taker);
    RunAppend(cfg, Init(cfg, now), before, after);
    FreshLockIsUnexpired(cfg[holder], s.now);
    FreshLockIsUnexpired(cfg[taker], s.now);
    var t := Run(cfg, Init(cfg, now), before + after);
    assert HoldsUnexpired(t.pcs[holder], t.now) && HoldsUnexpired(t.pcs[taker], t.now);
  }

  /** Exclusion holds in every run exactly when nobody sets a timeout, or nobody else is there; and so it does when only
      locks that have not expired are asked to exclude each other. */
  lemma ExclusionExactly(cfg: seq<Contender>, now: int)
    ensures (forall steps :: Exclusive(Run(cfg, Init(cfg, now), steps))) <==> (|cfg| < 2 || AllUntimed(cfg))
    ensures (forall steps :: UnexpiredExclusive(Run(cfg, Init(cfg, now), steps))) <==> (|cfg| < 2 || AllUntimed(cfg))
  {
    forall steps ensures var s := Run(cfg, Init(cfg, now), steps); Exclusive(s) ==> UnexpiredExclusive(s) {
    }
    if |cfg| < 2 {
    } else if AllUntimed(cfg) {
      forall steps ensures Exclusive(Run(cfg, Init(cfg, now), steps)) {
        MutualExclusion(cfg, now, steps);
      }
    } else {
      var taker :| 0 <= taker < |cfg| && Timed(cfg[taker]);
      var holder := if taker == 0 then 1 else 0;
      UsurpationBreaksExclusion(cfg, now, holder, taker);
    }
  }
}
