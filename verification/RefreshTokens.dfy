/** Refresh tokens under concurrent requests: generateRefreshToken and lookupRefreshToken in pkg/api/api_common.go,
    on one replica, where the engine's lock is the process's mutex. */
module RefreshTokens {
  import opened Wrappers

  type Tokens = map<string, string>

  /** What a request's goroutine is to do. The token of a Generate is the fresh UUID it starts with. */
  datatype Call = Generate(token: string, user: string) | Redeem(token: string)

  datatype Reply = Issued | Redeemed(user: string) | NoSuchToken | Failed

  /** Where a goroutine stands: before Lock, before the read, before the write, before Release, at its end. */
  datatype Pc = Arriving | Reading | Writing(tokens: Tokens) | Releasing(reply: Reply) | Finished(reply: Reply)

  /** A call whose outcome is settled. */
  datatype Commit = Commit(who: nat, reply: Reply)

  /** The mutex's owner, the stored secret, the goroutines, and two logs: who took the lock, and what was settled. */
  datatype State = State(mutex: Option<nat>, stored: Option<Tokens>, pcs: seq<Pc>, locks: seq<nat>, log: seq<Commit>)

  function Settled(s: State, who: nat, stored: Option<Tokens>, reply: Reply): State
    requires who < |s.pcs|
  {
    s.(stored := stored, pcs := s.pcs[who := Releasing(reply)], log := s.log + [Commit(who, reply)])
  }

  /** From the tokens read: what is stored and answered after the write. */
  function Outcome(call: Call, stored: Option<Tokens>, tokens: Tokens, up: bool): (Option<Tokens>, Reply) {
    match call
    case Generate(token, user) => if up then (Some(tokens[token := user]), Issued) else (stored, Failed)
    case Redeem(token) =>
      if token !in tokens then (stored, NoSuchToken)
      else if up then (Some(tokens - {token}), Redeemed(tokens[token]))
      else (stored, Failed)
  }

  /** One goroutine moves; up tells whether its API call succeeds. */
  function Next(calls: seq<Call>, s: State, who: nat, up: bool): State
    requires |s.pcs| == |calls|
  {
    if who >= |calls| then s
    else match s.pcs[who]
      case Arriving =>
        if s.mutex.Some? then s
        else s.(mutex := Some(who), pcs := s.pcs[who := Reading], locks := s.locks + [who])
      case Reading =>
        if !up then Settled(s, who, s.stored, Failed)
        else if s.stored.Some? then s.(pcs := s.pcs[who := Writing(s.stored.value)])
        else if calls[who].Redeem? then Settled(s, who, s.stored, NoSuchToken)
        else s.(pcs := s.pcs[who := Writing(map[])])
      case Writing(tokens) =>
        var (now, reply) := Outcome(calls[who], s.stored, tokens, up);
        Settled(s, who, now, reply)
      case Releasing(reply) => s.(mutex := None, pcs := s.pcs[who := Finished(reply)])
      case Finished(_) => s
  }

  datatype Move = Move(who: nat, up: bool)

  function Run(calls: seq<Call>, s: State, moves: seq<Move>): (r: State)
    requires |s.pcs| == |calls|
    ensures |r.pcs| == |calls|
    decreases |moves|
  {
    if moves == [] then s else Run(calls, Next(calls, s, moves[0].who, moves[0].up), moves[1..])
  }

  function AllArriving(n: nat): (pcs: seq<Pc>)
    ensures |pcs| == n && forall i :: 0 <= i < n ==> pcs[i] == Arriving
  {
    if n == 0 then [] else AllArriving(n - 1) + [Arriving]
  }

  function Init(calls: seq<Call>, stored: Option<Tokens>): State {
    State(None, stored, AllArriving(|calls|), [], [])
  }

  function Held(stored: Option<Tokens>): Tokens {
    if stored.Some? then stored.value else map[]
  }

  /** The outcome of a call that runs alone and meets no API failure. */
  function Alone(call: Call, stored: Option<Tokens>): (Option<Tokens>, Reply) {
    match call
    case Generate(token, user) => (Some(Held(stored)[token := user]), Issued)
    case Redeem(token) =>
      if token in Held(stored) then (Some(Held(stored) - {token}), Redeemed(Held(stored)[token]))
      else (stored, NoSuchToken)
  }

  /** The secret after running the settled calls one after the other; failed ones change nothing. */
  function Replay(calls: seq<Call>, stored: Option<Tokens>, log: seq<Commit>): Option<Tokens>
    requires forall c <- log :: c.who < |calls|
  {
    if log == [] then stored
    else
      var last := log[|log| - 1];
      var before := Replay(calls, stored, log[..|log| - 1]);
      if last.reply == Failed then before else Alone(calls[last.who], before).0
  }

  function Callers(log: seq<Commit>): (r: seq<nat>)
    ensures |r| == |log| && forall i :: 0 <= i < |log| ==> r[i] == log[i].who
  {
    if log == [] then [] else Callers(log[..|log| - 1]) + [log[|log| - 1].who]
  }

  ghost predicate InLock(pc: Pc) {
    pc.Reading? || pc.Writing? || pc.Releasing?
  }

  ghost predicate Settling(pc: Pc) {
    pc.Releasing? || pc.Finished?
  }

  /** Every settled call failed, or answered as it would alone after the calls settled before it. */
  ghost predicate Sequential(calls: seq<Call>, stored: Option<Tokens>, log: seq<Commit>) {
    && (forall c <- log :: c.who < |calls|)
    && forall k :: 0 <= k < |log| ==>
         log[k].reply == Failed || log[k].reply == Alone(calls[log[k].who], Replay(calls, stored, log[..k])).1
  }

  /** The stored secret is what the settled calls made of it. */
  ghost predicate LogInv(calls: seq<Call>, stored: Option<Tokens>, s: State) {
    Sequential(calls, stored, s.log) && s.stored == Replay(calls, stored, s.log)
  }

  /** Whoever is inside holds the mutex, and what it read is still stored. */
  ghost predicate MutexInv(calls: seq<Call>, s: State) {
    && |s.pcs| == |calls|
    && (forall i :: 0 <= i < |calls| ==> (InLock(s.pcs[i]) <==> s.mutex == Some(i)))
    && (s.mutex.Some? ==> s.mutex.value < |calls|)
    && (forall i :: 0 <= i < |calls| && s.pcs[i].Writing? ==>
          s.pcs[i].tokens == Held(s.stored) && (calls[i].Redeem? ==> s.stored.Some?))
  }

  /** The call that holds the mutex and is not settled yet. */
  ghost function Inside(calls: seq<Call>, s: State): seq<nat>
    requires |s.pcs| == |calls|
  {
    if s.mutex.Some? && s.mutex.value < |calls| && !Settling(s.pcs[s.mutex.value]) then [s.mutex.value] else []
  }

  /** Calls are settled once each, in lock order. */
  ghost predicate OrderInv(calls: seq<Call>, s: State) {
    && |s.pcs| == |calls|
    && s.locks == Callers(s.log) + Inside(calls, s)
    && (forall c <- s.log :: c.who < |calls| && Settling(s.pcs[c.who]) && s.pcs[c.who].reply == c.reply)
    && (forall i :: 0 <= i < |calls| && Settling(s.pcs[i]) ==> Commit(i, s.pcs[i].reply) in s.log)
    && OncePerCaller(s.log)
  }

  ghost predicate OncePerCaller(log: seq<Commit>) {
    forall j, k :: 0 <= j < k < |log| ==> log[j].who != log[k].who
  }

  ghost predicate Inv(calls: seq<Call>, stored: Option<Tokens>, s: State) {
    LogInv(calls, stored, s) && MutexInv(calls, s) && OrderInv(calls, s)
  }

  /** Settling a call adds one entry to the log and one outcome to the replay. */
  lemma SequentialAppend(calls: seq<Call>, stored: Option<Tokens>, log: seq<Commit>, who: nat, reply: Reply)
    requires Sequential(calls, stored, log) && who < |calls|
    requires reply == Failed || reply == Alone(calls[who], Replay(calls, stored, log)).1
    ensures Sequential(calls, stored, log + [Commit(who, reply)])
    ensures Replay(calls, stored, log + [Commit(who, reply)])
         == if reply == Failed then Replay(calls, stored, log) else Alone(calls[who], Replay(calls, stored, log)).0
  {
    var log' := log + [Commit(who, reply)];
    assert log'[..|log|] == log;
    forall k | 0 <= k < |log| ensures log'[..k] == log[..k] {
    }
  }

  lemma SettleKeepsLogInv(calls: seq<Call>, stored: Option<Tokens>, s: State, who: nat, now: Option<Tokens>,
                          reply: Reply)
    requires LogInv(calls, stored, s) && |s.pcs| == |calls| && who < |calls|
    requires (now, reply) in {(s.stored, Failed), Alone(calls[who], s.stored)}
    ensures LogInv(calls, stored, Settled(s, who, now, reply))
  {
    SequentialAppend(calls, stored, s.log, who, reply);
  }

  lemma NextKeepsLogInv(calls: seq<Call>, stored: Option<Tokens>, s: State, who: nat, up: bool)
    requires LogInv(calls, stored, s) && MutexInv(calls, s)
    ensures LogInv(calls, stored, Next(calls, s, who, up))
  {
    if who < |calls| && InLock(s.pcs[who]) {
      SettleKeepsLogInv(calls, stored, s, who, s.stored, Failed);
      SettleKeepsLogInv(calls, stored, s, who, Alone(calls[who], s.stored).0, Alone(calls[who], s.stored).1);
    }
  }

  lemma NextKeepsMutexInv(calls: seq<Call>, s: State, who: nat, up: bool)
    requires MutexInv(calls, s)
    ensures MutexInv(calls, Next(calls, s, who, up))
  {
    if who < |calls| {
      var t := Next(calls, s, who, up);
      assert forall i :: 0 <= i < |calls| && i != who ==> t.pcs[i] == s.pcs[i];
    }
  }

  lemma SettleKeepsOrderInv(calls: seq<Call>, s: State, who: nat, stored: Option<Tokens>, reply: Reply)
    requires OrderInv(calls, s) && who < |calls| && s.mutex == Some(who) && !Settling(s.pcs[who])
    ensures OrderInv(calls, Settled(s, who, stored, reply))
  {
    var t := Settled(s, who, stored, reply);
    assert t.log[..|s.log|] == s.log && t.log[|s.log|] == Commit(who, reply);
    assert t.locks == Callers(t.log);
    forall i | 0 <= i < |calls| && Settling(t.pcs[i]) ensures Commit(i, t.pcs[i].reply) in t.log {
      if i != who {
        assert Commit(i, s.pcs[i].reply) in s.log;
      }
    }
    forall j | 0 <= j < |s.log| ensures s.log[j].who != who {
      assert s.log[j] in s.log;
    }
  }

  /** A step that settles nothing: everybody's outcome stays, and the lock log is still the settled calls and the
      one call that is inside and unsettled. */
  lemma SettlingNothingKeepsOrderInv(calls: seq<Call>, s: State, t: State, who: nat)
    requires OrderInv(calls, s) && |t.pcs| == |calls| && who < |calls| && t.log == s.log
    requires t.pcs == s.pcs[who := t.pcs[who]]
    requires Settling(t.pcs[who]) <==> Settling(s.pcs[who])
    requires Settling(s.pcs[who]) ==> t.pcs[who].reply == s.pcs[who].reply
    requires t.locks == Callers(t.log) + Inside(calls, t)
    ensures OrderInv(calls, t)
  {
    forall i | 0 <= i < |calls| && Settling(t.pcs[i]) ensures Commit(i, t.pcs[i].reply) in t.log {
      assert Settling(s.pcs[i]) && t.pcs[i].reply == s.pcs[i].reply;
    }
  }

  lemma TakingTheLockKeepsOrderInv(calls: seq<Call>, s: State, who: nat)
    requires OrderInv(calls, s) && who < |calls| && s.mutex.None? && s.pcs[who].Arriving?
    ensures OrderInv(calls, s.(mutex := Some(who), pcs := s.pcs[who := Reading], locks := s.locks + [who]))
  {
    SettlingNothingKeepsOrderInv(calls, s,
      s.(mutex := Some(who), pcs := s.pcs[who := Reading], locks := s.locks + [who]), who);
  }

  lemma HavingReadKeepsOrderInv(calls: seq<Call>, s: State, who: nat, tokens: Tokens)
    requires OrderInv(calls, s) && who < |calls| && s.mutex == Some(who) && s.pcs[who].Reading?
    ensures OrderInv(calls, s.(pcs := s.pcs[who := Writing(tokens)]))
  {
    SettlingNothingKeepsOrderInv(calls, s, s.(pcs := s.pcs[who := Writing(tokens)]), who);
  }

  lemma ReleasingKeepsOrderInv(calls: seq<Call>, s: State, who: nat)
    requires OrderInv(calls, s) && who < |calls| && s.mutex == Some(who) && s.pcs[who].Releasing?
    ensures OrderInv(calls, s.(mutex := None, pcs := s.pcs[who := Finished(s.pcs[who].reply)]))
  {
    SettlingNothingKeepsOrderInv(calls, s, s.(mutex := None, pcs := s.pcs[who := Finished(s.pcs[who].reply)]), who);
  }

  lemma ReadKeepsOrderInv(calls: seq<Call>, s: State, who: nat, up: bool)
    requires OrderInv(calls, s) && who < |calls| && s.mutex == Some(who) && s.pcs[who].Reading?
    ensures OrderInv(calls, Next(calls, s, who, up))
  {
    if !up {
      SettleKeepsOrderInv(calls, s, who, s.stored, Failed);
    } else if s.stored.Some? {
      HavingReadKeepsOrderInv(calls, s, who, s.stored.value);
    } else if calls[who].Redeem? {
      SettleKeepsOrderInv(calls, s, who, s.stored, NoSuchToken);
    } else {
      HavingReadKeepsOrderInv(calls, s, who, map[]);
    }
  }

  lemma WriteKeepsOrderInv(calls: seq<Call>, s: State, who: nat, up: bool)
    requires OrderInv(calls, s) && who < |calls| && s.mutex == Some(who) && s.pcs[who].Writing?
    ensures OrderInv(calls, Next(calls, s, who, up))
  {
    var (now, reply) := Outcome(calls[who], s.stored, s.pcs[who].tokens, up);
    SettleKeepsOrderInv(calls, s, who, now, reply);
  }

  lemma NextKeepsOrderInv(calls: seq<Call>, s: State, who: nat, up: bool)
    requires OrderInv(calls, s) && MutexInv(calls, s)
    ensures OrderInv(calls, Next(calls, s, who, up))
  {
    if who < |calls| {
      match s.pcs[who]
      case Arriving =>
        if s.mutex.None? {
          TakingTheLockKeepsOrderInv(calls, s, who);
        }
      case Releasing(reply) =>
        ReleasingKeepsOrderInv(calls, s, who);
      case Finished(_) =>
      case Reading =>
        ReadKeepsOrderInv(calls, s, who, up);
      case Writing(_) =>
        WriteKeepsOrderInv(calls, s, who, up);
    }
  }

  lemma NextKeepsInv(calls: seq<Call>, stored: Option<Tokens>, s: State, who: nat, up: bool)
    requires Inv(calls, stored, s)
    ensures Inv(calls, stored, Next(calls, s, who, up))
  {
    NextKeepsLogInv(calls, stored, s, who, up);
    NextKeepsMutexInv(calls, s, who, up);
    NextKeepsOrderInv(calls, s, who, up);
  }

  lemma {:induction false} RunKeepsInv(calls: seq<Call>, stored: Option<Tokens>, s: State, moves: seq<Move>)
    requires Inv(calls, stored, s)
    ensures Inv(calls, stored, Run(calls, s, moves))
    decreases |moves|
  {
    if moves != [] {
      NextKeepsInv(calls, stored, s, moves[0].who, moves[0].up);
      RunKeepsInv(calls, stored, Next(calls, s, moves[0].who, moves[0].up), moves[1..]);
    }
  }

  /** Every interleaving is a sequential run in lock order: the stored map is its replay, and every reply that is not
      a failure is the one it gives. */
  lemma Linearizable(calls: seq<Call>, stored: Option<Tokens>, moves: seq<Move>)
    ensures var s := Run(calls, Init(calls, stored), moves);
      && Sequential(calls, stored, s.log)
      && s.stored == Replay(calls, stored, s.log)
      && Callers(s.log) <= s.locks && |s.locks| <= |s.log| + 1
      && (forall i :: 0 <= i < |calls| && s.pcs[i].Finished? ==> Commit(i, s.pcs[i].reply) in s.log)
  {
    RunKeepsInv(calls, stored, Init(calls, stored), moves);
  }

  /** How often a token was issued, and how often redeemed. */
  function Issues(calls: seq<Call>, log: seq<Commit>, token: string): nat
    requires forall c <- log :: c.who < |calls|
  {
    if log == [] then 0
    else
      var last := log[|log| - 1];
      Issues(calls, log[..|log| - 1], token)
      + (if last.reply.Issued? && calls[last.who].token == token then 1 else 0)
  }

  function Redemptions(calls: seq<Call>, log: seq<Commit>, token: string): nat
    requires forall c <- log :: c.who < |calls|
  {
    if log == [] then 0
    else
      var last := log[|log| - 1];
      Redemptions(calls, log[..|log| - 1], token)
      + (if last.reply.Redeemed? && calls[last.who].token == token then 1 else 0)
  }

  function Present(stored: Option<Tokens>, token: string): nat {
    if token in Held(stored) then 1 else 0
  }

  lemma SequentialPrefix(calls: seq<Call>, stored: Option<Tokens>, log: seq<Commit>, n: nat)
    requires Sequential(calls, stored, log) && n <= |log|
    ensures Sequential(calls, stored, log[..n])
  {
    forall k | 0 <= k < n ensures log[..n][..k] == log[..k] {
    }
  }

  /** Nothing is redeemed that was not issued or there before, and each only once. */
  lemma {:induction false} RedemptionsConserved(calls: seq<Call>, stored: Option<Tokens>, log: seq<Commit>,
                                                token: string)
    requires Sequential(calls, stored, log)
    ensures Redemptions(calls, log, token) + Present(Replay(calls, stored, log), token)
         <= Issues(calls, log, token) + Present(stored, token)
  {
    if log != [] {
      SequentialPrefix(calls, stored, log, |log| - 1);
      RedemptionsConserved(calls, stored, log[..|log| - 1], token);
    }
  }

  /** With fresh tokens nothing is lost either: what was issued, or there before, is redeemed or still there. */
  lemma {:induction false} TokensConserved(calls: seq<Call>, stored: Option<Tokens>, log: seq<Commit>, token: string)
    requires FreshTokens(calls, stored) && Sequential(calls, stored, log) && OncePerCaller(log)
    ensures Redemptions(calls, log, token) + Present(Replay(calls, stored, log), token)
         == Issues(calls, log, token) + Present(stored, token)
  {
    if log != [] {
      var init, last := log[..|log| - 1], log[|log| - 1];
      SequentialPrefix(calls, stored, log, |log| - 1);
      TokensConserved(calls, stored, init, token);
      if last.reply.Issued? && calls[last.who].token == token {
        FreshTokensIssuedOnce(calls, stored, log, token);
      }
    }
  }

  /** No one redeemed the token between these two entries of the log. */
  ghost predicate Unredeemed(calls: seq<Call>, log: seq<Commit>, token: string, j: nat, k: nat)
    requires k <= |log| && forall c <- log :: c.who < |calls|
  {
    forall m :: j < m < k && calls[log[m].who] == Redeem(token) ==> !log[m].reply.Redeemed?
  }

  lemma LastSettled(calls: seq<Call>, stored: Option<Tokens>, log: seq<Commit>)
    requires Sequential(calls, stored, log) && log != []
    ensures var init, last := log[..|log| - 1], log[|log| - 1];
      && Sequential(calls, stored, init)
      && last.who < |calls|
      && (last.reply == Failed || last.reply == Alone(calls[last.who], Replay(calls, stored, init)).1)
  {
    SequentialPrefix(calls, stored, log, |log| - 1);
  }

  /** What two different callers among those with fresh tokens issue is different. */
  lemma OthersIssueOthers(calls: seq<Call>, stored: Option<Tokens>, i: nat, j: nat)
    requires FreshTokens(calls, stored) && i < |calls| && j < |calls| && i != j
    requires calls[i].Generate? && calls[j].Generate?
    ensures calls[i].token != calls[j].token
  {
  }

  lemma {:induction false} IssuedStays(calls: seq<Call>, stored: Option<Tokens>, log: seq<Commit>, j: nat)
    requires FreshTokens(calls, stored) && Sequential(calls, stored, log) && OncePerCaller(log) && j < |log|
    requires calls[log[j].who].Generate? && log[j].reply == Issued
    requires Unredeemed(calls, log, calls[log[j].who].token, j, |log|)
    ensures var call := calls[log[j].who];
      var held := Held(Replay(calls, stored, log));
      call.token in held && held[call.token] == call.user
  {
    LastSettled(calls, stored, log);
    var init, last := log[..|log| - 1], log[|log| - 1];
    if j < |init| {
      assert init[j] == log[j];
      IssuedStays(calls, stored, init, j);
      if last.reply != Failed {
        if calls[last.who].Generate? {
          OthersIssueOthers(calls, stored, log[j].who, last.who);
        }
        OthersLeaveIt(calls[last.who], Replay(calls, stored, init), calls[log[j].who].token);
      }
    }
  }

  /** No call takes a stored token away or gives it to another user, but one that issues it again or redeems it. */
  lemma OthersLeaveIt(call: Call, stored: Option<Tokens>, token: string)
    requires token in Held(stored) && (call.Generate? ==> call.token != token)
    requires call == Redeem(token) ==> !Alone(call, stored).1.Redeemed?
    ensures token in Held(Alone(call, stored).0) && Held(Alone(call, stored).0)[token] == Held(stored)[token]
  {
  }

  lemma {:induction false} NextRedeems(calls: seq<Call>, stored: Option<Tokens>, log: seq<Commit>, j: nat, k: nat)
    requires FreshTokens(calls, stored) && Sequential(calls, stored, log) && OncePerCaller(log) && j < k < |log|
    requires calls[log[j].who].Generate? && log[j].reply == Issued
    requires Unredeemed(calls, log, calls[log[j].who].token, j, k)
    requires calls[log[k].who] == Redeem(calls[log[j].who].token) && log[k].reply != Failed
    ensures log[k].reply == Redeemed(calls[log[j].who].user)
  {
    SequentialPrefix(calls, stored, log, k);
    IssuedStays(calls, stored, log[..k], j);
    assert log[k].reply == Alone(calls[log[k].who], Replay(calls, stored, log[..k])).1;
  }

  /** With fresh tokens an issued token is redeemed by the next one who asks and does not fail, for its user. */
  lemma IssuedIsRedeemable(calls: seq<Call>, stored: Option<Tokens>, moves: seq<Move>, j: nat, k: nat)
    requires FreshTokens(calls, stored)
    ensures var log := Run(calls, Init(calls, stored), moves).log;
      && (forall c <- log :: c.who < |calls|)
      && (j < k < |log| && calls[log[j].who].Generate? && log[j].reply == Issued
          && calls[log[k].who] == Redeem(calls[log[j].who].token) && log[k].reply != Failed
          && Unredeemed(calls, log, calls[log[j].who].token, j, k)
          ==> log[k].reply == Redeemed(calls[log[j].who].user))
  {
    RunKeepsInv(calls, stored, Init(calls, stored), moves);
    var log := Run(calls, Init(calls, stored), moves).log;
    if j < k < |log| && calls[log[j].who].Generate? && log[j].reply == Issued
       && calls[log[k].who] == Redeem(calls[log[j].who].token) && log[k].reply != Failed
       && Unredeemed(calls, log, calls[log[j].who].token, j, k) {
      NextRedeems(calls, stored, log, j, k);
    }
  }

  /** Only an API failure makes a call fail. */
  lemma {:induction false} NoFailureWhileUp(calls: seq<Call>, s: State, moves: seq<Move>)
    requires |s.pcs| == |calls| && (forall m <- moves :: m.up) && forall c <- s.log :: c.reply != Failed
    ensures forall c <- Run(calls, s, moves).log :: c.reply != Failed
    decreases |moves|
  {
    if moves != [] {
      assert moves[0] in moves;
      NoFailureWhileUp(calls, Next(calls, s, moves[0].who, moves[0].up), moves[1..]);
    }
  }

  /** A call that comes when the mutex is free, and moves alone, is through after four moves: it answers and stores as
      the sequential run does, and lets go of the mutex. */
  lemma LoneCallAnswers(calls: seq<Call>, s: State, who: nat)
    requires |s.pcs| == |calls| && who < |calls| && s.mutex.None? && s.pcs[who].Arriving?
    ensures var m := Move(who, true);
      var end := Run(calls, s, [m, m, m, m]);
      var (now, reply) := Alone(calls[who], s.stored);
      end.mutex.None? && end.stored == now && end.pcs == s.pcs[who := Finished(reply)]
  {
    var m := Move(who, true);
    var s1 := Next(calls, s, who, true);
    var s2 := Next(calls, s1, who, true);
    var s3 := Next(calls, s2, who, true);
    var s4 := Next(calls, s3, who, true);
    assert s1.pcs[who] == Reading;
    assert s4.pcs == s.pcs[who := Finished(Alone(calls[who], s.stored).1)];
    assert [m, m, m, m][1..] == [m, m, m] && [m, m, m][1..] == [m, m] && [m, m][1..] == [m];
    assert Run(calls, s3, [m]) == Run(calls, s4, []);
    assert Run(calls, s2, [m, m]) == Run(calls, s3, [m]);
    assert Run(calls, s1, [m, m, m]) == Run(calls, s2, [m, m]);
  }

  /** A stored token belongs to the user it was issued to last, or was stored before. */
  lemma {:induction false} StoredTokenWasIssued(calls: seq<Call>, stored: Option<Tokens>, log: seq<Commit>,
                                                token: string)
    requires Sequential(calls, stored, log) && token in Held(Replay(calls, stored, log))
    ensures var user := Held(Replay(calls, stored, log))[token];
      || (token in Held(stored) && Held(stored)[token] == user)
      || exists c <- log :: c.reply.Issued? && calls[c.who] == Generate(token, user)
  {
    if log != [] {
      var init, last := log[..|log| - 1], log[|log| - 1];
      SequentialPrefix(calls, stored, log, |log| - 1);
      var user := Held(Replay(calls, stored, log))[token];
      if last.reply.Issued? && calls[last.who].token == token {
        assert last in log && calls[last.who] == Generate(token, user);
      } else {
        assert token in Held(Replay(calls, stored, init)) && Held(Replay(calls, stored, init))[token] == user;
        StoredTokenWasIssued(calls, stored, init, token);
        if c :| c in init && c.reply.Issued? && calls[c.who] == Generate(token, user) {
          assert c in log;
        }
      }
    }
  }

  /** The UUIDs of the running requests are new and all different. */
  ghost predicate FreshTokens(calls: seq<Call>, stored: Option<Tokens>) {
    && (forall i, j ::
          0 <= i < j < |calls| && calls[i].Generate? && calls[j].Generate? ==> calls[i].token != calls[j].token)
    && (forall i :: 0 <= i < |calls| && calls[i].Generate? ==> calls[i].token !in Held(stored))
  }

  lemma {:induction false} IssuedInLog(calls: seq<Call>, stored: Option<Tokens>, log: seq<Commit>, token: string)
    returns (k: nat)
    requires Sequential(calls, stored, log) && Issues(calls, log, token) > 0
    ensures k < |log| && calls[log[k].who].Generate? && calls[log[k].who].token == token
  {
    k := |log| - 1;
    if !(log[k].reply.Issued? && calls[log[k].who].token == token) {
      SequentialPrefix(calls, stored, log, |log| - 1);
      k := IssuedInLog(calls, stored, log[..|log| - 1], token);
    }
  }

  lemma NotIssuedTwice(calls: seq<Call>, stored: Option<Tokens>, log: seq<Commit>, who: nat, token: string)
    requires FreshTokens(calls, stored) && Sequential(calls, stored, log)
    requires who < |calls| && calls[who].Generate? && calls[who].token == token
    requires forall k :: 0 <= k < |log| ==> log[k].who != who
    ensures Issues(calls, log, token) == 0
  {
    if Issues(calls, log, token) > 0 {
      var k := IssuedInLog(calls, stored, log, token);
      assert false;
    }
  }

  lemma {:induction false} FreshTokensIssuedOnce(calls: seq<Call>, stored: Option<Tokens>, log: seq<Commit>,
                                                 token: string)
    requires FreshTokens(calls, stored) && Sequential(calls, stored, log) && OncePerCaller(log)
    ensures Issues(calls, log, token) + Present(stored, token) <= 1
  {
    if log != [] {
      var init, last := log[..|log| - 1], log[|log| - 1];
      SequentialPrefix(calls, stored, log, |log| - 1);
      FreshTokensIssuedOnce(calls, stored, init, token);
      if last.reply.Issued? && calls[last.who].token == token {
        assert forall k :: 0 <= k < |init| ==> init[k] == log[k];
        NotIssuedTwice(calls, stored, init, last.who, token);
      }
    }
  }

  /** A redemption answers with the user the token was issued to, or stored for. */
  lemma RedeemedForItsUser(calls: seq<Call>, stored: Option<Tokens>, log: seq<Commit>, k: nat, token: string)
    requires Sequential(calls, stored, log) && k < |log|
    requires calls[log[k].who] == Redeem(token) && log[k].reply.Redeemed?
    ensures || (token in Held(stored) && Held(stored)[token] == log[k].reply.user)
            || exists j :: 0 <= j < |calls| && calls[j] == Generate(token, log[k].reply.user)
  {
    SequentialPrefix(calls, stored, log, k);
    StoredTokenWasIssued(calls, stored, log[..k], token);
    if !(token in Held(stored) && Held(stored)[token] == log[k].reply.user) {
      var c :| c in log[..k] && c.reply.Issued? && calls[c.who] == Generate(token, log[k].reply.user);
      assert c in log;
    }
  }

  /** With fresh tokens, in every interleaving a token is redeemed at most once, and by whoever redeems it for the
      user it was issued to. */
  lemma SingleUse(calls: seq<Call>, stored: Option<Tokens>, moves: seq<Move>, token: string)
    requires FreshTokens(calls, stored)
    ensures var s := Run(calls, Init(calls, stored), moves);
      && (forall c <- s.log :: c.who < |calls|)
      && Redemptions(calls, s.log, token) <= 1
      && forall i :: 0 <= i < |calls| && calls[i] == Redeem(token) && s.pcs[i].Finished? && s.pcs[i].reply.Redeemed? ==>
           || (token in Held(stored) && Held(stored)[token] == s.pcs[i].reply.user)
           || exists j :: 0 <= j < |calls| && calls[j] == Generate(token, s.pcs[i].reply.user)
  {
    var s := Run(calls, Init(calls, stored), moves);
    RunKeepsInv(calls, stored, Init(calls, stored), moves);
    Linearizable(calls, stored, moves);
    RedemptionsConserved(calls, stored, s.log, token);
    FreshTokensIssuedOnce(calls, stored, s.log, token);
    forall i | 0 <= i < |calls| && calls[i] == Redeem(token) && s.pcs[i].Finished? && s.pcs[i].reply.Redeemed?
      ensures || (token in Held(stored) && Held(stored)[token] == s.pcs[i].reply.user)
              || exists j :: 0 <= j < |calls| && calls[j] == Generate(token, s.pcs[i].reply.user)
    {
      var k :| 0 <= k < |s.log| && s.log[k] == Commit(i, s.pcs[i].reply);
      RedeemedForItsUser(calls, stored, s.log, k, token);
    }
  }
}
