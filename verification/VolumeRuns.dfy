/** Userdata over whole runs of sessions: whose volume stays whose. */
module VolumeRuns {
  import opened Wrappers
  import opened Volumes

  /** The reconciler's passes, each made by its single worker without interruption, and what goes on around them. */
  datatype Step =
    | ReconcileVolumes(s: Session, faults: set<Call>)
    | ReconcileMapping(s: Session, faults: set<Call>)
    | RunFinalizers(s: Session, faults: set<Call>)
    | StartPod(pod: PodKey)
    | RemoveClaim(claim: ClaimKey)                              // by its owner's deletion or by hand
    | FinishDeletions
    | Bind(claim: ClaimKey, volume: string, policy: Policy)     // to a volume provisioned or free
    | ReleaseVolume(volume: string)                             // storage removes it under policy Delete
    | RemoveVolume(volume: string)                              // an administrator removes it

  function Bound(w: World, k: ClaimKey, v: string, policy: Policy): World {
    if k !in w.claims || v == "" || !(w.claims[k].volumeName == "" || w.claims[k].volumeName == v) then w
    else if v in w.volumes then
      if w.volumes[v].claimRef.Some? then w
      else w.(volumes := w.volumes[v := w.volumes[v].(claimRef := Some(k))],
              claims := w.claims[k := w.claims[k].(volumeName := v)])
    else if w.claims[k].volumeName == v then w
    else w.(volumes := w.volumes[v := Volume(Some(k), policy)],
            claims := w.claims[k := w.claims[k].(volumeName := v)])
  }

  /** Storage only takes back a volume whose claim is gone and whose policy says so. */
  predicate Releasable(w: World, v: string) {
    v in w.volumes && w.volumes[v].policy == Delete
    && w.volumes[v].claimRef.Some? && w.volumes[v].claimRef.value !in w.claims
  }

  function Next(cfg: Config, w: World, step: Step): World
    requires cfg.volumeSpec.Some?
  {
    match step
    case ReconcileVolumes(s, faults) => VolumesReconciled(cfg, s, w, faults).0
    case ReconcileMapping(s, faults) => MappingReconciled(s, w, faults).0
    case RunFinalizers(s, faults) => FinalizersRun(cfg, s, w, faults).0
    case StartPod(pod) => if pod in w.pods then w else w.(pods := w.pods[pod := false])
    case RemoveClaim(k) => if k in w.claims then ClaimDeleted(w, k, {}) else w
    case FinishDeletions =>
      w.(pods := map p | p in w.pods && !w.pods[p] :: false,
         claims := map k | k in w.claims && !w.claims[k].terminating :: w.claims[k])
    case Bind(k, v, policy) => Bound(w, k, v, policy)
    case ReleaseVolume(v) => if Releasable(w, v) then w.(volumes := w.volumes - {v}) else w
    case RemoveVolume(v) => w.(volumes := w.volumes - {v})
  }

  /** The world after the first n steps. */
  function At(cfg: Config, w: World, steps: seq<Step>, n: nat): World
    requires cfg.volumeSpec.Some? && n <= |steps|
  {
    if n == 0 then w else Next(cfg, At(cfg, w, steps, n - 1), steps[n - 1])
  }

  /** What the cluster and its administrators do: a pod starts once, deletions finish, a claim is marked, a volume goes,
      and nothing else changes. */
  lemma EnvironmentSteps(cfg: Config, w: World, pod: PodKey, k: ClaimKey, v: string)
    requires cfg.volumeSpec.Some?
    ensures var started := Next(cfg, w, StartPod(pod));
      started == w.(pods := started.pods) && pod in started.pods && started.pods - {pod} == w.pods - {pod}
      && started.pods[pod] == (pod in w.pods && w.pods[pod])
    ensures var finished := Next(cfg, w, FinishDeletions);
      && finished == w.(pods := finished.pods, claims := finished.claims)
      && (forall p :: p in finished.pods <==> p in w.pods && !w.pods[p])
      && (forall p <- finished.pods :: !finished.pods[p])
      && (forall c :: c in finished.claims <==> c in w.claims && !w.claims[c].terminating)
      && (forall c <- finished.claims :: finished.claims[c] == w.claims[c])
    ensures var marked := Next(cfg, w, RemoveClaim(k));
      && marked == w.(claims := marked.claims) && marked.claims.Keys == w.claims.Keys
      && marked.claims - {k} == w.claims - {k}
      && (k in w.claims ==> marked.claims[k] == w.claims[k].(terminating := true))
    ensures var removed := Next(cfg, w, RemoveVolume(v));
      removed == w.(volumes := removed.volumes) && removed.volumes == w.volumes - {v}
    ensures var released := Next(cfg, w, ReleaseVolume(v));
      released != w <==> v in w.volumes && w.volumes[v].policy == Delete
                         && w.volumes[v].claimRef.Some? && w.volumes[v].claimRef.value !in w.claims
  {
  }

  /** A claim that is bound refers to its volume and the volume to it, so that none is bound twice. */
  lemma BoundBothWays(cfg: Config, w: World, k: ClaimKey, v: string, policy: Policy)
    requires cfg.volumeSpec.Some?
    ensures var w' := Next(cfg, w, Bind(k, v, policy));
      && (w' != w ==> v != "" && k in w'.claims && v in w'.volumes
                      && w'.claims[k].volumeName == v && w'.volumes[v].claimRef == Some(k))
      && (v in w.volumes && w.volumes[v].claimRef.Some? ==> w' == w)
      && w'.claims - {k} == w.claims - {k} && w'.volumes - {v} == w.volumes - {v}
  {
  }

  ghost predicate SameEntries(w: World, w': World) {
    forall user :: Entry(w', user) == Entry(w, user)
  }

  /** No new claims, and none with another volume or another birth. */
  ghost predicate NoNewClaims(w: World, w': World) {
    forall k :: k in w'.claims ==>
      k in w.claims && w'.claims[k].volumeName == w.claims[k].volumeName && w'.claims[k].birth == w.claims[k].birth
  }

  ghost predicate RetainedVolumesStay(w: World, w': World) {
    forall v :: v in w.volumes && w.volumes[v].policy == Retain ==> v in w'.volumes && w'.volumes[v].policy == Retain
  }

  /** Binding gives this claim this volume: the claim has none yet, and the volume is free or newly provisioned. */
  predicate Takes(w: World, k: ClaimKey, v: string) {
    k in w.claims && v != "" && w.claims[k].volumeName == "" && (v in w.volumes ==> w.volumes[v].claimRef.None?)
  }

  /** The pass makes its session's claim. */
  predicate Makes(cfg: Config, w: World, step: Step)
    requires cfg.volumeSpec.Some?
  {
    step.ReconcileVolumes? && ClaimOf(step.s) !in w.claims && VolumesReconciled(cfg, step.s, w, step.faults).1 == Done
  }

  /** What each kind of step may do to claims, volumes and entries. */
  ghost predicate Effect(cfg: Config, w: World, w': World, step: Step)
    requires cfg.volumeSpec.Some?
  {
    match step
    case ReconcileVolumes(s, _) =>
      && SameEntries(w, w') && w'.volumes == w.volumes
      && w'.claims == (if Makes(cfg, w, step)
        then w.claims[ClaimOf(s) := NewClaim(cfg, w, Entry(w, s.user))] else w.claims)
    case ReconcileMapping(s, _) => MappingVolumes(w, w') && MappingEntry(w, w', s)
    case Bind(k, v, _) =>
      && SameEntries(w, w') && VolumesStay(w, w')
      && (if Takes(w, k, v) then
            w'.claims == w.claims[k := w.claims[k].(volumeName := v)] && w'.volumes.Keys <= w.volumes.Keys + {v}
          else w'.claims == w.claims && w'.volumes.Keys == w.volumes.Keys)
    case _ =>
      && SameEntries(w, w') && NoNewClaims(w, w') && w'.volumes.Keys <= w.volumes.Keys
      && (step.RemoveVolume? || RetainedVolumesStay(w, w'))
  }

  lemma ReconcileVolumesEffect(cfg: Config, w: World, s: Session, faults: set<Call>)
    requires cfg.volumeSpec.Some?
    ensures Effect(cfg, w, VolumesReconciled(cfg, s, w, faults).0, ReconcileVolumes(s, faults))
  {
    assert NewClaim(cfg, w, Entry(w, s.user)) == NewClaim(cfg, VolMapEnsured(w, faults).0, Entry(w, s.user));
  }

  lemma ReconcileMappingEffect(cfg: Config, w: World, s: Session, faults: set<Call>)
    requires cfg.volumeSpec.Some?
    ensures Effect(cfg, w, MappingReconciled(s, w, faults).0, ReconcileMapping(s, faults))
  {
    MappingKeepsVolumes(s, w, faults);
    MappingEnters(s, w, faults);
  }

  lemma ReclaimKeepsClaims(cfg: Config, s: Session, w: World, faults: set<Call>)
    ensures SameEntries(w, Reclaimed(cfg, s, w, faults).0) && NoNewClaims(w, Reclaimed(cfg, s, w, faults).0)
  {
  }

  lemma ReclaimKeepsVolumes(cfg: Config, s: Session, w: World, faults: set<Call>)
    ensures Reclaimed(cfg, s, w, faults).0.volumes.Keys == w.volumes.Keys
    ensures RetainedVolumesStay(w, Reclaimed(cfg, s, w, faults).0)
  {
  }

  lemma RunFinalizersEffect(cfg: Config, w: World, s: Session, faults: set<Call>)
    requires cfg.volumeSpec.Some?
    ensures Effect(cfg, w, FinalizersRun(cfg, s, w, faults).0, RunFinalizers(s, faults))
  {
    ReclaimKeepsClaims(cfg, s, w, faults);
    ReclaimKeepsVolumes(cfg, s, w, faults);
    assert FinalizersRun(cfg, s, w, faults).0 in {w, Reclaimed(cfg, s, w, faults).0};
  }

  lemma BindEffect(cfg: Config, w: World, k: ClaimKey, v: string, policy: Policy)
    requires cfg.volumeSpec.Some?
    ensures Effect(cfg, w, Bound(w, k, v, policy), Bind(k, v, policy))
  {
    if k in w.claims && w.claims[k].volumeName == v {
      assert w.claims[k := w.claims[k].(volumeName := v)] == w.claims;
      assert v in w.volumes ==> Bound(w, k, v, policy).volumes.Keys == w.volumes.Keys;
    }
  }

  lemma NextEffect(cfg: Config, w: World, step: Step)
    requires cfg.volumeSpec.Some?
    ensures Effect(cfg, w, Next(cfg, w, step), step)
  {
    match step
    case ReconcileVolumes(s, faults) => ReconcileVolumesEffect(cfg, w, s, faults);
    case ReconcileMapping(s, faults) => ReconcileMappingEffect(cfg, w, s, faults);
    case RunFinalizers(s, faults) => RunFinalizersEffect(cfg, w, s, faults);
    case Bind(k, v, policy) => BindEffect(cfg, w, k, v, policy);
    case StartPod(_) =>
    case RemoveClaim(_) =>
    case FinishDeletions =>
    case ReleaseVolume(_) =>
    case RemoveVolume(_) =>
  }

  /** No claims yet, and whatever the map already says it says with a name. */
  ghost predicate Initial(w: World) {
    w.claims == map[] && forall user :: Entry(w, user) != Some("")
  }

  /** This user's sessions are in this namespace. */
  ghost predicate InNamespace(ns: string, user: string, step: Step) {
    (step.ReconcileVolumes? || step.ReconcileMapping? || step.RunFinalizers?) && step.s.user == user ==>
      step.s.namespace == ns
  }

  /** A claim that was made for a volume still there asks for it and for no other. */
  ghost predicate ClaimsAsk(w: World) {
    && (forall user :: Entry(w, user) != Some(""))
    && (forall k :: k in w.claims ==> w.claims[k].birth.entry != Some(""))
    && (forall k :: k in w.claims && w.claims[k].birth.found ==>
          w.claims[k].birth.entry == Some(w.claims[k].volumeName))
  }

  /** A user's entry is what it was when the claim was made, or the claim's volume. */
  ghost predicate EntryFollowsClaim(ns: string, user: string, w: World) {
    && ClaimsAsk(w)
    && (forall k :: k in w.claims && k.user == user ==> k.namespace == ns)
    && (forall k :: k in w.claims && k.user == user && Entry(w, user) != w.claims[k].birth.entry ==>
          Entry(w, user) == Some(w.claims[k].volumeName))
  }

  lemma StepKeepsClaimsAsk(cfg: Config, w: World, w': World, step: Step)
    requires cfg.volumeSpec.Some? && ClaimsAsk(w) && Effect(cfg, w, w', step)
    ensures ClaimsAsk(w')
  {
  }

  lemma StepKeepsEntryFollowsClaim(cfg: Config, ns: string, user: string, w: World, w': World, step: Step)
    requires cfg.volumeSpec.Some? && EntryFollowsClaim(ns, user, w) && InNamespace(ns, user, step)
    requires Effect(cfg, w, w', step)
    ensures EntryFollowsClaim(ns, user, w')
  {
    StepKeepsClaimsAsk(cfg, w, w', step);
  }

  /** In any namespaces: an entry changes only by entering the volume of a claim that was not made to ask for the
      old one. */
  lemma EntryChange(cfg: Config, w: World, step: Step, user: string)
    requires cfg.volumeSpec.Some? && ClaimsAsk(w)
    requires Entry(w, user).Some? && Entry(Next(cfg, w, step), user) != Entry(w, user)
    ensures step.ReconcileMapping? && step.s.user == user && ClaimOf(step.s) in w.claims
    ensures var c := w.claims[ClaimOf(step.s)];
            && Entry(Next(cfg, w, step), user) == Some(c.volumeName)
            && (c.birth.entry == Entry(w, user) ==> !c.birth.found)
  {
    NextEffect(cfg, w, step);
  }

  lemma {:induction false} InvariantsHold(cfg: Config, ns: string, user: string, w: World, steps: seq<Step>, n: nat)
    requires cfg.volumeSpec.Some? && Initial(w) && n <= |steps|
    requires forall i :: 0 <= i < n ==> InNamespace(ns, user, steps[i])
    ensures EntryFollowsClaim(ns, user, At(cfg, w, steps, n))
  {
    if n > 0 {
      InvariantsHold(cfg, ns, user, w, steps, n - 1);
      NextEffect(cfg, At(cfg, w, steps, n - 1), steps[n - 1]);
      StepKeepsEntryFollowsClaim(cfg, ns, user, At(cfg, w, steps, n - 1), At(cfg, w, steps, n), steps[n - 1]);
    }
  }

  /** Step j made the claim, which has been there ever since, and its birth tells what that step read. */
  ghost predicate MadeAt(cfg: Config, w: World, steps: seq<Step>, n: nat, k: ClaimKey, j: nat)
    requires cfg.volumeSpec.Some? && n <= |steps| && k in At(cfg, w, steps, n).claims
  {
    && j < n
    && steps[j].ReconcileVolumes? && ClaimOf(steps[j].s) == k
    && k !in At(cfg, w, steps, j).claims
    && (forall m :: j < m <= n ==> k in At(cfg, w, steps, m).claims)
    && var before, birth := At(cfg, w, steps, j), At(cfg, w, steps, n).claims[k].birth;
       && birth.entry == Entry(before, k.user)
       && (birth.found <==> birth.entry.Some? && birth.entry.value in before.volumes)
  }

  /** A claim keeps its birth record; a new one is the reconciler's. */
  lemma ClaimPersists(cfg: Config, w: World, w': World, step: Step, k: ClaimKey)
    requires cfg.volumeSpec.Some? && Effect(cfg, w, w', step) && k in w'.claims
    ensures k in w.claims ==> w'.claims[k].birth == w.claims[k].birth
    ensures k !in w.claims ==> step.ReconcileVolumes? && ClaimOf(step.s) == k
    ensures k !in w.claims ==> var birth := w'.claims[k].birth;
              && birth.entry == Entry(w, k.user)
              && (birth.found <==> birth.entry.Some? && birth.entry.value in w.volumes)
  {
  }

  lemma {:induction false} EveryClaimWasMade(cfg: Config, w: World, steps: seq<Step>, n: nat, k: ClaimKey)
    returns (j: nat)
    requires cfg.volumeSpec.Some? && Initial(w) && n <= |steps| && k in At(cfg, w, steps, n).claims
    ensures MadeAt(cfg, w, steps, n, k, j)
  {
    var before := At(cfg, w, steps, n - 1);
    NextEffect(cfg, before, steps[n - 1]);
    ClaimPersists(cfg, before, At(cfg, w, steps, n), steps[n - 1], k);
    if k in before.claims {
      j := EveryClaimWasMade(cfg, w, steps, n - 1, k);
      assert MadeAt(cfg, w, steps, n - 1, k, j);
    } else {
      j := n - 1;
    }
  }

  /** With this user's sessions in one namespace: the entry changes from one volume to another only if the old volume
      was missing when the claim now bound to the new one was made. */
  lemma StickyMapping(cfg: Config, ns: string, w: World, steps: seq<Step>, n: nat, user: string) returns (j: nat)
    requires cfg.volumeSpec.Some? && Initial(w) && n < |steps|
    requires forall i :: 0 <= i < |steps| ==> InNamespace(ns, user, steps[i])
    requires Entry(At(cfg, w, steps, n), user).Some?
    requires Entry(At(cfg, w, steps, n + 1), user) != Entry(At(cfg, w, steps, n), user)
    ensures var k, old', new' :=
      ClaimKey(ns, user), Entry(At(cfg, w, steps, n), user), Entry(At(cfg, w, steps, n + 1), user);
            && k in At(cfg, w, steps, n).claims && MadeAt(cfg, w, steps, n, k, j)
            && new' == Some(At(cfg, w, steps, n).claims[k].volumeName)
            && Entry(At(cfg, w, steps, j), user) == old'
            && old'.value !in At(cfg, w, steps, j).volumes
  {
    InvariantsHold(cfg, ns, user, w, steps, n);
    var now := At(cfg, w, steps, n);
    EntryChange(cfg, now, steps[n], user);
    var k := ClaimKey(ns, user);
    assert now.claims[k].birth.entry == Entry(now, user);
    j := EveryClaimWasMade(cfg, w, steps, n, k);
  }

  /** The user's volume in the map exists and is retained. */
  ghost predicate Kept(w: World, user: string) {
    Entry(w, user).Some? ==> Entry(w, user).value in w.volumes && w.volumes[Entry(w, user).value].policy == Retain
  }

  /** An administrator removes the user's volume. */
  ghost predicate RemovesVolumeOf(w: World, step: Step, user: string) {
    step.RemoveVolume? && step.volume in w.volumes && Entry(w, user) == Some(step.volume)
  }

  ghost predicate RemovedAt(cfg: Config, w: World, steps: seq<Step>, i: nat, user: string)
    requires cfg.volumeSpec.Some? && i < |steps|
  {
    RemovesVolumeOf(At(cfg, w, steps, i), steps[i], user)
  }

  ghost predicate KeptAt(cfg: Config, w: World, steps: seq<Step>, n: nat, user: string)
    requires cfg.volumeSpec.Some? && n <= |steps|
  {
    Kept(At(cfg, w, steps, n), user)
  }

  lemma StepKeepsKept(cfg: Config, w: World, step: Step, user: string)
    requires cfg.volumeSpec.Some? && Kept(w, user)
    ensures Kept(Next(cfg, w, step), user) <==> !RemovesVolumeOf(w, step, user)
  {
    NextEffect(cfg, w, step);
  }

  lemma NextKeptAt(cfg: Config, w: World, steps: seq<Step>, i: nat, user: string)
    requires cfg.volumeSpec.Some? && i < |steps| && KeptAt(cfg, w, steps, i, user)
    ensures KeptAt(cfg, w, steps, i + 1, user) <==> !RemovedAt(cfg, w, steps, i, user)
  {
    StepKeepsKept(cfg, At(cfg, w, steps, i), steps[i], user);
  }

  lemma {:induction false} KeptWhile(cfg: Config, w: World, steps: seq<Step>, n: nat, user: string)
    requires cfg.volumeSpec.Some? && Kept(w, user) && n <= |steps|
    requires forall i: nat :: i < n ==> !RemovedAt(cfg, w, steps, i, user)
    ensures KeptAt(cfg, w, steps, n, user)
  {
    if n > 0 {
      KeptWhile(cfg, w, steps, n - 1, user);
      NextKeptAt(cfg, w, steps, n - 1, user);
    }
  }

  /** In any namespaces: the user's volume exists and is retained all through a run if and only if no administrator
      removes it; no teardown, release or rebinding ever does. */
  lemma KeptExactly(cfg: Config, w: World, steps: seq<Step>, user: string)
    requires cfg.volumeSpec.Some? && Kept(w, user)
    ensures (forall n: nat :: n <= |steps| ==> KeptAt(cfg, w, steps, n, user))
       <==> forall i: nat :: i < |steps| ==> !RemovedAt(cfg, w, steps, i, user)
  {
    if forall i: nat :: i < |steps| ==> !RemovedAt(cfg, w, steps, i, user) {
      forall n: nat | n <= |steps| ensures KeptAt(cfg, w, steps, n, user) {
        KeptWhile(cfg, w, steps, n, user);
      }
    } else {
      var i: nat :| i < |steps| && RemovedAt(cfg, w, steps, i, user);
      if KeptAt(cfg, w, steps, i, user) {
        NextKeptAt(cfg, w, steps, i, user);
      }
    }
  }

  lemma {:induction false} EntryStays(cfg: Config, ns: string, w: World, steps: seq<Step>, m: nat, n: nat, user: string)
    requires cfg.volumeSpec.Some? && Initial(w) && Kept(w, user) && m <= n <= |steps|
    requires forall i :: 0 <= i < |steps| ==> InNamespace(ns, user, steps[i])
    requires forall i: nat :: i < |steps| ==> !RemovedAt(cfg, w, steps, i, user)
    requires Entry(At(cfg, w, steps, m), user).Some?
    ensures Entry(At(cfg, w, steps, n), user) == Entry(At(cfg, w, steps, m), user)
  {
    if m < n {
      EntryStays(cfg, ns, w, steps, m, n - 1, user);
      if Entry(At(cfg, w, steps, n), user) != Entry(At(cfg, w, steps, n - 1), user) {
        var j := StickyMapping(cfg, ns, w, steps, n - 1, user);
        KeptWhile(cfg, w, steps, j, user);
        assert false;
      }
    }
  }

  /** Data survives: while no administrator removes the user's volume, once the user has one every later session gets
      it: the entry stays, through all teardowns, the volume exists and is retained, and any claim of the user asks for
      it or is bound to it. */
  lemma UserdataPersists(cfg: Config, ns: string, w: World, steps: seq<Step>, m: nat, n: nat, user: string)
    requires cfg.volumeSpec.Some? && Initial(w) && Kept(w, user) && m <= n <= |steps|
    requires forall i :: 0 <= i < |steps| ==> InNamespace(ns, user, steps[i])
    requires forall i: nat :: i < |steps| ==> !RemovedAt(cfg, w, steps, i, user)
    requires Entry(At(cfg, w, steps, m), user).Some?
    ensures Entry(At(cfg, w, steps, n), user) == Entry(At(cfg, w, steps, m), user)
    ensures Entry(At(cfg, w, steps, n), user).value in At(cfg, w, steps, n).volumes
    ensures At(cfg, w, steps, n).volumes[Entry(At(cfg, w, steps, n), user).value].policy == Retain
    ensures forall k :: k in At(cfg, w, steps, n).claims && k.user == user ==>
              Some(At(cfg, w, steps, n).claims[k].volumeName) == Entry(At(cfg, w, steps, n), user)
  {
    EntryStays(cfg, ns, w, steps, m, n, user);
    KeptWhile(cfg, w, steps, n, user);
    forall k | k in At(cfg, w, steps, n).claims && k.user == user
      ensures Some(At(cfg, w, steps, n).claims[k].volumeName) == Entry(At(cfg, w, steps, n), user)
    {
      ClaimHasEntry(cfg, ns, w, steps, n, k);
    }
  }

  lemma ClaimHasEntry(cfg: Config, ns: string, w: World, steps: seq<Step>, n: nat, k: ClaimKey)
    requires cfg.volumeSpec.Some? && Initial(w) && Kept(w, k.user) && n <= |steps|
    requires forall i :: 0 <= i < |steps| ==> InNamespace(ns, k.user, steps[i])
    requires forall i: nat :: i < |steps| ==> !RemovedAt(cfg, w, steps, i, k.user)
    requires k in At(cfg, w, steps, n).claims && Entry(At(cfg, w, steps, n), k.user).Some?
    ensures Some(At(cfg, w, steps, n).claims[k].volumeName) == Entry(At(cfg, w, steps, n), k.user)
  {
    InvariantsHold(cfg, ns, k.user, w, steps, n);
    var j := EveryClaimWasMade(cfg, w, steps, n, k);
    KeptWhile(cfg, w, steps, j, k.user);
  }

  // ---- privacy

  /** No volume is shared by two users, not even by a claim of one and the entry of the other. */
  ghost predicate Private(w: World) {
    && (forall u, v :: Entry(w, u).Some? && Entry(w, u) == Entry(w, v) ==> u == v)
    && (forall k, l :: k in w.claims && l in w.claims && w.claims[k].volumeName == w.claims[l].volumeName != "" ==>
          k.user == l.user)
    && (forall k, u :: k in w.claims && Entry(w, u) == Some(w.claims[k].volumeName) ==> k.user == u)
    && (forall u :: Entry(w, u) != Some(""))
  }

  /** The volume is another user's entry, or that of another user's claim. */
  ghost predicate HeldByOther(w: World, user: string, v: string) {
    || (exists u :: u != user && Entry(w, u) == Some(v))
    || (exists l :: l in w.claims && l.user != user && w.claims[l].volumeName == v)
  }

  /** The claim that a step gives a volume, and the volume, if it does. */
  function Given(cfg: Config, w: World, step: Step): Option<(ClaimKey, string)>
    requires cfg.volumeSpec.Some?
  {
    if step.Bind? && Takes(w, step.claim, step.volume) then Some((step.claim, step.volume))
    else if Makes(cfg, w, step) then Some((ClaimOf(step.s), NewClaim(cfg, w, Entry(w, step.s.user)).volumeName))
    else None
  }

  /** A claim gets a volume that someone else has. */
  ghost predicate Intrudes(cfg: Config, w: World, step: Step)
    requires cfg.volumeSpec.Some?
  {
    Given(cfg, w, step).Some?
    && var (k, v) := Given(cfg, w, step).value; v != "" && HeldByOther(w, k.user, v)
  }

  lemma GivingIsPrivate(w: World, w': World, k: ClaimKey, c: Claim)
    requires Private(w) && SameEntries(w, w') && w'.claims == w.claims[k := c]
    requires k in w.claims ==> w.claims[k].volumeName == ""
    ensures Private(w') <==> !(c.volumeName != "" && HeldByOther(w, k.user, c.volumeName))
  {
    if c.volumeName != "" && HeldByOther(w, k.user, c.volumeName) {
      if u :| u != k.user && Entry(w, u) == Some(c.volumeName) {
        assert Entry(w', u) == Some(w'.claims[k].volumeName);
      } else {
        var l :| l in w.claims && l.user != k.user && w.claims[l].volumeName == c.volumeName;
        assert w'.claims[l].volumeName == w'.claims[k].volumeName;
      }
    }
  }

  lemma MappingIsPrivate(w: World, w': World, s: Session)
    requires Private(w) && MappingVolumes(w, w') && MappingEntry(w, w', s)
    ensures Private(w')
  {
  }

  lemma LosingIsPrivate(w: World, w': World)
    requires Private(w) && SameEntries(w, w') && NoNewClaims(w, w')
    ensures Private(w')
  {
  }

  /** A step from a private world ends in one exactly when it gives nobody what another has. */
  lemma StepIsPrivate(cfg: Config, w: World, step: Step)
    requires cfg.volumeSpec.Some? && Private(w)
    ensures Private(Next(cfg, w, step)) <==> !Intrudes(cfg, w, step)
  {
    NextEffect(cfg, w, step);
    var w' := Next(cfg, w, step);
    match Given(cfg, w, step)
    case Some((k, v)) => GivingIsPrivate(w, w', k, w'.claims[k]);
    case None =>
      if step.ReconcileMapping? {
        MappingIsPrivate(w, w', step.s);
      } else {
        LosingIsPrivate(w, w');
      }
  }

  ghost predicate IntrudedAt(cfg: Config, w: World, steps: seq<Step>, i: nat)
    requires cfg.volumeSpec.Some? && i < |steps|
  {
    Intrudes(cfg, At(cfg, w, steps, i), steps[i])
  }

  ghost predicate PrivateAt(cfg: Config, w: World, steps: seq<Step>, n: nat)
    requires cfg.volumeSpec.Some? && n <= |steps|
  {
    Private(At(cfg, w, steps, n))
  }

  lemma NextPrivateAt(cfg: Config, w: World, steps: seq<Step>, i: nat)
    requires cfg.volumeSpec.Some? && i < |steps| && PrivateAt(cfg, w, steps, i)
    ensures PrivateAt(cfg, w, steps, i + 1) <==> !IntrudedAt(cfg, w, steps, i)
  {
    StepIsPrivate(cfg, At(cfg, w, steps, i), steps[i]);
  }

  lemma {:induction false} PrivateWhile(cfg: Config, w: World, steps: seq<Step>, n: nat)
    requires cfg.volumeSpec.Some? && Private(w) && n <= |steps|
    requires forall i: nat :: i < n ==> !IntrudedAt(cfg, w, steps, i)
    ensures PrivateAt(cfg, w, steps, n)
  {
    if n > 0 {
      PrivateWhile(cfg, w, steps, n - 1);
      NextPrivateAt(cfg, w, steps, n - 1);
    }
  }

  /** In any number of namespaces: no two users ever have the same volume, all through a run, if and only if no claim
      is given, by binding or when it is made, a volume that is another user's entry or claim. */
  lemma UserdataIsPrivate(cfg: Config, w: World, steps: seq<Step>)
    requires cfg.volumeSpec.Some? && Private(w)
    ensures (forall n: nat :: n <= |steps| ==> PrivateAt(cfg, w, steps, n))
       <==> forall i: nat :: i < |steps| ==> !IntrudedAt(cfg, w, steps, i)
  {
    if forall i: nat :: i < |steps| ==> !IntrudedAt(cfg, w, steps, i) {
      forall n: nat | n <= |steps| ensures PrivateAt(cfg, w, steps, n) {
        PrivateWhile(cfg, w, steps, n);
      }
    } else {
      var i: nat :| i < |steps| && IntrudedAt(cfg, w, steps, i);
      if PrivateAt(cfg, w, steps, i) {
        NextPrivateAt(cfg, w, steps, i);
      }
    }
  }

  /** The code leaves that to the cluster: a volume that teardown freed can be bound to any unbound claim, which then
      shares it, in whatever private world. */
  lemma FreedVolumeMayBeShared(cfg: Config, w: World, owner: string, k: ClaimKey, policy: Policy)
    requires cfg.volumeSpec.Some? && Private(w) && Entry(w, owner).Some? && k.user != owner
    requires Entry(w, owner).value in w.volumes && w.volumes[Entry(w, owner).value] == Volume(None, Retain)
    requires k in w.claims && w.claims[k].volumeName == ""
    ensures var w' := Next(cfg, w, Bind(k, Entry(w, owner).value, policy));
            k in w'.claims && Entry(w', owner) == Some(w'.claims[k].volumeName) && !Private(w')
  {
    var step := Bind(k, Entry(w, owner).value, policy);
    assert HeldByOther(w, k.user, Entry(w, owner).value);
    StepIsPrivate(cfg, w, step);
    NextEffect(cfg, w, step);
  }

  // ---- two namespaces

  function CompetingSessions(s: Session, t: Session, v: string, u: string): seq<Step> {
    [ReconcileVolumes(s, {}), Bind(ClaimOf(s), v, Delete), ReconcileVolumes(t, {}), Bind(ClaimOf(t), u, Delete),
     ReconcileMapping(s, {}), ReconcileMapping(t, {})]
  }

  function NothingYet(): World {
    World(map[], map[], map[], Some(map[]))
  }

  /** The claims of both sessions, each bound to a volume of its own, and no entry. */
  function BothBound(s: Session, t: Session, v: string, u: string): World {
    var birth := Birth(None, false);
    World(map[], map[ClaimOf(s) := Claim(v, false, birth), ClaimOf(t) := Claim(u, false, birth)],
          map[v := Volume(Some(ClaimOf(s)), Delete), u := Volume(Some(ClaimOf(t)), Delete)], Some(map[]))
  }

  /** A first session's claim is made and bound to a new volume. */
  lemma ClaimBinds(cfg: Config, w: World, s: Session, v: string)
    requires cfg.volumeSpec == Some("") && w.volMap == Some(map[]) && ClaimOf(s) !in w.claims
    requires v !in w.volumes && v != ""
    ensures Next(cfg, Next(cfg, w, ReconcileVolumes(s, {})), Bind(ClaimOf(s), v, Delete))
         == w.(claims := w.claims[ClaimOf(s) := Claim(v, false, Birth(None, false))],
               volumes := w.volumes[v := Volume(Some(ClaimOf(s)), Delete)])
  {
    var k, unbound := ClaimOf(s), Claim("", false, Birth(None, false));
    assert Next(cfg, w, ReconcileVolumes(s, {})) == w.(claims := w.claims[k := unbound]);
    assert w.claims[k := unbound][k := unbound.(volumeName := v)] == w.claims[k := unbound.(volumeName := v)];
  }

  lemma TwoSteps(cfg: Config, w: World, steps: seq<Step>, n: nat)
    requires cfg.volumeSpec.Some? && n + 2 <= |steps|
    ensures At(cfg, w, steps, n + 2) == Next(cfg, Next(cfg, At(cfg, w, steps, n), steps[n]), steps[n + 1])
  {
  }

  lemma BothBind(s: Session, t: Session, v: string, u: string)
    requires s.user == t.user && s.namespace != t.namespace && v != u && v != "" && u != ""
    ensures var cfg, w, steps := Config(Some("")), NothingYet(), CompetingSessions(s, t, v, u);
            && v in At(cfg, w, steps, 2).volumes && v in At(cfg, w, steps, 3).volumes
            && At(cfg, w, steps, 4) == BothBound(s, t, v, u)
  {
    var cfg, w, steps := Config(Some("")), NothingYet(), CompetingSessions(s, t, v, u);
    ClaimBinds(cfg, w, s, v);
    var w2 := At(cfg, w, steps, 2);
    TwoSteps(cfg, w, steps, 0);
    ClaimBinds(cfg, w2, t, u);
    TwoSteps(cfg, w, steps, 2);
    assert At(cfg, w, steps, 3) == Next(cfg, w2, steps[2]);
  }

  lemma BothEnter(s: Session, t: Session, v: string, u: string)
    requires s.user == t.user && s.namespace != t.namespace && v != u && v != "" && u != ""
    ensures var cfg, w := Config(Some("")), BothBound(s, t, v, u);
            var w5 := Next(cfg, w, ReconcileMapping(s, {}));
            var w6 := Next(cfg, w5, ReconcileMapping(t, {}));
            Entry(w5, s.user) == Some(v) && v in w5.volumes && Entry(w6, s.user) == Some(u) && v in w6.volumes
  {
  }

  /** Two sessions of one user in two namespaces, started before either volume is entered: the entry moves
      although its volume was there all along. */
  lemma NamespacesCompete(s: Session, t: Session, v: string, u: string)
    requires s.user == t.user && s.namespace != t.namespace && v != u && v != "" && u != ""
    ensures var cfg, w, steps := Config(Some("")), NothingYet(), CompetingSessions(s, t, v, u);
            && Initial(w)
            && Entry(At(cfg, w, steps, 5), s.user) == Some(v) && Entry(At(cfg, w, steps, 6), s.user) == Some(u)
            && forall i :: 2 <= i <= 6 ==> v in At(cfg, w, steps, i).volumes
  {
    BothBind(s, t, v, u);
    BothEnter(s, t, v, u);
    var cfg, w, steps := Config(Some("")), NothingYet(), CompetingSessions(s, t, v, u);
    assert At(cfg, w, steps, 5) == Next(cfg, BothBound(s, t, v, u), steps[4]);
    assert At(cfg, w, steps, 6) == Next(cfg, At(cfg, w, steps, 5), steps[5]);
    forall i | 2 <= i <= 6 ensures v in At(cfg, w, steps, i).volumes {
      assert i == 2 || i == 3 || i == 4 || i == 5 || i == 6;
    }
  }

  // ---- when entries are sticky in all runs

  /** The entry's next change is to the volume of a claim that was made when the old volume was missing. */
  ghost predicate Excused(cfg: Config, w: World, steps: seq<Step>, n: nat, user: string)
    requires cfg.volumeSpec.Some? && n < |steps| && Entry(At(cfg, w, steps, n), user).Some?
  {
    exists k: ClaimKey, j: nat ::
      && k.user == user && k in At(cfg, w, steps, n).claims && MadeAt(cfg, w, steps, n, k, j)
      && Entry(At(cfg, w, steps, n + 1), user) == Some(At(cfg, w, steps, n).claims[k].volumeName)
      && Entry(At(cfg, w, steps, j), user) == Entry(At(cfg, w, steps, n), user)
      && Entry(At(cfg, w, steps, n), user).value !in At(cfg, w, steps, j).volumes
  }

  ghost predicate Sticky(cfg: Config, w: World, steps: seq<Step>)
    requires cfg.volumeSpec.Some?
  {
    forall n: nat, user: string | n < |steps| && Entry(At(cfg, w, steps, n), user).Some? ::
      Entry(At(cfg, w, steps, n + 1), user) == Entry(At(cfg, w, steps, n), user) || Excused(cfg, w, steps, n, user)
  }

  /** Sessions are of these users in these namespaces. */
  ghost predicate Among(sessions: iset<ClaimKey>, steps: seq<Step>) {
    forall step <- steps ::
      step.ReconcileVolumes? || step.ReconcileMapping? || step.RunFinalizers? ==> ClaimOf(step.s) in sessions
  }

  ghost predicate OneNamespaceEach(sessions: iset<ClaimKey>) {
    forall k, l :: k in sessions && l in sessions && k.user == l.user ==> k.namespace == l.namespace
  }

  lemma StickyInOneNamespaceEach(cfg: Config, sessions: iset<ClaimKey>, w: World, steps: seq<Step>)
    requires cfg.volumeSpec.Some? && Initial(w) && Among(sessions, steps) && OneNamespaceEach(sessions)
    ensures Sticky(cfg, w, steps)
  {
    forall n: nat, user: string
      | && n < |steps| && Entry(At(cfg, w, steps, n), user).Some?
        && Entry(At(cfg, w, steps, n + 1), user) != Entry(At(cfg, w, steps, n), user)
      ensures Excused(cfg, w, steps, n, user)
    {
      var ns := if k: ClaimKey :| k in sessions && k.user == user then k.namespace else "";
      forall i | 0 <= i < |steps| ensures InNamespace(ns, user, steps[i]) {
        assert steps[i] in steps;
      }
      var j := StickyMapping(cfg, ns, w, steps, n, user);
    }
  }

  // ---- a claim spec that names a volume

  /** Where new claims ask for volume x by default: a user's entry is the first one or x, and x only once the first
      volume is missing; and claims ask for what their birth record says, which stays missing if it was. */
  ghost predicate Settled(x: string, w0: World, w: World) {
    forall user :: SettledFor(x, w0, w, user)
  }

  ghost predicate SettledFor(x: string, w0: World, w: World, user: string) {
    && Entry(w, user) in {Entry(w0, user), Some(x)}
    && (Entry(w, user) != Entry(w0, user) && Entry(w0, user).Some? ==> Entry(w0, user).value !in w.volumes)
    && forall k :: k in w.claims && k.user == user ==> SettledClaim(x, w0, w, w.claims[k], user)
  }

  ghost predicate SettledClaim(x: string, w0: World, w: World, c: Claim, user: string) {
    && c.birth.entry in {Entry(w0, user), Some(x)}
    && (Entry(w, user) == Entry(w0, user) ==> c.birth.entry == Entry(w0, user))
    && (c.birth.found ==> c.birth.entry == Some(c.volumeName))
    && (!c.birth.found ==> c.volumeName == x)
    && (!c.birth.found && c.birth.entry.Some? ==> c.birth.entry.value !in w.volumes)
  }

  /** No claim is without a volume to ask for, so binding provisions nothing. */
  ghost predicate AllNamed(w: World) {
    forall k :: k in w.claims ==> w.claims[k].volumeName != ""
  }

  lemma SettledNamed(x: string, w0: World, w: World)
    requires x != "" && Initial(w0) && Settled(x, w0, w)
    ensures AllNamed(w)
  {
    forall k | k in w.claims ensures w.claims[k].volumeName != "" {
      assert SettledFor(x, w0, w, k.user);
    }
  }

  lemma MappingStaysSettled(x: string, w0: World, w: World, w': World, s: Session)
    requires x != "" && Initial(w0) && Settled(x, w0, w) && MappingVolumes(w, w') && MappingEntry(w, w', s)
    ensures Settled(x, w0, w')
  {
    forall user ensures SettledFor(x, w0, w', user) {
      assert SettledFor(x, w0, w, user);
    }
  }

  lemma OtherStepStaysSettled(cfg: Config, w0: World, w: World, w': World, step: Step)
    requires cfg.volumeSpec.Some? && cfg.volumeSpec.value != "" && Initial(w0) && Settled(cfg.volumeSpec.value, w0, w)
    requires !step.ReconcileMapping? && Effect(cfg, w, w', step)
    ensures Settled(cfg.volumeSpec.value, w0, w')
  {
    SettledNamed(cfg.volumeSpec.value, w0, w);
    assert w'.volumes.Keys <= w.volumes.Keys;
    forall user ensures SettledFor(cfg.volumeSpec.value, w0, w', user) {
      assert SettledFor(cfg.volumeSpec.value, w0, w, user);
    }
  }

  lemma {:induction false} SettledAt(cfg: Config, w: World, steps: seq<Step>, n: nat)
    requires cfg.volumeSpec.Some? && cfg.volumeSpec.value != "" && Initial(w) && n <= |steps|
    ensures Settled(cfg.volumeSpec.value, w, At(cfg, w, steps, n)) && ClaimsAsk(At(cfg, w, steps, n))
  {
    if n > 0 {
      var before := At(cfg, w, steps, n - 1);
      SettledAt(cfg, w, steps, n - 1);
      NextEffect(cfg, before, steps[n - 1]);
      StepKeepsClaimsAsk(cfg, before, At(cfg, w, steps, n), steps[n - 1]);
      if steps[n - 1].ReconcileMapping? {
        MappingStaysSettled(cfg.volumeSpec.value, w, before, At(cfg, w, steps, n), steps[n - 1].s);
      } else {
        OtherStepStaysSettled(cfg, w, before, At(cfg, w, steps, n), steps[n - 1]);
      }
    }
  }

  lemma StickyWithNamedSpec(cfg: Config, w: World, steps: seq<Step>)
    requires cfg.volumeSpec.Some? && cfg.volumeSpec.value != "" && Initial(w)
    ensures Sticky(cfg, w, steps)
  {
    forall n: nat, user: string
      | && n < |steps| && Entry(At(cfg, w, steps, n), user).Some?
        && Entry(At(cfg, w, steps, n + 1), user) != Entry(At(cfg, w, steps, n), user)
      ensures Excused(cfg, w, steps, n, user)
    {
      var now := At(cfg, w, steps, n);
      SettledAt(cfg, w, steps, n);
      assert SettledFor(cfg.volumeSpec.value, w, now, user);
      EntryChange(cfg, now, steps[n], user);
      NextEffect(cfg, now, steps[n]);
      var k := ClaimOf(steps[n].s);
      assert now.claims[k].birth.entry == Entry(now, user);
      var j := EveryClaimWasMade(cfg, w, steps, n, k);
    }
  }

  lemma CompetitionIsNotSticky(s: Session, t: Session, v: string, u: string)
    requires s.user == t.user && s.namespace != t.namespace && v != u && v != "" && u != ""
    ensures !Sticky(Config(Some("")), NothingYet(), CompetingSessions(s, t, v, u))
  {
    var cfg, w, steps := Config(Some("")), NothingYet(), CompetingSessions(s, t, v, u);
    NamespacesCompete(s, t, v, u);
    BothBind(s, t, v, u);
    if Excused(cfg, w, steps, 5, s.user) {
      var k: ClaimKey, j: nat :| k.user == s.user && k in At(cfg, w, steps, 5).claims && MadeAt(cfg, w, steps, 5, k, j)
        && Entry(At(cfg, w, steps, 6), s.user) == Some(At(cfg, w, steps, 5).claims[k].volumeName)
        && Entry(At(cfg, w, steps, j), s.user) == Entry(At(cfg, w, steps, 5), s.user)
        && v !in At(cfg, w, steps, j).volumes;
      assert false;
    }
  }

  /** Entries are sticky in every run of these sessions if and only if no user has sessions in two namespaces, or the
      claim spec names a volume. */
  lemma StickyExactly(cfg: Config, sessions: iset<ClaimKey>)
    requires cfg.volumeSpec.Some?
    ensures (forall w, steps | Initial(w) && Among(sessions, steps) :: Sticky(cfg, w, steps))
       <==> cfg.volumeSpec.value != "" || OneNamespaceEach(sessions)
  {
    if cfg.volumeSpec.value != "" {
      forall w, steps | Initial(w) && Among(sessions, steps) ensures Sticky(cfg, w, steps) {
        StickyWithNamedSpec(cfg, w, steps);
      }
    } else if OneNamespaceEach(sessions) {
      forall w, steps | Initial(w) && Among(sessions, steps) ensures Sticky(cfg, w, steps) {
        StickyInOneNamespaceEach(cfg, sessions, w, steps);
      }
    } else {
      var k, l :| k in sessions && l in sessions && k.user == l.user && k.namespace != l.namespace;
      var s, t := Session("s", k.namespace, k.user, []), Session("t", l.namespace, l.user, []);
      CompetitionIsNotSticky(s, t, "v", "u");
      assert Initial(NothingYet()) && Among(sessions, CompetingSessions(s, t, "v", "u"));
    }
  }
}
