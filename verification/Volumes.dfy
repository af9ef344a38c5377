/** String slices as the reconciler handles them: pkg/util/common/util.go. */
module Slices {
  /** ss without any occurrence of s, the rest in its old order. */
  function Removed(ss: seq<string>, s: string): (r: seq<string>)
    ensures s !in r
    ensures forall x :: x != s ==> (x in r <==> x in ss)
  {
    if ss == [] then []
    else (if ss[0] == s then [] else [ss[0]]) + Removed(ss[1..], s)
  }

  /** Removal acts on each part of a slice by itself, so whatever stays keeps its place. */
  lemma {:induction false} RemovedDistributes(a: seq<string>, b: seq<string>, s: string)
    ensures Removed(a + b, s) == Removed(a, s) + Removed(b, s)
  {
    if a == [] {
      assert a + b == b;
    } else {
      assert (a + b)[1..] == a[1..] + b;
      RemovedDistributes(a[1..], b, s);
    }
  }

  lemma {:induction false} NothingRemoved(ss: seq<string>, s: string)
    requires s !in ss
    ensures Removed(ss, s) == ss
  {
    if ss != [] {
      NothingRemoved(ss[1..], s);
      assert ss == [ss[0]] + ss[1..];
    }
  }

  lemma RemovedOnce(before: seq<string>, after: seq<string>, s: string)
    requires s !in before && s !in after
    ensures Removed(before + [s] + after, s) == before + after
  {
    calc {
      Removed(before + [s] + after, s);
    == { RemovedDistributes(before + [s], after, s); }
      Removed(before + [s], s) + Removed(after, s);
    == { RemovedDistributes(before, [s], s); }
      Removed(before, s) + Removed([s], s) + Removed(after, s);
    == { NothingRemoved(before, s); NothingRemoved(after, s); assert Removed([s], s) == []; }
      before + [] + after;
    ==
      before + after;
    }
  }

  method StringSliceContains(ss: seq<string>, s: string) returns (found: bool)
    ensures found <==> s in ss
  {
    for i := 0 to |ss|
      invariant s !in ss[..i]
    {
      if ss[i] == s {
        return true;
      }
    }
    return false;
  }

  method StringSliceRemove(ss: seq<string>, s: string) returns (newSlice: seq<string>)
    ensures newSlice == Removed(ss, s)
  {
    newSlice := [];
    for i := 0 to |ss|
      invariant newSlice == Removed(ss[..i], s)
    {
      RemovedDistributes(ss[..i], [ss[i]], s);
      assert ss[..i + 1] == ss[..i] + [ss[i]];
      if ss[i] != s {
        newSlice := newSlice + [ss[i]];
      }
    }
    assert ss[..|ss|] == ss;
  }

  /** Adds each of the arguments that is not there yet, once. */
  method AppendStringIfMissing(sl: seq<string>, s: seq<string>) returns (r: seq<string>)
    ensures sl <= r
    ensures forall x :: x in r <==> x in sl || x in s
    ensures forall i, j :: |sl| <= i < |r| && 0 <= j < i ==> r[j] != r[i]
  {
    r := sl;
    for k := 0 to |s|
      invariant sl <= r
      invariant forall x :: x in r <==> x in sl || x in s[..k]
      invariant forall i, j :: |sl| <= i < |r| && 0 <= j < i ==> r[j] != r[i]
    {
      var present := StringSliceContains(r, s[k]);
      if !present {
        r := r + [s[k]];
      }
    }
  }
}

/** The userdata volumes of desktop sessions: pkg/resources/desktop. */
module Volumes {
  import opened Wrappers
  import opened Slices

  datatype Policy = Retain | Delete | Recycle

  /** A user's claim in a namespace; its name is made from the user's. */
  datatype ClaimKey = ClaimKey(namespace: string, user: string)

  datatype PodKey = PodKey(namespace: string, name: string)

  /** A persistent volume's claim reference and reclaim policy. */
  datatype Volume = Volume(claimRef: Option<ClaimKey>, policy: Policy)

  /** What reconcileVolumes had read when it made the claim: the user's entry, and whether that volume was there. */
  datatype Birth = Birth(entry: Option<string>, found: bool)

  datatype Claim = Claim(volumeName: string, terminating: bool, birth: Birth)

  /** The API server: pods and whether they terminate, claims, volumes, and the user-to-volume ConfigMap. */
  datatype World = World(pods: map<PodKey, bool>, claims: map<ClaimKey, Claim>, volumes: map<string, Volume>,
                         volMap: Option<map<string, string>>)

  datatype Session = Session(name: string, namespace: string, user: string, finalizers: seq<string>)

  /** volumeSpec is the volume name in the cluster's claim spec, usually empty; None when no spec is set. */
  datatype Config = Config(volumeSpec: Option<string>)

  datatype Outcome = Done | Requeue(seconds: nat) | ApiError

  /** The API calls, any of which may fail for other reasons than a missing object. */
  datatype Call = GetCluster | UpdateSession | RereadSession | GetPod | DeletePod
                | GetVolMap | CreateVolMap | RereadVolMap | UpdateVolMap
                | GetClaim | CreateClaim | DeleteClaim | GetVolume | UpdateVolume

  const RECLAIM_FINALIZER := "kvdi.io/userdata-reclaim"

  function PodOf(s: Session): PodKey {
    PodKey(s.namespace, s.name)
  }

  function ClaimOf(s: Session): ClaimKey {
    ClaimKey(s.namespace, s.user)
  }

  function Entry(w: World, user: string): Option<string> {
    if w.volMap.Some? && user in w.volMap.value then Some(w.volMap.value[user]) else None
  }

  function Freed(v: Volume): Volume {
    Volume(None, Retain)
  }

  /** getVolMapForCluster: an absent map is created empty and read again. */
  function VolMapEnsured(w: World, faults: set<Call>): (World, bool) {
    if GetVolMap in faults then (w, false)
    else if w.volMap.Some? then (w, true)
    else if CreateVolMap in faults then (w, false)
    else (w.(volMap := Some(map[])), RereadVolMap !in faults)
  }

  function VolumeFreed(w: World, name: string, faults: set<Call>): (World, Outcome)
    requires name in w.volumes
  {
    if w.volumes[name] == Freed(w.volumes[name]) then (w, Done)
    else if UpdateVolume in faults then (w, ApiError)
    else (w.(volumes := w.volumes[name := Freed(w.volumes[name])]), Requeue(5))
  }

  /** reclaimVolumes. */
  function Reclaimed(cfg: Config, s: Session, w: World, faults: set<Call>): (World, Outcome) {
    if GetCluster in faults then (w, ApiError)
    else if cfg.volumeSpec.None? then (w, Done)
    else if GetPod in faults then (w, ApiError)
    else if PodOf(s) in w.pods then
      if DeletePod in faults then (w, ApiError) else (w.(pods := w.pods[PodOf(s) := true]), Requeue(3))
    else
      var (w, ok) := VolMapEnsured(w, faults);
      if !ok then (w, ApiError)
      else if Entry(w, s.user).None? then (w, Done)
      else if GetClaim in faults then (w, ApiError)
      else if ClaimOf(s) in w.claims then (ClaimDeleted(w, ClaimOf(s), faults), Requeue(5))
      else if GetVolume in faults then (w, ApiError)
      else if Entry(w, s.user).value !in w.volumes then (w, Done)
      else VolumeFreed(w, Entry(w, s.user).value, faults)
  }

  /** A failed delete is only logged. */
  function ClaimDeleted(w: World, k: ClaimKey, faults: set<Call>): World
    requires k in w.claims
  {
    if DeleteClaim in faults then w else w.(claims := w.claims[k := w.claims[k].(terminating := true)])
  }

  /** reconcileVolumes: a claim that exists is left alone, a new one asks for the user's volume if that is
      still there. */
  function VolumesReconciled(cfg: Config, s: Session, w: World, faults: set<Call>): (World, Outcome)
    requires cfg.volumeSpec.Some?
  {
    var (w, ok) := VolMapEnsured(w, faults);
    var entry := Entry(w, s.user);
    if !ok then (w, ApiError)
    else if entry.Some? && GetVolume in faults then (w, ApiError)
    else if GetClaim in faults then (w, ApiError)
    else if ClaimOf(s) in w.claims then (w, Done)
    else if CreateClaim in faults then (w, ApiError)
    else (w.(claims := w.claims[ClaimOf(s) := NewClaim(cfg, w, entry)]), Done)
  }

  function NewClaim(cfg: Config, w: World, entry: Option<string>): Claim
    requires cfg.volumeSpec.Some?
  {
    var found := entry.Some? && entry.value in w.volumes;
    Claim(if found && entry.value != "" then entry.value else cfg.volumeSpec.value, false, Birth(entry, found))
  }

  /** reconcileUserdataMapping: frees the bound volume and enters it for the user. */
  function MappingReconciled(s: Session, w: World, faults: set<Call>): (World, Outcome) {
    if GetClaim in faults || ClaimOf(s) !in w.claims then (w, ApiError)
    else
      var name := w.claims[ClaimOf(s)].volumeName;
      if name == "" then (w, Requeue(3))
      else if GetVolume in faults || name !in w.volumes then (w, ApiError)
      else
        var (w, freed) := VolumeFreed(w, name, faults);
        if freed == ApiError then (w, ApiError)
        else
          var (w, ok) := VolMapEnsured(w, faults);
          if !ok then (w, ApiError)
          else if Entry(w, s.user) == Some(name) then (w, Done)
          else if UpdateVolMap in faults then (w, ApiError)
          else (w.(volMap := Some(w.volMap.value[s.user := name])), Done)
  }

  /** Volumes are there still under their policy or Retain. */
  ghost predicate VolumesStay(w: World, w': World) {
    forall v :: v in w.volumes ==> v in w'.volumes && w'.volumes[v].policy in {w.volumes[v].policy, Retain}
  }

  /** Mapping frees a volume at most. */
  ghost predicate MappingVolumes(w: World, w': World) {
    w'.claims == w.claims && VolumesStay(w, w') && w'.volumes.Keys == w.volumes.Keys
  }

  /** Mapping enters the claim's volume, free and retained, for the session's user, or nothing. */
  ghost predicate MappingEntry(w: World, w': World, s: Session) {
    && (forall user :: user != s.user ==> Entry(w', user) == Entry(w, user))
    && (Entry(w', s.user) != Entry(w, s.user) ==>
          && ClaimOf(s) in w.claims && w.claims[ClaimOf(s)].volumeName != ""
          && Entry(w', s.user) == Some(w.claims[ClaimOf(s)].volumeName)
          && w.claims[ClaimOf(s)].volumeName in w'.volumes
          && w'.volumes[w.claims[ClaimOf(s)].volumeName] == Volume(None, Retain))
  }

  lemma MappingKeepsVolumes(s: Session, w: World, faults: set<Call>)
    ensures MappingVolumes(w, MappingReconciled(s, w, faults).0)
  {
  }

  lemma MappingEnters(s: Session, w: World, faults: set<Call>)
    ensures MappingEntry(w, MappingReconciled(s, w, faults).0, s)
  {
  }

  /** runFinalizers: the session's finalizers in the cluster afterwards. */
  function FinalizersRun(cfg: Config, s: Session, w: World, faults: set<Call>): (World, seq<string>, Outcome) {
    if RECLAIM_FINALIZER !in s.finalizers then (w, s.finalizers, Done)
    else
      var (w, r) := Reclaimed(cfg, s, w, faults);
      if r != Done then (w, s.finalizers, r)
      else if UpdateSession in faults then (w, s.finalizers, ApiError)
      else (w, Removed(s.finalizers, RECLAIM_FINALIZER), Done)
  }

  /** Nothing of the session is left to tear down, and the user's volume, if it exists, is free to be claimed again. */
  ghost predicate Reclaimable(cfg: Config, s: Session, w: World) {
    cfg.volumeSpec.Some? ==>
      && PodOf(s) !in w.pods
      && (Entry(w, s.user).Some? ==>
            && ClaimOf(s) !in w.claims
            && (Entry(w, s.user).value in w.volumes ==> w.volumes[Entry(w, s.user).value] == Volume(None, Retain)))
  }

  /** The finalizer is dropped exactly when everything is torn down already and every call that looks gets an
      answer; then the cluster's objects stay as they are, save that the map may come into being empty. */
  lemma FinalizerSafety(cfg: Config, s: Session, w: World, faults: set<Call>)
    requires RECLAIM_FINALIZER in s.finalizers
    ensures var (w', finalizers, r) := FinalizersRun(cfg, s, w, faults);
            && (RECLAIM_FINALIZER !in finalizers <==> r == Done)
            && (r == Done ==> Reclaimable(cfg, s, w) && Reclaimable(cfg, s, w'))
            && (r == Done ==> w' == w || w' == w.(volMap := Some(map[])))
            && (r != Done ==> finalizers == s.finalizers)
            && (Reclaimable(cfg, s, w) && faults == {} ==> r == Done)
  {
  }

  /** All objects but these pods, claims, volumes and entries are as they were. */
  ghost predicate SameApartFrom(w: World, w': World, pods: set<PodKey>, claims: set<ClaimKey>, volumes: set<string>,
                                users: set<string>) {
    && w'.pods - pods == w.pods - pods
    && w'.claims - claims == w.claims - claims
    && w'.volumes - volumes == w.volumes - volumes
    && forall user :: user !in users ==> Entry(w', user) == Entry(w, user)
  }

  /** The volume entered for a user, or that a claim names. */
  function EnteredVolume(w: World, user: string): set<string> {
    if Entry(w, user).Some? then {Entry(w, user).value} else {}
  }

  function ClaimedVolume(w: World, k: ClaimKey): set<string> {
    if k in w.claims then {w.claims[k].volumeName} else {}
  }

  /** A session's passes touch what is its own: the teardown its pod, its claim and the volume entered for its user,
      the other two its claim, or its claim's volume and its user's entry. */
  lemma PassesTouchTheirOwn(cfg: Config, s: Session, w: World, faults: set<Call>)
    ensures SameApartFrom(w, Reclaimed(cfg, s, w, faults).0, {PodOf(s)}, {ClaimOf(s)}, EnteredVolume(w, s.user), {})
    ensures cfg.volumeSpec.Some? ==>
      SameApartFrom(w, VolumesReconciled(cfg, s, w, faults).0, {}, {ClaimOf(s)}, {}, {})
    ensures SameApartFrom(w, MappingReconciled(s, w, faults).0, {}, {}, ClaimedVolume(w, ClaimOf(s)), {s.user})
  {
    ReclaimTouchesItsOwn(cfg, s, w, faults);
    MappingTouchesItsOwn(s, w, faults);
  }

  lemma ReclaimTouchesItsOwn(cfg: Config, s: Session, w: World, faults: set<Call>)
    ensures SameApartFrom(w, Reclaimed(cfg, s, w, faults).0, {PodOf(s)}, {ClaimOf(s)}, EnteredVolume(w, s.user), {})
  {
  }

  lemma MappingTouchesItsOwn(s: Session, w: World, faults: set<Call>)
    ensures SameApartFrom(w, MappingReconciled(s, w, faults).0, {}, {}, ClaimedVolume(w, ClaimOf(s)), {s.user})
  {
  }

  /** The reconciler, with the API server's objects that its calls read and write. */
  class Reconciler {
    const cfg: Config
    var pods: map<PodKey, bool>
    var claims: map<ClaimKey, Claim>
    var volumes: map<string, Volume>
    var volMap: Option<map<string, string>>

    constructor (cfg: Config, w: World)
      ensures this.cfg == cfg && View() == w
    {
      this.cfg := cfg;
      pods, claims, volumes, volMap := w.pods, w.claims, w.volumes, w.volMap;
    }

    function View(): World
      reads this
    {
      World(pods, claims, volumes, volMap)
    }

    method GetVolMapForCluster(faults: set<Call>) returns (ok: bool)
      modifies this`volMap
      ensures (View(), ok) == VolMapEnsured(old(View()), faults)
      ensures (ok ==> volMap.Some?) && forall user :: Entry(View(), user) == old(Entry(View(), user))
    {
      if GetVolMap in faults {
        return false;
      }
      if volMap.None? {
        if CreateVolMap in faults {
          return false;
        }
        volMap := Some(map[]);
        return RereadVolMap !in faults;
      }
      return true;
    }

    /** changed tells whether an update was called for. */
    method FreePV(name: string, faults: set<Call>) returns (changed: bool, err: bool)
      requires name in volumes
      modifies this`volumes
      ensures View() == VolumeFreed(old(View()), name, faults).0
      ensures VolumeFreed(old(View()), name, faults).1 == if err then ApiError else if changed then Requeue(5) else Done
      ensures changed <==> old(volumes[name]) != Volume(None, Retain)
      ensures volumes == if err then old(volumes) else old(volumes)[name := Volume(None, Retain)]
    {
      changed, err := false, false;
      var pv := volumes[name];
      if pv.policy != Retain {
        pv := pv.(policy := Retain);
        changed := true;
      }
      if pv.claimRef != None {
        pv := pv.(claimRef := None);
        changed := true;
      }
      if changed {
        if UpdateVolume in faults {
          err := true;
        } else {
          volumes := volumes[name := pv];
        }
      }
    }

    method ReclaimVolumes(s: Session, faults: set<Call>) returns (r: Outcome)
      modifies this
      ensures (View(), r) == Reclaimed(cfg, s, old(View()), faults)
      ensures r.Requeue? ==> r.seconds == if old(PodOf(s) in pods) then 3 else 5
      ensures r == ApiError ==> faults != {}
      ensures r == Done ==> Reclaimable(cfg, s, View())
      ensures old(Reclaimable(cfg, s, View())) && faults == {} ==> r == Done
    {
      if GetCluster in faults {
        return ApiError;
      }
      if cfg.volumeSpec != None {
        if GetPod in faults {
          return ApiError;
        }
        if PodOf(s) in pods {
          if DeletePod in faults {
            return ApiError;
          }
          pods := pods[PodOf(s) := true];
          return Requeue(3);
        }
        var ok := GetVolMapForCluster(faults);
        if !ok {
          return ApiError;
        }
        if s.user !in volMap.value {
          return Done;
        }
        var pvName := volMap.value[s.user];
        if GetClaim in faults {
          return ApiError;
        }
        if ClaimOf(s) in claims {
          if DeleteClaim !in faults {
            claims := claims[ClaimOf(s) := claims[ClaimOf(s)].(terminating := true)];
          }
          return Requeue(5);
        }
        if GetVolume in faults {
          return ApiError;
        }
        if pvName !in volumes {
          return Done;
        }
        var changed, err := FreePV(pvName, faults);
        if err {
          return ApiError;
        } else if changed {
          return Requeue(5);
        }
      }
      return Done;
    }

    method ReconcileVolumes(s: Session, faults: set<Call>) returns (r: Outcome)
      requires cfg.volumeSpec.Some?
      modifies this
      ensures (View(), r) == VolumesReconciled(cfg, s, old(View()), faults)
      ensures r == Done ==> ClaimOf(s) in claims
      ensures !r.Requeue? && (r == ApiError ==> faults != {} && claims == old(claims))
      ensures GetVolume in faults && old(Entry(View(), s.user)).Some? ==> r == ApiError
      ensures forall k <- old(claims) :: k in claims && claims[k] == old(claims[k])
      ensures ClaimOf(s) in claims && ClaimOf(s) !in old(claims) ==>
        var entry := old(Entry(View(), s.user));
        claims[ClaimOf(s)].volumeName ==
          if entry.Some? && entry.value in volumes && entry.value != "" then entry.value else cfg.volumeSpec.value
    {
      var ok := GetVolMapForCluster(faults);
      if !ok {
        return ApiError;
      }
      var existingVol := "";
      var birth := Birth(None, false);
      if s.user in volMap.value {
        existingVol := volMap.value[s.user];
        birth := Birth(Some(existingVol), true);
        if GetVolume in faults {
          return ApiError;
        }
        if existingVol !in volumes {
          existingVol := "";
          birth := birth.(found := false);
        }
      }
      var volumeName := if existingVol != "" then existingVol else cfg.volumeSpec.value;
      if GetClaim in faults {
        return ApiError;
      }
      if ClaimOf(s) !in claims {
        if CreateClaim in faults {
          return ApiError;
        }
        claims := claims[ClaimOf(s) := Claim(volumeName, false, birth)];
      }
      return Done;
    }

    method ReconcileUserdataMapping(s: Session, faults: set<Call>) returns (r: Outcome)
      modifies this
      ensures (View(), r) == MappingReconciled(s, old(View()), faults)
      ensures MappingVolumes(old(View()), View()) && MappingEntry(old(View()), View(), s)
      ensures r.Requeue? ==> r.seconds == 3 && ClaimOf(s) in claims && claims[ClaimOf(s)].volumeName == ""
      ensures r == Done ==> ClaimOf(s) in claims && Entry(View(), s.user) == Some(claims[ClaimOf(s)].volumeName)
    {
      MappingKeepsVolumes(s, View(), faults);
      MappingEnters(s, View(), faults);
      if GetClaim in faults || ClaimOf(s) !in claims {
        return ApiError;
      }
      var pvName := claims[ClaimOf(s)].volumeName;
      if pvName == "" {
        return Requeue(3);
      }
      if GetVolume in faults || pvName !in volumes {
        return ApiError;
      }
      var _, err := FreePV(pvName, faults);
      if err {
        return ApiError;
      }
      var ok := GetVolMapForCluster(faults);
      if !ok {
        return ApiError;
      }
      if s.user !in volMap.value || volMap.value[s.user] != pvName {
        if UpdateVolMap in faults {
          return ApiError;
        }
        volMap := Some(volMap.value[s.user := pvName]);
      }
      return Done;
    }

    method RunFinalizers(s: Session, faults: set<Call>) returns (finalizers: seq<string>, r: Outcome)
      modifies this
      ensures (View(), finalizers, r) == FinalizersRun(cfg, s, old(View()), faults)
      ensures RECLAIM_FINALIZER in s.finalizers ==> (RECLAIM_FINALIZER !in finalizers <==> r == Done)
      ensures RECLAIM_FINALIZER in s.finalizers && r == Done ==>
        old(Reclaimable(cfg, s, View())) && Reclaimable(cfg, s, View())
      ensures r != Done ==> finalizers == s.finalizers
    {
      finalizers := s.finalizers;
      r := Done;
      var updated := false;
      var present := StringSliceContains(finalizers, RECLAIM_FINALIZER);
      if present {
        FinalizerSafety(cfg, s, View(), faults);
        r := ReclaimVolumes(s, faults);
        if r != Done {
          return;
        }
        updated := true;
      }
      if updated {
        if UpdateSession in faults {
          r := ApiError;
          return;
        }
        finalizers := StringSliceRemove(finalizers, RECLAIM_FINALIZER);
      }
    }

    /** The session's finalizers in the cluster; a failed update leaves them, a failed re-read does not. */
    method EnsureFinalizers(s: Session, faults: set<Call>) returns (finalizers: seq<string>, err: bool)
      ensures finalizers == s.finalizers
        || (RECLAIM_FINALIZER !in s.finalizers && finalizers == s.finalizers + [RECLAIM_FINALIZER])
      ensures RECLAIM_FINALIZER in finalizers <==> RECLAIM_FINALIZER in s.finalizers || UpdateSession !in faults
      ensures err <==> RECLAIM_FINALIZER !in s.finalizers && (UpdateSession in faults || RereadSession in faults)
    {
      finalizers, err := s.finalizers, false;
      var present := StringSliceContains(finalizers, RECLAIM_FINALIZER);
      if !present {
        if UpdateSession in faults {
          err := true;
          return;
        }
        finalizers := finalizers + [RECLAIM_FINALIZER];
        err := RereadSession in faults;
      }
    }
  }

  /** A run of the finalizer without it, or of one with it that completes, keeps every other finalizer in place. */
  lemma OtherFinalizersStay(cfg: Config, s: Session, w: World, faults: set<Call>, before: seq<string>,
                            after: seq<string>)
    requires s.finalizers == before + [RECLAIM_FINALIZER] + after
    requires RECLAIM_FINALIZER !in before && RECLAIM_FINALIZER !in after
    ensures var (w', finalizers, r) := FinalizersRun(cfg, s, w, faults);
            finalizers == if r == Done then before + after else s.finalizers
  {
    RemovedOnce(before, after, RECLAIM_FINALIZER);
  }

  /** What the environment does between two passes: it finishes every pending deletion and lets volumes be, apart
      from removing some. */
  ghost predicate EnvironmentFinishes(w: World, w': World) {
    && w'.pods == (map p | p in w.pods && !w.pods[p] :: false)
    && w'.claims == (map k | k in w.claims && !w.claims[k].terminating :: w.claims[k])
    && w'.volMap == w.volMap
    && w'.volumes.Keys <= w.volumes.Keys
    && forall v <- w'.volumes :: w'.volumes[v] == w.volumes[v]
  }

  /** Teardown work left: the pod, the claim, and a volume that is not free. */
  ghost function WorkLeft(s: Session, w: World): nat {
    (if PodOf(s) in w.pods then 1 else 0)
    + (if ClaimOf(s) in w.claims then 1 else 0)
    + (if Entry(w, s.user).Some? && Entry(w, s.user).value in w.volumes
          && w.volumes[Entry(w, s.user).value] != Volume(None, Retain) then 1 else 0)
  }

  /** Every requeue finishes one piece of the work. */
  lemma RequeueProgresses(cfg: Config, s: Session, w: World, w': World)
    requires Reclaimed(cfg, s, w, {}).1.Requeue?
    requires EnvironmentFinishes(Reclaimed(cfg, s, w, {}).0, w')
    ensures WorkLeft(s, w') < WorkLeft(s, w)
  {
  }

  /** A teardown as it is requeued: each world is what the environment made of the pass over the one before. */
  ghost predicate Teardown(cfg: Config, s: Session, ws: seq<World>) {
    forall i :: 0 <= i < |ws| - 1 ==>
      Reclaimed(cfg, s, ws[i], {}).1.Requeue? && EnvironmentFinishes(Reclaimed(cfg, s, ws[i], {}).0, ws[i + 1])
  }

  lemma {:induction false} TeardownShrinks(cfg: Config, s: Session, ws: seq<World>)
    requires |ws| > 0 && Teardown(cfg, s, ws)
    ensures WorkLeft(s, ws[|ws| - 1]) + |ws| - 1 <= WorkLeft(s, ws[0])
  {
    if |ws| > 1 {
      var init := ws[..|ws| - 1];
      assert Teardown(cfg, s, init);
      TeardownShrinks(cfg, s, init);
      RequeueProgresses(cfg, s, ws[|ws| - 2], ws[|ws| - 1]);
    }
  }

  /** From any state a teardown is requeued at most three times, and the pass that is not requeued is done. */
  lemma TeardownTerminates(cfg: Config, s: Session, ws: seq<World>)
    requires |ws| > 0 && Teardown(cfg, s, ws)
    ensures |ws| <= 4
    ensures !Reclaimed(cfg, s, ws[|ws| - 1], {}).1.Requeue? ==> Reclaimed(cfg, s, ws[|ws| - 1], {}).1 == Done
    ensures |ws| == 4 ==> Reclaimed(cfg, s, ws[3], {}).1 == Done
  {
    TeardownShrinks(cfg, s, ws);
  }
}
