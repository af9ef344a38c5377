# Verified models of kvdi's stateful core

kvdi runs virtual desktops as Kubernetes pods. This project models the parts of it that keep state or decide who may do
what, and proves what each of them promises over every input, every run and every interleaving.

- `Rules.dfy`, `Rbac.dfy`, `Escalation.dfy`, `StoredUsers.dfy`: role rules, evaluation of API actions, coverage of one
  rule by another, and the guard on every user and role change, up to runs of logins, changes and deletions, with local
  users kept in the passwd file. Regular expressions are a parameter that says which patterns compile and which names
  they match; so is which names the cluster admits for a role.
- `LockProtocol.dfy`, `Retry.dfy`: the ConfigMap lock. Each API call is one atomic step that may fail; any number of
  contenders interleave. Apart from that, one `Acquire` against a lock nobody touches is timed to the nanosecond.
- `Volumes.dfy`, `VolumeRuns.dfy`: the userdata volumes of sessions. Each reconcile pass is a method on the cluster's
  objects, given the set of API calls that fail in it; runs interleave passes of any sessions with what the cluster and
  its administrators do.
- `Text.dfy`, `Passwd.dfy`, `PasswdRefinement.dfy`, `Mfa.dfy`: the line-oriented stores for local accounts and one-time
  password secrets, with Go's line scanner and its limit, refining plain maps.
- `Secrets.dfy`, `RefreshTokens.dfy`: the cached secret engine over a Kubernetes secret, and the refresh tokens that
  concurrent requests keep in it.
- `Framing.dfy`, `ProxyProto.dfy`: strings, integers and bodies between API and desktop proxy, over a transport that
  cuts every write into records of its own choice (as TLS does) and may run out of room anywhere, with the byte counters
  of both ends.
- `Mounts.dfy`: the volumes of a desktop pod and the mounts of its containers.

Methods that change objects are proved against functions on values; the results are lemmas about those functions.
Strings and byte slices are sequences of characters below 256. Times are integers; clocks, random values, listings and
API failures are parameters.

## What the proofs turned up

- The guard protects exactly nameless actions, the default service account, and the roles and templates that are listed;
  a failed listing closes it for its type (`ScopeExactly`, `ProtectedExactly`). Names of users and of other service
  accounts are never listed, and templates made later are not either, as the comment in
  `pkg/util/rbac/rule_includes.go` says.
- The guard asks about the names in a request, but a local user's token has the groups that come back from the passwd
  file, which are the names split at every comma (`NextTokenExactly`, `PlainNamesExactly`, `CommaOversteps`). A name
  that denotes no role yet is let through, and nobody is asked again when a role of that name comes
  (`LaterTokensExactly`). What all roles and tokens grant together, in scope, still never grows (`NoEscalation`).
- The lock excludes exactly when nobody sets a timeout, and timeouts break it even between locks that have not expired
  (`ExclusionExactly`): the delete at `pkg/util/lock/lock.go:202` does not check that the object is still the one that
  was read, so it also removes a lock acquired since (`FreshLockIsReplaced`). A lock without expiry is stale at once to
  a timed contender.
- A contender that finds an expired lock too late still removes it before it gives up (`LockTiming.LeftBehind`). The
  lock it would create keeps the expiry computed when `Acquire` began. The comment at `pkg/util/lock/lock.go:63` gives no
  expiry to timeouts below zero; the code gives none to zero either.
- `Retry` with zero attempts never ends on failures, like any negative number, since the counter passes zero before it
  is tested (`RetryEndsExactly`).
- The loop at `apis/rbac/v1/rules.go:110-115` can never find a difference in lengths; `strSliceEqual` is equality.
- A deleted passwd user that does not exist is no error, unlike an updated one. A hash that ends in a carriage return, or
  a user without groups, does not survive the file.
- One-time password records are matched by prefix: setting or deleting `ann` also replaces or deletes `anna`, and asking
  for `ann` may answer with `anna`'s (`SetExactly`, `DeleteExactly`, `StatusExactly`).
- A user's volume entry is sticky unless the user has sessions in two namespaces (`StickyExactly`), and private unless a
  claim is given what another user has, which nothing prevents for a freed volume (`UserdataIsPrivate`,
  `FreedVolumeMayBeShared`).
- An upload that announces a negative size is taken as an empty file (`CopyN`), and one that announces less than its
  body as that much of it, with success (`PutFile`). A fetched file is read to the end of the connection, so it comes
  whole even if its size changed after it was announced (`GetFile`).
- A QEMU template with a mount of its own at `/tmp` gives that volume to the proxy but not to the machine's container, so
  a display socket under `/tmp` is out of reach (`TmpIsShared`).
- A QEMU template whose disk image is copied gets the docker sidecar but not the docker client (`DockerIsPlaced`).
- `wsize` counts each string's newline and `rsize` does not; a refusal whose text has more than one line arrives cut.

## Model

| member | source | states |
|---|---|---|
| `StringOrder.SortStrings` | apis/rbac/v1/rules.go:67-80 | sorting a private copy in place leaves it ordered and loses or invents no entry |
| `StringOrder.SortedIsCanonical` | apis/rbac/v1/rules.go:67-90 | two sorted slices with the same entries, each as often, are the same slice |
| `Rules.SortedSlicesEqual` | apis/rbac/v1/rules.go:92-117 | on sorted slices the element-wise comparison decides equality as multisets |
| `Rules.DeepEqual` | apis/rbac/v1/rules.go:67-90 | true exactly when verbs, resources, patterns and namespaces are each equal as multisets, so it is an equivalence |
| `Rules.SameRuleSameAnswers` | apis/rbac/v1/rules.go:120-173 | rules that DeepEqual identifies answer every verb, type, name and namespace question alike |
| `Evaluate.AllowsWhatListsSay` | apis/rbac/v1/rules.go:120-173 | a rule allows an action exactly when its lists say so: `*` or the verb, `*` or the type, a matching pattern unless nameless, `*` or the namespace unless there is none |
| `Evaluate.RolesGrantMeans` | pkg/util/rbac/evaluate.go:31-73 | what roles grant, read off the lists of their rules, the default service account as a nameless template |
| `Evaluate.WildcardsGrant` | apis/app/v1/vdicluster_auth_util.go:130-145 | a rule of wildcards, as the admin role has, grants every action that is nameless or matches its patterns |
| `Evaluate.EvaluateRule` | pkg/util/rbac/evaluate.go:53-73 | decides what the rule's lists say of the action (default service account read as a nameless template), and leaves the normalised action in the caller's object |
| `Evaluate.EvaluateRole` | pkg/util/rbac/evaluate.go:42-49 | although the first rule rewrites the shared action, the verdict is that the lists of some rule permit the original; the object ends rewritten unless the role has no rules |
| `Evaluate.EvaluateUser` | pkg/util/rbac/evaluate.go:31-38 | the verdict is that the lists of some rule of some role permit the original, whatever the order of roles and rules |
| `Evaluate.GrantsMonotone` | pkg/util/rbac/evaluate.go:31-49 | a role list whose rules all occur in another, up to field order, grants no more: order, grouping and repetition do not matter |
| `Evaluate.SameRuleAllows` | pkg/util/rbac/evaluate.go:53-73 | rules that DeepEqual identifies decide every action alike |
| `RuleInclusion.RuleIncludesSound` | pkg/util/rbac/rule_includes.go:52-116 | if a rule includes another it allows every in-scope action the other allows: nameless, the default service account, naming a listed resource of the action's type, or of a type whose listing failed |
| `RuleInclusion.RuleIncludesMeans` | pkg/util/rbac/rule_includes.go:52-116 | for any two rules and any listings, answered or not: inclusion is equality up to order or domination in verbs, namespaces, types and the listed names of each type |
| `RuleInclusion.RuleIncludesExact` | pkg/util/rbac/rule_includes.go:52-116 | for a comparable candidate, inclusion by any rule holds if and only if the semantic containment holds |
| `RuleInclusion.ComparableExactly` | pkg/util/rbac/rule_includes.go:52-116 | comparable is the exact condition: every other candidate (nothing granted but not blank, an empty namespace without a wildcard, a listing it needs failed, an empty listed name it matches) is contained in some rule that does not include it |
| `RuleInclusion.ScopeExactly` | pkg/util/rbac/rule_includes.go:64-116 | an action is contained under every inclusion if and only if it is in scope, whatever its name and type |
| `RuleInclusion.UserIncludesSound` | pkg/util/rbac/rule_includes.go:31-49 | what a rule included in a user's rules allows in scope, the user's roles grant |
| `Escalation.GetRoleByName` | pkg/api/api_validate_privilege_escalation.go:105-112 | the first role of that name, or none exactly when no role has it |
| `Escalation.FilterUserRolesByNames` | pkg/util/apiutil/util.go:122-132 | exactly the roles whose names are named |
| `Escalation.GuardExact` | pkg/api/api_validate_privilege_escalation.go:33-103 | for any rules and listings, the guard lets a request through if and only if some rule of the requester equals up to order or dominates each rule it hands out; unknown requests are refused and only the MFA route is waved through |
| `Escalation.GuardMeansContainment` | pkg/api/api_validate_privilege_escalation.go:33-103 | what is let through is contained, rule by rule, in what the requester is allowed; and comparable rules so contained are let through |
| `Escalation.CreatedRole` | pkg/api/post_role.go:50-77 | exactly when the name is new and not empty, the patterns compile, the author may create roles and holds every rule, the role is added with its rules; otherwise nothing changes |
| `Escalation.UpdatedRole` | pkg/api/put_role.go:64-88 | exactly when the patterns compile, the author may update that role and holds every rule, the role so named has the new rules; every other keeps its own, and all their places |
| `Escalation.DeletedRole` | pkg/api/delete_role.go:55-75 | the role is gone, the others stay in order |
| `Escalation.CreatedUser` | pkg/types/api_requests.go:115-126 | exactly when the request has a name without colon, a password and a role, its author may create users and holds every rule of the roles it names, and the file takes the user, the file is written; otherwise nothing changes |
| `Escalation.UpdatedUser` | pkg/types/api_requests.go:139-144 | the same of a change of password or roles |
| `StoredUsers.DeletedUser` | pkg/auth/providers/local/util.go:77-91 | a deleted user is found no more and has no roles, unless the file cannot be read to its end |
| `Escalation.IssuedToken` | pkg/auth/providers/local/auth.go:43-48 | a login adds one token, which permits exactly what the rules of the roles named by the groups on file permit, and changes nothing else |
| `Escalation.IssuedOtherTokens` | pkg/auth/providers/oidc/authenticate.go:138-171 | the same of roles another provider names, and of the role for those without any |
| `Escalation.IncludedRulesGrantNoMore` | pkg/api/api_validate_privilege_escalation.go:82-97 | rules that pass the guard grant in scope nothing their author does not hold |
| `Escalation.WriterHeldIt` | pkg/api/api_validate_privilege_escalation.go:33-103 | a role write that was let through adds no in-scope permission that neither the cluster nor its author's token held |
| `Escalation.NoEscalation` | pkg/api/api_validate_privilege_escalation.go:33-103 | over any run of logins (local, through another provider, or without roles), refreshes, user and role changes and deletions, with listings that fail or not, no action that stays in scope is granted at the end by a role or a token unless one granted it at the start, or the role for those without any did |
| `Escalation.TemplateActionsInScope` | pkg/api/api_validate_privilege_escalation.go:33-103 | with a fixed template set, listed or not, every template action, nameless or naming a template, stays in scope through any run |
| `Escalation.NoTemplateEscalation` | pkg/api/api_validate_privilege_escalation.go:33-103 | with the template set fixed, even when listing it fails at times, the template actions granted by all roles and all issued tokens together never grow |
| `Escalation.NamesStayUnique` | pkg/api/api_validate_privilege_escalation.go:33-103 | role names stay unique over any run |
| `Escalation.NewUserHoldsNoMore` | pkg/api/api_validate_privilege_escalation.go:41-79 | the roles the request names, as they stand at that moment, grant in scope no more than the author's token |
| `StoredUsers.FoundAmong` | pkg/auth/providers/local/passwd_util.go:84-107 | among lines of other users, a user is found as if its own line or lines stood alone, whatever its fields hold |
| `StoredUsers.FoundOnceStored` | pkg/auth/providers/local/passwd_util.go:31-150 | after a creation, or a change of roles, a lookup of the user gives what reading back its own encoding gives |
| `StoredUsers.NextTokenExactly` | pkg/api/api_validate_privilege_escalation.go:41-79 | in every world the next token of a created or updated user grants in scope no more than its author's token, if and only if every group read back from the file that can be a role's name is one of the names in the request |
| `StoredUsers.PlainNamesExactly` | pkg/auth/providers/local/types.go:44-60 | for names without colon or newline: if and only if every part between commas of every name, if it can be a role's name, is itself one of the names, or the line is too long to be read |
| `StoredUsers.CommaOversteps` | pkg/auth/providers/local/types.go:44-60 | a concrete input that fails it: the one name made of a comma and a role's name |
| `StoredUsers.LaterTokensExactly` | pkg/auth/providers/local/auth.go:43-47 | all later tokens stay within the author's, while users are left alone and roles come and change, if and only if no group read back can be a role's name |
| `Escalation.ProtectedExactly` | pkg/api/resource_getter.go:46-78 | the guard protects an action in every world if and only if it is nameless, the default service account, a listed role or template, or of a type whose listing failed |
| `Escalation.UnlistedNamesEscape` | pkg/api/resource_getter.go:46-50 | its three unprotected kinds: a user's name, another service account's, and that of a template yet to come |
| `LockProtocol.NextKeepsInv` | pkg/util/lock/lock.go:97-209 | every atomic step of untimed contenders keeps: one occupant at most, and the ConfigMap exists and names the occupant's pod exactly while there is one |
| `LockProtocol.MutualExclusion` | pkg/util/lock/lock.go:97-209 | untimed contenders, any number, any interleaving, with API failures: at most one is in possession, and the ConfigMap exists exactly when one is or one failed to release it |
| `LockProtocol.ReleaseFindsOwnLock` | pkg/util/lock/lock.go:177-197 | an untimed holder's Release always finds its own pod on the lock |
| `LockProtocol.LockOfAttempt` | pkg/util/lock/lock.go:86-107 | a lock names its pod and expires within the last second before the timeout is over, counted from the start of Acquire; without a timeout it never does |
| `LockProtocol.StaleAfterTimeout` | pkg/util/lock/lock.go:153-173 | a found lock is removed once its holder's timeout is over and not before its last second; one without expiry by timed contenders only |
| `LockProtocol.FailedCall` | pkg/util/lock/lock.go:112-209 | a failed API call changes nothing in the cluster; Acquire sleeps and retries the same attempt, Release gives up |
| `LockProtocol.FreeLockIsTaken` | pkg/util/lock/lock.go:112-149 | from anywhere in Acquire a contender alone takes a lock that is free, within four moves, while its time lasts |
| `LockProtocol.ReleaseEnds` | pkg/util/lock/lock.go:177-197 | Release alone removes this pod's lock, is content with none, and leaves another pod's with an error |
| `LockProtocol.TakeOverSucceeds` | pkg/util/lock/lock.go:107-173 | a timed contender alone takes over a lock that has no expiry or is past it, and then its own is in place |
| `LockProtocol.FreshLockIsReplaced` | pkg/util/lock/lock.go:138-209 | a contender that read an expired lock deletes whatever is there by then: the holder releases and acquires afresh, loses the fresh lock, and both are in possession |
| `LockProtocol.UsurpationBreaksExclusion` | pkg/util/lock/lock.go:97-209 | one timed contender among others is enough, from any starting time and however long the timeouts, for a run in which two are in possession and neither one's lock has expired |
| `LockProtocol.ExclusionExactly` | pkg/util/lock/lock.go:97-209 | exclusion holds in every run if and only if there are fewer than two contenders or none sets a timeout; the same condition is exact when only locks that have not expired need exclude each other |
| `Retrying.Retry` | pkg/util/common/util.go:171-187 | calls made, error returned and time slept are exact: it ends at the first success or stop or at the last attempt, returns nil, the stop's inner error or that last error, and sleeps sleep*(2^(calls-1)-1) |
| `Retrying.RetryEndsExactly` | pkg/util/common/util.go:171-187 | it ends after some number of calls if and only if attempts are positive or some call does not fail |
| `Retrying.DoubledPauses` | pkg/util/common/util.go:180-182 | one pause and twice as long ones after it add up to sleep*(2^calls-1) |
| `LockTiming.AttemptIsASoloRun` | pkg/util/lock/lock.go:107-149 | one pass of the retried function is what the interleaved protocol does when only this contender moves: possession, giving up, or sleeping |
| `LockTiming.NeverSettles` | pkg/util/lock/lock.go:107-149 | all attempts are told to retry exactly for an untimed contender before a lock without expiry |
| `LockTiming.FirstSettled` | pkg/util/lock/lock.go:107-149 | the first attempt that settles takes the lock exactly if some attempt could; giving up falls after the limit and no later than twice the limit and a second |
| `LockTiming.Lock.Acquire` | pkg/util/lock/lock.go:97-151 | against a lock nobody else touches: attempts fall at 0, 1, 3, 7, ... seconds; it succeeds exactly when one finds the lock stale within the limit, at the first such; otherwise it gives up after T and by 2T+1; and what is left of the ConfigMap; a lock taken names this pod and expires within the last second before the timeout, counted from the start, or never without one |
| `LockTiming.Lock.Release` | pkg/util/lock/lock.go:177-209 | deletes the lock if this pod is on it, reports any other pod's and any API error, and is content with none; the lock stays on every error |
| `Slices.StringSliceContains` | pkg/util/common/util.go:56-63 | true exactly for members |
| `Slices.StringSliceRemove` | pkg/util/common/util.go:66-74 | the slice without the string, everything else in order |
| `Slices.RemovedOnce` | pkg/util/common/util.go:66-74 | removing a string that occurs once joins what is before and after it |
| `Slices.AppendStringIfMissing` | pkg/util/common/util.go:78-89 | the old slice is a prefix, exactly the missing arguments are added, and none twice |
| `Volumes.Reconciler.FreePV` | pkg/resources/desktop/volume_util.go:34-48 | the volume ends unclaimed with policy Retain unless the update fails, which is called for exactly when it was not so |
| `Volumes.Reconciler.GetVolMapForCluster` | pkg/resources/desktop/volume_util.go:64-79 | an absent map is created empty and read again, a present one is left alone; no entry changes, and success means there is a map |
| `Volumes.Reconciler.ReclaimVolumes` | pkg/resources/desktop/volume_reclaim.go:34-95 | one pass of the staged teardown under any failing API calls: new cluster objects and outcome; done only when all is torn down and the volume free, and without failures exactly then |
| `Volumes.Reconciler.ReconcileVolumes` | pkg/resources/desktop/volumes.go:38-57 | existing claims are kept; success means the session has one; a new one asks for the user's volume if that still exists, else for the spec's |
| `Volumes.Reconciler.ReconcileUserdataMapping` | pkg/resources/desktop/volumes.go:59-100 | an entry changes only for this user and to the claim's volume, then free and retained; success means it is that |
| `Volumes.Reconciler.RunFinalizers` | pkg/resources/desktop/reconciler.go:320-333 | the finalizer is dropped exactly when the pass is done, which takes a finished teardown and a successful update; otherwise all finalizers stay |
| `Volumes.Reconciler.EnsureFinalizers` | pkg/resources/desktop/reconciler.go:307-318 | the finalizers are kept in order, the reclaim finalizer is added unless there or its update fails; errors are exactly failed updates and re-reads |
| `Volumes.FinalizerSafety` | pkg/resources/desktop/reconciler.go:320-333 | the finalizer is dropped only when there is no volume spec, or the pod is gone and the user has no entry or the claim is gone and the volume gone or free and retained; without failures exactly then; and that pass changes nothing else |
| `Volumes.OtherFinalizersStay` | pkg/resources/desktop/reconciler.go:320-333 | all other finalizers keep their places |
| `Volumes.PassesTouchTheirOwn` | pkg/resources/desktop/volumes.go:38-100 | a teardown leaves every pod, claim and volume but the session's own and its user's as they are; the other passes every pod, every other claim, every volume but the claim's, and every other user's entry |
| `Volumes.RequeueProgresses` | pkg/resources/desktop/volume_reclaim.go:41-91 | when the environment finishes pending deletions, every requeue leaves strictly less of pod, claim and unfreed volume |
| `Volumes.TeardownTerminates` | pkg/resources/desktop/volume_reclaim.go:41-91 | from any state at most three requeues, and the pass that is not requeued is done |
| `VolumeRuns.NextEffect` | pkg/resources/desktop/volumes.go:38-100 | what each kind of step can do to claims, volumes and entries, whatever API calls fail |
| `VolumeRuns.EntryChange` | pkg/resources/desktop/volumes.go:59-100 | in any namespaces: an entry changes only by its user's mapping pass entering the claim's volume, and a claim made from the old entry had found that volume missing |
| `VolumeRuns.EveryClaimWasMade` | pkg/resources/desktop/volumes.go:38-57 | every claim was made by one reconcile pass, is there since, and its record is what that pass read |
| `VolumeRuns.StickyMapping` | pkg/resources/desktop/volumes.go:38-100 | with this user's sessions in one namespace, wherever others' are, over any run: the entry changes from X to Y only if X was missing when the claim now bound to Y was made |
| `VolumeRuns.StickyExactly` | pkg/resources/desktop/volumes.go:38-100 | entries are so sticky in all runs of given sessions if and only if no user has sessions in two namespaces or the claim spec names a volume |
| `VolumeRuns.KeptExactly` | pkg/resources/desktop/volume_reclaim.go:41-91 | in any namespaces: the user's volume exists and is retained all through a run if and only if no administrator removes it |
| `VolumeRuns.UserdataPersists` | pkg/resources/desktop/volumes.go:38-100 | with the user's sessions in one namespace and nobody removing the user's volume: once the user has one the entry stays, the volume exists and is retained, and every claim of the user is for it |
| `VolumeRuns.StepIsPrivate` | pkg/resources/desktop/volumes.go:38-133 | from a private world a step ends in one if and only if it gives no claim a volume that is another user's entry or claim |
| `VolumeRuns.UserdataIsPrivate` | pkg/resources/desktop/volumes.go:38-133 | over any run in any number of namespaces no two users ever share a volume if and only if no step gives a claim, by binding or in making it, a volume that is another user's |
| `VolumeRuns.FreedVolumeMayBeShared` | pkg/resources/desktop/volume_util.go:34-48 | in every private world a volume that was freed can be bound to another user's unbound claim, which then shares it |
| `VolumeRuns.NamespacesCompete` | pkg/resources/desktop/volumes.go:38-100 | a run in which two sessions of a user in two namespaces move the entry although its volume is there |
| `Text.JoinSplit` | pkg/auth/providers/local/types.go:49-60 | joining undoes splitting for every text and separator |
| `Text.SplitJoin` | pkg/auth/providers/local/types.go:44-60 | splitting undoes joining for every non-empty list of pieces free of the separator |
| `Text.SplitOfJoin` | pkg/auth/providers/local/types.go:44-60 | splitting what was joined gives exactly the pieces of the pieces |
| `Text.ScanAppend` | pkg/auth/providers/local/passwd_util.go:63-82 | a scan of two texts, the first ending its line, is the one scan after the other, up to a line too long |
| `Text.ScanLastLine` | pkg/auth/providers/local/passwd_util.go:63-82 | a last line without newline is a line too |
| `Text.ScanWritten` | pkg/auth/providers/local/passwd_util.go:34-56 | the scanner hands out the lines as written, for lines without newline or final carriage return of at most 65535 bytes |
| `Passwd.EncodeParse` | pkg/auth/providers/local/types.go:44-60 | whatever line parses is the encoding of what it parses to |
| `Passwd.ParseEncode` | pkg/auth/providers/local/types.go:44-60 | parsing undoes encoding if and only if the name holds no colon and the groups, at least one, no comma or colon; the hash may hold colons |
| `Passwd.ParseParts` | pkg/auth/providers/local/types.go:48-60 | a line with two colon-free fields and anything after them parses to the first, the second split at commas, and all the rest |
| `PasswdRefinement.ReadBack` | pkg/auth/providers/local/passwd_util.go:63-82 | the concatenated encodings of well-formed users read back as the whole list |
| `PasswdRefinement.ReadBackExactly` | pkg/auth/providers/local/passwd_util.go:63-82 | a file of one user brings it back if and only if the user is well-formed (separators, newline, final carriage return, line length) |
| `Passwd.AddUserToBuffer` | pkg/auth/providers/local/passwd_util.go:31-61 | fails on a duplicate name, else the file with the user at its end; lines that are blank or do not parse are dropped |
| `Passwd.GetAllUsersFromBuffer` | pkg/auth/providers/local/passwd_util.go:63-82 | the users on the lines that hold one, or the scanner's error |
| `Passwd.GetUserFromBuffer` | pkg/auth/providers/local/passwd_util.go:84-107 | the first user of the name, even before a line too long; otherwise the scanner's error or not found |
| `Passwd.UpdateUserInBuffer` | pkg/auth/providers/local/passwd_util.go:109-150 | every user of the name is rewritten with the fields left empty taken from the file, which the request object remembers; all others stay |
| `Passwd.DeleteUserInBuffer` | pkg/auth/providers/local/passwd_util.go:152-177 | the file without the users of that name; an unknown name is no error |
| `PasswdRefinement.AddRefines` | pkg/auth/providers/local/passwd_util.go:31-61 | appending a new well-formed user adds one account to the map and one name to the order |
| `PasswdRefinement.RemoveRefines` | pkg/auth/providers/local/passwd_util.go:152-177 | deletion removes that account and no other and keeps the order |
| `PasswdRefinement.UpdateRefines` | pkg/auth/providers/local/passwd_util.go:109-150 | an update replaces one account, keeping the fields left empty, and keeps the order |
| `PasswdRefinement.StepRefines` | pkg/auth/providers/local/passwd_util.go:31-177 | on files of well-formed unique users each operation does to the accounts what the map operation does, with the same success, keeping uniqueness and order |
| `PasswdRefinement.RunRefines` | pkg/auth/providers/local/passwd_util.go:31-177 | any run of operations on the file refines the same run on the map, outcome by outcome |
| `PasswdRefinement.LookupAfterRun` | pkg/auth/providers/local/passwd_util.go:84-107 | after any run, looking a user up in the file is looking it up in the map |
| `Mfa.GetMFAUsers` | pkg/auth/mfa/mfa.go:48-75 | name and verification of every line that holds them, the last line of a name winning |
| `Mfa.GetUserStatusFromReader` | pkg/auth/mfa/mfa.go:134-156 | the record on the first line that begins with the name, malformed if it has too few fields |
| `Mfa.UpdateUserStatusInReader` | pkg/auth/mfa/mfa.go:161-198 | every line that begins with the name gives way to the new record, which is appended if there is none |
| `Mfa.DeleteUserFromReader` | pkg/auth/mfa/mfa.go:202-225 | every line that begins with the name is dropped, blank lines too |
| `Mfa.LinesKept` | pkg/auth/mfa/mfa.go:202-225 | a deletion keeps exactly the lines that are not blank and do not begin with the name |
| `Mfa.LinesUpdated` | pkg/auth/mfa/mfa.go:161-198 | an update keeps exactly those, and puts the new line where others were |
| `MfaRefinement.PrefixOfLine` | pkg/auth/mfa/mfa.go:146-150 | a colon-free name begins a line exactly when it begins that line's own name |
| `MfaRefinement.UpdateOnFile` | pkg/auth/mfa/mfa.go:161-198 | setting a status rewrites the text record by record |
| `MfaRefinement.StatusOnFile` | pkg/auth/mfa/mfa.go:134-156 | a status is the first record's whose name begins with the name asked for |
| `MfaRefinement.StatusExactly` | pkg/auth/mfa/mfa.go:134-156 | a status is the user's own, whatever secrets the names on file have, if and only if the first record whose name begins with the user's is the user's |
| `MfaRefinement.SetExactly` | pkg/auth/mfa/mfa.go:161-198 | setting one user is the map update if and only if no other name begins with that user's |
| `MfaRefinement.DeleteExactly` | pkg/auth/mfa/mfa.go:202-225 | deleting one user is the map removal if and only if no other name begins with that user's |
| `MfaRefinement.RunRefines` | pkg/auth/mfa/mfa.go:161-225 | among colon-free, prefix-free names any run of sets and deletes on the text is that run on the map |
| `MfaRefinement.RefinesExactly` | pkg/auth/mfa/mfa.go:161-225 | among names that hold no colon and fit a line, every run on the text is that run on the map if and only if no name begins another |
| `MfaRefinement.StatusAfterRun` | pkg/auth/mfa/mfa.go:134-225 | after any such run a status is what was last set, or not found after a delete |
| `MfaRefinement.ListedUsers` | pkg/auth/mfa/mfa.go:48-75 | the list of users with their verification is the map's |
| `SecretEngines.SecretEngine.ReadCache` | pkg/secrets/secrets_engine.go:117-124 | the cached bytes while unexpired, nil otherwise or when the item holds a map; on a coherent engine they are the backend's |
| `SecretEngines.SecretEngine.ReadCacheMap` | pkg/secrets/secrets_engine.go:128-135 | the cached map while unexpired, nil otherwise or when the item holds bytes; on a coherent engine it is the backend's |
| `SecretEngines.SecretEngine.ReadSecret` | pkg/secrets/secrets_engine.go:158-170 | on a coherent engine the answer is the backend's, or an outage's, and coherence stays |
| `SecretEngines.SecretEngine.ReadSecretMap` | pkg/secrets/secrets_engine.go:175-187 | the same for the map view, decoding errors included |
| `SecretEngines.ReadYourWrite` | pkg/secrets/secrets_engine.go:158-197 | a read after a write answers with what was written, not found after nil: while the API answers, or from the cache while that lasts |
| `SecretEngines.ReadYourWriteMap` | pkg/secrets/secrets_engine.go:175-207 | the same for map secrets |
| `SecretEngines.ReadAgain` | pkg/secrets/secrets_engine.go:158-170 | what was read is served from the cache, without the API, until it expires |
| `SecretEngines.ReadAgainMap` | pkg/secrets/secrets_engine.go:175-187 | the same for map reads |
| `SecretEngines.OtherKeysUnread` | pkg/secrets/secrets_engine.go:158-197 | a write of one key changes no read of another |
| `SecretEngines.AppendedLines` | pkg/secrets/secrets_engine.go:212-225 | after an append the lines are the old ones and then the new, whether the last one was ended or not |
| `SecretEngines.SecretEngine.WriteSecret` | pkg/secrets/secrets_engine.go:191-197 | on success the key holds exactly the value, or is gone after nil, and all other keys are as before; a failure changes nothing; coherence stays |
| `SecretEngines.SecretEngine.WriteSecretMap` | pkg/secrets/secrets_engine.go:201-207 | the same with the encoded map; coherence stays when the codec loses nothing |
| `SecretEngines.SecretEngine.AppendSecret` | pkg/secrets/secrets_engine.go:212-225 | read and write may fail apart: an error changes nothing in the backend, success needs a write and a read or a cached value, and on a coherent engine adds the line on a line of its own |
| `SecretRuns.StepIsDirect` | pkg/secrets/secrets_engine.go:158-225 | each call acts on the backend and answers as on an engine without a cache whose API also answers the reads the cache serves |
| `SecretRuns.CacheIsInvisible` | pkg/secrets/secrets_engine.go:117-225 | the same over any run of byte and map reads, writes, deletions and appends of a sole writer, at any times and through any outages |
| `SecretRuns.CacheIsInvisibleWhileUp` | pkg/secrets/secrets_engine.go:117-225 | while reads are answered, writes failing or not, the cached engine cannot be told from one without a cache |
| `SecretRuns.StalenessIsBounded` | pkg/secrets/secrets_engine.go:117-170 | beside other writers a cached read of bytes answers with what the backend holds, or held less than the cache's lifetime ago |
| `SecretRuns.ForeignWriteIsUnseen` | pkg/secrets/secrets_engine.go:158-170 | another writer's write, a deletion too, is unseen by cached reads until the value expires and seen by all others, so that bound is the right one |
| `SecretRuns.MapStalenessIsBounded` | pkg/secrets/secrets_engine.go:128-187 | the same for map reads |
| `RefreshTokens.NextKeepsMutexInv` | pkg/api/api_common.go:87-122 | whoever is inside holds the mutex, and the tokens it read are still the stored ones |
| `RefreshTokens.NextKeepsLogInv` | pkg/api/api_common.go:87-122 | the stored secret is always the replay of the settled calls, each answered as if alone |
| `RefreshTokens.NextKeepsOrderInv` | pkg/api/api_common.go:87-122 | calls settle once each and in lock order |
| `RefreshTokens.Linearizable` | pkg/api/api_common.go:87-122 | every interleaving of goroutines is a sequential run in lock order: same stored tokens, same replies, failures apart |
| `RefreshTokens.RedemptionsConserved` | pkg/api/api_common.go:104-122 | redemptions of a token and its presence afterwards never exceed its issues and its presence before |
| `RefreshTokens.TokensConserved` | pkg/api/api_common.go:87-122 | with fresh token values, redemptions of a token and its presence afterwards equal its issues and its presence before |
| `RefreshTokens.IssuedIsRedeemable` | pkg/api/api_common.go:87-122 | in every interleaving the next redemption of an issued token that does not fail answers with the user it was issued to |
| `RefreshTokens.NoFailureWhileUp` | pkg/api/api_common.go:87-122 | while the API answers no call fails |
| `RefreshTokens.LoneCallAnswers` | pkg/api/api_common.go:87-122 | a call that finds the mutex free and moves alone finishes, stores and answers as the sequential run does, and lets go of the mutex |
| `RefreshTokens.StoredTokenWasIssued` | pkg/api/api_common.go:87-102 | a stored token's user is the one it was issued to, or was stored for at the start |
| `RefreshTokens.SingleUse` | pkg/api/api_common.go:87-122 | with fresh token values, in every interleaving a token is redeemed at most once, for the user it was issued to |
| `Framing.ScannedIsFirstLine` | pkg/proxyproto/conn.go:160-169 | however the bytes are cut into records and the buffer grows, readString yields the first line, or too long beyond 65535 bytes |
| `Framing.ScannedTakesItsWrite` | pkg/proxyproto/conn.go:160-169 | a line that fills its write takes that write off the wire and not a byte more |
| `Framing.StringRoundTrip` | pkg/proxyproto/conn.go:160-169 | a string comes back as sent if and only if it has no newline, no final carriage return and at most 65535 bytes; then what follows is untouched |
| `Framing.LittleEndianRoundTrip` | pkg/proxyproto/conn.go:261-267 | decoding undoes encoding for every number that fits |
| `Framing.Int64OnTheWire` | pkg/proxyproto/conn.go:261-267 | the k-th byte of a number is the k-th lowest of its two's complement |
| `Framing.Int64RoundTrip` | pkg/proxyproto/conn.go:173-181 | every signed 64-bit value survives little-endian two's complement |
| `Framing.FieldRoundTrip` | pkg/proxyproto/conn.go:146-181 | the same for each kind of field, a status byte, string, size or body |
| `Framing.FieldsRoundTrip` | pkg/proxyproto/requests.go:86-191 | any list of fields, however cut into records, is read back as sent if and only if all its strings are plain, leaving what follows untouched |
| `Framing.CountedOfFields` | pkg/proxyproto/conn.go:160-181 | the receiver counts one byte less than was written for each string |
| `Framing.MessageRoundTrip` | pkg/proxyproto/requests.go:130-191 | for a message of fields and a body: recv gives the fields exactly when their strings are plain, the body's bytes come next, and the counters differ by the number of strings |
| `Framing.ConversationInStep` | pkg/proxyproto/conn.go:97-198 | over any interleaving of plain writes and matching reads: fields arrive in order and unchanged, wsize minus rsize is the bytes under way plus one per string received |
| `ProxyProto.Pipe.Write` | pkg/proxyproto/conn.go:185-189 | the transport takes the bytes, cut into records of its choice, up to the room it has left |
| `ProxyProto.Pipe.Read` | pkg/proxyproto/conn.go:97-101 | a read yields bytes of one record only, and leaves the rest |
| `ProxyProto.Conn.Write` | pkg/proxyproto/conn.go:185-189 | wsize grows by what the transport took |
| `ProxyProto.Conn.WriteByte` | pkg/proxyproto/conn.go:191-198 | one byte, counted when it was taken |
| `ProxyProto.Conn.WriteString` | pkg/proxyproto/conn.go:252-257 | the string and its newline in one write, counted as far as taken |
| `ProxyProto.Conn.WriteInt64` | pkg/proxyproto/conn.go:261-267 | eight bytes in one write, counted as far as taken |
| `ProxyProto.Conn.Read` | pkg/proxyproto/conn.go:97-101 | rsize grows by what was read |
| `ProxyProto.Conn.ReadByte` | pkg/proxyproto/conn.go:146-154 | one byte and one count, or end of file |
| `ProxyProto.Conn.ReadInt64` | pkg/proxyproto/conn.go:173-181 | the value of the next eight bytes; fewer are consumed and counted and reported |
| `ProxyProto.Conn.ReadString` | pkg/proxyproto/conn.go:160-169 | the scan loop over a growing buffer does what the scanner's specification says, and rsize grows by the string without its newline |
| `ProxyProto.Conn.CopyFrom` | pkg/proxyproto/requests.go:141-142 | a body in pieces of any size arrives whole, or as far as the transport had room |
| `ProxyProto.Conn.CopyN` | pkg/proxyproto/server/handlers.go:327-330 | the body of an upload is exactly the next announced bytes whatever the pieces, none for a negative size, or all there is and an error |
| `ProxyProto.Conn.CopyAll` | pkg/api/get_desktop_file.go:159 | the body of a fetched file is all there is up to the end of the connection, whatever the pieces, and rsize grows by it |
| `ProxyProto.Conn.WriteError` | pkg/proxyproto/conn.go:236-249 | a failed status and the message as two fields, or as much as the transport had room for |
| `ProxyProto.Conn.ReadStatus` | pkg/proxyproto/conn.go:105-122 | no error, the peer's error or its own; all but acceptance close the connection; rsize grows by the status and by what was read of the error |
| `ProxyProto.AcceptanceRoundTrip` | pkg/proxyproto/conn.go:105-122 | an accepting status is read as acceptance and leaves the response untouched |
| `ProxyProto.RefusalRoundTrip` | pkg/proxyproto/conn.go:105-122 | a refusal is never read as acceptance, and its text arrives if and only if it is plain |
| `ProxyProto.PathRequest.Send` | pkg/proxyproto/requests.go:95-97 | FStatRequest and FGetRequest: the path as one field |
| `ProxyProto.PathRequest.Recv` | pkg/proxyproto/requests.go:99-102 | the path is what readString gives, empty on an error |
| `ProxyProto.FPutRequest.Send` | pkg/proxyproto/requests.go:170-180 | name, size and body under way as three fields if the transport has room for all, else an error and no room left; the body is closed either way |
| `ProxyProto.FPutRequest.Recv` | pkg/proxyproto/requests.go:182-191 | name and size are the fields read, up to the first error; rsize grows by what they count |
| `ProxyProto.FGetResponse.Send` | pkg/proxyproto/requests.go:130-143 | name, type, size and body under way as four fields if the transport has room for all, else an error and no room left; the body is closed either way |
| `ProxyProto.FGetResponse.Recv` | pkg/proxyproto/requests.go:145-157 | name, type and size are the fields read, up to the first error; rsize grows by what they count |
| `ProxyProto.WriteResponse` | pkg/proxyproto/conn.go:222-228 | an accepting status and the response's four fields are under way if and only if the transport has room for both; wsize grows by what was taken |
| `ProxyProto.ReceiveGet` | pkg/api/get_desktop_file.go:140-161 | the fetching end gets the fields on the wire and all bytes after them, whatever size they announce, or nothing when the status is no acceptance or a field is not read; the connection ends closed |
| `ProxyProto.ReceivePut` | pkg/proxyproto/server/handlers.go:299-330 | the end that takes an upload gets the fields on the wire and the announced bytes after them, or what there is and an error; nothing of the body when the file cannot be created |
| `ProxyProto.HandlePut` | pkg/proxyproto/server/handlers.go:296-340 | the answer is read as acceptance if and only if the upload was received in full, the file was created and handed over, and the status byte got out; the connection ends closed |
| `ProxyProto.GetFile` | pkg/proxyproto/requests.go:130-157 | from one connection to the other, a response sent in full arrives with its name, type, size and body if and only if name and type are plain, whatever size it announces; then wsize grew by two more than rsize |
| `ProxyProto.PutFile` | pkg/proxyproto/client/client.go:113-133 | over both directions: the client is told success if and only if its upload went out in full, the server stored it and the answer came through; under a plain name that needs an announced size of at most the body's, and stores that much, so all of it exactly when the sizes agree; then wsize grew by one more than rsize, and by as much for the answer |
| `Mounts.GetTmpVolume` | apis/desktops/v1/template_util_volumes.go:264-274 | kvdi's own volume when the template mounts nothing at /tmp, else one it mounts there, the first |
| `Mounts.GetVolumes` | apis/desktops/v1/template_util_volumes.go:37-179 | kvdi's volumes, conditional one by one, then the template's; exactly the mountable names are declared, and they are distinct exactly when the template's are and take none of kvdi's |
| `Mounts.GetDesktopVolumeMounts` | apis/desktops/v1/template_util_volumes.go:182-247 | kvdi's mounts, conditional one by one, then the template's unless it is a QEMU one; all name volumes exactly when those do |
| `Mounts.InDesktopMounts` | apis/desktops/v1/template_util_volumes.go:182-247 | every mount of the desktop container with its path, and the exact condition for each beyond those of the session |
| `Mounts.InProxyMounts` | apis/desktops/v1/template_util_proxy.go:125-164 | the same of the proxy |
| `Mounts.DockerIsPlaced` | apis/desktops/v1/template_util.go:60-102 | the docker sidecar shares /run with the desktop; its client is put where the desktop mounts it if and only if the template is no QEMU one whose disk image is copied |
| `Mounts.DeclaredGenerated` | apis/desktops/v1/template_util_volumes.go:37-179 | the exact condition for each name kvdi declares |
| `Mounts.MountsAreDeclared` | apis/desktops/v1/template_util_volumes.go:37-247 | every mount of every container and init container names a volume of the pod if and only if the template's own mounts that reach a container do |
| `Mounts.VolumeNamesDistinct` | apis/desktops/v1/template_util_volumes.go:37-179 | the pod's volume names are all different if and only if the template's are and it takes none of kvdi's |
| `Mounts.VolumesAreSourced` | apis/desktops/v1/template_util_volumes.go:37-179 | each of kvdi's volumes has its source by name, and the pod claims nothing of its own accord but the user's data, behind the home |
| `Mounts.HomeHoldsUserdata` | apis/desktops/v1/template_util_volumes.go:99-205 | the desktop mounts the user's home directory from the user's claim |
| `Mounts.TmpIsShared` | apis/desktops/v1/template_util_volumes.go:251-274 | the volume the proxy mounts at /tmp is the desktop's /tmp if and only if the template is no QEMU one or mounts nothing there itself (or the pulse volume stands in) |
| `Mounts.DisplayIsShared` | apis/desktops/v1/template_util_proxy.go:68-152 | the directory of the display socket, wherever it is, is on a volume that desktop and proxy mount at the same place, except in the case that `TmpIsShared` excludes |
| `Mounts.PulseIsShared` | apis/desktops/v1/template_util_proxy.go:87-158 | the same of the pulse socket, when it is not under /home nor under a mount of the template's own |
| `Mounts.PulseVolumeExactly` | apis/desktops/v1/template_util_proxy.go:87-106 | kvdi mounts a volume for the pulse socket exactly when no mount, its own or the template's, is above it and the display socket is not beside it |
| `Mounts.DisplaySocketOf` | apis/desktops/v1/template_util_proxy.go:68-83 | kind and path of the display socket for every way to give it, default included |
| `Mounts.PulseSocketOf` | apis/desktops/v1/template_util_proxy.go:47-53 | the same of the pulse socket |

## Left out

- LockProtocol.MutualExclusion: is stated for contenders without timeout, because with one it is false; `ExclusionExactly` says exactly when it holds.
- LockTiming.Lock.Acquire: leaves out an untimed contender before a lock without expiry, which retries without end as `NeverSettles` shows, and takes calls to last no time and not to fail; `LockProtocol` has the failures.
- Retrying.Retry: with zero or negative attempts it requires that some call settles, since otherwise there is no result; durations do not overflow.
- Escalation.GuardMeansContainment: the second half is for comparable rules, because for others it is false (`ComparableExactly`).
- LockTiming.Lock.Release: a lock with no owner or several, which this package never makes, is not modelled.
- VolumeRuns.UserdataPersists: the user's sessions are in one namespace and nobody removes the volume, because otherwise it is false (`StickyExactly`, `KeptExactly`).
- MfaRefinement.RunRefines: names are free of each other's prefixes, because otherwise it is false (`RefinesExactly`); `SetExactly`, `DeleteExactly` and `StatusExactly` give the condition per step.
- RefreshTokens.SingleUse: one replica, so the engine's lock is the process's mutex; the remote lock between replicas, and the mutex that stays held when it cannot be acquired, are not modelled.
- RefreshTokens.Linearizable: an API call that fails has no effect; one that takes effect although its answer is lost is not modelled.
- SecretRuns.CacheIsInvisible: JSON and base64 are a codec that loses nothing; returned slices and maps are values, so changing a cached map in place is not modelled.
- ProxyProto.FPutRequest.Send: what is on the wire after a failed send is only known by its length.
- ProxyProto.Conn.ReadString: an empty transport is one whose peer has closed; waiting for more data is a step that has not happened yet.
- ProxyProto.Conn.CopyFrom: a body that fails to be read is not modelled.
- The API client beyond atomic calls: watches, caches, conflicts between versions and garbage collection of owned objects.
- More than one reconcile worker; the reconcilers of pods, services and certificates; session timeouts; the userdata selector and retained claims.
- The order of roles in a listing, the fields of roles and users that do not bear on permissions, and the HTTP routes around the guard: of their checks the validation of the body and the permissions to create users and to create and update roles are modelled, the remaining ones are one parameter.
- How another provider maps groups to roles, which may name any roles, and changes to the settings behind the role for users without any.
- Tokens' signatures and lifetimes, password hashing, one-time codes, LDAP, OIDC and Vault.
- Character encodings: bytes are characters, and `path.Dir` is a parameter of the mounts.
- Images, environment variables, resources and other default values of templates; volume devices.
- Sending an upload side by side with waiting for its answer: a server that closes early shows as a transport without room.
- The API's own HTTP responses, such as the one that states a fetched file's announced size as its length.
- The wrap-around of the 64-bit byte counters; dialling, TLS and the websocket reader; audio and display streams.
