/** The guard on every user and role change, and what it means over whole runs of the API:
    pkg/api/api_validate_privilege_escalation.go. */
module Escalation {
  import opened Wrappers
  import opened Rules
  import opened Evaluate
  import opened RuleInclusion
  import Passwd

  const VERB_CREATE := "create"
  const VERB_UPDATE := "update"
  const MFA_PATH := "/api/users/{user}/mfa"

  /** The decoded body of a request; hash is that of the password in it, empty when there is none. */
  datatype RequestObject =
    | CreateUserRequest(username: string, roles: seq<string>, hash: string)
    | UpdateUserRequest(roles: seq<string>, hash: string)
    | CreateRoleRequest(name: string, rules: seq<Rule>)
    | UpdateRoleRequest(rules: seq<Rule>)
    | OtherRequest

  datatype ListFailed = ListFailed

  /** The first role of that name, if there is one. */
  function GetRoleByName(roles: seq<UserRole>, name: string): (r: Option<UserRole>)
    ensures r.Some? ==> r.value in roles && r.value.name == name
    ensures r.None? <==> forall role <- roles :: role.name != name
  {
    if roles == [] then None
    else if roles[0].name == name then Some(roles[0])
    else GetRoleByName(roles[1..], name)
  }

  ghost predicate RulesIncluded(compile: Compiler, reqUser: seq<UserRole>, rules: seq<Rule>, listing: Listing) {
    forall rule <- rules :: UserIncludesRule(compile, reqUser, rule, listing)
  }

  /** Names that denote no role are skipped. */
  ghost predicate NamedRolesIncluded(compile: Compiler, reqUser: seq<UserRole>, vdiRoles: seq<UserRole>,
                                     names: seq<string>, listing: Listing) {
    forall name <- names :: GetRoleByName(vdiRoles, name).Some? ==>
      RulesIncluded(compile, reqUser, GetRoleByName(vdiRoles, name).value.rules, listing)
  }

  /** vdiRoles is the cluster's answer to listing the roles, None when that call fails. */
  ghost function DenyUserElevatePerms(compile: Compiler, reqUser: seq<UserRole>, path: string, obj: RequestObject,
                                      vdiRoles: Option<seq<UserRole>>, listing: Listing): Result<bool, ListFailed> {
    if path == MFA_PATH then Ok(true)
    else match obj
      case CreateUserRequest(_, names, _) =>
        if vdiRoles.None? then Err(ListFailed) else
          Ok(NamedRolesIncluded(compile, reqUser, vdiRoles.value, names, listing))
      case UpdateUserRequest(names, _) =>
        if vdiRoles.None? then Err(ListFailed) else
          Ok(NamedRolesIncluded(compile, reqUser, vdiRoles.value, names, listing))
      case CreateRoleRequest(_, rules) => Ok(RulesIncluded(compile, reqUser, rules, listing))
      case UpdateRoleRequest(rules) => Ok(RulesIncluded(compile, reqUser, rules, listing))
      case OtherRequest => Ok(false)
  }

  /** The request would make the rule someone's. */
  ghost predicate HandsOut(obj: RequestObject, vdiRoles: seq<UserRole>, rule: Rule) {
    match obj
    case CreateUserRequest(_, names, _) =>
      exists name <- names :: GetRoleByName(vdiRoles, name).Some? && rule in GetRoleByName(vdiRoles, name).value.rules
    case UpdateUserRequest(names, _) =>
      exists name <- names :: GetRoleByName(vdiRoles, name).Some? && rule in GetRoleByName(vdiRoles, name).value.rules
    case CreateRoleRequest(_, rules) => rule in rules
    case UpdateRoleRequest(rules) => rule in rules
    case OtherRequest => false
  }

  /** One rule of the requester allows all that this one allows. */
  ghost predicate CoveredBySome(compile: Compiler, reqUser: seq<UserRole>, c: Rule, listing: Listing) {
    exists role, own :: role in reqUser && own in role.rules && Contains(compile, own, c, listing)
  }

  /** One rule of the requester is this one up to order, or dominates it. */
  ghost predicate HeldBySome(compile: Compiler, reqUser: seq<UserRole>, c: Rule, listing: Listing) {
    exists role, own ::
      role in reqUser && own in role.rules && (SameRule(own, c) || Dominates(compile, own, c, listing))
  }

  lemma UserIncludesMeans(compile: Compiler, reqUser: seq<UserRole>, c: Rule, listing: Listing)
    ensures UserIncludesRule(compile, reqUser, c, listing) <==> HeldBySome(compile, reqUser, c, listing)
  {
    forall role, own | role in reqUser && own in role.rules
      ensures RuleIncludes(compile, own, c, listing) <==> SameRule(own, c) || Dominates(compile, own, c, listing)
    {
      RuleIncludesMeans(compile, own, c, listing);
    }
    if HeldBySome(compile, reqUser, c, listing) {
      var role, own :|
        role in reqUser && own in role.rules && (SameRule(own, c) || Dominates(compile, own, c, listing));
      assert RoleIncludesRule(compile, role, c, listing);
    }
  }

  /** Held rules are covered; the other way round holds for comparable ones. */
  lemma HeldAndCovered(compile: Compiler, reqUser: seq<UserRole>, c: Rule, listing: Listing)
    ensures HeldBySome(compile, reqUser, c, listing) ==> CoveredBySome(compile, reqUser, c, listing)
    ensures Comparable(compile, c, listing) ==>
      (CoveredBySome(compile, reqUser, c, listing) ==> HeldBySome(compile, reqUser, c, listing))
  {
    forall role, own | role in reqUser && own in role.rules
      ensures SameRule(own, c) || Dominates(compile, own, c, listing) ==> Contains(compile, own, c, listing)
      ensures Comparable(compile, c, listing) && Contains(compile, own, c, listing) ==>
        SameRule(own, c) || Dominates(compile, own, c, listing)
    {
      RuleIncludesMeans(compile, own, c, listing);
      if RuleIncludes(compile, own, c, listing) {
        RuleIncludesSound(compile, own, c, listing);
      }
      if Comparable(compile, c, listing) {
        RuleIncludesExact(compile, own, c, listing);
      }
    }
  }

  /** The guard decides exactly whether the requester holds, rule by rule, everything the request hands out; a request
      it does not know is refused, and only the MFA route is waved through. */
  lemma GuardExact(compile: Compiler, reqUser: seq<UserRole>, path: string, obj: RequestObject,
                   vdiRoles: seq<UserRole>, listing: Listing)
    ensures DenyUserElevatePerms(compile, reqUser, path, obj, Some(vdiRoles), listing) == Ok(true)
       <==> || path == MFA_PATH
            || (!obj.OtherRequest?
                && forall rule | HandsOut(obj, vdiRoles, rule) :: HeldBySome(compile, reqUser, rule, listing))
  {
    forall rule | HandsOut(obj, vdiRoles, rule)
      ensures UserIncludesRule(compile, reqUser, rule, listing) <==> HeldBySome(compile, reqUser, rule, listing)
    {
      UserIncludesMeans(compile, reqUser, rule, listing);
    }
  }

  /** For comparable rules that is exactly what the requester is allowed to do. */
  lemma GuardMeansContainment(compile: Compiler, reqUser: seq<UserRole>, path: string, obj: RequestObject,
                              vdiRoles: seq<UserRole>, listing: Listing)
    requires path != MFA_PATH && !obj.OtherRequest?
    ensures DenyUserElevatePerms(compile, reqUser, path, obj, Some(vdiRoles), listing) == Ok(true)
        ==> forall rule | HandsOut(obj, vdiRoles, rule) :: CoveredBySome(compile, reqUser, rule, listing)
    ensures (forall rule | HandsOut(obj, vdiRoles, rule) ::
               Comparable(compile, rule, listing) && CoveredBySome(compile, reqUser, rule, listing))
        ==> DenyUserElevatePerms(compile, reqUser, path, obj, Some(vdiRoles), listing) == Ok(true)
  {
    GuardExact(compile, reqUser, path, obj, vdiRoles, listing);
    forall rule | HandsOut(obj, vdiRoles, rule)
      ensures HeldBySome(compile, reqUser, rule, listing) ==> CoveredBySome(compile, reqUser, rule, listing)
      ensures Comparable(compile, rule, listing) && CoveredBySome(compile, reqUser, rule, listing) ==>
        HeldBySome(compile, reqUser, rule, listing)
    {
      HeldAndCovered(compile, reqUser, rule, listing);
    }
  }

  /** The cluster's roles, the passwd file of the local users, the role built from the cluster's settings for those who
      log in without any, if they may, and the roles inside every token ever issued. */
  datatype World = World(roles: seq<UserRole>, passwd: string, launchTemplates: Option<UserRole>,
                         tokens: seq<seq<UserRole>>)

  /** A request made with an issued token, a login or refresh, or a removal.
      The target is the name in the URL; otherChecks is the verdict of the route's remaining checks. A token is issued
      to a local user, to one whose roles another provider names, or to one without. */
  datatype Step =
    | Request(token: nat, path: string, target: string, obj: RequestObject,
              templates: Option<seq<string>>, rolesUp: bool, otherChecks: bool)
    | IssueToken(user: string)
    | IssueBoundToken(bound: seq<string>)
    | IssueLaunchToken
    | DeleteRole(role: string)
    | DeleteUser(user: string)

  function RoleNames(roles: seq<UserRole>): seq<string> {
    seq(|roles|, i requires 0 <= i < |roles| => roles[i].name)
  }

  /** The API server's getter: it leaves users empty and fails when the cluster does. */
  function ListingAt(w: World, templates: Option<seq<string>>, rolesUp: bool): Listing {
    Listing(if rolesUp then Some(RoleNames(w.roles)) else None, Some([]), templates)
  }

  /** Every role whose name is among the names, once for each time it is named. */
  function FilterUserRolesByNames(roles: seq<UserRole>, names: seq<string>): (r: seq<UserRole>)
    ensures forall role :: role in r <==> role in roles && role.name in names
  {
    if names == [] then []
    else RolesNamed(roles, names[0]) + FilterUserRolesByNames(roles, names[1..])
  }

  function RolesNamed(roles: seq<UserRole>, name: string): (r: seq<UserRole>)
    ensures forall role :: role in r <==> role in roles && role.name == name
  {
    if roles == [] then []
    else (if roles[0].name == name then [roles[0]] else []) + RolesNamed(roles[1..], name)
  }

  function WithRules(roles: seq<UserRole>, name: string, rules: seq<Rule>): seq<UserRole> {
    seq(|roles|, i requires 0 <= i < |roles| =>
      if roles[i].name == name then roles[i].(rules := rules) else roles[i])
  }

  function WithoutRole(roles: seq<UserRole>, name: string): (r: seq<UserRole>)
    ensures forall role :: role in r <==> role in roles && role.name != name
  {
    if roles == [] then []
    else (if roles[0].name == name then [] else [roles[0]]) + WithoutRole(roles[1..], name)
  }

  /** The handler behind the route, once the request was let through. A failed change leaves the file as it is. */
  function Handle(w: World, target: string, obj: RequestObject): World {
    match obj
    case CreateUserRequest(username, names, hash) =>
      var r := Passwd.AddSpec(w.passwd, Passwd.User(username, names, hash));
      if r.Ok? then w.(passwd := r.value) else w
    case UpdateUserRequest(names, hash) =>
      var r := Passwd.UpdateSpec(w.passwd, Passwd.User(target, names, hash));
      if r.Ok? then w.(passwd := r.value) else w
    case CreateRoleRequest(name, rules) =>
      if GetRoleByName(w.roles, name).Some? then w else w.(roles := w.roles + [UserRole(name, rules)])
    case UpdateRoleRequest(rules) => w.(roles := WithRules(w.roles, target, rules))
    case OtherRequest => w
  }

  /** The roles of a local user's next token; none for one that is not on file. */
  function LocalRoles(w: World, user: string): seq<UserRole> {
    var r := Passwd.GetSpec(w.passwd, user);
    if r.Ok? then FilterUserRolesByNames(w.roles, r.value.groups) else []
  }

  predicate PatternsCompile(compile: Compiler, rules: seq<Rule>) {
    forall rule, pattern | rule in rules && pattern in rule.patterns :: compile(pattern).Some?
  }

  predicate Validated(compile: Compiler, obj: RequestObject) {
    match obj
    case CreateUserRequest(username, names, hash) => username != "" && hash != "" && names != [] && ':' !in username
    case UpdateUserRequest(names, hash) => hash != "" || names != []
    case CreateRoleRequest(name, rules) => name != "" && PatternsCompile(compile, rules)
    case UpdateRoleRequest(rules) => PatternsCompile(compile, rules)
    case OtherRequest => true
  }

  /** The permission the route asks for; on a user's own account none is needed, so that is left to the other checks. */
  predicate Permitted(compile: Compiler, token: seq<UserRole>, target: string, obj: RequestObject) {
    match obj
    case CreateUserRequest(_, _, _) => RolesGrant(compile, token, Action(VERB_CREATE, RESOURCE_USERS, "", ""))
    case CreateRoleRequest(_, _) => RolesGrant(compile, token, Action(VERB_CREATE, RESOURCE_ROLES, "", ""))
    case UpdateRoleRequest(_) => RolesGrant(compile, token, Action(VERB_UPDATE, RESOURCE_ROLES, target, ""))
    case _ => true
  }

  ghost predicate LetThrough(compile: Compiler, w: World, step: Step)
    requires step.Request?
  {
    && step.otherChecks && step.token < |w.tokens| && step.path != MFA_PATH && Validated(compile, step.obj)
    && Permitted(compile, w.tokens[step.token], step.target, step.obj)
    && DenyUserElevatePerms(compile, w.tokens[step.token], step.path, step.obj,
                            if step.rolesUp then Some(w.roles) else None,
                            ListingAt(w, step.templates, step.rolesUp)) == Ok(true)
  }

  ghost function Next(compile: Compiler, w: World, step: Step): World {
    match step
    case Request(_, _, target, obj, _, _, _) => if LetThrough(compile, w, step) then Handle(w, target, obj) else w
    case IssueToken(user) =>
      if Passwd.GetSpec(w.passwd, user).Err? then w else w.(tokens := w.tokens + [LocalRoles(w, user)])
    case IssueBoundToken(bound) => w.(tokens := w.tokens + [FilterUserRolesByNames(w.roles, bound)])
    case IssueLaunchToken =>
      if w.launchTemplates.None? then w else w.(tokens := w.tokens + [[w.launchTemplates.value]])
    case DeleteRole(role) => w.(roles := WithoutRole(w.roles, role))
    case DeleteUser(user) =>
      var r := Passwd.DeleteSpec(w.passwd, user);
      if r.Ok? then w.(passwd := r.value) else w
  }

  ghost function Run(compile: Compiler, w: World, steps: seq<Step>): World
    decreases |steps|
  {
    if steps == [] then w else Run(compile, Next(compile, w, steps[0]), steps[1..])
  }

  /** Some role in the cluster, the role of those without any, or some token in circulation permits the action. */
  ghost predicate GrantedAnywhere(compile: Compiler, w: World, a: Action) {
    || RolesGrant(compile, w.roles, a)
    || (w.launchTemplates.Some? && RulesGrant(compile, w.launchTemplates.value.rules, a))
    || exists token <- w.tokens :: RolesGrant(compile, token, a)
  }

  /** The action was in scope of what every request that ran had listed: nameless, listed, or of a type whose listing
      failed. */
  ghost predicate InScopeThroughout(compile: Compiler, w: World, steps: seq<Step>, a: Action)
    decreases |steps|
  {
    steps == [] ||
    (&& (steps[0].Request? ==> InScope(ListingAt(w, steps[0].templates, steps[0].rolesUp), a))
     && InScopeThroughout(compile, Next(compile, w, steps[0]), steps[1..], a))
  }

  lemma IncludedRulesGrantNoMore(compile: Compiler, reqUser: seq<UserRole>, rules: seq<Rule>, listing: Listing,
                                 a: Action)
    requires RulesIncluded(compile, reqUser, rules, listing) && InScope(listing, a)
    requires RulesGrant(compile, rules, a)
    ensures RolesGrant(compile, reqUser, a)
  {
    var rule :| rule in rules && RuleAllows(compile, rule, Normalised(a));
    UserIncludesSound(compile, reqUser, rule, listing, a);
  }

  /** A role write that was let through adds no permission its author did not hold. */
  lemma WriterHeldIt(compile: Compiler, w: World, step: Step, a: Action)
    requires step.Request? && LetThrough(compile, w, step)
    requires InScope(ListingAt(w, step.templates, step.rolesUp), a)
    requires RolesGrant(compile, Next(compile, w, step).roles, a)
    ensures RolesGrant(compile, w.roles, a) || RolesGrant(compile, w.tokens[step.token], a)
  {
    var role :| role in Next(compile, w, step).roles && RulesGrant(compile, role.rules, a);
    if role !in w.roles {
      IncludedRulesGrantNoMore(compile, w.tokens[step.token], step.obj.rules,
                               ListingAt(w, step.templates, step.rolesUp), a);
    }
  }

  /** The request passes every check: well-formed, permitted, and handing out only what the requester holds. */
  ghost predicate Accepted(compile: Compiler, w: World, step: Step, rules: seq<Rule>)
    requires step.Request?
  {
    && step.otherChecks && step.token < |w.tokens| && step.path != "/api/users/{user}/mfa"
    && forall rule <- rules ::
         && (forall p <- rule.patterns :: compile(p).Some?)
         && HeldBySome(compile, w.tokens[step.token], rule, ListingAt(w, step.templates, step.rolesUp))
  }

  ghost predicate HoldsPermission(compile: Compiler, w: World, step: Step, verb: string, resource: string, name: string)
    requires step.Request?
  {
    step.token < |w.tokens|
    && exists role, r ::
         role in w.tokens[step.token] && r in role.rules && Permits(compile, r, Action(verb, resource, name, ""))
  }

  /** A new role comes last, under its name and with its rules, if and only if it has a name that no role has yet and
      the request is accepted from someone who may create roles; otherwise no role changes. */
  lemma CreatedRole(compile: Compiler, w: World, step: Step)
    requires step.Request? && step.obj.CreateRoleRequest?
    ensures var (name, rules) := (step.obj.name, step.obj.rules);
      var made := && name != "" && (forall role <- w.roles :: role.name != name)
                  && Accepted(compile, w, step, rules) && HoldsPermission(compile, w, step, "create", "roles", "");
      Next(compile, w, step) == if made then w.(roles := w.roles + [UserRole(name, rules)]) else w
  {
    if step.token < |w.tokens| {
      RolesGrantMeans(compile, w.tokens[step.token], Action("create", "roles", "", ""));
      var listing := ListingAt(w, step.templates, step.rolesUp);
      GuardExact(compile, w.tokens[step.token], step.path, step.obj, w.roles, listing);
    }
  }

  /** An updated role has exactly the new rules and every other role its old ones, all in their places, if and only if
      the request is accepted from someone who may update that role; otherwise no role changes. */
  lemma UpdatedRole(compile: Compiler, w: World, step: Step)
    requires step.Request? && step.obj.UpdateRoleRequest?
    ensures var roles := Next(compile, w, step).roles;
      && Next(compile, w, step) == w.(roles := roles) && |roles| == |w.roles|
      && (if Accepted(compile, w, step, step.obj.rules)
             && HoldsPermission(compile, w, step, "update", "roles", step.target)
          then forall i :: 0 <= i < |roles| ==>
            && roles[i].name == w.roles[i].name
            && roles[i].rules == if w.roles[i].name == step.target then step.obj.rules else w.roles[i].rules
          else roles == w.roles)
  {
    if step.token < |w.tokens| {
      RolesGrantMeans(compile, w.tokens[step.token], Action("update", "roles", step.target, ""));
      var listing := ListingAt(w, step.templates, step.rolesUp);
      GuardExact(compile, w.tokens[step.token], step.path, step.obj, w.roles, listing);
    }
  }

  /** The same of a request that names roles, which needs the cluster's list of them. */
  ghost predicate AcceptedNames(compile: Compiler, w: World, step: Step)
    requires step.Request?
  {
    && step.otherChecks && step.token < |w.tokens| && step.path != "/api/users/{user}/mfa" && step.rolesUp
    && forall rule | HandsOut(step.obj, w.roles, rule) ::
         HeldBySome(compile, w.tokens[step.token], rule, ListingAt(w, step.templates, true))
  }

  /** A user comes onto the file if and only if the request has a name without colon, a password and a role, is accepted
      from someone who may create users, and the file takes the user; otherwise nothing changes. */
  lemma CreatedUser(compile: Compiler, w: World, step: Step)
    requires step.Request? && step.obj.CreateUserRequest?
    ensures var (username, names, hash) := (step.obj.username, step.obj.roles, step.obj.hash);
      var r := Passwd.AddSpec(w.passwd, Passwd.User(username, names, hash));
      var made := && username != "" && ':' !in username && hash != "" && names != [] && r.Ok?
                  && AcceptedNames(compile, w, step)
                  && HoldsPermission(compile, w, step, "create", "users", "");
      Next(compile, w, step) == if made then w.(passwd := r.value) else w
  {
    if step.token < |w.tokens| {
      RolesGrantMeans(compile, w.tokens[step.token], Action("create", "users", "", ""));
      var listing := ListingAt(w, step.templates, step.rolesUp);
      GuardExact(compile, w.tokens[step.token], step.path, step.obj, w.roles, listing);
    }
  }

  /** A user on file is changed if and only if the request has a password or a role, is accepted, and the file takes
      it. */
  lemma UpdatedUser(compile: Compiler, w: World, step: Step)
    requires step.Request? && step.obj.UpdateUserRequest?
    ensures var (names, hash) := (step.obj.roles, step.obj.hash);
      var r := Passwd.UpdateSpec(w.passwd, Passwd.User(step.target, names, hash));
      var made := (hash != "" || names != []) && r.Ok? && AcceptedNames(compile, w, step);
      Next(compile, w, step) == if made then w.(passwd := r.value) else w
  {
    if step.token < |w.tokens| {
      var listing := ListingAt(w, step.templates, step.rolesUp);
      GuardExact(compile, w.tokens[step.token], step.path, step.obj, w.roles, listing);
    }
  }

  /** Roles before and after the removed one stay, in their order, when no other has its name. */
  lemma {:induction false} DeletedRole(compile: Compiler, w: World, before: seq<UserRole>, role: UserRole,
                                       after: seq<UserRole>)
    requires w.roles == before + [role] + after
    requires (forall r <- before :: r.name != role.name) && forall r <- after :: r.name != role.name
    ensures Next(compile, w, DeleteRole(role.name)) == w.(roles := before + after)
  {
    WithoutOne(before, role, after);
  }

  lemma {:induction false} WithoutOne(before: seq<UserRole>, role: UserRole, after: seq<UserRole>)
    requires (forall r <- before :: r.name != role.name) && forall r <- after :: r.name != role.name
    ensures WithoutRole(before + [role] + after, role.name) == before + after
  {
    WithoutAppend(before + [role], after, role.name);
    WithoutAppend(before, [role], role.name);
    WithoutNone(before, role.name);
    WithoutNone(after, role.name);
    assert WithoutRole([role], role.name) == [] + WithoutRole([], role.name);
    assert before + [] == before;
  }

  lemma {:induction false} WithoutAppend(a: seq<UserRole>, b: seq<UserRole>, name: string)
    ensures WithoutRole(a + b, name) == WithoutRole(a, name) + WithoutRole(b, name)
  {
    if a == [] {
      assert a + b == b;
    } else {
      assert (a + b)[1..] == a[1..] + b;
      WithoutAppend(a[1..], b, name);
    }
  }

  lemma {:induction false} WithoutNone(roles: seq<UserRole>, name: string)
    requires forall role <- roles :: role.name != name
    ensures WithoutRole(roles, name) == roles
  {
    if roles != [] {
      WithoutNone(roles[1..], name);
      assert roles == [roles[0]] + roles[1..];
    }
  }

  /** Every login or refresh adds one token and changes nothing else: a local user's permits exactly what the roles of
      the groups on file permit as they stand. */
  lemma IssuedToken(compile: Compiler, w: World, user: string, a: Action)
    ensures var w' := Next(compile, w, IssueToken(user));
      match Passwd.GetSpec(w.passwd, user)
      case Err(_) => w' == w
      case Ok(u) =>
        && |w'.tokens| == |w.tokens| + 1 && w' == w.(tokens := w'.tokens) && w.tokens <= w'.tokens
        && (RolesGrant(compile, w'.tokens[|w.tokens|], a)
            <==> exists role, r ::
                   role in w.roles && role.name in u.groups && r in role.rules && Permits(compile, r, a))
  {
    RolesGrantMeans(compile, LocalRoles(w, user), a);
  }

  /** The same of the logins without a local user: the roles that another provider names, and the role for those without
      any, if they may log in at all. */
  lemma IssuedOtherTokens(compile: Compiler, w: World, bound: seq<string>, a: Action)
    ensures var w' := Next(compile, w, IssueBoundToken(bound));
      && |w'.tokens| == |w.tokens| + 1 && w' == w.(tokens := w'.tokens) && w.tokens <= w'.tokens
      && (RolesGrant(compile, w'.tokens[|w.tokens|], a)
          <==> exists role, r :: role in w.roles && role.name in bound && r in role.rules && Permits(compile, r, a))
    ensures Next(compile, w, IssueLaunchToken)
         == if w.launchTemplates.None? then w else w.(tokens := w.tokens + [[w.launchTemplates.value]])
  {
    RolesGrantMeans(compile, FilterUserRolesByNames(w.roles, bound), a);
  }

  lemma {:induction false} StepGrantsNothingNew(compile: Compiler, w: World, step: Step, a: Action)
    requires step.Request? ==> InScope(ListingAt(w, step.templates, step.rolesUp), a)
    requires GrantedAnywhere(compile, Next(compile, w, step), a)
    ensures GrantedAnywhere(compile, w, a)
  {
    if step.Request? && LetThrough(compile, w, step) && RolesGrant(compile, Next(compile, w, step).roles, a) {
      WriterHeldIt(compile, w, step, a);
    }
  }

  /** Over any run of logins, user and role changes and deletions, no permission appears that no role and no token held
      at the start. */
  lemma {:induction false} NoEscalation(compile: Compiler, w: World, steps: seq<Step>, a: Action)
    requires InScopeThroughout(compile, w, steps, a)
    requires GrantedAnywhere(compile, Run(compile, w, steps), a)
    ensures GrantedAnywhere(compile, w, a)
    decreases |steps|
  {
    if steps != [] {
      NoEscalation(compile, Next(compile, w, steps[0]), steps[1..], a);
      StepGrantsNothingNew(compile, w, steps[0], a);
    }
  }

  /** With a fixed set of templates, listed or not, every action on templates stays in scope. */
  lemma {:induction false} TemplateActionsInScope(compile: Compiler, w: World, steps: seq<Step>,
                                                  templates: seq<string>, a: Action)
    requires forall step <- steps :: step.Request? && step.templates.Some? ==> step.templates.value == templates
    requires a.resourceType == RESOURCE_TEMPLATES && (a.name == "" || a.name in templates)
    ensures InScopeThroughout(compile, w, steps, a)
    decreases |steps|
  {
    if steps != [] {
      TemplateActionsInScope(compile, Next(compile, w, steps[0]), steps[1..], templates, a);
    }
  }

  lemma NoTemplateEscalation(compile: Compiler, w: World, steps: seq<Step>, templates: seq<string>, a: Action)
    requires forall step <- steps :: step.Request? && step.templates.Some? ==> step.templates.value == templates
    requires a.resourceType == RESOURCE_TEMPLATES && (a.name == "" || a.name in templates)
    ensures GrantedAnywhere(compile, Run(compile, w, steps), a) ==> GrantedAnywhere(compile, w, a)
  {
    TemplateActionsInScope(compile, w, steps, templates, a);
    if GrantedAnywhere(compile, Run(compile, w, steps), a) {
      NoEscalation(compile, w, steps, a);
    }
  }

  ghost predicate UniqueNames(roles: seq<UserRole>) {
    forall i, j :: 0 <= i < j < |roles| ==> roles[i].name != roles[j].name
  }

  lemma {:induction false} WithoutRoleIsSparser(roles: seq<UserRole>, name: string)
    requires UniqueNames(roles)
    ensures UniqueNames(WithoutRole(roles, name))
  {
    if roles != [] {
      WithoutRoleIsSparser(roles[1..], name);
      forall role | role in WithoutRole(roles[1..], name) ensures role.name != roles[0].name {
        var k :| 0 <= k < |roles[1..]| && roles[1..][k] == role;
        assert roles[k + 1] == role;
      }
    }
  }

  /** Role names stay unique in every run, as the cluster keeps them. */
  lemma {:induction false} NamesStayUnique(compile: Compiler, w: World, steps: seq<Step>)
    requires UniqueNames(w.roles)
    ensures UniqueNames(Run(compile, w, steps).roles)
    decreases |steps|
  {
    if steps != [] {
      if steps[0].DeleteRole? {
        WithoutRoleIsSparser(w.roles, steps[0].role);
      }
      NamesStayUnique(compile, Next(compile, w, steps[0]), steps[1..]);
    }
  }

  lemma {:induction false} OnlyRoleOfItsName(roles: seq<UserRole>, role: UserRole)
    requires UniqueNames(roles) && role in roles
    ensures GetRoleByName(roles, role.name) == Some(role)
  {
    if roles[0] != role {
      var k :| 0 <= k < |roles| && roles[k] == role;
      assert roles[1..][k - 1] == role;
      OnlyRoleOfItsName(roles[1..], role);
    }
  }

  /** Whoever creates a user, or changes a user's roles, names no more than what they hold: the roles of those names, as
      they stand at that moment, permit nothing the author's token does not. */
  lemma NewUserHoldsNoMore(compile: Compiler, w: World, step: Step, a: Action)
    requires step.Request? && LetThrough(compile, w, step) && UniqueNames(w.roles)
    requires step.obj.CreateUserRequest? || step.obj.UpdateUserRequest?
    requires InScope(ListingAt(w, step.templates, step.rolesUp), a)
    requires RolesGrant(compile, FilterUserRolesByNames(w.roles, step.obj.roles), a)
    ensures RolesGrant(compile, w.tokens[step.token], a)
  {
    var role :| role in FilterUserRolesByNames(w.roles, step.obj.roles) && RulesGrant(compile, role.rules, a);
    OnlyRoleOfItsName(w.roles, role);
    IncludedRulesGrantNoMore(compile, w.tokens[step.token], role.rules, ListingAt(w, step.templates, step.rolesUp), a);
  }

  // ---- which actions the guard protects

  /** In no world whose roles have these names does a request, made while the listings answer this, add the action. */
  ghost predicate Protected(compile: Compiler, names: seq<string>, templates: Option<seq<string>>, rolesUp: bool,
                            a: Action) {
    forall w: World, step: Step | && step.Request? && RoleNames(w.roles) == names
                     && step.templates == templates && step.rolesUp == rolesUp
                     && GrantedAnywhere(compile, Next(compile, w, step), a) :: GrantedAnywhere(compile, w, a)
  }

  function RolesWithoutRules(names: seq<string>): (roles: seq<UserRole>)
    ensures RoleNames(roles) == names && forall role <- roles :: role.rules == []
  {
    if names == [] then [] else [UserRole(names[0], [])] + RolesWithoutRules(names[1..])
  }

  function LongerThanAll(names: seq<string>): (name: string)
    ensures |name| > 0 && forall n <- names :: |n| < |name|
  {
    if names == [] then "x" else names[0] + LongerThanAll(names[1..])
  }

  /** The requester's token, with the right to create roles, and the world and request that escape the guard when the
      action is out of scope. */
  function NamelessToken(a: Action): seq<UserRole> {
    [UserRole("own", [Nameless(a), Nameless(Action(VERB_CREATE, RESOURCE_ROLES, "", ""))])]
  }

  function BareWorld(names: seq<string>, a: Action): World {
    World(RolesWithoutRules(names), "", None, [NamelessToken(a)])
  }

  function RoleRequest(names: seq<string>, templates: Option<seq<string>>, rolesUp: bool, a: Action,
                       pattern: string): Step {
    Request(0, "/api/roles", "", CreateRoleRequest(LongerThanAll(names), [NamedBy(a, pattern)]),
      templates, rolesUp, true)
  }

  /** A rule without patterns allows its nameless action, in any namespace. */
  lemma NamelessAllows(compile: Compiler, a: Action)
    requires a.name == ""
    ensures RuleAllows(compile, Nameless(a), a)
  {
    var r := Nameless(a);
    assert a.verb in r.verbs && a.resourceType in r.resources && NAMESPACE_ALL in r.namespaces;
  }

  lemma HolderMay(compile: Compiler, token: seq<UserRole>, role: UserRole, a: Action)
    requires role in token && Nameless(a) in role.rules && a.name == ""
    ensures RolesGrant(compile, token, a)
  {
    NamelessAllows(compile, a);
    assert RulesGrant(compile, role.rules, a);
  }

  lemma TokenIncludes(compile: Compiler, a: Action, c: Rule, listing: Listing)
    requires RuleIncludes(compile, Nameless(a), c, listing)
    ensures RulesIncluded(compile, NamelessToken(a), [c], listing)
  {
    var token := NamelessToken(a);
    assert Nameless(a) in token[0].rules && token[0] in token;
    assert RoleIncludesRule(compile, token[0], c, listing);
  }

  lemma RoleRequestLetThrough(compile: Compiler, names: seq<string>, templates: Option<seq<string>>, rolesUp: bool,
                              a: Action, pattern: string)
    requires RuleIncludes(compile, Nameless(a), NamedBy(a, pattern), ListingAt(BareWorld(names, a), templates, rolesUp))
    requires compile(pattern).Some?
    ensures LetThrough(compile, BareWorld(names, a), RoleRequest(names, templates, rolesUp, a, pattern))
  {
    TokenIncludes(compile, a, NamedBy(a, pattern), ListingAt(BareWorld(names, a), templates, rolesUp));
    var create, token := Action(VERB_CREATE, RESOURCE_ROLES, "", ""), NamelessToken(a);
    assert token[0].rules[1] == Nameless(create);
    HolderMay(compile, token, token[0], create);
    PatternCompiles(compile, a, pattern);
  }

  lemma PatternCompiles(compile: Compiler, a: Action, pattern: string)
    requires compile(pattern).Some?
    ensures PatternsCompile(compile, [NamedBy(a, pattern)])
  {
  }

  lemma BareWorldGrantsNothing(compile: Compiler, names: seq<string>, a: Action)
    requires !Allowed(compile, Nameless(a), a)
    ensures !GrantedAnywhere(compile, BareWorld(names, a), a)
  {
    assert forall role <- BareWorld(names, a).roles :: !RulesGrant(compile, role.rules, a);
  }

  lemma RoleIsMade(compile: Compiler, names: seq<string>, templates: Option<seq<string>>, rolesUp: bool,
                   a: Action, pattern: string)
    requires LetThrough(compile, BareWorld(names, a), RoleRequest(names, templates, rolesUp, a, pattern))
    requires Allowed(compile, NamedBy(a, pattern), a)
    ensures GrantedAnywhere(compile,
      Next(compile, BareWorld(names, a), RoleRequest(names, templates, rolesUp, a, pattern)), a)
  {
    NoSuchRole(names);
    var role := UserRole(LongerThanAll(names), [NamedBy(a, pattern)]);
    var roles := RolesWithoutRules(names) + [role];
    assert Next(compile, BareWorld(names, a), RoleRequest(names, templates, rolesUp, a, pattern)).roles == roles;
    assert role in roles && NamedBy(a, pattern) in role.rules;
    assert RulesGrant(compile, role.rules, a);
  }

  lemma OutOfScopeUnprotected(compile: Compiler, names: seq<string>, templates: Option<seq<string>>, rolesUp: bool,
                              a: Action, pattern: string)
    requires OnlyMatches(compile, pattern, a.name)
    requires !InScope(ListingAt(BareWorld(names, a), templates, rolesUp), a)
    ensures !Protected(compile, names, templates, rolesUp, a)
  {
    OutOfScopeEscapes(compile, ListingAt(BareWorld(names, a), templates, rolesUp), a, pattern);
    RoleRequestLetThrough(compile, names, templates, rolesUp, a, pattern);
    BareWorldGrantsNothing(compile, names, a);
    RoleIsMade(compile, names, templates, rolesUp, a, pattern);
    EscapeBreaksProtection(compile, BareWorld(names, a),
      RoleRequest(names, templates, rolesUp, a, pattern), names, templates, rolesUp, a);
  }

  lemma EscapeBreaksProtection(compile: Compiler, w: World, step: Step, names: seq<string>,
                               templates: Option<seq<string>>,
                               rolesUp: bool, a: Action)
    requires step.Request? && RoleNames(w.roles) == names && step.templates == templates && step.rolesUp == rolesUp
    requires GrantedAnywhere(compile, Next(compile, w, step), a) && !GrantedAnywhere(compile, w, a)
    ensures !Protected(compile, names, templates, rolesUp, a)
  {
  }

  lemma NoSuchRole(names: seq<string>)
    ensures GetRoleByName(RolesWithoutRules(names), LongerThanAll(names)).None?
  {
    var roles := RolesWithoutRules(names);
    forall role | role in roles ensures role.name != LongerThanAll(names) {
      var i :| 0 <= i < |roles| && roles[i] == role;
      assert RoleNames(roles)[i] == role.name && role.name in names;
    }
  }

  /** The guard protects an action in every world if and only if it is nameless, the default service account, or names
      a role or template that was listed when the request came, unless the listing that should tell failed, which
      fails closed. Names of users and of other service accounts, and templates yet to come, are not protected. */
  lemma ProtectedExactly(compile: Compiler, names: seq<string>, templates: Option<seq<string>>, rolesUp: bool,
                         a: Action, pattern: string)
    requires OnlyMatches(compile, pattern, a.name)
    ensures Protected(compile, names, templates, rolesUp, a)
       <==> || a.name == ""
            || (a.resourceType == RESOURCE_SERVICE_ACCOUNTS && a.name == "default")
            || (a.resourceType in {RESOURCE_ROLES, RESOURCE_ALL} && (!rolesUp || a.name in names))
            || (a.resourceType in {RESOURCE_TEMPLATES, RESOURCE_ALL} && (templates.None? || a.name in templates.value))
  {
    var listing := ListingAt(BareWorld(names, a), templates, rolesUp);
    if InScope(listing, a) {
      forall w: World, step: Step | && step.Request? && RoleNames(w.roles) == names
                       && step.templates == templates && step.rolesUp == rolesUp
                       && GrantedAnywhere(compile, Next(compile, w, step), a) ensures GrantedAnywhere(compile, w, a)
      {
        StepGrantsNothingNew(compile, w, step, a);
      }
    } else {
      OutOfScopeUnprotected(compile, names, templates, rolesUp, a, pattern);
    }
  }

  /** The three kinds of names nobody lists: a user's, a service account's, and a template's that does not exist yet. */
  lemma UnlistedNamesEscape(compile: Compiler, names: seq<string>, templates: seq<string>, verb: string, name: string,
                            pattern: string)
    requires OnlyMatches(compile, pattern, name) && name != ""
    ensures !Protected(compile, names, Some(templates), true, Action(verb, RESOURCE_USERS, name, ""))
    ensures name != "default" ==>
      !Protected(compile, names, Some(templates), true, Action(verb, RESOURCE_SERVICE_ACCOUNTS, name, ""))
    ensures name !in templates ==>
      !Protected(compile, names, Some(templates), true, Action(verb, RESOURCE_TEMPLATES, name, ""))
  {
    ProtectedExactly(compile, names, Some(templates), true, Action(verb, RESOURCE_USERS, name, ""), pattern);
    ProtectedExactly(compile, names, Some(templates), true, Action(verb, RESOURCE_SERVICE_ACCOUNTS, name, ""), pattern);
    ProtectedExactly(compile, names, Some(templates), true, Action(verb, RESOURCE_TEMPLATES, name, ""), pattern);
  }
}
