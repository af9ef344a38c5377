/** What a change of a local user's roles hands out once the roles have been through the passwd file:
    pkg/api/api_validate_privilege_escalation.go against pkg/auth/providers/local. */
module StoredUsers {
  import opened Wrappers
  import opened Text
  import opened Rules
  import opened Evaluate
  import opened RuleInclusion
  import opened Escalation
  import Passwd

  // ---- an entry between other entries

  /** What a login with this name finds in the file. */
  function Found(text: string, name: string): Result<Passwd.User, Passwd.PasswdError> {
    Passwd.GetSpec(text, name)
  }

  /** An entry as the provider reads it from one line. */
  ghost predicate OnALine(u: Passwd.User) {
    var line := Passwd.EncodeLine(u);
    '\n' !in line && |line| <= MAX_LINE && ':' !in u.username && ':' !in Join(u.groups, ',')
  }

  lemma {:induction false} ParsedOnALine(lines: seq<string>)
    requires forall line <- lines :: '\n' !in line
    requires forall line <- lines :: |line| <= MAX_LINE
    ensures forall u <- Passwd.ParsedUsers(lines) :: OnALine(u)
  {
    if lines != [] {
      ParsedOnALine(lines[1..]);
      if Passwd.ParseUser(lines[0]).Some? {
        Passwd.EncodeParse(lines[0]);
        var fields := Split(lines[0], ':');
        JoinSplit(fields[1], ',');
        assert fields[0] in fields && fields[1] in fields && lines[0] in lines;
      }
    }
  }

  /** After a line that belongs to someone else the search goes on; on that of the entry it ends, unless it is not
      found there. */
  lemma FoundInFirst(u: Passwd.User, rest: string, name: string)
    ensures Found(Passwd.Encode(u) + rest, name)
         == if Found(Passwd.Encode(u), name) == Err(Passwd.UserNotFound) then Found(rest, name)
            else Found(Passwd.Encode(u), name)
  {
    var first := Passwd.Encode(u);
    ScanAppend(first, rest);
    var a, b := ScanText(first), ScanText(rest);
    Passwd.ParsedUsersAppend(a.lines, b.lines);
    Passwd.NamedAppend(Passwd.ParsedUsers(a.lines), Passwd.ParsedUsers(b.lines), name);
  }

  lemma NotFoundInOther(v: Passwd.User, name: string)
    requires OnALine(v) && v.username != name
    ensures Found(Passwd.Encode(v), name) == Err(Passwd.UserNotFound)
  {
    ReadAlone(v);
    assert Passwd.Named([v], name) == Passwd.Named([], name) == [];
    var users := Passwd.ParsedUsers(ScanText(Passwd.Encode(v)).lines);
    assert users == [users[0]];
  }

  /** An entry on a line is read with its name and its groups, split anew; only its hash may lose a carriage return. */
  lemma ReadAlone(v: Passwd.User)
    requires OnALine(v)
    ensures !ScanText(Passwd.Encode(v)).tooLong
    ensures var users := Passwd.ParsedUsers(ScanText(Passwd.Encode(v)).lines);
      |users| == 1 && users[0].username == v.username && users[0].groups == Split(Join(v.groups, ','), ',')
  {
    var groups, hash := Join(v.groups, ','), v.passwordHash;
    var line := Passwd.EncodeLine(v);
    assert Passwd.Encode(v) == line + ['\n'] + "";
    ScanLine(line, "");
    assert WithoutCarriageReturn(line) == v.username + [':'] + groups + [':'] + WithoutCarriageReturn(hash);
    Passwd.ParseParts(v.username, groups, WithoutCarriageReturn(hash));
    var lines := ScanText(Passwd.Encode(v)).lines;
    assert lines == [WithoutCarriageReturn(line)];
    assert Passwd.ParsedUsers(lines[1..]) == [];
  }

  /** Among other entries, an entry is found as if it stood alone. */
  lemma {:induction false} FoundAmong(users: seq<Passwd.User>, u: Passwd.User)
    requires forall v <- users :: v == u || (OnALine(v) && v.username != u.username)
    ensures Found(Passwd.EncodeAll(users), u.username)
         == if u in users then Found(Passwd.Encode(u), u.username) else Err(Passwd.UserNotFound)
  {
    if users != [] {
      FoundAmong(users[1..], u);
      FoundInFirst(users[0], Passwd.EncodeAll(users[1..]), u.username);
      if users[0] != u {
        NotFoundInOther(users[0], u.username);
      }
    }
  }

  lemma {:induction false} UpdatedFrom(users: seq<Passwd.User>, request: Passwd.User)
    ensures forall v <- Passwd.UpdatedUsers(users, request) ::
      v.username == request.username || (v in users && v.username != request.username)
  {
    if users != [] {
      var filled := if users[0].username == request.username then Passwd.Merged(request, users[0]) else request;
      UpdatedFrom(users[1..], filled);
    }
  }

  // ---- what a request stores

  /** The request gets the entry onto the file; where a file holds the name more than once, all become the same. */
  ghost predicate Stores(w: World, step: Step, u: Passwd.User)
    requires step.Request?
  {
    match step.obj
    case CreateUserRequest(username, names, hash) =>
      u == Passwd.User(username, names, hash) && Passwd.AddSpec(w.passwd, u).Ok?
    case UpdateUserRequest(names, hash) =>
      var request := Passwd.User(step.target, names, hash);
      && names != [] && Passwd.UpdateSpec(w.passwd, request).Ok?
      && u.username == step.target && u.groups == names
      && u in StoredBy(w.passwd, request)
      && forall v <- StoredBy(w.passwd, request) :: v.username == u.username ==> v == u
    case _ => false
  }

  function StoredBy(passwd: string, request: Passwd.User): seq<Passwd.User> {
    Passwd.UpdatedUsers(Passwd.ParsedUsers(ScanText(passwd).lines), request)
  }

  lemma FoundOnceStored(w: World, step: Step, u: Passwd.User)
    requires step.Request? && Stores(w, step, u)
    ensures Found(Handle(w, step.target, step.obj).passwd, u.username) == Found(Passwd.Encode(u), u.username)
  {
    var lines := ScanText(w.passwd).lines;
    var users := Passwd.ParsedUsers(lines);
    ScannedLinesFit(w.passwd);
    ParsedOnALine(lines);
    if step.obj.CreateUserRequest? {
      forall v | v in users ensures v.username != u.username {
        assert v !in Passwd.Named(users, u.username);
      }
      FoundAmong(users + [u], u);
    } else {
      var request := Passwd.User(step.target, step.obj.roles, step.obj.hash);
      UpdatedFrom(users, request);
      FoundAmong(Passwd.UpdatedUsers(users, request), u);
    }
  }

  /** The groups of an entry as they come back from the file; none when it does not. */
  function ReadGroups(u: Passwd.User): seq<string> {
    var r := Found(Passwd.Encode(u), u.username);
    if r.Ok? then r.value.groups else []
  }

  lemma NextTokenOf(compile: Compiler, w: World, step: Step, u: Passwd.User)
    requires step.Request? && LetThrough(compile, w, step) && Stores(w, step, u)
    ensures LocalRoles(Next(compile, w, step), u.username) == FilterUserRolesByNames(w.roles, ReadGroups(u))
  {
    FoundOnceStored(w, step, u);
  }

  /** A deleted user is not found any more and has no roles; nothing changes when the file cannot be read to its end. */
  lemma DeletedUser(compile: Compiler, w: World, user: string)
    ensures var w' := Next(compile, w, DeleteUser(user));
      if ScanText(w.passwd).tooLong then w' == w
      else
        && w' == w.(passwd := w'.passwd)
        && Found(w'.passwd, user) == Err(Passwd.UserNotFound) && LocalRoles(w', user) == []
  {
    var lines := ScanText(w.passwd).lines;
    ScannedLinesFit(w.passwd);
    ParsedOnALine(lines);
    FoundAmong(Passwd.NotNamed(Passwd.ParsedUsers(lines), user), Passwd.User(user, [], ""));
  }

  // ---- when the next token is within the author's

  /** The names the cluster admits for a role, as a parameter. */
  ghost predicate AdmittedNames(admits: string -> bool, roles: seq<UserRole>) {
    UniqueNames(roles) && forall role <- roles :: admits(role.name)
  }

  ghost predicate Oversteps(compile: Compiler, admits: string -> bool, u: Passwd.User, w: World, step: Step,
                            a: Action) {
    && step.Request? && LetThrough(compile, w, step) && Stores(w, step, u) && AdmittedNames(admits, w.roles)
    && InScope(ListingAt(w, step.templates, step.rolesUp), a)
    && RolesGrant(compile, LocalRoles(Next(compile, w, step), u.username), a)
    && !RolesGrant(compile, w.tokens[step.token], a)
  }

  /** In no world does a request that was let through store the entry so that the user's next token permits an action in
      scope that its author's token does not. */
  ghost predicate WithinAuthor(compile: Compiler, admits: string -> bool, u: Passwd.User) {
    forall w, step, a :: !Oversteps(compile, admits, u, w, step, a)
  }

  /** A file read back that keeps the groups to those named keeps the token within the author's. */
  lemma {:induction false} NamedGroupsStayWithin(compile: Compiler, admits: string -> bool, u: Passwd.User, w: World,
                                                 step: Step, a: Action)
    requires forall g <- ReadGroups(u) :: admits(g) ==> g in u.groups
    ensures !Oversteps(compile, admits, u, w, step, a)
  {
    if Oversteps(compile, admits, u, w, step, a) {
      NextTokenOf(compile, w, step, u);
      var role :| role in FilterUserRolesByNames(w.roles, ReadGroups(u)) && RulesGrant(compile, role.rules, a);
      assert role in FilterUserRolesByNames(w.roles, step.obj.roles);
      NewUserHoldsNoMore(compile, w, step, a);
    }
  }

  /** What the author below lacks. */
  function Launch(): Action {
    Action("launch", RESOURCE_TEMPLATES, "", "")
  }

  function CreateUsers(): Action {
    Action(VERB_CREATE, RESOURCE_USERS, "", "")
  }

  /** The author may create users and nothing else. */
  function AuthorsToken(): seq<UserRole> {
    [UserRole("own", [Nameless(CreateUsers())])]
  }

  lemma AuthorMay(compile: Compiler)
    ensures RolesGrant(compile, AuthorsToken(), CreateUsers()) && !RolesGrant(compile, AuthorsToken(), Launch())
  {
    HolderMay(compile, AuthorsToken(), AuthorsToken()[0], CreateUsers());
  }

  function UserRequest(u: Passwd.User): Step {
    Request(0, "/api/users", "", CreateUserRequest(u.username, u.groups, u.passwordHash), None, true, true)
  }

  /** With no roles of those names, nothing stands against the request. */
  lemma UserRequestLetThrough(compile: Compiler, w: World, u: Passwd.User)
    requires Validated(compile, UserRequest(u).obj) && w.tokens != [] && w.tokens[0] == AuthorsToken()
    requires w.passwd == "" && forall name <- u.groups :: GetRoleByName(w.roles, name).None?
    ensures LetThrough(compile, w, UserRequest(u)) && Stores(w, UserRequest(u), u)
  {
    AuthorMay(compile);
  }

  lemma UnnamedGroupOversteps(compile: Compiler, admits: string -> bool, u: Passwd.User, g: string)
    requires Validated(compile, UserRequest(u).obj)
    requires g in ReadGroups(u) && admits(g) && g !in u.groups
    ensures !WithinAuthor(compile, admits, u)
  {
    var role := UserRole(g, [Nameless(Launch())]);
    var w := World([role], "", None, [AuthorsToken()]);
    UserRequestLetThrough(compile, w, u);
    NextTokenOf(compile, w, UserRequest(u), u);
    HolderMay(compile, FilterUserRolesByNames(w.roles, ReadGroups(u)), role, Launch());
    AuthorMay(compile);
    assert Oversteps(compile, admits, u, w, UserRequest(u), Launch());
  }

  /** The next token of a created or updated user stays within its author's, in every world, if and only if the file
      gives back no role name that the request did not have. */
  lemma NextTokenExactly(compile: Compiler, admits: string -> bool, u: Passwd.User)
    requires Validated(compile, UserRequest(u).obj)
    ensures WithinAuthor(compile, admits, u) <==> forall g <- ReadGroups(u) :: admits(g) ==> g in u.groups
  {
    if forall g <- ReadGroups(u) :: admits(g) ==> g in u.groups {
      forall w, step, a ensures !Oversteps(compile, admits, u, w, step, a) {
        NamedGroupsStayWithin(compile, admits, u, w, step, a);
      }
    } else {
      var g :| g in ReadGroups(u) && admits(g) && g !in u.groups;
      UnnamedGroupOversteps(compile, admits, u, g);
    }
  }

  // ---- names without colons and newlines

  predicate Plain(u: Passwd.User) {
    && ':' !in u.username && '\n' !in u.username && '\n' !in u.passwordHash
    && u.groups != [] && forall name <- u.groups :: ':' !in name && '\n' !in name
  }

  lemma PlainIsOneLine(u: Passwd.User)
    requires Plain(u)
    ensures '\n' !in Passwd.EncodeLine(u) && ':' !in Join(u.groups, ',')
  {
    JoinCharacters(u.groups, ',', ':');
    JoinCharacters(u.groups, ',', '\n');
  }

  /** They come back split at every comma, unless the line is too long to be read at all. */
  lemma PlainGroups(u: Passwd.User)
    requires Plain(u)
    ensures ReadGroups(u) == if |Passwd.EncodeLine(u)| <= MAX_LINE then Split(Join(u.groups, ','), ',') else []
  {
    PlainIsOneLine(u);
    var line := Passwd.EncodeLine(u);
    if |line| <= MAX_LINE {
      ReadAlone(u);
      var users := Passwd.ParsedUsers(ScanText(Passwd.Encode(u)).lines);
      assert users == [users[0]] && users[0] in users;
      assert users[0] in Passwd.Named(users, u.username);
      assert Passwd.Named(users, u.username)[0] in Passwd.Named(users, u.username);
    } else {
      assert Passwd.Encode(u) == line + ['\n'] + "";
      LineLengthIs(line, "");
    }
  }

  lemma PartsNamed(admits: string -> bool, names: seq<string>)
    requires names != []
    ensures (forall g <- Split(Join(names, ','), ',') :: admits(g) ==> g in names)
       <==> forall name, part | name in names && part in Split(name, ',') :: admits(part) ==> part in names
  {
    forall g ensures g in Split(Join(names, ','), ',') <==> exists name <- names :: g in Split(name, ',') {
      SplitOfJoin(names, ',', g);
    }
  }

  /** Then the next token stays within its author's if and only if every part between commas of every name, if it can
      be a role's name, is itself one of the names; or the line is too long. */
  lemma PlainNamesExactly(compile: Compiler, admits: string -> bool, u: Passwd.User)
    requires Plain(u) && Validated(compile, UserRequest(u).obj)
    ensures WithinAuthor(compile, admits, u)
       <==> || |Passwd.EncodeLine(u)| > MAX_LINE
            || forall name, part | name in u.groups && part in Split(name, ',') :: admits(part) ==> part in u.groups
  {
    NextTokenExactly(compile, admits, u);
    PlainGroups(u);
    PartsNamed(admits, u.groups);
  }

  /** One name with a comma is enough: what stands behind the comma is handed out although the author lacks it. */
  lemma CommaOversteps(compile: Compiler, admits: string -> bool, username: string, g: string, hash: string)
    requires username != "" && ':' !in username && '\n' !in username && hash != "" && '\n' !in hash
    requires admits(g) && ',' !in g && ':' !in g && '\n' !in g
    requires |username| + |g| + |hash| + 3 <= MAX_LINE
    ensures !WithinAuthor(compile, admits, Passwd.User(username, [[','] + g], hash))
  {
    var name := [','] + g;
    var u := Passwd.User(username, [name], hash);
    assert name in u.groups;
    SplitAtFirst("", ',', g);
    assert "" + [','] + g == name;
    SplitWithout(g, ',');
    assert Split(name, ',')[1] == g;
    PlainNamesExactly(compile, admits, u);
  }

  // ---- and the tokens after that

  /** Roles are changed and tokens issued, and users left alone. */
  ghost predicate LeavesUsers(admits: string -> bool, later: seq<Step>) {
    forall step <- later ::
      && !step.DeleteUser?
      && (step.Request? ==> !step.obj.CreateUserRequest? && !step.obj.UpdateUserRequest?)
      && (step.Request? && step.obj.CreateRoleRequest? ==> admits(step.obj.name))
  }

  ghost predicate OverstepsLater(compile: Compiler, admits: string -> bool, u: Passwd.User, w: World, step: Step,
                                 later: seq<Step>, a: Action) {
    && step.Request? && LetThrough(compile, w, step) && Stores(w, step, u) && AdmittedNames(admits, w.roles)
    && LeavesUsers(admits, later) && InScopeThroughout(compile, w, [step] + later, a)
    && RolesGrant(compile, LocalRoles(Run(compile, w, [step] + later), u.username), a)
    && !RolesGrant(compile, w.tokens[step.token], a)
  }

  ghost predicate AlwaysWithinAuthor(compile: Compiler, admits: string -> bool, u: Passwd.User) {
    forall w, step, later, a :: !OverstepsLater(compile, admits, u, w, step, later, a)
  }

  lemma RunFirst(compile: Compiler, w: World, step: Step, later: seq<Step>)
    ensures Run(compile, w, [step] + later) == Run(compile, Next(compile, w, step), later)
  {
    assert ([step] + later)[1..] == later;
  }

  ghost predicate Admitted(admits: string -> bool, roles: seq<UserRole>) {
    forall role <- roles :: admits(role.name)
  }

  lemma {:induction false} NextLeavesUsers(compile: Compiler, admits: string -> bool, w: World, step: Step)
    requires LeavesUsers(admits, [step]) && Admitted(admits, w.roles)
    ensures Next(compile, w, step).passwd == w.passwd && Admitted(admits, Next(compile, w, step).roles)
  {
    assert step in [step];
    if step.Request? && step.obj.UpdateRoleRequest? {
      forall role | role in WithRules(w.roles, step.target, step.obj.rules) ensures admits(role.name) {
        var i :| 0 <= i < |w.roles| && WithRules(w.roles, step.target, step.obj.rules)[i] == role;
        assert w.roles[i] in w.roles;
      }
    }
  }

  lemma {:induction false} RunLeavesUsers(compile: Compiler, admits: string -> bool, w: World, later: seq<Step>)
    requires LeavesUsers(admits, later) && Admitted(admits, w.roles)
    ensures Run(compile, w, later).passwd == w.passwd && Admitted(admits, Run(compile, w, later).roles)
    decreases |later|
  {
    if later != [] {
      assert later[0] in later && forall step <- later[1..] :: step in later;
      NextLeavesUsers(compile, admits, w, later[0]);
      RunLeavesUsers(compile, admits, Next(compile, w, later[0]), later[1..]);
    }
  }

  lemma NoRolesNamed(compile: Compiler, admits: string -> bool, roles: seq<UserRole>, names: seq<string>, a: Action)
    requires Admitted(admits, roles) && forall name <- names :: !admits(name)
    ensures !RolesGrant(compile, FilterUserRolesByNames(roles, names), a)
  {
  }

  lemma {:induction false} NoRoleNamesStayWithin(compile: Compiler, admits: string -> bool, u: Passwd.User, w: World,
                                                 step: Step, later: seq<Step>, a: Action)
    requires forall g <- ReadGroups(u) :: !admits(g)
    ensures !OverstepsLater(compile, admits, u, w, step, later, a)
  {
    if OverstepsLater(compile, admits, u, w, step, later, a) {
      RunFirst(compile, w, step, later);
      FoundOnceStored(w, step, u);
      RunLeavesUsers(compile, admits, Next(compile, w, step), later);
      NoRolesNamed(compile, admits, Run(compile, w, [step] + later).roles, ReadGroups(u), a);
    }
  }

  /** Whoever holds the permission, and may create roles, makes a role of that name afterwards. */
  function OthersToken(): seq<UserRole> {
    [UserRole("other", [Nameless(Launch()), Nameless(Action(VERB_CREATE, RESOURCE_ROLES, "", ""))])]
  }

  function RoleLater(g: string): Step {
    Request(1, "/api/roles", "", CreateRoleRequest(g, [Nameless(Launch())]), None, true, true)
  }

  lemma {:induction false} RoleLaterLetThrough(compile: Compiler, w: World, g: string)
    requires |w.tokens| == 2 && w.tokens[1] == OthersToken() && w.roles == [] && g != ""
    ensures LetThrough(compile, w, RoleLater(g))
    ensures Handle(w, "", RoleLater(g).obj) == w.(roles := [UserRole(g, [Nameless(Launch())])])
  {
    var token := OthersToken();
    var create := Action(VERB_CREATE, RESOURCE_ROLES, "", "");
    assert token[0].rules[1] == Nameless(create) && token[0].rules[0] == Nameless(Launch());
    HolderMay(compile, token, token[0], create);
    HeldIsIncluded(compile, token, token[0], Nameless(Launch()), ListingAt(w, None, true));
    LaunchRulesCompile(compile);
    assert w.roles + [UserRole(g, [Nameless(Launch())])] == [UserRole(g, [Nameless(Launch())])];
  }

  lemma LaunchRulesCompile(compile: Compiler)
    ensures PatternsCompile(compile, [Nameless(Launch())])
  {
  }

  lemma RoleLaterLeavesUsers(admits: string -> bool, g: string)
    requires admits(g)
    ensures LeavesUsers(admits, [RoleLater(g)])
  {
  }

  lemma HeldIsIncluded(compile: Compiler, token: seq<UserRole>, role: UserRole, rule: Rule, listing: Listing)
    requires role in token && rule in role.rules
    ensures RulesIncluded(compile, token, [rule], listing)
  {
    RuleIncludesMeans(compile, rule, rule, listing);
    assert SameRule(rule, rule);
    assert RoleIncludesRule(compile, role, rule, listing);
  }

  lemma {:induction false} RoleNameOverstepsLater(compile: Compiler, admits: string -> bool, u: Passwd.User, g: string)
    requires Validated(compile, UserRequest(u).obj)
    requires g in ReadGroups(u) && admits(g) && g != ""
    ensures !AlwaysWithinAuthor(compile, admits, u)
  {
    var w := World([], "", None, [AuthorsToken(), OthersToken()]);
    var step, later := UserRequest(u), [RoleLater(g)];
    UserRequestLetThrough(compile, w, u);
    RoleComesLater(compile, w, u, g);
    RoleLaterLeavesUsers(admits, g);
    AuthorMay(compile);
    NamelessThroughout(compile, w, [step] + later, Launch());
    assert OverstepsLater(compile, admits, u, w, step, later, Launch());
  }

  lemma {:induction false} RoleComesLater(compile: Compiler, w: World, u: Passwd.User, g: string)
    requires w == World([], "", None, [AuthorsToken(), OthersToken()]) && g in ReadGroups(u) && g != ""
    requires LetThrough(compile, w, UserRequest(u)) && Stores(w, UserRequest(u), u)
    ensures RolesGrant(compile, LocalRoles(Run(compile, w, [UserRequest(u)] + [RoleLater(g)]), u.username), Launch())
  {
    var role, between := UserRole(g, [Nameless(Launch())]), Next(compile, w, UserRequest(u));
    FoundOnceStored(w, UserRequest(u), u);
    RoleLaterLetThrough(compile, between, g);
    RunFirst(compile, w, UserRequest(u), [RoleLater(g)]);
    RunFirst(compile, between, RoleLater(g), []);
    assert [RoleLater(g)] + [] == [RoleLater(g)];
    HolderMay(compile, FilterUserRolesByNames([role], ReadGroups(u)), role, Launch());
  }

  lemma {:induction false} NamelessThroughout(compile: Compiler, w: World, steps: seq<Step>, a: Action)
    requires a.name == ""
    ensures InScopeThroughout(compile, w, steps, a)
    decreases |steps|
  {
    if steps != [] {
      NamelessThroughout(compile, Next(compile, w, steps[0]), steps[1..], a);
    }
  }

  /** All later tokens stay within the author's, while users are left alone, if and only if none of the groups read back
      can ever be a role's name: the author is not asked again when a role of that name comes or changes. No role's
      name is empty. */
  lemma LaterTokensExactly(compile: Compiler, admits: string -> bool, u: Passwd.User)
    requires Validated(compile, UserRequest(u).obj) && !admits("")
    ensures AlwaysWithinAuthor(compile, admits, u) <==> forall g <- ReadGroups(u) :: !admits(g)
  {
    if forall g <- ReadGroups(u) :: !admits(g) {
      forall w, step, later, a ensures !OverstepsLater(compile, admits, u, w, step, later, a) {
        NoRoleNamesStayWithin(compile, admits, u, w, step, later, a);
      }
    } else {
      var g :| g in ReadGroups(u) && admits(g);
      RoleNameOverstepsLater(compile, admits, u, g);
    }
  }
}
