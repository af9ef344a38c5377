/** The passwd file as a map from user names to accounts: every operation and every run of operations. */
module PasswdRefinement {
  import opened Wrappers
  import opened Text
  import opened Passwd

  /** A user that survives being written to the file and read back. */
  predicate WellFormed(u: User) {
    LineSafe(u) && Scannable(EncodeLine(u))
  }

  function EncodedLines(users: seq<User>): seq<string> {
    if users == [] then [] else [EncodeLine(users[0])] + EncodedLines(users[1..])
  }

  lemma {:induction false} EncodeAllIsWritten(users: seq<User>)
    ensures EncodeAll(users) == Written(EncodedLines(users))
  {
    if users != [] {
      EncodeAllIsWritten(users[1..]);
      assert EncodedLines(users)[1..] == EncodedLines(users[1..]);
    }
  }

  lemma EncodedLineParses(u: User)
    requires WellFormed(u)
    ensures EncodeLine(u) != "" && ParseUser(EncodeLine(u)) == Some(u) && Scannable(EncodeLine(u))
  {
    ParseEncode(u);
    assert EncodeLine(u)[|u.username|] == ':';
  }

  lemma {:induction false} ParsedEncodedLines(users: seq<User>)
    requires forall u <- users :: WellFormed(u)
    ensures ParsedUsers(EncodedLines(users)) == users
    ensures forall line <- EncodedLines(users) :: Scannable(line)
  {
    if users != [] {
      assert users[0] in users;
      ParsedEncodedLines(users[1..]);
      EncodedLineParses(users[0]);
      assert EncodedLines(users)[1..] == EncodedLines(users[1..]);
      assert users == [users[0]] + users[1..];
    }
  }

  /** The file reads back as the users it was written from. */
  lemma ReadBack(users: seq<User>)
    requires forall u <- users :: WellFormed(u)
    ensures !ScanText(EncodeAll(users)).tooLong
    ensures ParsedUsers(ScanText(EncodeAll(users)).lines) == users
  {
    EncodeAllIsWritten(users);
    ParsedEncodedLines(users);
    ScanWritten(EncodedLines(users));
  }

  lemma {:induction false} ParsedFromLine(lines: seq<string>, u: User)
    requires u in ParsedUsers(lines)
    ensures exists line <- lines :: ParseUser(line) == Some(u)
  {
    if lines[0] != "" && ParseUser(lines[0]) == Some(u) {
      assert lines[0] in lines;
    } else {
      ParsedFromLine(lines[1..], u);
    }
  }

  /** Well-formed users are exactly those that a file of their own brings back. */
  lemma ReadBackExactly(u: User)
    ensures ScanText(Encode(u)).tooLong || ParsedUsers(ScanText(Encode(u)).lines) != [u] <==> !WellFormed(u)
  {
    var line, scan := EncodeLine(u), ScanText(Encode(u));
    if WellFormed(u) {
      ReadBack([u]);
      assert EncodeAll([u]) == Encode(u) + EncodeAll([]);
    }
    if !scan.tooLong && ParsedUsers(scan.lines) == [u] {
      assert u in ParsedUsers(scan.lines);
      ParsedFromLine(scan.lines, u);
      var found :| found in scan.lines && ParseUser(found) == Some(u);
      EncodeParse(found);
      assert line == found;
      ParseEncode(u);
      LineLengthIs(line, "");
      assert line + ['\n'] + "" == Encode(u);
      assert |line| <= MAX_LINE;
      ScanLine(line, "");
      assert scan.lines == [WithoutCarriageReturn(line)];
    }
  }

  datatype Account = Account(groups: seq<string>, passwordHash: string)

  function Accounts(users: seq<User>): map<string, Account> {
    if users == [] then map[]
    else Accounts(users[1..])[users[0].username := Account(users[0].groups, users[0].passwordHash)]
  }

  function Names(users: seq<User>): seq<string> {
    if users == [] then [] else [users[0].username] + Names(users[1..])
  }

  ghost predicate Unique(users: seq<User>) {
    forall i, j :: 0 <= i < j < |users| ==> users[i].username != users[j].username
  }

  ghost predicate Valid(users: seq<User>) {
    Unique(users) && forall u <- users :: WellFormed(u)
  }

  datatype Op = Add(user: User) | Update(request: User) | Remove(username: string)

  /** The operation on the map, and whether it succeeds. */
  function Apply(accounts: map<string, Account>, op: Op): (map<string, Account>, bool) {
    match op
    case Add(u) =>
      if u.username in accounts then (accounts, false)
      else (accounts[u.username := Account(u.groups, u.passwordHash)], true)
    case Update(u) =>
      if u.username !in accounts then (accounts, false)
      else
        var old' := accounts[u.username];
        (accounts[u.username := Account(if u.groups == [] then old'.groups else u.groups,
                                        if u.passwordHash == "" then old'.passwordHash else u.passwordHash)], true)
    case Remove(username) => (accounts - {username}, true)
  }

  /** The operation on the order of names. */
  function Reordered(names: seq<string>, op: Op): seq<string> {
    match op
    case Add(u) => if u.username in names then names else names + [u.username]
    case Update(_) => names
    case Remove(username) => Without(names, username)
  }

  function Without(names: seq<string>, name: string): seq<string> {
    if names == [] then []
    else (if names[0] == name then [] else [names[0]]) + Without(names[1..], name)
  }

  /** The operation on the file, which a failure leaves as it was. */
  function ApplyToFile(file: string, op: Op): (string, bool) {
    var r := match op
      case Add(u) => AddSpec(file, u)
      case Update(u) => UpdateSpec(file, u)
      case Remove(username) => DeleteSpec(file, username);
    if r.Ok? then (r.value, true) else (file, false)
  }

  /** What the operation writes can be read back. */
  ghost predicate Writes(accounts: map<string, Account>, op: Op) {
    match op
    case Add(u) => u.username !in accounts ==> WellFormed(u)
    case Update(u) => u.username in accounts ==>
      WellFormed(Merged(u, User(u.username, accounts[u.username].groups, accounts[u.username].passwordHash)))
    case Remove(_) => true
  }

  lemma {:induction false} AccountsAre(users: seq<User>)
    requires Unique(users)
    ensures forall u <- users ::
      u.username in Accounts(users) && Accounts(users)[u.username] == Account(u.groups, u.passwordHash)
    ensures forall name <- Accounts(users) :: exists u <- users :: u.username == name
    ensures forall name :: name in Names(users) <==> name in Accounts(users)
  {
    if users != [] {
      AccountsAre(users[1..]);
      forall u | u in users
        ensures u.username in Accounts(users) && Accounts(users)[u.username] == Account(u.groups, u.passwordHash)
      {
        var i :| 0 <= i < |users| && users[i] == u;
        if i > 0 {
          assert users[1..][i - 1] == u;
        }
      }
      forall name | name in Accounts(users) ensures exists u <- users :: u.username == name {
        if name == users[0].username {
          assert users[0] in users;
        } else {
          var u :| u in users[1..] && u.username == name;
          assert u in users;
        }
      }
    }
  }

  /** Lists that hold the same accounts give the same map. */
  lemma SameAccounts(users: seq<User>, accounts: map<string, Account>)
    requires Unique(users)
    requires forall u <- users :: u.username in accounts && accounts[u.username] == Account(u.groups, u.passwordHash)
    requires forall name <- accounts :: exists u <- users :: u.username == name
    ensures Accounts(users) == accounts
  {
    AccountsAre(users);
  }

  lemma {:induction false} NamesAppend(users: seq<User>, u: User)
    ensures Names(users + [u]) == Names(users) + [u.username]
  {
    if users == [] {
      assert users + [u] == [u];
    } else {
      assert (users + [u])[1..] == users[1..] + [u];
      NamesAppend(users[1..], u);
    }
  }

  lemma AddRefines(users: seq<User>, u: User)
    requires Valid(users) && WellFormed(u) && Named(users, u.username) == []
    ensures Valid(users + [u])
    ensures Accounts(users + [u]) == Accounts(users)[u.username := Account(u.groups, u.passwordHash)]
    ensures Names(users + [u]) == Names(users) + [u.username]
  {
    var users' := users + [u];
    forall v | v in users ensures v.username != u.username {
      assert v !in Named(users, u.username);
    }
    AccountsAre(users);
    NamesAppend(users, u);
    var accounts := Accounts(users)[u.username := Account(u.groups, u.passwordHash)];
    forall name | name in accounts ensures exists v <- users' :: v.username == name {
      if name == u.username {
        assert u in users';
      } else {
        var v :| v in users && v.username == name;
        assert v in users';
      }
    }
    SameAccounts(users', accounts);
  }

  lemma UniqueTail(users: seq<User>)
    requires Unique(users) && users != []
    ensures Unique(users[1..]) && forall u <- users[1..] :: u.username != users[0].username
  {
    forall u | u in users[1..] ensures u.username != users[0].username {
      var i :| 0 <= i < |users[1..]| && users[1..][i] == u;
      assert users[i + 1] == u;
    }
  }

  lemma UniqueCons(u: User, users: seq<User>)
    requires Unique(users) && forall v <- users :: v.username != u.username
    ensures Unique([u] + users)
  {
  }

  lemma {:induction false} NotNamedUnique(users: seq<User>, username: string)
    requires Unique(users)
    ensures Unique(NotNamed(users, username))
  {
    if users != [] {
      UniqueTail(users);
      NotNamedUnique(users[1..], username);
      UniqueCons(users[0], NotNamed(users[1..], username));
      assert [] + NotNamed(users[1..], username) == NotNamed(users[1..], username);
    }
  }

  lemma {:induction false} NotNamedNames(users: seq<User>, username: string)
    ensures Names(NotNamed(users, username)) == Without(Names(users), username)
  {
    if users != [] {
      NotNamedNames(users[1..], username);
      var rest := NotNamed(users[1..], username);
      assert ([users[0]] + rest)[1..] == rest;
      assert [] + rest == rest;
    }
  }

  lemma RemoveRefines(users: seq<User>, username: string)
    requires Valid(users)
    ensures Valid(NotNamed(users, username))
    ensures Accounts(NotNamed(users, username)) == Accounts(users) - {username}
    ensures Names(NotNamed(users, username)) == Without(Names(users), username)
  {
    NotNamedUnique(users, username);
    NotNamedNames(users, username);
    AccountsAre(users);
    forall name | name in Accounts(users) - {username}
      ensures exists v <- NotNamed(users, username) :: v.username == name
    {
      var v :| v in users && v.username == name;
      assert v in NotNamed(users, username);
    }
    SameAccounts(NotNamed(users, username), Accounts(users) - {username});
  }

  lemma {:induction false} UpdateMisses(users: seq<User>, request: User)
    requires forall u <- users :: u.username != request.username
    ensures UpdatedUsers(users, request) == users
  {
    if users != [] {
      UpdateMisses(users[1..], request);
      assert users == [users[0]] + users[1..];
    }
  }

  /** Among unique names an update replaces one entry. */
  lemma {:induction false} UpdateHits(users: seq<User>, request: User, i: nat)
    requires Unique(users) && i < |users| && users[i].username == request.username
    ensures UpdatedUsers(users, request) == users[i := Merged(request, users[i])]
  {
    if i == 0 {
      UniqueTail(users);
      UpdateMisses(users[1..], Merged(request, users[0]));
    } else {
      UpdateHits(users[1..], request, i - 1);
    }
  }

  lemma {:induction false} NamesAt(users: seq<User>)
    ensures |Names(users)| == |users|
    ensures forall i :: 0 <= i < |users| ==> Names(users)[i] == users[i].username
  {
    if users != [] {
      NamesAt(users[1..]);
    }
  }

  lemma NamedMeansAccount(users: seq<User>, name: string)
    requires Unique(users)
    ensures name in Accounts(users) <==> Named(users, name) != []
    ensures name in Names(users) <==> name in Accounts(users)
    ensures name in Accounts(users) ==>
      Named(users, name)[0] == User(name, Accounts(users)[name].groups, Accounts(users)[name].passwordHash)
  {
    AccountsAre(users);
    if name in Accounts(users) {
      var u :| u in users && u.username == name;
      assert u in Named(users, name);
      assert Named(users, name)[0] in Named(users, name);
    }
    if Named(users, name) != [] {
      assert Named(users, name)[0] in Named(users, name);
    }
  }

  lemma ReplaceAccount(users: seq<User>, i: nat, u: User)
    requires Unique(users) && i < |users| && users[i].username == u.username
    ensures Unique(users[i := u]) && Names(users[i := u]) == Names(users)
    ensures Accounts(users[i := u]) == Accounts(users)[u.username := Account(u.groups, u.passwordHash)]
  {
    var users' := users[i := u];
    var accounts := Accounts(users)[u.username := Account(u.groups, u.passwordHash)];
    AccountsAre(users);
    forall v | v in users' ensures v.username in accounts && accounts[v.username] == Account(v.groups, v.passwordHash) {
      var j :| 0 <= j < |users'| && users'[j] == v;
      if j != i {
        assert users[j] in users;
      }
    }
    forall name | name in accounts ensures exists v <- users' :: v.username == name {
      assert users[i] in users;
      var v :| v in users && v.username == name;
      var j :| 0 <= j < |users| && users[j] == v;
      assert users'[j] in users';
    }
    SameAccounts(users', accounts);
    NamesAt(users);
    NamesAt(users');
  }

  lemma UpdateRefines(users: seq<User>, request: User)
    requires Valid(users) && Named(users, request.username) != []
    requires Writes(Accounts(users), Update(request))
    ensures Valid(UpdatedUsers(users, request))
    ensures (Accounts(UpdatedUsers(users, request)), true) == Apply(Accounts(users), Update(request))
    ensures Names(UpdatedUsers(users, request)) == Names(users)
  {
    var name := request.username;
    NamedMeansAccount(users, name);
    var user := User(name, Accounts(users)[name].groups, Accounts(users)[name].passwordHash);
    assert user in Named(users, name);
    var i :| 0 <= i < |users| && users[i] == user;
    UpdateHits(users, request, i);
    ReplaceAccount(users, i, Merged(request, user));
  }

  /** Each operation on the file does to the accounts what the map operation does, and to their order no more
      than that. */
  lemma StepRefines(users: seq<User>, op: Op) returns (users': seq<User>)
    requires Valid(users) && Writes(Accounts(users), op)
    ensures Valid(users')
    ensures ApplyToFile(EncodeAll(users), op) == (EncodeAll(users'), Apply(Accounts(users), op).1)
    ensures Accounts(users') == Apply(Accounts(users), op).0
    ensures Names(users') == Reordered(Names(users), op)
  {
    ReadBack(users);
    match op
    case Add(u) =>
      NamedMeansAccount(users, u.username);
      if Named(users, u.username) == [] {
        users' := users + [u];
        AddRefines(users, u);
      } else {
        users' := users;
      }
    case Update(u) =>
      NamedMeansAccount(users, u.username);
      if Named(users, u.username) != [] {
        users' := UpdatedUsers(users, u);
        UpdateRefines(users, u);
      } else {
        users' := users;
      }
    case Remove(username) =>
      users' := NotNamed(users, username);
      RemoveRefines(users, username);
  }

  function RunOnFile(file: string, ops: seq<Op>): (string, seq<bool>)
    decreases |ops|
  {
    if ops == [] then (file, [])
    else
      var (file', ok) := ApplyToFile(file, ops[0]);
      var (end, oks) := RunOnFile(file', ops[1..]);
      (end, [ok] + oks)
  }

  function RunOnMap(accounts: map<string, Account>, ops: seq<Op>): (map<string, Account>, seq<bool>)
    decreases |ops|
  {
    if ops == [] then (accounts, [])
    else
      var (accounts', ok) := Apply(accounts, ops[0]);
      var (end, oks) := RunOnMap(accounts', ops[1..]);
      (end, [ok] + oks)
  }

  function OrderAfter(names: seq<string>, ops: seq<Op>): seq<string>
    decreases |ops|
  {
    if ops == [] then names else OrderAfter(Reordered(names, ops[0]), ops[1..])
  }

  ghost predicate AllWrite(accounts: map<string, Account>, ops: seq<Op>)
    decreases |ops|
  {
    ops == [] || (Writes(accounts, ops[0]) && AllWrite(Apply(accounts, ops[0]).0, ops[1..]))
  }

  /** Any run of operations on the file refines the same run on the map, outcome by outcome and in the same order. */
  lemma {:induction false} RunRefines(users: seq<User>, ops: seq<Op>) returns (users': seq<User>)
    requires Valid(users) && AllWrite(Accounts(users), ops)
    ensures Valid(users')
    ensures RunOnFile(EncodeAll(users), ops) == (EncodeAll(users'), RunOnMap(Accounts(users), ops).1)
    ensures Accounts(users') == RunOnMap(Accounts(users), ops).0
    ensures Names(users') == OrderAfter(Names(users), ops)
    decreases |ops|
  {
    if ops == [] {
      users' := users;
    } else {
      var next := StepRefines(users, ops[0]);
      users' := RunRefines(next, ops[1..]);
    }
  }

  function Lookup(accounts: map<string, Account>, name: string): Result<User, PasswdError> {
    if name in accounts then Ok(User(name, accounts[name].groups, accounts[name].passwordHash)) else Err(UserNotFound)
  }

  /** After any run, looking a user up in the file is looking it up in the map. */
  lemma LookupAfterRun(users: seq<User>, ops: seq<Op>, name: string)
    requires Valid(users) && AllWrite(Accounts(users), ops)
    ensures GetSpec(RunOnFile(EncodeAll(users), ops).0, name) == Lookup(RunOnMap(Accounts(users), ops).0, name)
  {
    var users' := RunRefines(users, ops);
    ReadBack(users');
    NamedMeansAccount(users', name);
  }
}
