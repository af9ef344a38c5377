/** The local passwd file: pkg/auth/providers/local/types.go and passwd_util.go. */
module Passwd {
  import opened Wrappers
  import opened Text

  datatype User = User(username: string, groups: seq<string>, passwordHash: string)

  /** Encode without its newline. */
  function EncodeLine(u: User): string {
    u.username + [':'] + Join(u.groups, ',') + [':'] + u.passwordHash
  }

  function Encode(u: User): string {
    EncodeLine(u) + ['\n']
  }

  function ParseUser(text: string): Option<User> {
    var fields := Split(text, ':');
    if |fields| < 3 then None
    else Some(User(fields[0], Split(fields[1], ','), Join(fields[2..], ':')))
  }

  /** The fields that come back from a line as they went in. */
  predicate LineSafe(u: User) {
    && ':' !in u.username
    && u.groups != [] && (forall g <- u.groups :: ',' !in g && ':' !in g)
  }

  /** Whatever line parses is the encoding of what it parses to. */
  lemma EncodeParse(text: string)
    requires ParseUser(text).Some?
    ensures EncodeLine(ParseUser(text).value) == text
  {
    var fields := Split(text, ':');
    JoinSplit(text, ':');
    JoinSplit(fields[1], ',');
    assert fields[1..][1..] == fields[2..];
    assert Join(fields, ':') == fields[0] + [':'] + Join(fields[1..], ':');
    assert Join(fields[1..], ':') == fields[1] + [':'] + Join(fields[2..], ':');
  }

  /** Parsing undoes encoding for exactly the users whose name and groups stay clear of the separators. */
  lemma ParseEncode(u: User)
    ensures ParseUser(EncodeLine(u)) == Some(u) <==> LineSafe(u)
  {
    var groups := Join(u.groups, ',');
    JoinCharacters(u.groups, ',', ':');
    if LineSafe(u) {
      ParseParts(u.username, groups, u.passwordHash);
      SplitJoin(u.groups, ',');
    }
    if ParseUser(EncodeLine(u)) == Some(u) {
      var fields := Split(EncodeLine(u), ':');
      assert fields[0] in fields && fields[1] in fields;
      JoinSplit(fields[1], ',');
    }
  }

  /** What a line parses to: the first two fields, the second split up, and all the rest. */
  lemma ParseParts(username: string, groups: string, rest: string)
    requires ':' !in username && ':' !in groups
    ensures ParseUser(username + [':'] + groups + [':'] + rest) == Some(User(username, Split(groups, ','), rest))
  {
    SplitParts(username, groups, rest);
    var fields := [username] + ([groups] + Split(rest, ':'));
    assert fields[2..] == Split(rest, ':');
    JoinSplit(rest, ':');
  }

  lemma SplitParts(username: string, groups: string, rest: string)
    requires ':' !in username && ':' !in groups
    ensures Split(username + [':'] + groups + [':'] + rest, ':') == [username] + ([groups] + Split(rest, ':'))
  {
    var behind := groups + [':'] + rest;
    SplitAtFirst(username, ':', behind);
    SplitAtFirst(groups, ':', rest);
    assert username + [':'] + groups + [':'] + rest == username + [':'] + behind;
  }

  /** The users on the lines that hold one. */
  function ParsedUsers(lines: seq<string>): seq<User> {
    if lines == [] then []
    else
      var first := if lines[0] != "" && ParseUser(lines[0]).Some? then [ParseUser(lines[0]).value] else [];
      first + ParsedUsers(lines[1..])
  }

  lemma {:induction false} ParsedUsersAppend(a: seq<string>, b: seq<string>)
    ensures ParsedUsers(a + b) == ParsedUsers(a) + ParsedUsers(b)
  {
    if a == [] {
      assert a + b == b;
    } else {
      assert (a + b)[1..] == a[1..] + b;
      ParsedUsersAppend(a[1..], b);
    }
  }

  function EncodeAll(users: seq<User>): string {
    if users == [] then "" else Encode(users[0]) + EncodeAll(users[1..])
  }

  lemma {:induction false} EncodeAllAppend(a: seq<User>, b: seq<User>)
    ensures EncodeAll(a + b) == EncodeAll(a) + EncodeAll(b)
  {
    if a == [] {
      assert a + b == b;
    } else {
      assert (a + b)[1..] == a[1..] + b;
      EncodeAllAppend(a[1..], b);
    }
  }

  /** One user more at the end of the buffer. */
  lemma EncodeOneMore(users: seq<User>, u: User)
    ensures EncodeAll(users + [u]) == EncodeAll(users) + Encode(u)
  {
    EncodeAllAppend(users, [u]);
    assert EncodeAll([u]) == Encode(u) + EncodeAll([]);
  }

  datatype PasswdError = UserExists | UserNotFound | ScannerError

  function Named(users: seq<User>, username: string): (r: seq<User>)
    ensures forall u :: u in r <==> u in users && u.username == username
  {
    if users == [] then []
    else (if users[0].username == username then [users[0]] else []) + Named(users[1..], username)
  }

  function NotNamed(users: seq<User>, username: string): (r: seq<User>)
    ensures forall u :: u in r <==> u in users && u.username != username
  {
    if users == [] then []
    else (if users[0].username == username then [] else [users[0]]) + NotNamed(users[1..], username)
  }

  lemma {:induction false} NotNamedAppend(a: seq<User>, b: seq<User>, username: string)
    ensures NotNamed(a + b, username) == NotNamed(a, username) + NotNamed(b, username)
  {
    if a == [] {
      assert a + b == b;
    } else {
      assert (a + b)[1..] == a[1..] + b;
      NotNamedAppend(a[1..], b, username);
    }
  }

  /** The request's fields, those left empty taken from the user on file. */
  function Merged(updated: User, user: User): User {
    User(updated.username,
         if updated.groups == [] then user.groups else updated.groups,
         if updated.passwordHash == "" then user.passwordHash else updated.passwordHash)
  }

  /** The users after an update. The request object itself is filled in by the first match. */
  function UpdatedUsers(users: seq<User>, updated: User): seq<User> {
    if users == [] then []
    else if users[0].username == updated.username then
      [Merged(updated, users[0])] + UpdatedUsers(users[1..], Merged(updated, users[0]))
    else [users[0]] + UpdatedUsers(users[1..], updated)
  }

  function Filled(users: seq<User>, updated: User): User {
    if users == [] then updated
    else Filled(users[1..], if users[0].username == updated.username then Merged(updated, users[0]) else updated)
  }

  lemma {:induction false} UpdatedUsersAppend(a: seq<User>, u: User, updated: User)
    ensures Filled(a, updated).username == updated.username
    ensures Filled(a + [u], updated)
         == if u.username == updated.username then Merged(Filled(a, updated), u) else Filled(a, updated)
    ensures UpdatedUsers(a + [u], updated) == UpdatedUsers(a, updated)
            + [if u.username == updated.username then Merged(Filled(a, updated), u) else u]
  {
    if a == [] {
      assert a + [u] == [u];
    } else {
      assert (a + [u])[1..] == a[1..] + [u];
      UpdatedUsersAppend(a[1..], u, if a[0].username == updated.username then Merged(updated, a[0]) else updated);
    }
  }

  function AddSpec(file: string, newUser: User): Result<string, PasswdError> {
    var scan := ScanText(file);
    var users := ParsedUsers(scan.lines);
    if Named(users, newUser.username) != [] then Err(UserExists)
    else if scan.tooLong then Err(ScannerError)
    else Ok(EncodeAll(users + [newUser]))
  }

  function UpdateSpec(file: string, updated: User): Result<string, PasswdError> {
    var scan := ScanText(file);
    var users := ParsedUsers(scan.lines);
    if scan.tooLong then Err(ScannerError)
    else if Named(users, updated.username) == [] then Err(UserNotFound)
    else Ok(EncodeAll(UpdatedUsers(users, updated)))
  }

  function DeleteSpec(file: string, username: string): Result<string, PasswdError> {
    var scan := ScanText(file);
    if scan.tooLong then Err(ScannerError) else Ok(EncodeAll(NotNamed(ParsedUsers(scan.lines), username)))
  }

  function GetSpec(file: string, username: string): Result<User, PasswdError> {
    var scan := ScanText(file);
    var found := Named(ParsedUsers(scan.lines), username);
    if found != [] then Ok(found[0])
    else if scan.tooLong then Err(ScannerError)
    else Err(UserNotFound)
  }

  /** The next line of a scan, and what it adds to the users seen. */
  lemma OneLineMore(lines: seq<string>, i: nat)
    requires i < |lines|
    ensures lines[i] == "" || ParseUser(lines[i]).None? ==> ParsedUsers(lines[..i + 1]) == ParsedUsers(lines[..i])
    ensures lines[i] != "" && ParseUser(lines[i]).Some?
        ==> ParsedUsers(lines[..i + 1]) == ParsedUsers(lines[..i]) + [ParseUser(lines[i]).value]
  {
    assert lines[..i + 1] == lines[..i] + [lines[i]];
    ParsedUsersAppend(lines[..i], [lines[i]]);
    assert ParsedUsers([lines[i]]) ==
      (if lines[i] != "" && ParseUser(lines[i]).Some? then [ParseUser(lines[i]).value] else []) + ParsedUsers([]);
  }

  lemma {:induction false} PrefixParsed(lines: seq<string>, i: nat)
    requires i <= |lines|
    ensures ParsedUsers(lines[..i]) <= ParsedUsers(lines)
  {
    ParsedUsersAppend(lines[..i], lines[i..]);
    assert lines[..i] + lines[i..] == lines;
  }

  method AddUserToBuffer(file: string, newUser: User) returns (r: Result<string, PasswdError>)
    ensures r == AddSpec(file, newUser)
  {
    var buf := "";
    var scan := ScanText(file);
    for i := 0 to |scan.lines|
      invariant buf == EncodeAll(ParsedUsers(scan.lines[..i]))
      invariant Named(ParsedUsers(scan.lines[..i]), newUser.username) == []
    {
      OneLineMore(scan.lines, i);
      ghost var seen := ParsedUsers(scan.lines[..i]);
      var text := scan.lines[i];
      if text == "" {
        continue;
      }
      var user := ParseUser(text);
      if user.None? {
        continue;
      }
      if user.value.username == newUser.username {
        PrefixParsed(scan.lines, i + 1);
        assert user.value in ParsedUsers(scan.lines[..i + 1]);
        assert user.value in ParsedUsers(scan.lines);
        assert user.value in Named(ParsedUsers(scan.lines), newUser.username);
        return Err(UserExists);
      }
      EncodeOneMore(seen, user.value);
      NamedNone(ParsedUsers(scan.lines[..i + 1]), newUser.username);
      buf := buf + Encode(user.value);
    }
    assert scan.lines[..|scan.lines|] == scan.lines;
    if scan.tooLong {
      return Err(ScannerError);
    }
    EncodeOneMore(ParsedUsers(scan.lines), newUser);
    return Ok(buf + Encode(newUser));
  }

  lemma NamedNone(users: seq<User>, username: string)
    requires forall u <- users :: u.username != username
    ensures Named(users, username) == []
  {
    if Named(users, username) != [] {
      assert Named(users, username)[0] in Named(users, username);
    }
  }

  method GetAllUsersFromBuffer(file: string) returns (r: Result<seq<User>, PasswdError>)
    ensures r == if ScanText(file).tooLong then Err(ScannerError) else Ok(ParsedUsers(ScanText(file).lines))
  {
    var scan := ScanText(file);
    var out := [];
    for i := 0 to |scan.lines|
      invariant out == ParsedUsers(scan.lines[..i])
    {
      OneLineMore(scan.lines, i);
      ghost var seen := ParsedUsers(scan.lines[..i]);
      var text := scan.lines[i];
      if text == "" {
        continue;
      }
      var user := ParseUser(text);
      if user.Some? {
        out := out + [user.value];
      }
    }
    assert scan.lines[..|scan.lines|] == scan.lines;
    r := if scan.tooLong then Err(ScannerError) else Ok(out);
  }

  lemma {:induction false} NamedAppend(a: seq<User>, b: seq<User>, username: string)
    ensures Named(a + b, username) == Named(a, username) + Named(b, username)
  {
    if a == [] {
      assert a + b == b;
    } else {
      assert (a + b)[1..] == a[1..] + b;
      NamedAppend(a[1..], b, username);
    }
  }

  method GetUserFromBuffer(file: string, username: string) returns (r: Result<User, PasswdError>)
    ensures r == GetSpec(file, username)
  {
    var scan := ScanText(file);
    for i := 0 to |scan.lines|
      invariant Named(ParsedUsers(scan.lines[..i]), username) == []
    {
      OneLineMore(scan.lines, i);
      ghost var seen := ParsedUsers(scan.lines[..i]);
      var text := scan.lines[i];
      if text == "" {
        continue;
      }
      var user := ParseUser(text);
      if user.None? {
        continue;
      }
      NamedAppend(seen, [user.value], username);
      if user.value.username == username {
        ParsedUsersAppend(scan.lines[..i + 1], scan.lines[i + 1..]);
        assert scan.lines[..i + 1] + scan.lines[i + 1..] == scan.lines;
        NamedAppend(ParsedUsers(scan.lines[..i + 1]), ParsedUsers(scan.lines[i + 1..]), username);
        return Ok(user.value);
      }
    }
    assert scan.lines[..|scan.lines|] == scan.lines;
    if scan.tooLong {
      return Err(ScannerError);
    }
    return Err(UserNotFound);
  }

  lemma UpdateOneMore(seen: seq<User>, user: User, request: User)
    ensures var filled := Merged(Filled(seen, request), user);
      if user.username == request.username then
        && Filled(seen + [user], request) == filled
        && EncodeAll(UpdatedUsers(seen + [user], request)) == EncodeAll(UpdatedUsers(seen, request)) + Encode(filled)
        && Named(seen + [user], request.username) != []
      else
        && Filled(seen + [user], request) == Filled(seen, request)
        && EncodeAll(UpdatedUsers(seen + [user], request)) == EncodeAll(UpdatedUsers(seen, request)) + Encode(user)
        && Named(seen + [user], request.username) == Named(seen, request.username)
  {
    UpdatedUsersAppend(seen, user, request);
    NamedAppend(seen, [user], request.username);
    EncodeOneMore(UpdatedUsers(seen, request), user);
    EncodeOneMore(UpdatedUsers(seen, request), Merged(Filled(seen, request), user));
  }

  /** filled is the caller's request object afterwards. */
  method UpdateUserInBuffer(file: string, request: User) returns (r: Result<string, PasswdError>, filled: User)
    ensures r == UpdateSpec(file, request)
    ensures filled == Filled(ParsedUsers(ScanText(file).lines), request)
  {
    var buf := "";
    var updatedUser := false;
    var updated := request;
    var scan := ScanText(file);
    for i := 0 to |scan.lines|
      invariant buf == EncodeAll(UpdatedUsers(ParsedUsers(scan.lines[..i]), request))
      invariant updated == Filled(ParsedUsers(scan.lines[..i]), request)
      invariant updated.username == request.username
      invariant updatedUser <==> Named(ParsedUsers(scan.lines[..i]), request.username) != []
    {
      OneLineMore(scan.lines, i);
      ghost var seen := ParsedUsers(scan.lines[..i]);
      var text := scan.lines[i];
      if text == "" {
        continue;
      }
      var parsed := ParseUser(text);
      if parsed.None? {
        continue;
      }
      var user := parsed.value;
      UpdateOneMore(seen, user, request);
      if user.username == updated.username {
        if |updated.groups| == 0 {
          updated := updated.(groups := user.groups);
        }
        if updated.passwordHash == "" {
          updated := updated.(passwordHash := user.passwordHash);
        }
        buf := buf + Encode(updated);
        updatedUser := true;
        continue;
      }
      buf := buf + Encode(user);
    }
    assert scan.lines[..|scan.lines|] == scan.lines;
    filled := updated;
    if scan.tooLong {
      r := Err(ScannerError);
    } else if !updatedUser {
      r := Err(UserNotFound);
    } else {
      r := Ok(buf);
    }
  }

  lemma DeleteOneMore(users: seq<User>, u: User, username: string)
    ensures EncodeAll(NotNamed(users + [u], username))
         == if u.username == username then EncodeAll(NotNamed(users, username))
            else EncodeAll(NotNamed(users, username)) + Encode(u)
  {
    NotNamedAppend(users, [u], username);
    assert NotNamed([u], username) == if u.username == username then [] else [u];
    if u.username != username {
      EncodeOneMore(NotNamed(users, username), u);
    } else {
      assert NotNamed(users, username) + [] == NotNamed(users, username);
    }
  }

  method DeleteUserInBuffer(file: string, username: string) returns (r: Result<string, PasswdError>)
    ensures r == DeleteSpec(file, username)
  {
    var buf := "";
    var scan := ScanText(file);
    for i := 0 to |scan.lines|
      invariant buf == EncodeAll(NotNamed(ParsedUsers(scan.lines[..i]), username))
    {
      OneLineMore(scan.lines, i);
      ghost var seen := ParsedUsers(scan.lines[..i]);
      var text := scan.lines[i];
      if text == "" {
        continue;
      }
      var user := ParseUser(text);
      if user.None? {
        continue;
      }
      DeleteOneMore(seen, user.value, username);
      if user.value.username != username {
        buf := buf + Encode(user.value);
      }
    }
    assert scan.lines[..|scan.lines|] == scan.lines;
    r := if scan.tooLong then Err(ScannerError) else Ok(buf);
  }
}
