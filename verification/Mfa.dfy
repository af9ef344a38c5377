/** The OTP secrets of all users in one text: pkg/auth/mfa/mfa.go. */
module Mfa {
  import opened Wrappers
  import opened Text

  datatype MfaError = UserNotFound | Malformed | ScannerError

  /** strconv.ParseBool, with its error read as false. */
  predicate ParseBool(bs: string) {
    bs in {"1", "t", "T", "TRUE", "true", "True"}
  }

  function FormatBool(b: bool): string {
    if b then "true" else "false"
  }

  function Line(name: string, secret: string, verified: bool): string {
    name + [':'] + secret + [':'] + FormatBool(verified)
  }

  predicate HasPrefix(text: string, prefix: string) {
    prefix <= text
  }

  /** The first line that is not blank and begins with the name. */
  function FirstMatch(lines: seq<string>, name: string): Option<string> {
    if lines == [] then None
    else if lines[0] != "" && HasPrefix(lines[0], name) then Some(lines[0])
    else FirstMatch(lines[1..], name)
  }

  /** The lines that are not blank, every one that begins with the name giving way to the new line. */
  function Rewritten(lines: seq<string>, name: string, line: string): seq<string> {
    if lines == [] then []
    else
      var first := if lines[0] == "" then [] else if HasPrefix(lines[0], name) then [line] else [lines[0]];
      first + Rewritten(lines[1..], name, line)
  }

  /** The lines that are not blank and do not begin with the name. */
  function Kept(lines: seq<string>, name: string): seq<string> {
    if lines == [] then []
    else (if lines[0] == "" || HasPrefix(lines[0], name) then [] else [lines[0]]) + Kept(lines[1..], name)
  }

  /** Which lines a deletion keeps, and which an update leaves or brings in; blank ones go either way. */
  lemma {:induction false} LinesKept(lines: seq<string>, name: string, x: string)
    ensures x in Kept(lines, name) <==> x in lines && x != "" && !(name <= x)
  {
    if lines != [] {
      LinesKept(lines[1..], name, x);
      assert lines == [lines[0]] + lines[1..];
    }
  }

  predicate Begun(lines: seq<string>, name: string) {
    exists y <- lines :: y != "" && name <= y
  }

  lemma BegunByFirstOrRest(lines: seq<string>, name: string)
    requires lines != []
    ensures Begun(lines, name) <==> (lines[0] != "" && name <= lines[0]) || Begun(lines[1..], name)
  {
    if Begun(lines, name) {
      var y :| y in lines && y != "" && name <= y;
      assert y == lines[0] || y in lines[1..];
    }
    if Begun(lines[1..], name) {
      var y :| y in lines[1..] && y != "" && name <= y;
      assert y in lines;
    }
    assert lines[0] in lines;
  }

  lemma {:induction false} LinesUpdated(lines: seq<string>, name: string, line: string, x: string)
    ensures x in Rewritten(lines, name, line)
       <==> || (x in lines && x != "" && !(name <= x))
            || (x == line && Begun(lines, name))
  {
    if lines != [] {
      LinesUpdated(lines[1..], name, line, x);
      assert lines == [lines[0]] + lines[1..];
      BegunByFirstOrRest(lines, name);
    }
  }

  /** Name and verification of every line that holds them; a later line wins. */
  function VerifiedByName(lines: seq<string>): map<string, bool> {
    if lines == [] then map[]
    else
      var last := lines[|lines| - 1];
      var before := VerifiedByName(lines[..|lines| - 1]);
      if last == "" || |Split(last, ':')| < 3 then before
      else before[Split(last, ':')[0] := ParseBool(Split(last, ':')[2])]
  }

  function StatusOf(line: string): Result<(string, bool), MfaError> {
    var fields := Split(line, ':');
    if |fields| < 3 then Err(Malformed) else Ok((fields[1], ParseBool(fields[2])))
  }

  function StatusSpec(name: string, text: string): Result<(string, bool), MfaError> {
    var scan := ScanText(text);
    var found := FirstMatch(scan.lines, name);
    if found.Some? then StatusOf(found.value)
    else if scan.tooLong then Err(ScannerError)
    else Err(UserNotFound)
  }

  function UpdateSpec(name: string, secret: string, verified: bool, text: string): Result<string, MfaError> {
    var scan := ScanText(text);
    var line := Line(name, secret, verified);
    if scan.tooLong then Err(ScannerError)
    else Ok(Written(Rewritten(scan.lines, name, line) + if FirstMatch(scan.lines, name).None? then [line] else []))
  }

  function DeleteSpec(name: string, text: string): Result<string, MfaError> {
    var scan := ScanText(text);
    if scan.tooLong then Err(ScannerError) else Ok(Written(Kept(scan.lines, name)))
  }

  /** One line more on each side. */
  lemma {:induction false} RewrittenOneMore(lines: seq<string>, last: string, name: string, line: string)
    ensures Rewritten(lines + [last], name, line) == Rewritten(lines, name, line)
            + (if last == "" then [] else if HasPrefix(last, name) then [line] else [last])
  {
    if lines == [] {
      assert lines + [last] == [last];
    } else {
      assert (lines + [last])[1..] == lines[1..] + [last];
      RewrittenOneMore(lines[1..], last, name, line);
    }
  }

  lemma {:induction false} KeptOneMore(lines: seq<string>, last: string, name: string)
    ensures Kept(lines + [last], name) == Kept(lines, name)
            + (if last == "" || HasPrefix(last, name) then [] else [last])
  {
    if lines == [] {
      assert lines + [last] == [last];
    } else {
      assert (lines + [last])[1..] == lines[1..] + [last];
      KeptOneMore(lines[1..], last, name);
    }
  }

  lemma {:induction false} FirstMatchOneMore(lines: seq<string>, last: string, name: string)
    ensures FirstMatch(lines + [last], name) == if FirstMatch(lines, name).Some? then FirstMatch(lines, name)
            else if last != "" && HasPrefix(last, name) then Some(last) else None
  {
    if lines == [] {
      assert lines + [last] == [last];
    } else {
      assert (lines + [last])[1..] == lines[1..] + [last];
      FirstMatchOneMore(lines[1..], last, name);
    }
  }

  lemma WrittenOneMore(lines: seq<string>, line: string)
    ensures Written(lines + [line]) == Written(lines) + line + ['\n']
  {
    WrittenAppend(lines, [line]);
    assert Written([line]) == line + ['\n'] + Written([]);
  }

  method GetMFAUsers(users: string) returns (r: Result<map<string, bool>, MfaError>)
    ensures r == if ScanText(users).tooLong then Err(ScannerError) else Ok(VerifiedByName(ScanText(users).lines))
  {
    var scan := ScanText(users);
    var mfaUsers := map[];
    for i := 0 to |scan.lines|
      invariant mfaUsers == VerifiedByName(scan.lines[..i])
    {
      var text := scan.lines[i];
      assert scan.lines[..i + 1][..i] == scan.lines[..i];
      if text == "" {
        continue;
      }
      var spl := Split(text, ':');
      if |spl| < 3 {
        continue;
      }
      mfaUsers := mfaUsers[spl[0] := ParseBool(spl[2])];
    }
    assert scan.lines[..|scan.lines|] == scan.lines;
    r := if scan.tooLong then Err(ScannerError) else Ok(mfaUsers);
  }

  method GetUserStatusFromReader(name: string, rdr: string) returns (r: Result<(string, bool), MfaError>)
    ensures r == StatusSpec(name, rdr)
  {
    var scan := ScanText(rdr);
    for i := 0 to |scan.lines|
      invariant FirstMatch(scan.lines, name) == FirstMatch(scan.lines[i..], name)
    {
      var text := scan.lines[i];
      assert scan.lines[i..][1..] == scan.lines[i + 1..];
      if text == "" {
        continue;
      }
      if HasPrefix(text, name) {
        var fields := Split(text, ':');
        if |fields| < 3 {
          return Err(Malformed);
        }
        return Ok((fields[1], ParseBool(fields[2])));
      }
    }
    if scan.tooLong {
      return Err(ScannerError);
    }
    return Err(UserNotFound);
  }

  method UpdateUserStatusInReader(name: string, secret: string, verified: bool, rdr: string)
    returns (r: Result<string, MfaError>)
    ensures r == UpdateSpec(name, secret, verified, rdr)
  {
    var scan := ScanText(rdr);
    var newData := "";
    var updated := false;
    ghost var line := Line(name, secret, verified);
    for i := 0 to |scan.lines|
      invariant newData == Written(Rewritten(scan.lines[..i], name, line))
      invariant updated <==> FirstMatch(scan.lines[..i], name).Some?
    {
      var text := scan.lines[i];
      ghost var seen := Rewritten(scan.lines[..i], name, line);
      RewrittenOneMore(scan.lines[..i], text, name, line);
      FirstMatchOneMore(scan.lines[..i], text, name);
      assert scan.lines[..i + 1] == scan.lines[..i] + [text];
      assert seen + [] == seen;
      if text == "" {
        continue;
      }
      if HasPrefix(text, name) {
        WrittenOneMore(seen, line);
        newData := newData + Line(name, secret, verified) + ['\n'];
        updated := true;
        continue;
      }
      WrittenOneMore(seen, text);
      newData := newData + text + ['\n'];
    }
    assert scan.lines[..|scan.lines|] == scan.lines;
    if scan.tooLong {
      return Err(ScannerError);
    }
    ghost var all := Rewritten(scan.lines, name, line);
    if !updated {
      WrittenOneMore(all, line);
      newData := newData + Line(name, secret, verified) + ['\n'];
    } else {
      assert all + [] == all;
    }
    return Ok(newData);
  }

  method DeleteUserFromReader(name: string, rdr: string) returns (r: Result<string, MfaError>)
    ensures r == DeleteSpec(name, rdr)
  {
    var scan := ScanText(rdr);
    var newData := "";
    for i := 0 to |scan.lines|
      invariant newData == Written(Kept(scan.lines[..i], name))
    {
      var text := scan.lines[i];
      ghost var seen := Kept(scan.lines[..i], name);
      KeptOneMore(scan.lines[..i], text, name);
      assert scan.lines[..i + 1] == scan.lines[..i] + [text];
      assert seen + [] == seen;
      if text == "" {
        continue;
      }
      if !HasPrefix(text, name) {
        WrittenOneMore(seen, text);
        newData := newData + text + ['\n'];
      }
    }
    assert scan.lines[..|scan.lines|] == scan.lines;
    if scan.tooLong {
      return Err(ScannerError);
    }
    return Ok(newData);
  }
}

/** The OTP text as a map from user names, and when prefix matching keeps it one. */
module MfaRefinement {
  import opened Wrappers
  import opened Text
  import opened Mfa

  datatype Record = Record(name: string, secret: string, verified: bool)

  function RecordLine(r: Record): string {
    Line(r.name, r.secret, r.verified)
  }

  predicate WellFormed(r: Record) {
    && ':' !in r.name && '\n' !in r.name && ':' !in r.secret && '\n' !in r.secret
    && |RecordLine(r)| <= MAX_LINE
  }

  ghost predicate AllWellFormed(rs: seq<Record>) {
    forall r <- rs :: WellFormed(r)
  }

  function Lines(rs: seq<Record>): seq<string> {
    if rs == [] then [] else [RecordLine(rs[0])] + Lines(rs[1..])
  }

  function File(rs: seq<Record>): string {
    Written(Lines(rs))
  }

  lemma LineSplits(name: string, secret: string, verified: string)
    requires ':' !in name && ':' !in secret && ':' !in verified
    ensures Split(name + [':'] + secret + [':'] + verified, ':') == [name, secret, verified]
  {
    assert name + [':'] + secret + [':'] + verified == name + [':'] + (secret + [':'] + verified);
    SplitAtFirst(name, ':', secret + [':'] + verified);
    SplitAtFirst(secret, ':', verified);
    SplitWithout(verified, ':');
  }

  lemma LineFields(r: Record)
    requires WellFormed(r)
    ensures Scannable(RecordLine(r)) && RecordLine(r) != ""
    ensures Split(RecordLine(r), ':') == [r.name, r.secret, FormatBool(r.verified)]
    ensures ParseBool(FormatBool(r.verified)) == r.verified
  {
    LineSplits(r.name, r.secret, FormatBool(r.verified));
    var line := RecordLine(r);
    assert line[|line| - 1] == 'e';
  }

  lemma ReadBack(rs: seq<Record>)
    requires AllWellFormed(rs)
    ensures ScanText(File(rs)) == Scan(Lines(rs), false)
  {
    LinesScannable(rs);
    ScanWritten(Lines(rs));
  }

  lemma {:induction false} LinesScannable(rs: seq<Record>)
    requires AllWellFormed(rs)
    ensures forall line <- Lines(rs) :: Scannable(line)
  {
    if rs != [] {
      assert rs[0] in rs;
      LineFields(rs[0]);
      LinesScannable(rs[1..]);
    }
  }

  /** A name without a colon begins a line exactly when it begins the line's own name. */
  lemma PrefixOfLine(name: string, r: Record)
    requires ':' !in name
    ensures HasPrefix(RecordLine(r), name) <==> name <= r.name
  {
    var line := RecordLine(r);
    assert line[..|r.name|] == r.name && line[|r.name|] == ':';
    if |name| > |r.name| {
      assert name[|r.name|] in name;
      assert |name| <= |line| ==> line[..|name|][|r.name|] == ':';
    } else if name <= line {
      assert forall i :: 0 <= i < |name| ==> r.name[i] == line[i] == name[i];
    }
    if name <= r.name {
      assert forall i :: 0 <= i < |name| ==> line[i] == r.name[i] == name[i];
    }
  }

  function FirstRecord(rs: seq<Record>, name: string): Option<Record> {
    if rs == [] then None else if name <= rs[0].name then Some(rs[0]) else FirstRecord(rs[1..], name)
  }

  function Replaced(rs: seq<Record>, r: Record): seq<Record> {
    if rs == [] then [] else [if r.name <= rs[0].name then r else rs[0]] + Replaced(rs[1..], r)
  }

  function Removed(rs: seq<Record>, name: string): seq<Record> {
    if rs == [] then [] else (if name <= rs[0].name then [] else [rs[0]]) + Removed(rs[1..], name)
  }

  function SetIn(rs: seq<Record>, r: Record): seq<Record> {
    Replaced(rs, r) + if FirstRecord(rs, r.name).None? then [r] else []
  }

  lemma {:induction false} LinesAppend(a: seq<Record>, b: seq<Record>)
    ensures Lines(a + b) == Lines(a) + Lines(b)
  {
    if a == [] {
      assert a + b == b;
    } else {
      assert (a + b)[1..] == a[1..] + b;
      LinesAppend(a[1..], b);
    }
  }

  lemma {:induction false} LinesRewritten(rs: seq<Record>, r: Record)
    requires AllWellFormed(rs) && ':' !in r.name
    ensures FirstMatch(Lines(rs), r.name)
         == if FirstRecord(rs, r.name).Some? then Some(RecordLine(FirstRecord(rs, r.name).value)) else None
    ensures Rewritten(Lines(rs), r.name, RecordLine(r)) == Lines(Replaced(rs, r))
    ensures Kept(Lines(rs), r.name) == Lines(Removed(rs, r.name))
  {
    if rs != [] {
      assert rs[0] in rs;
      LineFields(rs[0]);
      PrefixOfLine(r.name, rs[0]);
      LinesRewritten(rs[1..], r);
      assert Lines(rs)[1..] == Lines(rs[1..]);
      assert Replaced(rs, r)[1..] == Replaced(rs[1..], r);
      LinesAppend(if r.name <= rs[0].name then [] else [rs[0]], Removed(rs[1..], r.name));
    }
  }

  /** Setting a status rewrites the file record by record. */
  lemma UpdateOnFile(rs: seq<Record>, r: Record)
    requires AllWellFormed(rs) && ':' !in r.name
    ensures UpdateSpec(r.name, r.secret, r.verified, File(rs)) == Ok(File(SetIn(rs, r)))
  {
    ReadBack(rs);
    LinesRewritten(rs, r);
    LinesAppend(Replaced(rs, r), if FirstRecord(rs, r.name).None? then [r] else []);
    assert Lines([r]) == [RecordLine(r)];
  }

  lemma DeleteOnFile(rs: seq<Record>, name: string)
    requires AllWellFormed(rs) && ':' !in name
    ensures DeleteSpec(name, File(rs)) == Ok(File(Removed(rs, name)))
  {
    ReadBack(rs);
    LinesRewritten(rs, Record(name, "", false));
  }

  /** Asking for a status answers with the first record whose name begins with the name asked for. */
  lemma StatusOnFile(rs: seq<Record>, name: string)
    requires AllWellFormed(rs) && ':' !in name
    ensures StatusSpec(name, File(rs)) == match FirstRecord(rs, name)
      case Some(r) => Ok((r.secret, r.verified))
      case None => Err(UserNotFound)
  {
    ReadBack(rs);
    LinesRewritten(rs, Record(name, "", false));
    if FirstRecord(rs, name).Some? {
      FirstRecordIsIn(rs, name);
      LineFields(FirstRecord(rs, name).value);
    }
  }

  lemma {:induction false} FirstRecordIsIn(rs: seq<Record>, name: string)
    ensures FirstRecord(rs, name).Some? ==>
      FirstRecord(rs, name).value in rs && name <= FirstRecord(rs, name).value.name
    ensures FirstRecord(rs, name).None? <==> forall r <- rs :: !(name <= r.name)
  {
    if rs != [] {
      FirstRecordIsIn(rs[1..], name);
      assert rs == [rs[0]] + rs[1..];
    }
  }

  function Table(rs: seq<Record>): map<string, (string, bool)> {
    if rs == [] then map[] else Table(rs[1..])[rs[0].name := (rs[0].secret, rs[0].verified)]
  }

  ghost predicate Unique(rs: seq<Record>) {
    rs == [] || ((forall r <- rs[1..] :: r.name != rs[0].name) && Unique(rs[1..]))
  }

  /** No other user's name begins with this one. */
  ghost predicate Clear(rs: seq<Record>, name: string) {
    forall r <- rs :: name <= r.name ==> r.name == name
  }

  lemma {:induction false} TableKeys(rs: seq<Record>)
    ensures forall name :: name in Table(rs) <==> exists r <- rs :: r.name == name
  {
    if rs != [] {
      TableKeys(rs[1..]);
      assert rs == [rs[0]] + rs[1..];
      forall name ensures name in Table(rs) <==> exists r <- rs :: r.name == name {
        if name == rs[0].name {
          assert rs[0] in rs;
        } else if name in Table(rs[1..]) {
          var r :| r in rs[1..] && r.name == name;
          assert r in rs;
        }
      }
    }
  }

  lemma {:induction false} SetMembers(rs: seq<Record>, r: Record)
    ensures forall x :: x in Replaced(rs, r) <==>
      (x in rs && !(r.name <= x.name)) || (x == r && exists y <- rs :: r.name <= y.name)
    ensures forall x :: x in Removed(rs, r.name) <==> x in rs && !(r.name <= x.name)
  {
    if rs != [] {
      SetMembers(rs[1..], r);
      assert rs == [rs[0]] + rs[1..];
      forall x
        ensures x in Replaced(rs, r)
          <==> (x in rs && !(r.name <= x.name)) || (x == r && exists y <- rs :: r.name <= y.name)
      {
        if exists y <- rs[1..] :: r.name <= y.name {
          var y :| y in rs[1..] && r.name <= y.name;
          assert y in rs;
        }
        if r.name <= rs[0].name {
          assert rs[0] in rs;
        }
      }
    }
  }

  lemma {:induction false} NothingToReplace(rs: seq<Record>, r: Record)
    requires forall x <- rs :: !(r.name <= x.name)
    ensures Replaced(rs, r) == rs && Removed(rs, r.name) == rs
  {
    if rs != [] {
      assert rs == [rs[0]] + rs[1..];
      NothingToReplace(rs[1..], r);
    }
  }

  lemma TableCons(r: Record, rs: seq<Record>)
    ensures Table([r] + rs) == Table(rs)[r.name := (r.secret, r.verified)]
    ensures Unique([r] + rs) <==> Unique(rs) && forall x <- rs :: x.name != r.name
  {
    assert ([r] + rs)[1..] == rs;
  }

  lemma SameKeyAgain(table: map<string, (string, bool)>, name: string, u: (string, bool), v: (string, bool))
    ensures table[name := u][name := v] == table[name := v]
  {
  }

  lemma OtherKeyFirst(table: map<string, (string, bool)>, m: string, u: (string, bool), n: string, v: (string, bool))
    requires m != n
    ensures table[m := u][n := v] == table[n := v][m := u]
  {
  }

  lemma {:induction false} ClearReplaced(rs: seq<Record>, r: Record)
    requires Unique(rs) && Clear(rs, r.name)
    ensures Unique(Replaced(rs, r))
    ensures Table(Replaced(rs, r))
         == if FirstRecord(rs, r.name).Some? then Table(rs)[r.name := (r.secret, r.verified)] else Table(rs)
  {
    if rs != [] {
      var head, rest := rs[0], rs[1..];
      assert head in rs && forall x <- rest :: x in rs;
      TableCons(head, rest);
      assert rs == [head] + rest;
      if r.name <= head.name {
        NothingToReplace(rest, r);
        assert Replaced(rs, r) == [r] + rest;
        TableCons(r, rest);
        SameKeyAgain(Table(rest), r.name, (head.secret, head.verified), (r.secret, r.verified));
      } else {
        ClearReplaced(rest, r);
        SetMembers(rest, r);
        TableCons(head, Replaced(rest, r));
        if FirstRecord(rest, r.name).Some? {
          OtherKeyFirst(Table(rest), head.name, (head.secret, head.verified), r.name, (r.secret, r.verified));
        }
      }
    }
  }

  lemma {:induction false} TableAppend(rs: seq<Record>, r: Record)
    requires forall x <- rs :: x.name != r.name
    ensures Table(rs + [r]) == Table(rs)[r.name := (r.secret, r.verified)]
  {
    if rs == [] {
      assert rs + [r] == [r];
    } else {
      assert (rs + [r])[1..] == rs[1..] + [r];
      assert rs[0] in rs;
      TableAppend(rs[1..], r);
    }
  }

  lemma {:induction false} UniqueAppend(rs: seq<Record>, r: Record)
    requires Unique(rs) && forall x <- rs :: x.name != r.name
    ensures Unique(rs + [r])
  {
    if rs == [] {
      assert rs + [r] == [r];
    } else {
      assert rs[0] in rs && forall x <- rs[1..] :: x in rs;
      assert (rs + [r])[1..] == rs[1..] + [r];
      UniqueAppend(rs[1..], r);
    }
  }

  lemma ClearSet(rs: seq<Record>, r: Record)
    requires Unique(rs) && Clear(rs, r.name)
    ensures Unique(SetIn(rs, r)) && Table(SetIn(rs, r)) == Table(rs)[r.name := (r.secret, r.verified)]
  {
    ClearReplaced(rs, r);
    FirstRecordIsIn(rs, r.name);
    if FirstRecord(rs, r.name).None? {
      NothingToReplace(rs, r);
      UniqueAppend(rs, r);
      TableAppend(rs, r);
    } else {
      assert SetIn(rs, r) == Replaced(rs, r);
    }
  }

  lemma RemoveSetKey(table: map<string, (string, bool)>, m: string, u: (string, bool), n: string)
    ensures table[m := u] - {n} == if m == n then table - {n} else (table - {n})[m := u]
  {
  }

  lemma {:induction false} RemovedUnique(rs: seq<Record>, name: string)
    requires Unique(rs)
    ensures Unique(Removed(rs, name))
  {
    if rs != [] {
      RemovedUnique(rs[1..], name);
      SetMembers(rs[1..], Record(name, "", false));
      TableCons(rs[0], Removed(rs[1..], name));
      assert [] + Removed(rs[1..], name) == Removed(rs[1..], name);
    }
  }

  lemma {:induction false} ClearRemove(rs: seq<Record>, name: string)
    requires Clear(rs, name)
    ensures Table(Removed(rs, name)) == Table(rs) - {name}
  {
    if rs != [] {
      var head, rest := rs[0], rs[1..];
      assert head in rs && forall x <- rest :: x in rs;
      ClearRemove(rest, name);
      RemoveSetKey(Table(rest), head.name, (head.secret, head.verified), name);
      TableCons(head, Removed(rest, name));
      assert [] + Removed(rest, name) == Removed(rest, name);
    }
  }

  /** Setting one user's status is the map update exactly when no other name begins with the user's. */
  lemma SetExactly(rs: seq<Record>, r: Record)
    requires Unique(rs)
    ensures Table(SetIn(rs, r)) == Table(rs)[r.name := (r.secret, r.verified)] <==> Clear(rs, r.name)
  {
    if Clear(rs, r.name) {
      ClearSet(rs, r);
    } else {
      var other :| other in rs && r.name <= other.name && other.name != r.name;
      TableKeys(rs);
      TableKeys(SetIn(rs, r));
      SetMembers(rs, r);
      assert other.name in Table(rs);
      assert other.name !in Table(SetIn(rs, r));
    }
  }

  /** Deleting one user is the map removal exactly when no other name begins with the user's. */
  lemma DeleteExactly(rs: seq<Record>, name: string)
    requires Unique(rs)
    ensures Table(Removed(rs, name)) == Table(rs) - {name} <==> Clear(rs, name)
  {
    if Clear(rs, name) {
      ClearRemove(rs, name);
    } else {
      var other :| other in rs && name <= other.name && other.name != name;
      TableKeys(rs);
      TableKeys(Removed(rs, name));
      SetMembers(rs, Record(name, "", false));
      assert other.name in Table(rs);
      assert other.name !in Table(Removed(rs, name));
    }
  }

  /** No name of the set begins another, and none holds a separator. */
  ghost predicate PrefixFree(names: set<string>) {
    && (forall a, b :: a in names && b in names && a <= b ==> a == b)
    && (forall a :: a in names ==> ':' !in a)
  }

  datatype Op = Set(r: Record) | Remove(name: string)

  function ApplyToFile(text: string, op: Op): string {
    var r := match op
      case Set(r) => UpdateSpec(r.name, r.secret, r.verified, text)
      case Remove(name) => DeleteSpec(name, text);
    if r.Ok? then r.value else text
  }

  function ApplyToTable(table: map<string, (string, bool)>, op: Op): map<string, (string, bool)> {
    match op
    case Set(r) => table[r.name := (r.secret, r.verified)]
    case Remove(name) => table - {name}
  }

  function RunOnFile(text: string, ops: seq<Op>): string
    decreases |ops|
  {
    if ops == [] then text else RunOnFile(ApplyToFile(text, ops[0]), ops[1..])
  }

  function RunOnTable(table: map<string, (string, bool)>, ops: seq<Op>): map<string, (string, bool)>
    decreases |ops|
  {
    if ops == [] then table else RunOnTable(ApplyToTable(table, ops[0]), ops[1..])
  }

  ghost predicate Among(names: set<string>, op: Op) {
    match op
    case Set(r) => r.name in names && WellFormed(r)
    case Remove(name) => name in names
  }

  ghost predicate Good(names: set<string>, rs: seq<Record>) {
    AllWellFormed(rs) && Unique(rs) && forall r <- rs :: r.name in names
  }

  lemma StepRefines(names: set<string>, rs: seq<Record>, op: Op) returns (rs': seq<Record>)
    requires PrefixFree(names) && Good(names, rs) && Among(names, op)
    ensures Good(names, rs')
    ensures ApplyToFile(File(rs), op) == File(rs') && Table(rs') == ApplyToTable(Table(rs), op)
  {
    match op
    case Set(r) =>
      UpdateOnFile(rs, r);
      ClearSet(rs, r);
      SetMembers(rs, r);
      rs' := SetIn(rs, r);
    case Remove(name) =>
      DeleteOnFile(rs, name);
      ClearRemove(rs, name);
      RemovedUnique(rs, name);
      SetMembers(rs, Record(name, "", false));
      rs' := Removed(rs, name);
  }

  /** Among users none of whose names begins another's, any run of sets and deletes on the text is
      that run on the map. */
  lemma {:induction false} RunRefines(names: set<string>, rs: seq<Record>, ops: seq<Op>) returns (rs': seq<Record>)
    requires PrefixFree(names) && Good(names, rs) && forall op <- ops :: Among(names, op)
    ensures Good(names, rs')
    ensures RunOnFile(File(rs), ops) == File(rs') && Table(rs') == RunOnTable(Table(rs), ops)
    decreases |ops|
  {
    if ops == [] {
      rs' := rs;
    } else {
      var next := StepRefines(names, rs, ops[0]);
      rs' := RunRefines(names, next, ops[1..]);
    }
  }

  /** The text after a run holds what the map does. */
  ghost predicate Refined(names: set<string>, rs: seq<Record>, ops: seq<Op>) {
    exists rs' :: Good(names, rs') && RunOnFile(File(rs), ops) == File(rs') && Table(rs') == RunOnTable(Table(rs), ops)
  }

  lemma PrefixMisdeletes(names: set<string>, a: string, b: string)
    requires a in names && b in names && a <= b && a != b && ':' !in a && WellFormed(Record(b, "", true))
    ensures Good(names, [Record(b, "", true)]) && !Refined(names, [Record(b, "", true)], [Remove(a)])
  {
    var rs := [Record(b, "", true)];
    DeleteOnFile(rs, a);
    assert Removed(rs, a) == [] by {
      assert rs[1..] == [];
    }
    assert RunOnFile(File(rs), [Remove(a)]) == File([]) by {
      assert [Remove(a)][1..] == [];
    }
    assert b in RunOnTable(Table(rs), [Remove(a)]) by {
      assert [Remove(a)][1..] == [];
    }
    forall rs' | Good(names, rs') && RunOnFile(File(rs), [Remove(a)]) == File(rs') ensures b !in Table(rs') {
      OnlyEmptyIsEmpty(rs');
    }
  }

  lemma OnlyEmptyIsEmpty(rs: seq<Record>)
    ensures File(rs) == File([]) ==> rs == []
  {
    assert rs != [] ==> |File(rs)| > 0;
  }

  /** Among names that hold no separator and fit a line, every run on the text is that run on the map if and only if no
      name begins another. */
  lemma RefinesExactly(names: set<string>)
    requires forall a <- names :: ':' !in a && WellFormed(Record(a, "", true))
    ensures (forall rs, ops | Good(names, rs) && (forall op <- ops :: Among(names, op)) :: Refined(names, rs, ops))
       <==> PrefixFree(names)
  {
    if PrefixFree(names) {
      forall rs, ops | Good(names, rs) && (forall op <- ops :: Among(names, op)) ensures Refined(names, rs, ops) {
        var rs' := RunRefines(names, rs, ops);
      }
    } else {
      var a, b :| a in names && b in names && a <= b && a != b;
      PrefixMisdeletes(names, a, b);
    }
  }

  lemma {:induction false} LookupRecord(rs: seq<Record>, name: string)
    requires Unique(rs) && Clear(rs, name)
    ensures FirstRecord(rs, name).Some? <==> name in Table(rs)
    ensures name in Table(rs) ==> FirstRecord(rs, name) == Some(Record(name, Table(rs)[name].0, Table(rs)[name].1))
  {
    if rs != [] {
      assert rs[0] in rs;
      LookupRecord(rs[1..], name);
    }
  }

  /** After any such run a user's status is what the map holds: the values last set, or not found after a delete. */
  lemma StatusAfterRun(names: set<string>, rs: seq<Record>, ops: seq<Op>, name: string)
    requires PrefixFree(names) && Good(names, rs) && (forall op <- ops :: Among(names, op)) && name in names
    ensures var table := RunOnTable(Table(rs), ops);
      StatusSpec(name, RunOnFile(File(rs), ops)) == if name in table then Ok(table[name]) else Err(UserNotFound)
  {
    var rs' := RunRefines(names, rs, ops);
    StatusOnFile(rs', name);
    LookupRecord(rs', name);
  }

  // ---- when a status is the user's own

  function Names(rs: seq<Record>): seq<string> {
    if rs == [] then [] else [rs[0].name] + Names(rs[1..])
  }

  /** Asking for a status looks the user up in the map. */
  ghost predicate LooksUp(rs: seq<Record>, name: string) {
    StatusSpec(name, File(rs)) == if name in Table(rs) then Ok(Table(rs)[name]) else Err(UserNotFound)
  }

  /** The first record whose name begins with this one is the user's own, or there is none. */
  predicate FirstIsOwn(rs: seq<Record>, name: string) {
    FirstRecord(rs, name).Some? ==> FirstRecord(rs, name).value.name == name
  }

  lemma {:induction false} FirstIsOwnLooksUp(rs: seq<Record>, name: string)
    requires FirstIsOwn(rs, name)
    ensures match FirstRecord(rs, name)
      case Some(r) => name in Table(rs) && Table(rs)[name] == (r.secret, r.verified)
      case None => name !in Table(rs)
  {
    if rs != [] && !(name <= rs[0].name) {
      FirstIsOwnLooksUp(rs[1..], name);
    }
  }

  lemma {:induction false} SameNamesSameFirst(rs: seq<Record>, rs': seq<Record>, name: string)
    requires Names(rs) == Names(rs')
    ensures FirstRecord(rs, name).Some? <==> FirstRecord(rs', name).Some?
    ensures FirstRecord(rs, name).Some? ==> FirstRecord(rs, name).value.name == FirstRecord(rs', name).value.name
  {
    if rs != [] {
      assert Names(rs)[0] == Names(rs')[0] && Names(rs)[1..] == Names(rs')[1..];
      SameNamesSameFirst(rs[1..], rs'[1..], name);
    }
  }

  /** The same names with records that tell this user's from all others. */
  function Marked(rs: seq<Record>, name: string): seq<Record> {
    if rs == [] then [] else [Record(rs[0].name, "", rs[0].name != name)] + Marked(rs[1..], name)
  }

  lemma {:induction false} MarkedNames(rs: seq<Record>, name: string)
    ensures Names(Marked(rs, name)) == Names(rs)
  {
    if rs != [] {
      MarkedNames(rs[1..], name);
      assert Marked(rs, name)[1..] == Marked(rs[1..], name);
    }
  }

  lemma {:induction false} MarkedFrom(rs: seq<Record>, name: string, x: Record)
    requires x in Marked(rs, name)
    ensures x == Record(x.name, "", x.name != name)
    ensures exists y <- rs :: y.name == x.name
  {
    var first := Record(rs[0].name, "", rs[0].name != name);
    if x == first {
      assert rs[0] in rs;
    } else {
      assert x in Marked(rs[1..], name);
      MarkedFrom(rs[1..], name, x);
      assert forall y <- rs[1..] :: y in rs;
    }
  }

  lemma MarkedWellFormed(rs: seq<Record>, name: string)
    requires AllWellFormed(rs) && !FirstIsOwn(rs, name)
    ensures AllWellFormed(Marked(rs, name))
  {
    FirstRecordIsIn(rs, name);
    var other := FirstRecord(rs, name).value;
    assert |name| < |other.name| && |RecordLine(other)| <= MAX_LINE;
    forall x | x in Marked(rs, name) ensures WellFormed(x) {
      MarkedFrom(rs, name, x);
      var y :| y in rs && y.name == x.name;
      assert WellFormed(y);
    }
  }

  lemma MarkedMisreads(rs: seq<Record>, name: string)
    requires AllWellFormed(rs) && ':' !in name && !FirstIsOwn(rs, name)
    ensures AllWellFormed(Marked(rs, name)) && Names(Marked(rs, name)) == Names(rs) && !LooksUp(Marked(rs, name), name)
  {
    var rs' := Marked(rs, name);
    MarkedNames(rs, name);
    MarkedWellFormed(rs, name);
    StatusOnFile(rs', name);
    SameNamesSameFirst(rs, rs', name);
    FirstRecordIsIn(rs', name);
    MarkedFrom(rs, name, FirstRecord(rs', name).value);
    if name in Table(rs') {
      TableIsOfRecord(rs', name);
      var own :| own in rs' && own.name == name && Table(rs')[name] == (own.secret, own.verified);
      MarkedFrom(rs, name, own);
    }
  }

  lemma {:induction false} TableIsOfRecord(rs: seq<Record>, name: string)
    requires name in Table(rs)
    ensures exists r <- rs :: r.name == name && Table(rs)[name] == (r.secret, r.verified)
  {
    if rs[0].name == name {
      assert rs[0] in rs;
    } else {
      TableIsOfRecord(rs[1..], name);
      assert forall r <- rs[1..] :: r in rs;
    }
  }

  /** A user's status is the user's own, whatever secrets and marks these names have, if and only if the first record
      whose name begins with the user's is the user's own. */
  lemma StatusExactly(rs: seq<Record>, name: string)
    requires AllWellFormed(rs) && ':' !in name
    ensures (forall rs' | AllWellFormed(rs') && Names(rs') == Names(rs) :: LooksUp(rs', name)) <==> FirstIsOwn(rs, name)
  {
    if FirstIsOwn(rs, name) {
      forall rs' | AllWellFormed(rs') && Names(rs') == Names(rs) ensures LooksUp(rs', name) {
        SameNamesSameFirst(rs, rs', name);
        FirstIsOwnLooksUp(rs', name);
        StatusOnFile(rs', name);
      }
    } else {
      MarkedMisreads(rs, name);
    }
  }

  lemma {:induction false} UniqueInit(rs: seq<Record>, r: Record)
    requires Unique(rs + [r])
    ensures Unique(rs) && forall x <- rs :: x.name != r.name
  {
    if rs != [] {
      assert (rs + [r])[1..] == rs[1..] + [r];
      UniqueInit(rs[1..], r);
      assert r in rs[1..] + [r];
      assert forall x <- rs[1..] :: x in rs[1..] + [r];
    }
  }

  function Verifieds(table: map<string, (string, bool)>): map<string, bool> {
    map name | name in table :: table[name].1
  }

  lemma VerifiedOneMore(lines: seq<string>, r: Record)
    requires WellFormed(r)
    ensures VerifiedByName(lines + [RecordLine(r)]) == VerifiedByName(lines)[r.name := r.verified]
  {
    LineFields(r);
    var all := lines + [RecordLine(r)];
    assert all[..|all| - 1] == lines && all[|all| - 1] == RecordLine(r);
  }

  lemma VerifiedsUpdate(table: map<string, (string, bool)>, r: Record)
    ensures Verifieds(table[r.name := (r.secret, r.verified)]) == Verifieds(table)[r.name := r.verified]
  {
  }

  /** The list of users with their verification is the map's. */
  lemma {:induction false} ListedUsers(rs: seq<Record>)
    requires AllWellFormed(rs) && Unique(rs)
    ensures VerifiedByName(Lines(rs)) == Verifieds(Table(rs))
  {
    if rs != [] {
      var init, last := rs[..|rs| - 1], rs[|rs| - 1];
      assert rs == init + [last];
      assert last in rs && forall r <- init :: r in rs;
      UniqueInit(init, last);
      calc {
        VerifiedByName(Lines(rs));
      == { LinesAppend(init, [last]); assert Lines([last]) == [RecordLine(last)]; }
        VerifiedByName(Lines(init) + [RecordLine(last)]);
      == { VerifiedOneMore(Lines(init), last); }
        VerifiedByName(Lines(init))[last.name := last.verified];
      == { ListedUsers(init); }
        Verifieds(Table(init))[last.name := last.verified];
      == { VerifiedsUpdate(Table(init), last); }
        Verifieds(Table(init)[last.name := (last.secret, last.verified)]);
      == { TableAppend(init, last); }
        Verifieds(Table(rs));
      }
    }
  }
}
