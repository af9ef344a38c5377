/** The cached secret engine over a Kubernetes secret: pkg/secrets/secrets_engine.go and the k8secret provider.
    Byte slices are strings of one byte per character; None is nil. */
module SecretEngines {
  import opened Wrappers
  import opened Text

  type Fields = map<string, string>

  /** The JSON and base64 form of a map secret. */
  datatype Codec = Codec(encode: Fields -> string, decode: string -> Option<Fields>)

  ghost predicate Lossless(codec: Codec) {
    forall m :: codec.decode(codec.encode(m)) == Some(m)
  }

  datatype Error = NotFound | Undecodable | ApiError

  datatype CacheItem = CacheItem(contents: Option<string>, contentsMap: Option<Fields>, expiresAt: int)

  /** The keys of the backing secret, and the engine's cache. */
  datatype State = State(backend: map<string, string>, cache: map<string, CacheItem>)

  /** The provider's ReadSecret; up tells whether the API answers. */
  function BackendRead(backend: map<string, string>, name: string, up: bool): Result<string, Error> {
    if !up then Err(ApiError) else if name in backend then Ok(backend[name]) else Err(NotFound)
  }

  function BackendReadMap(codec: Codec, backend: map<string, string>, name: string, up: bool): Result<Fields, Error> {
    match BackendRead(backend, name, up)
    case Err(e) => Err(e)
    case Ok(contents) => if codec.decode(contents).Some? then Ok(codec.decode(contents).value) else Err(Undecodable)
  }

  /** The provider's WriteSecret: writing nil deletes the key. */
  function BackendWritten(backend: map<string, string>, name: string, content: Option<string>): map<string, string> {
    if content.None? then backend - {name} else backend[name := content.value]
  }

  function EncodedOrNil(codec: Codec, content: Option<Fields>): Option<string> {
    if content.None? then None else Some(codec.encode(content.value))
  }

  function CachedBytes(cache: map<string, CacheItem>, name: string, now: int): Option<string> {
    if name in cache && cache[name].expiresAt > now then cache[name].contents else None
  }

  function CachedMap(cache: map<string, CacheItem>, name: string, now: int): Option<Fields> {
    if name in cache && cache[name].expiresAt > now then cache[name].contentsMap else None
  }

  function ReadStep(ttl: nat, s: State, name: string, cached: bool, now: int, up: bool): (State, Result<string,
                    Error>) {
    if cached && CachedBytes(s.cache, name, now).Some? then (s, Ok(CachedBytes(s.cache, name, now).value))
    else match BackendRead(s.backend, name, up)
      case Err(e) => (s, Err(e))
      case Ok(v) => (s.(cache := s.cache[name := CacheItem(Some(v), None, now + ttl)]), Ok(v))
  }

  function ReadMapStep(codec: Codec, ttl: nat, s: State, name: string, cached: bool, now: int, up: bool): (State,
                       Result<Fields, Error>) {
    if cached && CachedMap(s.cache, name, now).Some? then (s, Ok(CachedMap(s.cache, name, now).value))
    else match BackendReadMap(codec, s.backend, name, up)
      case Err(e) => (s, Err(e))
      case Ok(m) => (s.(cache := s.cache[name := CacheItem(None, Some(m), now + ttl)]), Ok(m))
  }

  function WriteStep(ttl: nat, s: State, name: string, content: Option<string>, now: int, up: bool): (State,
                     Option<Error>) {
    if !up then (s, Some(ApiError))
    else (State(BackendWritten(s.backend, name, content), s.cache[name := CacheItem(content, None, now + ttl)]), None)
  }

  function WriteMapStep(codec: Codec, ttl: nat, s: State, name: string, content: Option<Fields>, now: int,
                        up: bool): (State, Option<Error>) {
    if !up then (s, Some(ApiError))
    else (State(BackendWritten(s.backend, name, EncodedOrNil(codec, content)),
                s.cache[name := CacheItem(None, content, now + ttl)]), None)
  }

  /** A line put on a line of its own. */
  function Appended(current: string, line: string): string {
    if current != "" && current[|current| - 1] != '\n' then current + ['\n'] + line else current + line
  }

  /** The lines of a text, without the empty piece behind its last newline. */
  function Lines(text: string): seq<string> {
    var pieces := Split(text, '\n');
    if pieces[|pieces| - 1] == "" then pieces[..|pieces| - 1] else pieces
  }

  lemma {:induction false} LastPiece(text: string)
    ensures var pieces := Split(text, '\n');
      pieces[|pieces| - 1] == "" <==> text == "" || text[|text| - 1] == '\n'
  {
    if text != "" {
      LastPiece(text[1..]);
      var rest := Split(text[1..], '\n');
      if text[0] == '\n' {
        assert Split(text, '\n') == [""] + rest;
      } else {
        assert Split(text, '\n') == [[text[0]] + rest[0]] + rest[1..];
      }
    }
  }

  /** The lines there were stay, and those appended come after them, whether the last one was ended or not. */
  lemma AppendedLines(current: string, line: string)
    ensures Split(Appended(current, line), '\n') == Lines(current) + Split(line, '\n')
  {
    LastPiece(current);
    if current == "" {
      assert Appended(current, line) == line;
    } else if current[|current| - 1] == '\n' {
      var ended := current[..|current| - 1];
      assert current == ended + ['\n'] + "" && current + line == ended + ['\n'] + line;
      SplitAppend(ended, '\n', "");
      SplitAppend(ended, '\n', line);
    } else {
      SplitAppend(current, '\n', line);
    }
  }

  /** The API may answer the read and not the write, or the other way round. */
  function AppendStep(ttl: nat, s: State, name: string, line: string, now: int, readable: bool,
                      writable: bool): (State, Option<Error>) {
    var (s, current) := ReadStep(ttl, s, name, true, now, readable);
    if current.Err? && current.error != NotFound then (s, Some(current.error))
    else WriteStep(ttl, s, name, Some(Appended(if current.Ok? then current.value else "", line)), now, writable)
  }

  /** Every view in the cache is the backend's. */
  ghost predicate Coherent(codec: Codec, s: State) {
    forall name <- s.cache ::
      && (s.cache[name].contents.Some? ==> name in s.backend && s.backend[name] == s.cache[name].contents.value)
      && (s.cache[name].contentsMap.Some? ==>
            name in s.backend && codec.decode(s.backend[name]) == s.cache[name].contentsMap)
  }

  /** After a write that succeeded, and until the next one, a read of the key answers with what was written, and not
      found after nil: always while the API answers, and from the cache while that lasts. */
  lemma ReadYourWrite(ttl: nat, s: State, name: string, content: Option<string>, written: int, cached: bool, now: int,
                      up: bool)
    ensures var s' := WriteStep(ttl, s, name, content, written, true).0;
      ReadStep(ttl, s', name, cached, now, up).1
      == if content.Some? && (up || (cached && now < written + ttl)) then Ok(content.value)
         else if up then Err(NotFound) else Err(ApiError)
  {
  }

  lemma ReadYourWriteMap(codec: Codec, ttl: nat, s: State, name: string, content: Option<Fields>, written: int,
                         cached: bool, now: int, up: bool)
    requires Lossless(codec)
    ensures var s' := WriteMapStep(codec, ttl, s, name, content, written, true).0;
      ReadMapStep(codec, ttl, s', name, cached, now, up).1
      == if content.Some? && (up || (cached && now < written + ttl)) then Ok(content.value)
         else if up then Err(NotFound) else Err(ApiError)
  {
  }

  /** What a read brings in, the cache hands out while it lasts: the API is not asked again. */
  lemma ReadAgain(ttl: nat, s: State, name: string, read: int, cached: bool, now: int, up: bool)
    requires ReadStep(ttl, s, name, false, read, true).1.Ok?
    ensures var (s', r) := ReadStep(ttl, s, name, false, read, true);
      && name in s.backend && r == Ok(s.backend[name]) && s'.backend == s.backend
      && ReadStep(ttl, s', name, cached, now, up).1 == if up || (cached && now < read + ttl) then r else Err(ApiError)
  {
  }

  lemma ReadAgainMap(codec: Codec, ttl: nat, s: State, name: string, read: int, cached: bool, now: int, up: bool)
    requires ReadMapStep(codec, ttl, s, name, false, read, true).1.Ok?
    ensures var (s', r) := ReadMapStep(codec, ttl, s, name, false, read, true);
      && name in s.backend && codec.decode(s.backend[name]) == Some(r.value) && s'.backend == s.backend
      && ReadMapStep(codec, ttl, s', name, cached, now, up).1 ==
         if up || (cached && now < read + ttl) then r else Err(ApiError)
  {
  }

  /** A write of one key is not seen by reads of another. */
  lemma OtherKeysUnread(ttl: nat, s: State, name: string, content: Option<string>, written: int, other: string,
                        cached: bool, now: int, up: bool)
    requires other != name
    ensures var s' := WriteStep(ttl, s, name, content, written, true).0;
      ReadStep(ttl, s', other, cached, now, up).1 == ReadStep(ttl, s, other, cached, now, up).1
  {
  }

  class SecretEngine {
    const codec: Codec
    const cacheTTL: nat
    var backend: map<string, string>
    var cache: map<string, CacheItem>

    constructor (codec: Codec, cacheTTL: nat, backend: map<string, string>)
      ensures this.codec == codec && this.cacheTTL == cacheTTL && View() == State(backend, map[])
    {
      this.codec, this.cacheTTL, this.backend, this.cache := codec, cacheTTL, backend, map[];
    }

    function View(): State
      reads this
    {
      State(backend, cache)
    }

    method ReadCache(name: string, now: int) returns (val: Option<string>)
      ensures val == CachedBytes(cache, name, now)
      ensures Coherent(codec, View()) && val.Some? ==> BackendRead(backend, name, true) == Ok(val.value)
    {
      if name in cache {
        var cached := cache[name];
        if cached.expiresAt > now {
          return cached.contents;
        }
      }
      return None;
    }

    method ReadCacheMap(name: string, now: int) returns (val: Option<Fields>)
      ensures val == CachedMap(cache, name, now)
      ensures Coherent(codec, View()) && val.Some? ==> BackendReadMap(codec, backend, name, true) == Ok(val.value)
    {
      if name in cache {
        var cached := cache[name];
        if cached.expiresAt > now {
          return cached.contentsMap;
        }
      }
      return None;
    }

    /** Coherence makes the cache invisible: what is read is what the backend holds, and an outage at most hides it. */
    method ReadSecret(name: string, useCache: bool, now: int, up: bool) returns (r: Result<string, Error>)
      modifies this`cache
      ensures (View(), r) == ReadStep(cacheTTL, old(View()), name, useCache, now, up)
      ensures !useCache ==>
        r == if !up then Err(ApiError) else if name in backend then Ok(backend[name]) else Err(NotFound)
      ensures old(Coherent(codec, View())) ==>
        Coherent(codec, View()) && (r == BackendRead(backend, name, true) || (!up && r == Err(ApiError)))
    {
      if useCache {
        var val := ReadCache(name, now);
        if val.Some? {
          return Ok(val.value);
        }
      }
      r := BackendRead(backend, name, up);
      if r.Ok? {
        cache := cache[name := CacheItem(Some(r.value), None, now + cacheTTL)];
      }
    }

    method ReadSecretMap(name: string, useCache: bool, now: int, up: bool) returns (r: Result<Fields, Error>)
      modifies this`cache
      ensures (View(), r) == ReadMapStep(codec, cacheTTL, old(View()), name, useCache, now, up)
      ensures !useCache ==>
        && (r == Err(ApiError) <==> !up)
        && (r == Err(NotFound) <==> up && name !in backend)
        && (r == Err(Undecodable) <==> up && name in backend && codec.decode(backend[name]).None?)
        && (r.Ok? ==> codec.decode(backend[name]) == Some(r.value))
      ensures old(Coherent(codec, View())) ==>
        Coherent(codec, View()) && (r == BackendReadMap(codec, backend, name, true) || (!up && r == Err(ApiError)))
    {
      if useCache {
        var val := ReadCacheMap(name, now);
        if val.Some? {
          return Ok(val.value);
        }
      }
      r := BackendReadMap(codec, backend, name, up);
      if r.Ok? {
        cache := cache[name := CacheItem(None, Some(r.value), now + cacheTTL)];
      }
    }

    method WriteSecret(name: string, contents: Option<string>, now: int, up: bool) returns (err: Option<Error>)
      modifies this
      ensures (View(), err) == WriteStep(cacheTTL, old(View()), name, contents, now, up)
      ensures err == (if up then None else Some(ApiError)) && (!up ==> backend == old(backend) && cache == old(cache))
      ensures up ==> (name in backend <==> contents.Some?) && (contents.Some? ==> backend[name] == contents.value)
      ensures backend - {name} == old(backend) - {name}
      ensures old(Coherent(codec, View())) ==> Coherent(codec, View())
    {
      if !up {
        return Some(ApiError);
      }
      backend := BackendWritten(backend, name, contents);
      cache := cache[name := CacheItem(contents, None, now + cacheTTL)];
      return None;
    }

    method WriteSecretMap(name: string, contents: Option<Fields>, now: int, up: bool) returns (err: Option<Error>)
      modifies this
      ensures (View(), err) == WriteMapStep(codec, cacheTTL, old(View()), name, contents, now, up)
      ensures err == (if up then None else Some(ApiError)) && (!up ==> backend == old(backend) && cache == old(cache))
      ensures up ==>
        (name in backend <==> contents.Some?) && (contents.Some? ==> backend[name] == codec.encode(contents.value))
      ensures backend - {name} == old(backend) - {name}
      ensures Lossless(codec) && old(Coherent(codec, View())) ==> Coherent(codec, View())
    {
      if !up {
        return Some(ApiError);
      }
      backend := BackendWritten(backend, name, EncodedOrNil(codec, contents));
      cache := cache[name := CacheItem(None, contents, now + cacheTTL)];
      return None;
    }

    method AppendSecret(name: string, line: string, now: int, readable: bool, writable: bool)
      returns (err: Option<Error>)
      modifies this
      ensures (View(), err) == AppendStep(cacheTTL, old(View()), name, line, now, readable, writable)
      ensures old(Coherent(codec, View())) ==> Coherent(codec, View())
      ensures err.Some? ==> backend == old(backend) && err == Some(ApiError)
      ensures err.None? ==> writable && (readable || old(CachedBytes(cache, name, now)).Some?)
      ensures old(Coherent(codec, View())) && readable && writable ==> err.None?
      ensures old(Coherent(codec, View())) && err.None? ==>
        backend == old(backend)[name := Appended(if name in old(backend) then old(backend)[name] else "", line)]
    {
      var current := ReadSecret(name, true, now, readable);
      var currentVal := "";
      if current.Err? {
        if current.error != NotFound {
          return Some(current.error);
        }
      } else {
        currentVal := current.value;
      }
      var suffix := line;
      if |currentVal| != 0 && currentVal[|currentVal| - 1] != '\n' {
        suffix := ['\n'] + line;
        assert currentVal + suffix == currentVal + ['\n'] + line;
      }
      err := WriteSecret(name, Some(currentVal + suffix), now, writable);
    }
  }
}

/** The engine over whole runs, alone on its backend and beside other writers. */
module SecretRuns {
  import opened Wrappers
  import opened SecretEngines

  datatype Op =
    | Read(name: string, cached: bool)
    | ReadMap(name: string, cached: bool)
    | Write(name: string, content: Option<string>)
    | WriteMap(name: string, fields: Option<Fields>)
    | Append(name: string, line: string)

  datatype Output = Bytes(Result<string, Error>) | Map(Result<Fields, Error>) | Done(Option<Error>)

  /** A call at some time, with an API that answers reads or writes or not. */
  datatype Call = Call(op: Op, now: int, readable: bool, writable: bool)

  function Step(codec: Codec, ttl: nat, s: State, c: Call): (State, Output) {
    match c.op
    case Read(name, cached) => var (s', r) := ReadStep(ttl, s, name, cached, c.now, c.readable); (s', Bytes(r))
    case ReadMap(name, cached) =>
      var (s', r) := ReadMapStep(codec, ttl, s, name, cached, c.now, c.readable); (s', Map(r))
    case Write(name, content) => var (s', e) := WriteStep(ttl, s, name, content, c.now, c.writable); (s', Done(e))
    case WriteMap(name, fields) =>
      var (s', e) := WriteMapStep(codec, ttl, s, name, fields, c.now, c.writable); (s', Done(e))
    case Append(name, line) =>
      var (s', e) := AppendStep(ttl, s, name, line, c.now, c.readable, c.writable); (s', Done(e))
  }

  /** The same call on an engine that has no cache at all. */
  function Direct(codec: Codec, backend: map<string, string>, c: Call): (map<string, string>, Output) {
    match c.op
    case Read(name, _) => (backend, Bytes(BackendRead(backend, name, c.readable)))
    case ReadMap(name, _) => (backend, Map(BackendReadMap(codec, backend, name, c.readable)))
    case Write(name, content) =>
      if c.writable then (BackendWritten(backend, name, content), Done(None)) else (backend, Done(Some(ApiError)))
    case WriteMap(name, fields) =>
      if c.writable then (BackendWritten(backend, name, EncodedOrNil(codec, fields)), Done(None))
      else (backend, Done(Some(ApiError)))
    case Append(name, line) =>
      if c.readable && c.writable then
        (backend[name := Appended(if name in backend then backend[name] else "", line)], Done(None))
      else (backend, Done(Some(ApiError)))
  }

  /** The cache has what the call is to read. */
  predicate Served(s: State, c: Call) {
    match c.op
    case Read(name, cached) => cached && CachedBytes(s.cache, name, c.now).Some?
    case ReadMap(name, cached) => cached && CachedMap(s.cache, name, c.now).Some?
    case Append(name, _) => CachedBytes(s.cache, name, c.now).Some?
    case _ => false
  }

  /** The call with an API that also answers what the cache does. */
  function Assisted(s: State, c: Call): Call {
    c.(readable := c.readable || Served(s, c))
  }

  lemma AppendIsDirect(codec: Codec, ttl: nat, s: State, name: string, line: string, c: Call)
    requires Coherent(codec, s) && c.op == Append(name, line)
    ensures Coherent(codec, Step(codec, ttl, s, c).0)
    ensures (Step(codec, ttl, s, c).0.backend, Step(codec, ttl, s, c).1) == Direct(codec, s.backend, Assisted(s, c))
  {
    var s' := ReadStep(ttl, s, name, true, c.now, c.readable).0;
    assert Coherent(codec, s') && s'.backend == s.backend;
  }

  /** A call acts on the backend, and answers, as one without a cache whose API also answers the reads the
      cache serves. */
  lemma StepIsDirect(codec: Codec, ttl: nat, s: State, c: Call)
    requires Lossless(codec) && Coherent(codec, s)
    ensures Coherent(codec, Step(codec, ttl, s, c).0)
    ensures (Step(codec, ttl, s, c).0.backend, Step(codec, ttl, s, c).1) == Direct(codec, s.backend, Assisted(s, c))
  {
    match c.op
    case Append(name, line) => AppendIsDirect(codec, ttl, s, name, line, c);
    case _ =>
  }

  function Run(codec: Codec, ttl: nat, s: State, calls: seq<Call>): (State, seq<Output>)
    decreases |calls|
  {
    if calls == [] then (s, [])
    else
      var (s', o) := Step(codec, ttl, s, calls[0]);
      var (end, os) := Run(codec, ttl, s', calls[1..]);
      (end, [o] + os)
  }

  function DirectRun(codec: Codec, backend: map<string, string>, calls: seq<Call>): (map<string, string>, seq<Output>)
    decreases |calls|
  {
    if calls == [] then (backend, [])
    else
      var (backend', o) := Direct(codec, backend, calls[0]);
      var (end, os) := DirectRun(codec, backend', calls[1..]);
      (end, [o] + os)
  }

  function AssistedRun(codec: Codec, ttl: nat, s: State, calls: seq<Call>): seq<Call>
    decreases |calls|
  {
    if calls == [] then []
    else [Assisted(s, calls[0])] + AssistedRun(codec, ttl, Step(codec, ttl, s, calls[0]).0, calls[1..])
  }

  /** A sole writer's engine, over any run of byte and map reads, writes and appends at any times and through any
      outages, leaves the backend and answers every call as one without a cache whose API also answers the reads the
      cache served. */
  lemma {:induction false} CacheIsInvisible(codec: Codec, ttl: nat, s: State, calls: seq<Call>)
    requires Lossless(codec) && Coherent(codec, s)
    ensures Coherent(codec, Run(codec, ttl, s, calls).0)
    ensures (Run(codec, ttl, s, calls).0.backend, Run(codec, ttl, s, calls).1)
         == DirectRun(codec, s.backend, AssistedRun(codec, ttl, s, calls))
    decreases |calls|
  {
    if calls != [] {
      var s' := Step(codec, ttl, s, calls[0]).0;
      StepIsDirect(codec, ttl, s, calls[0]);
      CacheIsInvisible(codec, ttl, s', calls[1..]);
      assert AssistedRun(codec, ttl, s, calls)[1..] == AssistedRun(codec, ttl, s', calls[1..]);
    }
  }

  lemma {:induction false} NothingToAssist(codec: Codec, ttl: nat, s: State, calls: seq<Call>)
    requires forall c <- calls :: c.readable
    ensures AssistedRun(codec, ttl, s, calls) == calls
    decreases |calls|
  {
    if calls != [] {
      assert calls[0] in calls;
      NothingToAssist(codec, ttl, Step(codec, ttl, s, calls[0]).0, calls[1..]);
      assert calls == [calls[0]] + calls[1..];
    }
  }

  /** While reads are answered the cache cannot be told from none at all. */
  lemma CacheIsInvisibleWhileUp(codec: Codec, ttl: nat, s: State, calls: seq<Call>)
    requires Lossless(codec) && Coherent(codec, s) && forall c <- calls :: c.readable
    ensures (Run(codec, ttl, s, calls).0.backend, Run(codec, ttl, s, calls).1) == DirectRun(codec, s.backend, calls)
  {
    CacheIsInvisible(codec, ttl, s, calls);
    NothingToAssist(codec, ttl, s, calls);
  }

  /** The engine's calls with writes by other processes in between. */
  datatype Event = Engine(c: Call) | Foreign(name: string, content: Option<string>)

  function Next(codec: Codec, ttl: nat, s: State, e: Event): State {
    match e
    case Engine(c) => Step(codec, ttl, s, c).0
    case Foreign(name, content) => s.(backend := BackendWritten(s.backend, name, content))
  }

  function At(codec: Codec, ttl: nat, backend: map<string, string>, events: seq<Event>, n: nat): State
    requires n <= |events|
  {
    if n == 0 then State(backend, map[]) else Next(codec, ttl, At(codec, ttl, backend, events, n - 1), events[n - 1])
  }

  /** After event j, at a time that gives the item its expiry, the backend held what the item holds. */
  ghost predicate TrueAt(codec: Codec, ttl: nat, backend: map<string, string>, events: seq<Event>, name: string,
                         item: CacheItem, j: nat)
    requires j < |events|
  {
    var b := At(codec, ttl, backend, events, j + 1).backend;
    && events[j].Engine? && item.expiresAt == events[j].c.now + ttl
    && (item.contents.Some? ==> name in b && b[name] == item.contents.value)
    && (item.contentsMap.Some? ==> name in b && codec.decode(b[name]) == item.contentsMap)
  }

  /** The item came into the cache at this time, from this backend. */
  ghost predicate CachedNow(codec: Codec, ttl: nat, s: State, name: string, now: int) {
    name in s.cache
    && s.cache[name].expiresAt == now + ttl
    && (s.cache[name].contents.Some? ==> name in s.backend && s.backend[name] == s.cache[name].contents.value)
    && (s.cache[name].contentsMap.Some? ==>
          name in s.backend && codec.decode(s.backend[name]) == s.cache[name].contentsMap)
  }

  lemma AppendCachesTruth(codec: Codec, ttl: nat, s: State, c: Call, name: string)
    requires c.op.Append? && name in Step(codec, ttl, s, c).0.cache
    ensures var s' := Step(codec, ttl, s, c).0;
            (name in s.cache && s'.cache[name] == s.cache[name]) || CachedNow(codec, ttl, s', name, c.now)
  {
    var read := ReadStep(ttl, s, c.op.name, true, c.now, c.readable).0;
    assert name in read.cache ==>
      (name in s.cache && read.cache[name] == s.cache[name]) || CachedNow(codec, ttl, read, name, c.now);
  }

  lemma StepCachesTruth(codec: Codec, ttl: nat, s: State, c: Call, name: string)
    requires Lossless(codec) && name in Step(codec, ttl, s, c).0.cache
    ensures var s' := Step(codec, ttl, s, c).0;
            (name in s.cache && s'.cache[name] == s.cache[name]) || CachedNow(codec, ttl, s', name, c.now)
  {
    if c.op.Append? {
      AppendCachesTruth(codec, ttl, s, c, name);
    }
  }

  lemma {:induction false} CachedWasTrue(codec: Codec, ttl: nat, backend: map<string, string>, events: seq<Event>,
                                         n: nat, name: string)
    returns (j: nat)
    requires Lossless(codec) && n <= |events| && name in At(codec, ttl, backend, events, n).cache
    ensures j < n && TrueAt(codec, ttl, backend, events, name, At(codec, ttl, backend, events, n).cache[name], j)
  {
    var before := At(codec, ttl, backend, events, n - 1);
    var item := At(codec, ttl, backend, events, n).cache[name];
    match events[n - 1]
    case Engine(c) =>
      StepCachesTruth(codec, ttl, before, c, name);
      if name in before.cache && item == before.cache[name] {
        j := CachedWasTrue(codec, ttl, backend, events, n - 1, name);
      } else {
        j := n - 1;
      }
    case Foreign(_, _) =>
      j := CachedWasTrue(codec, ttl, backend, events, n - 1, name);
  }

  /** Beside other writers, a cached read, of bytes or of a map, answers with what the backend holds now or held less
      than the cache's lifetime ago. */
  lemma StalenessIsBounded(codec: Codec, ttl: nat, backend: map<string, string>, events: seq<Event>, n: nat,
                           name: string, v: string)
    requires Lossless(codec) && n < |events| && events[n].Engine? && events[n].c.op == Read(name, true)
    requires Step(codec, ttl, At(codec, ttl, backend, events, n), events[n].c).1 == Bytes(Ok(v))
    ensures var b := At(codec, ttl, backend, events, n).backend;
            || (name in b && b[name] == v)
            || exists j: nat :: j < n && events[j].Engine? && events[n].c.now < events[j].c.now + ttl
                 && var b' := At(codec, ttl, backend, events, j + 1).backend; name in b' && b'[name] == v
  {
    var s := At(codec, ttl, backend, events, n);
    if CachedBytes(s.cache, name, events[n].c.now).Some? {
      var j := CachedWasTrue(codec, ttl, backend, events, n, name);
    }
  }

  /** The bound is the right one: another writer's write goes unseen by a cached read until the cached value expires,
      and is seen by any other read. */
  lemma ForeignWriteIsUnseen(codec: Codec, ttl: nat, s: State, name: string, read: int, v: string,
                             content: Option<string>, cached: bool, now: int)
    requires name in s.backend && s.backend[name] == v
    ensures var s1 := Step(codec, ttl, s, Call(Read(name, false), read, true, true)).0;
      var s2 := Next(codec, ttl, s1, Foreign(name, content));
      Step(codec, ttl, s2, Call(Read(name, cached), now, true, true)).1 ==
        Bytes(if cached && now < read + ttl then Ok(v)
              else if content.Some? then Ok(content.value) else Err(NotFound))
  {
  }

  lemma MapStalenessIsBounded(codec: Codec, ttl: nat, backend: map<string, string>, events: seq<Event>, n: nat,
                              name: string, m: Fields)
    requires Lossless(codec) && n < |events| && events[n].Engine? && events[n].c.op == ReadMap(name, true)
    requires Step(codec, ttl, At(codec, ttl, backend, events, n), events[n].c).1 == Map(Ok(m))
    ensures var b := At(codec, ttl, backend, events, n).backend;
            || (name in b && codec.decode(b[name]) == Some(m))
            || exists j: nat :: j < n && events[j].Engine? && events[n].c.now < events[j].c.now + ttl
                 && var b' := At(codec, ttl, backend, events, j + 1).backend;
                   name in b' && codec.decode(b'[name]) == Some(m)
  {
    var s := At(codec, ttl, backend, events, n);
    if CachedMap(s.cache, name, events[n].c.now).Some? {
      var j := CachedWasTrue(codec, ttl, backend, events, n, name);
    }
  }
}
