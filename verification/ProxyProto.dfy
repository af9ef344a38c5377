/** The connections and messages of pkg/proxyproto: conn.go and requests.go. */
module ProxyProto {
  import opened Wrappers
  import opened Text
  import opened Framing

  /** The part of p that a transport still takes. */
  function Taken(p: string, room: nat): string {
    if |p| <= room then p else p[..room]
  }

  lemma TakenTwice(p: string, q: string, room: nat)
    ensures |p| <= room ==> Taken(p, room) + Taken(q, room - |p|) == Taken(p + q, room)
    ensures |p| > room ==> Taken(p, room) == Taken(p + q, room)
  {
  }

  lemma Associative(a: seq<Record>, b: seq<Record>, c: seq<Record>)
    ensures a + b + c == a + (b + c)
  {
  }

  lemma CopyStep(chunks: seq<Record>, more: seq<Record>, copied: string, piece: string, room: nat)
    requires Chunks(chunks, copied) && |copied| <= room && Chunks(more, Taken(piece, room - |copied|))
    ensures Chunks(chunks + more, Taken(copied + piece, room))
    ensures |Flat(chunks + more)| == |Flat(chunks)| + |Flat(more)|
  {
    FlatAppend(chunks, more);
    TakenTwice(copied, piece, room);
  }

  lemma CopyMore(chunks: seq<Record>, more: seq<Record>, body: string, i: nat, j: nat, room: nat)
    requires i <= j <= |body| && i <= room
    requires Chunks(chunks, body[..i]) && Chunks(more, Taken(body[i..j], room - i))
    ensures Chunks(chunks + more, Taken(body[..j], room))
    ensures |Flat(chunks + more)| == |Flat(chunks)| + |Flat(more)|
  {
    CopyStep(chunks, more, body[..i], body[i..j], room);
    assert body[..i] + body[i..j] == body[..j];
  }

  lemma CopyOver(chunks: seq<Record>, body: string, i: nat, room: nat)
    requires i <= |body| && (i == |body| || i > room) && Chunks(chunks, Taken(body[..i], room))
    ensures Chunks(chunks, Taken(body, room))
  {
    TakenTwice(body[..i], body[i..], room);
    assert body[..i] + body[i..] == body;
  }

  /** What sending a field does: the transport takes it whole, or as much as it has room for, which is reported. */
  predicate Delivered(f: Field, room: nat, ok: bool, chunks: seq<Record>, left: int) {
    && (ok <==> |Wire(f)| <= room)
    && Chunks(chunks, Taken(Wire(f), room))
    && left == room - |Flat(chunks)|
  }

  function WireLength(fields: seq<Field>): nat {
    if fields == [] then 0 else WireLength(fields[..|fields| - 1]) + |Wire(fields[|fields| - 1])|
  }

  /** The same of a message: it is under way field by field, or the transport has no room left. */
  ghost predicate MessageDelivered(fields: seq<Field>, room: nat, ok: bool, chunks: seq<Record>, left: int) {
    && (ok <==> WireLength(fields) <= room)
    && left == room - |Flat(chunks)|
    && (if ok then UnderWay(chunks, fields) else left == 0)
  }

  lemma {:induction false} CarriedLength(writes: seq<seq<Record>>, fields: seq<Field>)
    requires Carried(writes, fields)
    ensures |Flat(Concat(writes))| == WireLength(fields)
    decreases |fields|
  {
    if fields != [] {
      var n := |fields| - 1;
      assert Carried(writes[..n], fields[..n]) && Chunks(writes[n], Wire(fields[n]));
      CarriedLength(writes[..n], fields[..n]);
      ConcatLast(writes);
      FlatAppend(Concat(writes[..n]), writes[n]);
    }
  }

  lemma UnderWayLength(chunks: seq<Record>, fields: seq<Field>)
    requires UnderWay(chunks, fields)
    ensures |Flat(chunks)| == WireLength(fields)
  {
    var writes :| Carried(writes, fields) && chunks == Concat(writes);
    CarriedLength(writes, fields);
  }

  lemma NothingDelivered(all: seq<Field>, room: nat)
    ensures MessageDelivered(all[..0], room, true, [], room)
  {
    assert Carried([], []) && Concat([]) == [];
  }

  lemma OneMoreField(all: seq<Field>, k: nat)
    requires k < |all|
    ensures all[..k + 1] == all[..k] + [all[k]]
    ensures WireLength(all[..k + 1]) == WireLength(all[..k]) + |Wire(all[k])|
  {
    assert all[..k + 1][..k] == all[..k];
  }

  lemma OneMoreDelivered(all: seq<Field>, k: nat, room: nat, chunks: seq<Record>, left: nat,
                         ok: bool, more: seq<Record>, left': int)
    requires k < |all| && MessageDelivered(all[..k], room, true, chunks, left)
    requires Delivered(all[k], left, ok, more, left')
    ensures MessageDelivered(all[..k + 1], room, ok, chunks + more, left')
  {
    OneMoreField(all, k);
    FlatAppend(chunks, more);
    UnderWayLength(chunks, all[..k]);
    if ok {
      MoreUnderWay(chunks, all[..k], more, all[k]);
    }
  }

  lemma FirstDelivered(all: seq<Field>, room: nat, ok: bool, chunks: seq<Record>, left: int)
    requires all != [] && Delivered(all[0], room, ok, chunks, left)
    ensures MessageDelivered(all[..1], room, ok, chunks, left)
  {
    NothingDelivered(all, room);
    OneMoreDelivered(all, 0, room, [], room, ok, chunks, left);
    assert [] + chunks == chunks;
  }

  lemma AllDelivered(all: seq<Field>, k: nat, room: nat, ok: bool, chunks: seq<Record>, left: int)
    requires k == |all| && MessageDelivered(all[..k], room, ok, chunks, left)
    ensures MessageDelivered(all, room, ok, chunks, left)
  {
    assert all[..k] == all;
  }

  lemma {:induction false} OthersLeftUnsent(all: seq<Field>, k: nat, room: nat, chunks: seq<Record>, left: int)
    requires k <= |all| && MessageDelivered(all[..k], room, false, chunks, left)
    ensures MessageDelivered(all, room, false, chunks, left)
    decreases |all| - k
  {
    if k == |all| {
      assert all[..k] == all;
    } else {
      assert all[..k + 1] == all[..k] + [all[k]] && all[..k + 1][..k] == all[..k];
      OthersLeftUnsent(all, k + 1, room, chunks, left);
    }
  }

  /** The first bytes of some records have been read, and the rest is still there. */
  predicate HasRead(was: seq<Record>, data: string, now: seq<Record>) {
    |data| <= |Flat(was)| && data == Flat(was)[..|data|] && now == Dropped(was, |data|)
  }

  lemma NothingRead(was: seq<Record>)
    ensures HasRead(was, "", was)
  {
  }

  lemma ReadOn(was: seq<Record>, data: string, now: seq<Record>, room: nat)
    requires HasRead(was, data, now) && now != []
    ensures HasRead(was, data + OneRead(now, room), Dropped(now, |OneRead(now, room)|))
    ensures room > 0 ==> 0 < |OneRead(now, room)| <= room
  {
    var piece := OneRead(now, room);
    DroppedTwice(was, |data|, |piece|);
    assert piece + Flat(Dropped(now, |piece|)) == Flat(was)[|data|..];
  }

  lemma ReadOut(was: seq<Record>, data: string, now: seq<Record>, size: nat)
    requires HasRead(was, data, now) && |data| <= size && (now == [] || |data| == size)
    ensures |data| == size ==> size <= |Flat(was)| && data == Flat(was)[..size]
    ensures |data| < size ==> size > |Flat(was)| && data == Flat(was)
    ensures now == FullRead(size, was).1
  {
    assert |Flat(now)| == |Flat(was)| - |data|;
  }

  lemma ReadUp(was: seq<Record>, data: string)
    requires HasRead(was, data, [])
    ensures data == Flat(was)
  {
    assert |Flat(Dropped(was, |data|))| == 0;
  }

  lemma OneMoreRecord(chunks: seq<Record>, p: string, i: nat, j: nat)
    requires i < j <= |p| && Chunks(chunks, p[..i])
    ensures Chunks(chunks + [p[i..j]], p[..j])
  {
    var chunk: Record := p[i..j];
    FlatAppend(chunks, [chunk]);
    assert Flat([chunk]) == chunk + Flat([]);
    assert p[..i] + p[i..j] == p[..j];
  }

  function Wanted(announced: Int64): nat {
    if announced < 0 then 0 else announced
  }

  /** One direction of the transport: the records under way, and the bytes it still takes before it fails. */
  class Pipe {
    var records: seq<Record>
    var room: nat

    constructor (room: nat)
      ensures records == [] && this.room == room
    {
      this.records, this.room := [], room;
    }

    method Write(p: string) returns (n: nat, ghost chunks: seq<Record>)
      modifies this
      ensures n == |Taken(p, old(room))| && room == old(room) - n
      ensures records == old(records) + chunks && Chunks(chunks, Taken(p, old(room)))
    {
      n := if |p| <= room then |p| else room;
      room := room - n;
      chunks := [];
      var at := 0;
      while at < n
        invariant at <= n == |Taken(p, old(room))| && room == old(room) - n
        invariant records == old(records) + chunks && Chunks(chunks, p[..at])
      {
        var k :| at < k <= n;
        OneMoreRecord(chunks, p, at, k);
        Associative(old(records), chunks, [p[at..k]]);
        records := records + [p[at..k]];
        chunks, at := chunks + [p[at..k]], k;
      }
    }

    method Read(size: nat) returns (data: string, eof: bool)
      modifies `records
      ensures eof <==> old(records) == []
      ensures eof ==> data == "" && records == []
      ensures !eof ==> data == OneRead(old(records), size) && records == Dropped(old(records), |data|)
    {
      eof := records == [];
      if eof {
        data := "";
      } else if |records[0]| <= size {
        data := records[0];
        records := records[1..];
      } else {
        data := records[0][..size];
        if size > 0 {
          records := [records[0][size..]] + records[1..];
        }
      }
    }
  }

  class Conn {
    const input: Pipe
    const output: Pipe
    var rtype: char
    var rsize: int
    var wsize: int
    var closed: bool

    constructor (input: Pipe, output: Pipe, rtype: char)
      ensures this.input == input && this.output == output && this.rtype == rtype
      ensures rsize == 0 && wsize == 0 && !closed
    {
      this.input, this.output, this.rtype, this.rsize, this.wsize, this.closed := input, output, rtype, 0, 0, false;
    }

    method Write(p: string) returns (n: nat, ghost chunks: seq<Record>)
      modifies `wsize, output
      ensures n == |Taken(p, old(output.room))| && output.room == old(output.room) - n
      ensures output.records == old(output.records) + chunks && Chunks(chunks, Taken(p, old(output.room)))
      ensures wsize == old(wsize) + n
    {
      n, chunks := output.Write(p);
      wsize := wsize + n;
    }

    method WriteByte(b: char) returns (ok: bool, ghost chunks: seq<Record>)
      modifies `wsize, output
      ensures Delivered(Tag(b), old(output.room), ok, chunks, output.room)
      ensures output.records == old(output.records) + chunks && wsize == old(wsize) + |Flat(chunks)|
    {
      var n;
      n, chunks := output.Write([b]);
      ok := n == 1;
      if ok {
        wsize := wsize + 1;
      }
    }

    method WriteString(s: string) returns (ok: bool, ghost chunks: seq<Record>)
      modifies `wsize, output
      ensures Delivered(Str(s), old(output.room), ok, chunks, output.room)
      ensures output.records == old(output.records) + chunks && wsize == old(wsize) + |Flat(chunks)|
    {
      var b := s + ['\n'];
      var n;
      n, chunks := output.Write(b);
      wsize := wsize + n;
      ok := n == |b|;
    }

    method WriteInt64(num: Int64) returns (ok: bool, ghost chunks: seq<Record>)
      modifies `wsize, output
      ensures Delivered(Int(num), old(output.room), ok, chunks, output.room)
      ensures output.records == old(output.records) + chunks && wsize == old(wsize) + |Flat(chunks)|
    {
      var b := EncodeInt64(num);
      var n;
      n, chunks := output.Write(b);
      wsize := wsize + n;
      ok := n == |b|;
    }

    /** io.Copy from a body, which hands out its bytes in pieces of its own choice. */
    method CopyFrom(body: string) returns (ok: bool, ghost chunks: seq<Record>)
      modifies `wsize, output
      ensures Delivered(Raw(body), old(output.room), ok, chunks, output.room)
      ensures output.records == old(output.records) + chunks && wsize == old(wsize) + |Flat(chunks)|
    {
      var at := 0;
      chunks, ok := [], true;
      while ok && at < |body|
        invariant at <= |body| && (ok <==> at <= old(output.room))
        invariant Chunks(chunks, Taken(body[..at], old(output.room)))
        invariant output.records == old(output.records) + chunks
        invariant output.room == old(output.room) - |Flat(chunks)| && wsize == old(wsize) + |Flat(chunks)|
        decreases |body| - at
      {
        var k :| at < k <= |body|;
        var n;
        ghost var more;
        n, more := Write(body[at..k]);
        ok := n == k - at;
        CopyMore(chunks, more, body, at, k, old(output.room));
        Associative(old(output.records), chunks, more);
        chunks, at := chunks + more, k;
      }
      CopyOver(chunks, body, at, old(output.room));
    }

    method Read(size: nat) returns (data: string, eof: bool)
      modifies `rsize, input`records
      ensures eof <==> old(input.records) == []
      ensures eof ==> data == "" && input.records == []
      ensures !eof ==> data == OneRead(old(input.records), size) && input.records == Dropped(old(input.records), |data|)
      ensures rsize == old(rsize) + |data|
    {
      data, eof := input.Read(size);
      rsize := rsize + |data|;
    }

    /** io.ReadFull; what it got before an end of file is in data. */
    method ReadFull(size: nat) returns (data: string, ok: bool)
      modifies input`records
      ensures ok <==> size <= |Flat(old(input.records))|
      ensures data == if ok then Flat(old(input.records))[..size] else Flat(old(input.records))
      ensures input.records == FullRead(size, old(input.records)).1
    {
      data, ok := "", true;
      ghost var was := input.records;
      NothingRead(was);
      while ok && |data| < size
        invariant |data| <= size && HasRead(was, data, input.records)
        invariant !ok ==> |data| < size && input.records == []
        decreases size - |data|, if ok then 1 else 0
      {
        ghost var now := input.records;
        var piece, eof := input.Read(size - |data|);
        if eof {
          ok := false;
        } else {
          ReadOn(was, data, now, size - |data|);
          data := data + piece;
        }
      }
      ReadOut(was, data, input.records, size);
    }

    method ReadByte() returns (r: Result<char, Error>)
      modifies `rsize, input`records
      ensures var (f, rest) := FieldRead(TagKind, old(input.records));
        input.records == rest && r == (if f.Ok? then Ok(f.value.b) else Err(f.error))
      ensures rsize == old(rsize) + Counted(TagKind, old(input.records))
    {
      var data, ok := ReadFull(1);
      if !ok {
        return Err(Eof);
      }
      rsize := rsize + 1;
      return Ok(data[0]);
    }

    method ReadInt64() returns (r: Result<Int64, Error>)
      modifies `rsize, input`records
      ensures var (f, rest) := FieldRead(IntKind, old(input.records));
        input.records == rest && r == (if f.Ok? then Ok(f.value.n) else Err(f.error))
      ensures rsize == old(rsize) + Counted(IntKind, old(input.records))
    {
      var data, ok := ReadFull(8);
      rsize := rsize + |data|;
      if !ok {
        return Err(Eof);
      }
      return Ok(DecodeInt64(data));
    }

    /** A fresh bufio.Scanner, scanned once. */
    method ReadString() returns (r: Result<string, Error>)
      modifies `rsize, input`records
      ensures var (f, rest) := FieldRead(StrKind, old(input.records));
        input.records == rest && r == (if f.Ok? then Ok(f.value.s) else Err(f.error))
      ensures rsize == old(rsize) + Counted(StrKind, old(input.records))
    {
      var held, capacity := "", 0;
      ghost var was := input.records;
      while '\n' !in held
        invariant |held| <= capacity <= MAX_BUFFER && rsize == old(rsize)
        invariant StringRead(was) == Scanned(held, capacity, input.records)
        decreases |Flat(input.records)|, MAX_BUFFER - capacity
      {
        if |held| == capacity {
          if capacity >= MAX_BUFFER {
            return Err(TooLong);
          }
          capacity := Grown(capacity);
        } else {
          var data, eof := input.Read(capacity - |held|);
          if eof {
            rsize := rsize + |WithoutCarriageReturn(held)|;
            return Ok(WithoutCarriageReturn(held));
          }
          held := held + data;
        }
      }
      rsize := rsize + |FirstHeld(held)|;
      return Ok(FirstHeld(held));
    }

    /** io.CopyN of a received body: up to the announced bytes, read in pieces; of a negative size, none. */
    method CopyN(announced: Int64) returns (data: string, ok: bool)
      modifies `rsize, input`records
      ensures ok <==> announced <= |Flat(old(input.records))|
      ensures data == if ok then Flat(old(input.records))[..Wanted(announced)] else Flat(old(input.records))
      ensures input.records == FullRead(Wanted(announced), old(input.records)).1
      ensures rsize == old(rsize) + Counted(RawKind(Wanted(announced)), old(input.records))
    {
      var size := Wanted(announced);
      data, ok := "", true;
      ghost var was := input.records;
      NothingRead(was);
      while ok && |data| < size
        invariant |data| <= size && HasRead(was, data, input.records) && rsize == old(rsize) + |data|
        invariant !ok ==> |data| < size && input.records == []
        decreases size - |data|, if ok then 1 else 0
      {
        var room :| 1 <= room <= size - |data|;
        ghost var now := input.records;
        var piece, eof := Read(room);
        if eof {
          ok := false;
        } else {
          ReadOn(was, data, now, room);
          data := data + piece;
        }
      }
      ReadOut(was, data, input.records, size);
    }

    /** io.Copy of a received body: all there is up to the end of the connection, read in pieces. */
    method CopyAll() returns (data: string)
      modifies `rsize, input`records
      ensures data == Flat(old(input.records)) && input.records == []
      ensures rsize == old(rsize) + |data|
    {
      data := "";
      var done := false;
      ghost var was := input.records;
      NothingRead(was);
      while !done
        invariant HasRead(was, data, input.records) && rsize == old(rsize) + |data|
        invariant done ==> input.records == []
        decreases |Flat(was)| - |data|, if done then 0 else 1
      {
        var room: nat :| room > 0;
        ghost var now := input.records;
        var piece, eof := Read(room);
        if eof {
          done := true;
        } else {
          ReadOn(was, data, now, room);
          data := data + piece;
        }
      }
      ReadUp(was, data);
    }

    method WriteStatus(status: char) returns (ok: bool, ghost chunks: seq<Record>)
      modifies `wsize, output
      ensures Delivered(Tag(status), old(output.room), ok, chunks, output.room)
      ensures output.records == old(output.records) + chunks && wsize == old(wsize) + |Flat(chunks)|
    {
      ok, chunks := WriteByte(status);
    }

    /** Errors in writing are only logged. */
    method WriteError(message: string) returns (ghost sent: bool, ghost chunks: seq<Record>)
      modifies `wsize, output
      ensures MessageDelivered([Tag(REQUEST_FAILED), Str(message)], old(output.room), sent, chunks, output.room)
      ensures output.records == old(output.records) + chunks && wsize - old(wsize) == old(output.room) - output.room
      ensures Flat(chunks) == "" || Flat(chunks)[0] == REQUEST_FAILED
    {
      ghost var all, room := [Tag(REQUEST_FAILED), Str(message)], output.room;
      var ok;
      ghost var more;
      ok, chunks := WriteStatus(REQUEST_FAILED);
      FirstDelivered(all, room, ok, chunks, output.room);
      sent := ok;
      if !ok {
        OthersLeftUnsent(all, 1, room, chunks, output.room);
        return;
      }
      ghost var left := output.room;
      ok, more := WriteString(message);
      OneMoreDelivered(all, 1, room, chunks, left, ok, more, output.room);
      Associative(old(output.records), chunks, more);
      FlatAppend(chunks, more);
      chunks, sent := chunks + more, ok;
      AllDelivered(all, 2, room, ok, chunks, output.room);
    }

    method ReadStatus() returns (r: Status)
      modifies `rsize, `closed, input`records
      ensures (r, input.records) == StatusRead(old(input.records))
      ensures rsize == old(rsize) + StatusCounted(old(input.records))
      ensures closed <==> old(closed) || r != Accepted
    {
      var status := ReadByte();
      if status.Err? {
        closed := true;
        return Broken(status.error);
      }
      if status.value == REQUEST_OK {
        return Accepted;
      }
      closed := true;
      var message := ReadString();
      if message.Err? {
        return Broken(message.error);
      }
      return Refused(message.value);
    }
  }

  const REQUEST_OK := 1 as char
  const REQUEST_FAILED := 2 as char

  /** What ReadStatus tells its caller: no error, the error the peer sent, or one of its own. */
  datatype Status = Accepted | Refused(message: string) | Broken(error: Error)

  function StatusRead(records: seq<Record>): (Status, seq<Record>) {
    var (status, rest) := FieldRead(TagKind, records);
    if status.Err? then (Broken(status.error), rest)
    else if status.value.b == REQUEST_OK then (Accepted, rest)
    else
      var (message, end) := FieldRead(StrKind, rest);
      (if message.Err? then Broken(message.error) else Refused(message.value.s), end)
  }

  function StatusCounted(records: seq<Record>): int {
    var (status, rest) := FieldRead(TagKind, records);
    Counted(TagKind, records) + if status.Ok? && status.value.b != REQUEST_OK then Counted(StrKind, rest) else 0
  }

  lemma AcceptanceRoundTrip(chunks: seq<Record>, rest: seq<Record>)
    requires Chunks(chunks, Wire(Tag(REQUEST_OK)))
    ensures StatusRead(chunks + rest) == (Accepted, rest) && StatusCounted(chunks + rest) == |Flat(chunks)| == 1
  {
    FieldRoundTrip(Tag(REQUEST_OK), chunks, rest);
  }

  /** Nothing but an accepting status is read as acceptance. */
  lemma NoAcceptance(records: seq<Record>)
    requires Flat(records) == "" || Flat(records)[0] == REQUEST_FAILED
    ensures StatusRead(records).0 != Accepted
  {
  }

  lemma TwoUnderWay(f: Field, g: Field, chunks: seq<Record>) returns (first: seq<Record>, second: seq<Record>)
    requires UnderWay(chunks, [f, g])
    ensures chunks == first + second && Chunks(first, Wire(f)) && Chunks(second, Wire(g))
  {
    var writes :| Carried(writes, [f, g]) && chunks == Concat(writes);
    first, second := writes[0], writes[1];
    assert [f, g][0] == f && [f, g][1] == g;
    assert writes == [first, second];
    TwoWrites(first, second);
  }

  lemma RefusedRead(records: seq<Record>, behind: seq<Record>)
    requires FieldRead(TagKind, records) == (Ok(Tag(REQUEST_FAILED)), behind)
    ensures StatusRead(records).0 != Accepted && StatusRead(records).1 == FieldRead(StrKind, behind).1
    ensures forall message ::
      StatusRead(records).0 == Refused(message) <==> FieldRead(StrKind, behind).0 == Ok(Str(message))
  {
  }

  lemma RefusalInTwo(message: string, first: seq<Record>, second: seq<Record>, rest: seq<Record>, records: seq<Record>)
    requires Chunks(first, Wire(Tag(REQUEST_FAILED))) && Chunks(second, Wire(Str(message)))
    requires records == first + (second + rest)
    ensures StatusRead(records).0 != Accepted
    ensures StatusRead(records).0 == Refused(message) <==> Scannable(message)
    ensures Scannable(message) ==> StatusRead(records).1 == rest
  {
    FieldRoundTrip(Tag(REQUEST_FAILED), first, second + rest);
    RefusedRead(records, second + rest);
    FieldRoundTrip(Str(message), second, rest);
  }

  /** A refusal is never taken for acceptance, and its text arrives exactly when it is plain. */
  lemma RefusalRoundTrip(message: string, chunks: seq<Record>, rest: seq<Record>)
    requires UnderWay(chunks, [Tag(REQUEST_FAILED), Str(message)])
    ensures StatusRead(chunks + rest).0 != Accepted
    ensures StatusRead(chunks + rest).0 == Refused(message) <==> Scannable(message)
    ensures Scannable(message) ==> StatusRead(chunks + rest).1 == rest
  {
    var first, second := TwoUnderWay(Tag(REQUEST_FAILED), Str(message), chunks);
    Associative(first, second, rest);
    RefusalInTwo(message, first, second, rest, chunks + rest);
  }

  /** FStatRequest and FGetRequest differ in their type byte only. */
  class PathRequest {
    var path: string

    constructor (path: string)
      ensures this.path == path
    {
      this.path := path;
    }

    method Send(c: Conn) returns (ok: bool, ghost chunks: seq<Record>)
      modifies c`wsize, c.output
      ensures Delivered(Str(path), old(c.output.room), ok, chunks, c.output.room)
      ensures c.output.records == old(c.output.records) + chunks && c.wsize == old(c.wsize) + |Flat(chunks)|
    {
      ok, chunks := c.WriteString(path);
    }

    /** The path is set to "" when it cannot be read. */
    method Recv(c: Conn) returns (r: Result<(), Error>)
      modifies this, c`rsize, c.input`records
      ensures var (f, rest) := FieldRead(StrKind, old(c.input.records));
        && c.input.records == rest
        && r == (if f.Ok? then Ok(()) else Err(f.error))
        && path == (if f.Ok? then f.value.s else "")
      ensures c.rsize == old(c.rsize) + Counted(StrKind, old(c.input.records))
    {
      var s := c.ReadString();
      match s {
        case Ok(value) => path, r := value, Ok(());
        case Err(e) => path, r := "", Err(e);
      }
    }
  }

  /** FPutRequest, with the bytes its Body still hands out when it is sent. */
  class FPutRequest {
    var name: string
    var size: Int64
    var body: string
    var bodyClosed: bool

    constructor (name: string, size: Int64, body: string)
      ensures this.name == name && this.size == size && this.body == body && !bodyClosed
    {
      this.name, this.size, this.body, this.bodyClosed := name, size, body, false;
    }

    method Send(c: Conn) returns (ok: bool, ghost chunks: seq<Record>)
      modifies this`bodyClosed, c`wsize, c.output
      ensures bodyClosed
      ensures MessageDelivered([Str(name), Int(size), Raw(body)], old(c.output.room), ok, chunks, c.output.room)
      ensures c.output.records == old(c.output.records) + chunks
      ensures c.wsize - old(c.wsize) == old(c.output.room) - c.output.room
    {
      bodyClosed := true;
      ghost var all := [Str(name), Int(size), Raw(body)];
      ghost var was, room := c.output.records, c.output.room;
      ok, chunks := c.WriteString(name);
      ghost var left, more := c.output.room, [];
      FirstDelivered(all, room, ok, chunks, left);
      if !ok {
        OthersLeftUnsent(all, 1, room, chunks, left);
        return;
      }
      ok, more := c.WriteInt64(size);
      OneMoreDelivered(all, 1, room, chunks, left, ok, more, c.output.room);
      Associative(was, chunks, more);
      chunks, left := chunks + more, c.output.room;
      assert c.output.records == was + chunks;
      if !ok {
        OthersLeftUnsent(all, 2, room, chunks, left);
        return;
      }
      ok, more := c.CopyFrom(body);
      OneMoreDelivered(all, 2, room, chunks, left, ok, more, c.output.room);
      Associative(was, chunks, more);
      chunks, left := chunks + more, c.output.room;
      assert c.output.records == was + chunks;
      AllDelivered(all, 3, room, ok, chunks, left);
    }

    /** On success the body is the connection, from where it stands. */
    method Recv(c: Conn) returns (r: Result<(), Error>)
      modifies this, c`rsize, c.input`records
      ensures var (fields, rest) := FieldsRead([StrKind, IntKind], old(c.input.records));
        && c.input.records == rest
        && (fields.Ok? ==> r == Ok(()) && fields.value == [Str(name), Int(size)])
        && (fields.Err? ==> r == Err(fields.error))
      ensures c.rsize == old(c.rsize) + AllCounted([StrKind, IntKind], old(c.input.records))
    {
      FieldsReadFirst(StrKind, [IntKind], c.input.records);
      var s := c.ReadString();
      if s.Err? {
        name := "";
        return Err(s.error);
      }
      name := s.value;
      FieldsReadFirst(IntKind, [], c.input.records);
      var n := c.ReadInt64();
      if n.Err? {
        size := 0;
        return Err(n.error);
      }
      size := n.value;
      return Ok(());
    }
  }

  /** FGetResponse, with the bytes its Body still hands out when it is sent. */
  class FGetResponse {
    var name: string
    var mimeType: string
    var size: Int64
    var body: string
    var bodyClosed: bool

    constructor (name: string, mimeType: string, size: Int64, body: string)
      ensures this.name == name && this.mimeType == mimeType && this.size == size && this.body == body && !bodyClosed
    {
      this.name, this.mimeType, this.size, this.body, this.bodyClosed := name, mimeType, size, body, false;
    }

    method Send(c: Conn) returns (ok: bool, ghost chunks: seq<Record>)
      modifies this`bodyClosed, c`wsize, c.output
      ensures bodyClosed
      ensures MessageDelivered([Str(name), Str(mimeType), Int(size), Raw(body)], old(c.output.room), ok, chunks,
        c.output.room)
      ensures c.output.records == old(c.output.records) + chunks
      ensures c.wsize - old(c.wsize) == old(c.output.room) - c.output.room
    {
      bodyClosed := true;
      ghost var all := [Str(name), Str(mimeType), Int(size), Raw(body)];
      ghost var was, room := c.output.records, c.output.room;
      ok, chunks := c.WriteString(name);
      ghost var left, more := c.output.room, [];
      FirstDelivered(all, room, ok, chunks, left);
      if !ok {
        OthersLeftUnsent(all, 1, room, chunks, left);
        return;
      }
      ok, more := c.WriteString(mimeType);
      OneMoreDelivered(all, 1, room, chunks, left, ok, more, c.output.room);
      Associative(was, chunks, more);
      chunks, left := chunks + more, c.output.room;
      assert c.output.records == was + chunks;
      if !ok {
        OthersLeftUnsent(all, 2, room, chunks, left);
        return;
      }
      ok, more := c.WriteInt64(size);
      OneMoreDelivered(all, 2, room, chunks, left, ok, more, c.output.room);
      Associative(was, chunks, more);
      chunks, left := chunks + more, c.output.room;
      assert c.output.records == was + chunks;
      if !ok {
        OthersLeftUnsent(all, 3, room, chunks, left);
        return;
      }
      ok, more := c.CopyFrom(body);
      OneMoreDelivered(all, 3, room, chunks, left, ok, more, c.output.room);
      Associative(was, chunks, more);
      chunks, left := chunks + more, c.output.room;
      assert c.output.records == was + chunks;
      AllDelivered(all, 4, room, ok, chunks, left);
    }

    method Recv(c: Conn) returns (r: Result<(), Error>)
      modifies this, c`rsize, c.input`records
      ensures var (fields, rest) := FieldsRead([StrKind, StrKind, IntKind], old(c.input.records));
        && c.input.records == rest
        && (fields.Ok? ==> r == Ok(()) && fields.value == [Str(name), Str(mimeType), Int(size)])
        && (fields.Err? ==> r == Err(fields.error))
      ensures c.rsize == old(c.rsize) + AllCounted([StrKind, StrKind, IntKind], old(c.input.records))
    {
      FieldsReadFirst(StrKind, [StrKind, IntKind], c.input.records);
      var s := c.ReadString();
      if s.Err? {
        name := "";
        return Err(s.error);
      }
      name := s.value;
      FieldsReadFirst(StrKind, [IntKind], c.input.records);
      s := c.ReadString();
      if s.Err? {
        mimeType := "";
        return Err(s.error);
      }
      mimeType := s.value;
      FieldsReadFirst(IntKind, [], c.input.records);
      var n := c.ReadInt64();
      if n.Err? {
        size := 0;
        return Err(n.error);
      }
      size := n.value;
      return Ok(());
    }
  }

  // ---- from one end of a connection to the other

  /** A message as it stands on the wire and as it is read there, fields first and then the body. */
  lemma Arrives(head: seq<Field>, all: seq<Field>, kinds: seq<Kind>, body: string, chunks: seq<Record>)
    requires UnderWay(chunks, all) && all == head + [Raw(body)] && kinds == Kinds(head)
    ensures FieldsRead(kinds, chunks).0 == Ok(head) <==> AllPlain(head)
    ensures AllPlain(head) ==> Flat(FieldsRead(kinds, chunks).1) == body
    ensures AllPlain(head) ==> FullRead(|body|, FieldsRead(kinds, chunks).1) == (Ok(body), [])
    ensures AllPlain(head) ==> |Flat(chunks)| == AllCounted(kinds, chunks) + |body| + Strings(head)
  {
    MessageRoundTrip(head, body, chunks, []);
    assert chunks + [] == chunks;
    if AllPlain(head) {
      var behind := FieldsRead(kinds, chunks).1;
      assert Flat(Dropped(behind, |body|)) == Flat(behind)[|body|..];
    }
  }

  lemma HeadOfOneMore(f: Field, fields: seq<Field>, all: seq<Field>)
    requires all == [f] + fields
    ensures Kinds(all) == [KindOf(f)] + Kinds(fields) && (AllPlain(all) <==> Plain(f) && AllPlain(fields))
    ensures Strings(all) == (if f.Str? then 1 else 0) + Strings(fields)
  {
    AllPlainOneByOne(f, fields);
    StringsFirst(f, fields);
    assert all[1..] == fields;
  }

  lemma PutHead(name: string, size: Int64)
    ensures var head := [Str(name), Int(size)];
      Kinds(head) == [StrKind, IntKind] && (AllPlain(head) <==> Scannable(name)) && Strings(head) == 1
  {
    HeadOfOneMore(Int(size), [], [Int(size)]);
    HeadOfOneMore(Str(name), [Int(size)], [Str(name), Int(size)]);
  }

  lemma GetHead(name: string, mimeType: string, size: Int64)
    ensures var head := [Str(name), Str(mimeType), Int(size)];
      && Kinds(head) == [StrKind, StrKind, IntKind] && Strings(head) == 2
      && (AllPlain(head) <==> Scannable(name) && Scannable(mimeType))
  {
    PutHead(mimeType, size);
    HeadOfOneMore(Str(name), [Str(mimeType), Int(size)], [Str(name), Str(mimeType), Int(size)]);
  }

  lemma GetArrives(name: string, mimeType: string, size: Int64, body: string, chunks: seq<Record>)
    requires UnderWay(chunks, [Str(name), Str(mimeType), Int(size), Raw(body)])
    ensures var (fields, rest) := FieldsRead([StrKind, StrKind, IntKind], chunks);
      && (fields == Ok([Str(name), Str(mimeType), Int(size)]) <==> Scannable(name) && Scannable(mimeType))
      && (Scannable(name) && Scannable(mimeType) ==>
            && Flat(rest) == body && FullRead(|body|, rest) == (Ok(body), [])
            && |Flat(chunks)| == AllCounted([StrKind, StrKind, IntKind], chunks) + Counted(RawKind(|body|), rest) + 2)
  {
    GetHead(name, mimeType, size);
    Arrives([Str(name), Str(mimeType), Int(size)], [Str(name), Str(mimeType), Int(size), Raw(body)],
            [StrKind, StrKind, IntKind], body, chunks);
  }

  lemma PutArrives(name: string, size: Int64, body: string, chunks: seq<Record>)
    requires UnderWay(chunks, [Str(name), Int(size), Raw(body)])
    ensures var (fields, rest) := FieldsRead([StrKind, IntKind], chunks);
      && (fields == Ok([Str(name), Int(size)]) <==> Scannable(name))
      && (Scannable(name) ==>
            && Flat(rest) == body && FullRead(|body|, rest) == (Ok(body), [])
            && |Flat(chunks)| == AllCounted([StrKind, IntKind], chunks) + Counted(RawKind(|body|), rest) + 1)
  {
    PutHead(name, size);
    Arrives([Str(name), Int(size)], [Str(name), Int(size), Raw(body)], [StrKind, IntKind], body, chunks);
  }

  /** WriteResponse with a file: an accepting status, then the response. */
  method WriteResponse(c: Conn, res: FGetResponse)
    returns (ok: bool, ghost status: seq<Record>, ghost chunks: seq<Record>)
    modifies res`bodyClosed, c`wsize, c.output
    ensures var fields := [Str(res.name), Str(res.mimeType), Int(res.size), Raw(res.body)];
      && (ok <==> 1 + WireLength(fields) <= old(c.output.room))
      && (ok ==> Chunks(status, Wire(Tag(REQUEST_OK))) && UnderWay(chunks, fields))
    ensures c.output.records == old(c.output.records) + (status + chunks)
    ensures c.wsize - old(c.wsize) == |Flat(status)| + |Flat(chunks)| == old(c.output.room) - c.output.room
  {
    chunks := [];
    ghost var was := c.output.records;
    ok, status := c.WriteStatus(REQUEST_OK);
    assert status + [] == status;
    if ok {
      ok, chunks := res.Send(c);
      Associative(was, status, chunks);
    }
  }

  /** What the fetching end makes of the records on the connection, and the bytes it counts for it. */
  ghost predicate ResponseRead(records: seq<Record>, name: string, mimeType: string, size: Int64, data: string,
                               ok: bool,
                               counted: int) {
    var (status, behind) := StatusRead(records);
    var (fields, rest) := FieldsRead([StrKind, StrKind, IntKind], behind);
    && (ok <==> status == Accepted && fields.Ok?)
    && (!ok ==> data == "")
    && (ok ==>
          && fields.value == [Str(name), Str(mimeType), Int(size)] && data == Flat(rest)
          && counted == StatusCounted(records) + AllCounted([StrKind, StrKind, IntKind], behind) + |data|)
  }

  /** The fetching end: the status, the fields, and then everything up to the end of the connection, whatever size they
      announce. The connection is closed in the end. */
  method ReceiveGet(c: Conn) returns (got: FGetResponse, data: string, ok: bool)
    modifies c`rsize, c`closed, c.input`records
    ensures fresh(got) && c.closed
    ensures ResponseRead(old(c.input.records), got.name, got.mimeType, got.size, data, ok, c.rsize - old(c.rsize))
    ensures ok ==> c.input.records == []
  {
    got := new FGetResponse("", "", 0, "");
    var status := c.ReadStatus();
    if status != Accepted {
      return got, "", false;
    }
    var r := got.Recv(c);
    ok := r.Ok?;
    data := "";
    if ok {
      data := c.CopyAll();
    }
    c.closed := true;
  }

  /** What the end that takes an upload makes of the records on the connection. */
  ghost predicate UploadRead(records: seq<Record>, name: string, size: Int64, data: string, ok: bool, counted: int,
                             left: seq<Record>) {
    var (fields, rest) := FieldsRead([StrKind, IntKind], records);
    && (fields.Err? ==> !ok && data == "")
    && (fields.Ok? ==>
          && fields.value == [Str(name), Int(size)]
          && (ok <==> size <= |Flat(rest)|)
          && data == (if ok then Flat(rest)[..Wanted(size)] else Flat(rest))
          && left == FullRead(Wanted(size), rest).1
          && counted == AllCounted([StrKind, IntKind], records) + Counted(RawKind(Wanted(size)), rest))
  }

  /** The end that takes an upload; opens tells whether the file can be created once its name is known. */
  method ReceivePut(c: Conn, opens: bool) returns (got: FPutRequest, data: string, ok: bool)
    modifies c`rsize, c.input`records
    ensures fresh(got)
    ensures opens ==>
      UploadRead(old(c.input.records), got.name, got.size, data, ok, c.rsize - old(c.rsize), c.input.records)
    ensures !opens ==> !ok && data == "" && c.input.records == FieldsRead([StrKind, IntKind], old(c.input.records)).1
    ensures !opens ==> c.rsize == old(c.rsize) + AllCounted([StrKind, IntKind], old(c.input.records))
  {
    got := new FPutRequest("", 0, "");
    data, ok := "", false;
    var r := got.Recv(c);
    if r.Ok? && opens {
      data, ok := c.CopyN(got.size);
    }
  }

  /** The server's answer to an upload: acceptance if all of it was received and the file is in place, where owned tells
      whether it could be handed to the desktop's user; else the message of what failed. */
  method HandlePut(c: Conn, opens: bool, owned: bool, message: string)
    returns (got: FPutRequest, data: string, received: bool, stored: bool, ghost answer: seq<Record>)
    requires c.input != c.output
    modifies c`rsize, c`wsize, c`closed, c.input`records, c.output
    ensures fresh(got) && c.closed && (stored <==> received && owned)
    ensures opens ==>
      UploadRead(old(c.input.records), got.name, got.size, data, received, c.rsize - old(c.rsize), c.input.records)
    ensures !opens ==> !received && data == ""
    ensures c.output.records == old(c.output.records) + answer
    ensures c.wsize - old(c.wsize) == old(c.output.room) - c.output.room
    ensures StatusRead(answer).0 == Accepted <==> stored && old(c.output.room) > 0
    ensures StatusRead(answer).0 == Accepted ==>
      StatusRead(answer).1 == [] && StatusCounted(answer) == 1 == c.wsize - old(c.wsize)
  {
    got, data, received := ReceivePut(c, opens);
    stored := received && owned;
    if stored {
      var ok;
      ok, answer := c.WriteStatus(REQUEST_OK);
      assert answer + [] == answer;
      if ok {
        AcceptanceRoundTrip(answer, []);
      } else {
        NoAcceptance(answer);
      }
    } else {
      ghost var sent;
      sent, answer := c.WriteError(message);
      NoAcceptance(answer);
    }
    c.closed := true;
  }

  lemma ResponseArrives(res: FGetResponse, status: seq<Record>, chunks: seq<Record>, name: string, mimeType: string,
                        size: Int64, data: string, ok: bool, counted: int)
    requires Chunks(status, Wire(Tag(REQUEST_OK)))
    requires UnderWay(chunks, [Str(res.name), Str(res.mimeType), Int(res.size), Raw(res.body)])
    requires ResponseRead(status + chunks, name, mimeType, size, data, ok, counted)
    ensures ok && name == res.name && mimeType == res.mimeType && size == res.size && data == res.body
         <==> Scannable(res.name) && Scannable(res.mimeType)
    ensures Scannable(res.name) && Scannable(res.mimeType) ==> |Flat(status)| + |Flat(chunks)| == counted + 2
  {
    AcceptanceRoundTrip(status, chunks);
    GetArrives(res.name, res.mimeType, res.size, res.body, chunks);
    var rest := FieldsRead([StrKind, StrKind, IntKind], chunks).1;
    assert Scannable(res.name) && Scannable(res.mimeType) ==> Counted(RawKind(|res.body|), rest) == |res.body|;
  }

  /** A file fetched: the response goes out at one end, and fields and body come in at the other. What comes in is what
      went out if and only if name and type are plain, whatever size is announced for the body. */
  method GetFile(sender: Conn, res: FGetResponse, receiver: Conn)
    returns (sent: bool, got: FGetResponse, data: string, ok: bool)
    requires receiver.input == sender.output && sender.output.records == []
    modifies res`bodyClosed, sender`wsize, sender.output, receiver`rsize, receiver`closed
    ensures var fields := [Str(res.name), Str(res.mimeType), Int(res.size), Raw(res.body)];
      sent <==> 1 + WireLength(fields) <= old(sender.output.room)
    ensures fresh(got) && receiver.closed
    ensures sent ==>
      (ok && got.name == res.name && got.mimeType == res.mimeType && got.size == res.size && data == res.body
       <==> Scannable(res.name) && Scannable(res.mimeType))
    ensures sent && Scannable(res.name) && Scannable(res.mimeType) ==>
      sender.output.records == [] && sender.wsize - old(sender.wsize) == receiver.rsize - old(receiver.rsize) + 2
  {
    ghost var status, chunks;
    sent, status, chunks := WriteResponse(sender, res);
    assert [] + (status + chunks) == status + chunks;
    got, data, ok := ReceiveGet(receiver);
    if sent {
      ResponseArrives(res, status, chunks, got.name, got.mimeType, got.size, data, ok,
        receiver.rsize - old(receiver.rsize));
    }
  }

  lemma UploadArrives(req: FPutRequest, chunks: seq<Record>, name: string, size: Int64, data: string, ok: bool,
                      counted: int, left: seq<Record>)
    requires UnderWay(chunks, [Str(req.name), Int(req.size), Raw(req.body)])
    requires UploadRead(chunks, name, size, data, ok, counted, left)
    ensures ok && name == req.name && size == req.size && data == req.body
       <==> Scannable(req.name) && Wanted(req.size) == |req.body|
    ensures Scannable(req.name) ==>
      && name == req.name && size == req.size && (ok <==> req.size <= |req.body|)
      && data == (if ok then req.body[..Wanted(req.size)] else req.body)
    ensures Scannable(req.name) && Wanted(req.size) == |req.body| ==> left == [] && |Flat(chunks)| == counted + 1
  {
    PutArrives(req.name, req.size, req.body, chunks);
  }

  /** A file uploaded, and the answer read back. The client is told success if and only if its upload went out in full,
      the server stored it, and the answer came through. Under a plain name the server stores it if and only if the
      announced size is no more than the body's, and then stores that much of it: all of it when the sizes agree. */
  method PutFile(client: Conn, req: FPutRequest, server: Conn, opens: bool, owned: bool, message: string)
    returns (told: bool, sent: bool, got: FPutRequest, data: string, stored: bool)
    requires server.input == client.output && client.output.records == []
    requires client.input == server.output && server.output.records == [] && client.output != server.output
    modifies req`bodyClosed, client`wsize, client.output, server`rsize, server`closed, server`wsize, server.output
    modifies client`rsize, client`closed
    ensures sent <==> WireLength([Str(req.name), Int(req.size), Raw(req.body)]) <= old(client.output.room)
    ensures fresh(got) && client.closed && server.closed
    ensures told <==> sent && stored && old(server.output.room) > 0
    ensures sent && Scannable(req.name) ==> (stored <==> opens && owned && req.size <= |req.body|)
    ensures sent && Scannable(req.name) && stored ==>
      got.name == req.name && got.size == req.size && data == req.body[..Wanted(req.size)]
    ensures sent ==>
      (stored && got.name == req.name && got.size == req.size && data == req.body
       <==> opens && owned && Scannable(req.name) && Wanted(req.size) == |req.body|)
    ensures told && Scannable(req.name) && Wanted(req.size) == |req.body| ==>
      && client.output.records == [] && server.output.records == []
      && client.wsize - old(client.wsize) == server.rsize - old(server.rsize) + 1
      && server.wsize - old(server.wsize) == client.rsize - old(client.rsize) == 1
  {
    ghost var chunks, answer;
    sent, chunks := req.Send(client);
    assert [] + chunks == chunks;
    var received;
    got, data, received, stored, answer := HandlePut(server, opens, owned, message);
    if sent && opens {
      UploadArrives(req, chunks, got.name, got.size, data, received, server.rsize - old(server.rsize),
                    server.input.records);
    }
    assert [] + answer == answer;
    var status := client.ReadStatus();
    told := status == Accepted && sent;
    client.closed := true;
  }
}
