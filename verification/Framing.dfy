/** What pkg/proxyproto puts on the wire and takes off it, over a transport like TLS: a write travels as one or more
    records, and a read hands out bytes of one record only. Bytes are characters below 256. */
module Framing {
  import opened Wrappers
  import opened Text

  type Record = r: string | r != "" witness "-"

  function Flat(records: seq<Record>): string {
    if records == [] then "" else records[0] + Flat(records[1..])
  }

  /** The records one write of p can travel as. */
  predicate Chunks(records: seq<Record>, p: string) {
    Flat(records) == p
  }

  lemma {:induction false} FlatAppend(a: seq<Record>, b: seq<Record>)
    ensures Flat(a + b) == Flat(a) + Flat(b)
  {
    if a == [] {
      assert a + b == b;
    } else {
      assert (a + b)[1..] == a[1..] + b;
      FlatAppend(a[1..], b);
    }
  }

  /** What is left of the records when n bytes have been read. */
  function Dropped(records: seq<Record>, n: nat): (r: seq<Record>)
    requires n <= |Flat(records)|
    ensures Flat(r) == Flat(records)[n..]
  {
    if n == 0 then records
    else if n < |records[0]| then
      assert Flat([records[0][n..]] + records[1..]) == Flat(records)[n..];
      [records[0][n..]] + records[1..]
    else
      assert Flat(records)[n..] == Flat(records[1..])[n - |records[0]|..];
      Dropped(records[1..], n - |records[0]|)
  }

  lemma {:induction false} DroppedTwice(records: seq<Record>, a: nat, b: nat)
    requires a + b <= |Flat(records)|
    ensures Dropped(Dropped(records, a), b) == Dropped(records, a + b)
  {
    if a != 0 && b != 0 {
      if a < |records[0]| {
        var rest := [records[0][a..]] + records[1..];
        assert rest[1..] == records[1..];
        if a + b < |records[0]| {
          assert records[0][a..][b..] == records[0][a + b..];
        }
      } else {
        DroppedTwice(records[1..], a - |records[0]|, b);
      }
    }
  }

  /** Reading a whole write leaves the writes behind it untouched. */
  lemma {:induction false} DroppedWrite(chunks: seq<Record>, rest: seq<Record>)
    ensures |Flat(chunks)| <= |Flat(chunks + rest)|
    ensures Dropped(chunks + rest, |Flat(chunks)|) == rest
  {
    FlatAppend(chunks, rest);
    if chunks == [] {
      assert chunks + rest == rest;
    } else {
      assert (chunks + rest)[1..] == chunks[1..] + rest;
      DroppedWrite(chunks[1..], rest);
    }
  }

  /** What one read takes when there is room for so many bytes. */
  function OneRead(records: seq<Record>, room: nat): (data: string)
    requires records != []
    ensures |data| <= |Flat(records)| && data + Flat(Dropped(records, |data|)) == Flat(records)
    ensures room > 0 ==> |data| > 0
  {
    if |records[0]| <= room then records[0] else records[0][..room]
  }

  // ---- strings: a fresh bufio.Scanner for each

  const START_BUFFER := 4096
  const MAX_BUFFER := 65536

  datatype Error = TooLong | Eof

  function Grown(capacity: nat): nat {
    if capacity == 0 then START_BUFFER else if 2 * capacity < MAX_BUFFER then 2 * capacity else MAX_BUFFER
  }

  function FirstHeld(held: string): string {
    WithoutCarriageReturn(held[..LineLength(held)])
  }

  /** Scan with held in a buffer of the given capacity. Whatever is held beyond the line is lost with the scanner. */
  function Scanned(held: string, capacity: nat, records: seq<Record>): (r: (Result<string, Error>, seq<Record>))
    requires |held| <= capacity <= MAX_BUFFER
    decreases |Flat(records)|, MAX_BUFFER - capacity
  {
    if '\n' in held then (Ok(FirstHeld(held)), records)
    else if |held| == capacity then
      if capacity == MAX_BUFFER then (Err(TooLong), records) else Scanned(held, Grown(capacity), records)
    else if records == [] then (Ok(WithoutCarriageReturn(held)), records)
    else
      var data := OneRead(records, capacity - |held|);
      Scanned(held + data, capacity, Dropped(records, |data|))
  }

  function StringRead(records: seq<Record>): (r: (Result<string, Error>, seq<Record>))
  {
    Scanned("", 0, records)
  }

  /** The first line of a text, to the scanner. */
  function FirstLine(text: string): Result<string, Error> {
    if LineLength(text) > MAX_LINE then Err(TooLong) else Ok(WithoutCarriageReturn(text[..LineLength(text)]))
  }

  lemma {:induction false} LineLengthAppend(a: string, b: string)
    ensures '\n' in a ==> LineLength(a + b) == LineLength(a) < |a|
    ensures '\n' !in a ==> LineLength(a + b) == |a| + LineLength(b)
  {
    if a == "" {
      assert a + b == b;
    } else {
      assert (a + b)[1..] == a[1..] + b;
      LineLengthAppend(a[1..], b);
      assert a == [a[0]] + a[1..];
    }
  }

  /** However the text is cut into records, the scanner hands out its first line. */
  lemma {:induction false} ScannedIsFirstLine(held: string, capacity: nat, records: seq<Record>)
    requires |held| <= capacity <= MAX_BUFFER
    ensures Scanned(held, capacity, records).0 == FirstLine(held + Flat(records))
    decreases |Flat(records)|, MAX_BUFFER - capacity
  {
    if '\n' in held {
      FirstLineHeld(held, Flat(records));
    } else if |held| == capacity {
      if capacity == MAX_BUFFER {
        LineLengthAppend(held, Flat(records));
      } else {
        ScannedIsFirstLine(held, Grown(capacity), records);
      }
    } else if records == [] {
      LastLine(held);
    } else {
      var data := OneRead(records, capacity - |held|);
      var left := Dropped(records, |data|);
      assert held + Flat(records) == (held + data) + Flat(left);
      ScannedIsFirstLine(held + data, capacity, left);
    }
  }

  lemma FirstLineHeld(held: string, more: string)
    requires '\n' in held && |held| <= MAX_BUFFER
    ensures FirstLine(held + more) == Ok(FirstHeld(held))
  {
    LineLengthAppend(held, more);
    assert (held + more)[..LineLength(held)] == held[..LineLength(held)];
  }

  lemma LastLine(held: string)
    requires '\n' !in held && |held| < MAX_BUFFER
    ensures FirstLine(held + "") == Ok(WithoutCarriageReturn(held))
  {
    LineLengthAppend(held, "");
    assert held + "" == held && held[..|held|] == held;
  }

  /** A read takes no more than one write, whatever is behind it. */
  lemma ReadStaysInWrite(chunks: seq<Record>, rest: seq<Record>, room: nat)
    requires chunks != []
    ensures OneRead(chunks + rest, room) == OneRead(chunks, room)
    ensures Dropped(chunks + rest, |OneRead(chunks, room)|) == Dropped(chunks, |OneRead(chunks, room)|) + rest
  {
    assert (chunks + rest)[1..] == chunks[1..] + rest;
    var data := OneRead(chunks, room);
    if data == chunks[0] {
      assert Dropped(chunks, |data|) == chunks[1..];
      assert Dropped(chunks + rest, |data|) == chunks[1..] + rest;
    }
  }

  lemma NewlineAtTheEnd(held: string, more: string, line: string)
    requires '\n' !in line && held + more == line + ['\n']
    ensures '\n' in held <==> more == ""
    ensures more == "" ==> FirstHeld(held) == WithoutCarriageReturn(line)
  {
    if more == "" {
      assert held == line + ['\n'] + "" && held[|line|] == '\n';
      LineLengthIs(line, "");
      assert held[..|line|] == line;
    } else {
      assert held == (held + more)[..|held|] == line[..|held|];
    }
  }

  /** A line that fills its write to the newline takes that write off the wire and nothing else. */
  lemma {:induction false} ScannedTakesItsWrite(held: string, capacity: nat, chunks: seq<Record>, rest: seq<Record>,
                                                line: string)
    requires |held| <= capacity <= MAX_BUFFER
    requires '\n' !in line && |line| <= MAX_LINE && held + Flat(chunks) == line + ['\n']
    ensures Scanned(held, capacity, chunks + rest) == (Ok(WithoutCarriageReturn(line)), rest)
    decreases |Flat(chunks)|, MAX_BUFFER - capacity
  {
    NewlineAtTheEnd(held, Flat(chunks), line);
    if chunks == [] {
      assert chunks + rest == rest;
    } else {
      assert |Flat(chunks)| >= |chunks[0]| > 0;
      if |held| == capacity {
        ScannedTakesItsWrite(held, Grown(capacity), chunks, rest, line);
      } else {
        var data := OneRead(chunks, capacity - |held|);
        var left := Dropped(chunks, |data|);
        ReadStaysInWrite(chunks, rest, capacity - |held|);
        assert held + Flat(chunks) == (held + data) + Flat(left);
        ScannedTakesItsWrite(held + data, capacity, left, rest, line);
      }
    }
  }

  lemma LinesComeBack(s: string, more: string)
    ensures FirstLine(s + ['\n'] + more) == Ok(s) <==> Scannable(s)
  {
    if '\n' in s {
      LineLengthAppend(s, ['\n'] + more);
      assert s + ['\n'] + more == s + (['\n'] + more);
    } else {
      LineLengthIs(s, more);
      assert (s + ['\n'] + more)[..|s|] == s;
    }
  }

  /** A string comes back as it was sent exactly when it has no newline, no carriage return at its end and at most
      MAX_LINE bytes; then the writes behind it are intact. */
  lemma StringRoundTrip(s: string, chunks: seq<Record>, rest: seq<Record>)
    requires Chunks(chunks, s + ['\n'])
    ensures StringRead(chunks + rest).0 == Ok(s) <==> Scannable(s)
    ensures Scannable(s) ==> StringRead(chunks + rest).1 == rest
  {
    ScannedIsFirstLine("", 0, chunks + rest);
    FlatAppend(chunks, rest);
    assert "" + Flat(chunks + rest) == s + ['\n'] + Flat(rest);
    LinesComeBack(s, Flat(rest));
    if Scannable(s) {
      assert "" + Flat(chunks) == s + ['\n'];
      ScannedTakesItsWrite("", 0, chunks, rest, s);
    }
  }

  // ---- 64-bit integers, little-endian two's complement

  const TWO_63 := 0x8000_0000_0000_0000
  const TWO_64 := 0x1_0000_0000_0000_0000

  type Int64 = n: int | -TWO_63 <= n < TWO_63

  function LittleEndian(u: nat, size: nat): (b: string)
    ensures |b| == size
  {
    if size == 0 then "" else [(u % 256) as char] + LittleEndian(u / 256, size - 1)
  }

  function Byte(c: char): nat {
    (c as int) % 256
  }

  function FromLittleEndian(b: string): nat {
    if b == "" then 0 else Byte(b[0]) + 256 * FromLittleEndian(b[1..])
  }

  function Power256(k: nat): (p: nat)
    ensures p > 0
  {
    if k == 0 then 1 else 256 * Power256(k - 1)
  }

  lemma {:induction false} FromLittleEndianBound(b: string)
    ensures FromLittleEndian(b) < Power256(|b|)
  {
    if b != "" {
      FromLittleEndianBound(b[1..]);
    }
  }

  lemma {:induction false} LittleEndianRoundTrip(u: nat, size: nat)
    requires u < Power256(size)
    ensures FromLittleEndian(LittleEndian(u, size)) == u
  {
    if size > 0 {
      LittleEndianRoundTrip(u / 256, size - 1);
      assert LittleEndian(u, size)[1..] == LittleEndian(u / 256, size - 1);
    }
  }

  /** The lowest byte comes first. */
  lemma {:induction false} LittleEndianAt(u: nat, size: nat, k: nat)
    requires k < size
    ensures LittleEndian(u, size)[k] as int == (u / Power256(k)) % 256
  {
    if k > 0 {
      LittleEndianAt(u / 256, size - 1, k - 1);
      assert LittleEndian(u, size)[k] == LittleEndian(u / 256, size - 1)[k - 1];
      DividedTwice(u, Power256(k - 1));
    }
  }

  lemma DividedTwice(u: nat, b: nat)
    requires b > 0
    ensures (u / 256) / b == u / (256 * b)
  {
    var v := u / 256;
    var q, r := v / b, v % b;
    assert v == b * q + r;
    assert 256 * (b * q) == (256 * b) * q;
    Quotient(u, 256 * b, q, 256 * r + u % 256);
  }

  lemma Multiples(a: int, x: int)
    requires a > 0
    ensures x >= 1 ==> a * x >= a
    ensures x <= -1 ==> a * x <= 0 - a
  {
  }

  lemma Quotient(u: nat, a: nat, q: nat, r: nat)
    requires r < a && u == a * q + r
    ensures u / a == q
  {
    var d := u / a;
    assert u == a * d + u % a;
    Multiples(a, q - d);
    assert a * (q - d) == a * q - a * d;
  }

  lemma EightBytes()
    ensures Power256(8) == TWO_64
  {
    assert Power256(4) == 0x1_0000_0000;
  }

  /** uint64(num), then PutUint64. */
  function EncodeInt64(n: Int64): (b: string)
    ensures |b| == 8
  {
    LittleEndian(if n < 0 then n + TWO_64 else n, 8)
  }

  /** Uint64, then int64(). */
  function DecodeInt64(b: string): Int64
    requires |b| == 8
  {
    FromLittleEndianBound(b);
    EightBytes();
    var u := FromLittleEndian(b);
    if u >= TWO_63 then u - TWO_64 else u
  }

  /** On the wire a number is its two's complement, the lowest byte first. */
  lemma Int64OnTheWire(n: Int64, k: nat)
    requires k < 8
    ensures EncodeInt64(n)[k] as int == ((if n < 0 then n + 0x1_0000_0000_0000_0000 else n) / Power256(k)) % 256
  {
    LittleEndianAt(if n < 0 then n + TWO_64 else n, 8, k);
  }

  lemma Int64RoundTrip(n: Int64)
    ensures DecodeInt64(EncodeInt64(n)) == n
  {
    EightBytes();
    LittleEndianRoundTrip(if n < 0 then n + TWO_64 else n, 8);
  }

  /** io.ReadFull: size bytes, or what there is and an error. */
  function FullRead(size: nat, records: seq<Record>): (r: (Result<string, Error>, seq<Record>))
    ensures r.0.Ok? ==> |r.0.value| == size
  {
    if |Flat(records)| < size then (Err(Eof), [])
    else (Ok(Flat(records)[..size]), Dropped(records, size))
  }

  // ---- messages as lists of fields

  /** A type or status byte, an argument, a size, or a body whose length the reader knows. */
  datatype Field = Tag(b: char) | Str(s: string) | Int(n: Int64) | Raw(p: string)

  datatype Kind = TagKind | StrKind | IntKind | RawKind(size: nat)

  function KindOf(f: Field): Kind {
    match f
    case Tag(_) => TagKind
    case Str(_) => StrKind
    case Int(_) => IntKind
    case Raw(p) => RawKind(|p|)
  }

  function Kinds(fields: seq<Field>): seq<Kind> {
    if fields == [] then [] else [KindOf(fields[0])] + Kinds(fields[1..])
  }

  /** The bytes of the write a field is sent as. */
  function Wire(f: Field): string {
    match f
    case Tag(b) => [b]
    case Str(s) => s + ['\n']
    case Int(n) => EncodeInt64(n)
    case Raw(p) => p
  }

  function FieldRead(kind: Kind, records: seq<Record>): (r: (Result<Field, Error>, seq<Record>))
  {
    match kind
    case TagKind =>
      var (b, rest) := FullRead(1, records);
      (if b.Ok? then Ok(Tag(b.value[0])) else Err(b.error), rest)
    case StrKind =>
      var (s, rest) := StringRead(records);
      (if s.Ok? then Ok(Str(s.value)) else Err(s.error), rest)
    case IntKind =>
      var (b, rest) := FullRead(8, records);
      (if b.Ok? then Ok(Int(DecodeInt64(b.value))) else Err(b.error), rest)
    case RawKind(size) =>
      var (b, rest) := FullRead(size, records);
      (if b.Ok? then Ok(Raw(b.value)) else Err(b.error), rest)
  }

  /** One field after the other, to the first error. */
  function FieldsRead(kinds: seq<Kind>, records: seq<Record>): (r: (Result<seq<Field>, Error>, seq<Record>))
  {
    if kinds == [] then (Ok([]), records)
    else
      var (first, rest) := FieldRead(kinds[0], records);
      if first.Err? then (Err(first.error), rest)
      else
        var (others, end) := FieldsRead(kinds[1..], rest);
        (if others.Err? then others else Ok([first.value] + others.value), end)
  }

  /** The fields that survive the wire. */
  predicate Plain(f: Field) {
    f.Str? ==> Scannable(f.s)
  }

  function Concat(writes: seq<seq<Record>>): seq<Record> {
    if writes == [] then [] else writes[0] + Concat(writes[1..])
  }

  /** Each field is one write, cut into records in some way. */
  predicate Carried(writes: seq<seq<Record>>, fields: seq<Field>) {
    |writes| == |fields| && forall i :: 0 <= i < |fields| ==> Chunks(writes[i], Wire(fields[i]))
  }

  lemma {:induction false} ConcatAppend(writes: seq<seq<Record>>, chunks: seq<Record>)
    ensures Concat(writes + [chunks]) == Concat(writes) + chunks
  {
    if writes == [] {
      assert (writes + [chunks])[1..] == [];
    } else {
      assert (writes + [chunks])[1..] == writes[1..] + [chunks];
      ConcatAppend(writes[1..], chunks);
    }
  }

  lemma OneWrite(chunks: seq<Record>)
    ensures Concat([chunks]) == chunks
  {
    ConcatAppend([], chunks);
    assert [] + [chunks] == [chunks];
  }

  lemma TwoWrites(a: seq<Record>, b: seq<Record>)
    ensures Concat([a, b]) == a + b
  {
    OneWrite(a);
    ConcatAppend([a], b);
  }

  lemma FullReadTakesItsWrite(chunks: seq<Record>, rest: seq<Record>)
    ensures FullRead(|Flat(chunks)|, chunks + rest) == (Ok(Flat(chunks)), rest)
  {
    FlatAppend(chunks, rest);
    DroppedWrite(chunks, rest);
    assert (Flat(chunks) + Flat(rest))[..|Flat(chunks)|] == Flat(chunks);
  }

  lemma FieldRoundTrip(f: Field, chunks: seq<Record>, rest: seq<Record>)
    requires Chunks(chunks, Wire(f))
    ensures FieldRead(KindOf(f), chunks + rest).0 == Ok(f) <==> Plain(f)
    ensures Plain(f) ==> FieldRead(KindOf(f), chunks + rest).1 == rest
  {
    match f
    case Tag(b) => FullReadTakesItsWrite(chunks, rest);
    case Str(s) => StringRoundTrip(s, chunks, rest);
    case Int(n) =>
      FullReadTakesItsWrite(chunks, rest);
      Int64RoundTrip(n);
    case Raw(p) => FullReadTakesItsWrite(chunks, rest);
  }

  /** Reading a list of fields is reading the first and then the others. */
  lemma FirstThenOthers(f: Field, fields: seq<Field>, records: seq<Record>)
    ensures var (first, rest) := FieldRead(KindOf(f), records);
      var (others, end) := FieldsRead(Kinds(fields), rest);
      FieldsRead(Kinds([f] + fields), records).0 == Ok([f] + fields) <==> first == Ok(f) && others == Ok(fields)
    ensures var (first, rest) := FieldRead(KindOf(f), records);
      first.Ok? ==> FieldsRead(Kinds([f] + fields), records).1 == FieldsRead(Kinds(fields), rest).1
  {
    assert ([f] + fields)[1..] == fields;
    assert Kinds([f] + fields)[1..] == Kinds(fields);
  }

  predicate AllPlain(fields: seq<Field>) {
    forall f <- fields :: Plain(f)
  }

  lemma AllPlainOneByOne(f: Field, fields: seq<Field>)
    ensures AllPlain([f] + fields) <==> Plain(f) && AllPlain(fields)
  {
    if AllPlain([f] + fields) {
      assert f in [f] + fields;
      assert forall other <- fields :: other in [f] + fields;
    }
  }

  lemma FirstFieldRoundTrip(f: Field, others: seq<Field>, head: seq<Record>, behind: seq<Record>)
    requires Chunks(head, Wire(f))
    ensures FieldsRead(Kinds([f] + others), head + behind).0 == Ok([f] + others)
       <==> Plain(f) && FieldsRead(Kinds(others), behind).0 == Ok(others)
    ensures Plain(f) ==> FieldsRead(Kinds([f] + others), head + behind).1 == FieldsRead(Kinds(others), behind).1
  {
    FieldRoundTrip(f, head, behind);
    FirstThenOthers(f, others, head + behind);
  }

  /** A list of fields, whatever the records it travels as, is read back as it was sent if and only if all its strings
      are plain; then what follows it is untouched. */
  lemma {:induction false} FieldsRoundTrip(fields: seq<Field>, writes: seq<seq<Record>>, rest: seq<Record>)
    requires Carried(writes, fields)
    ensures FieldsRead(Kinds(fields), Concat(writes) + rest).0 == Ok(fields) <==> AllPlain(fields)
    ensures AllPlain(fields) ==> FieldsRead(Kinds(fields), Concat(writes) + rest).1 == rest
  {
    if fields == [] {
      assert Concat(writes) + rest == rest;
    } else {
      var f, others := fields[0], fields[1..];
      var behind := Concat(writes[1..]) + rest;
      assert Concat(writes) + rest == writes[0] + behind;
      assert fields == [f] + others;
      AllPlainOneByOne(f, others);
      FirstFieldRoundTrip(f, others, writes[0], behind);
      FieldsRoundTrip(others, writes[1..], rest);
    }
  }

  // ---- byte counters

  /** What rsize gains from a read: a string's newline and carriage return are not in it. */
  function Counted(kind: Kind, records: seq<Record>): nat {
    match kind
    case StrKind => (match StringRead(records).0 case Ok(s) => |s| case Err(_) => 0)
    case TagKind => if records == [] then 0 else 1
    case IntKind => if |Flat(records)| < 8 then |Flat(records)| else 8
    case RawKind(size) => if |Flat(records)| < size then |Flat(records)| else size
  }

  function AllCounted(kinds: seq<Kind>, records: seq<Record>): nat {
    if kinds == [] then 0
    else
      var (first, rest) := FieldRead(kinds[0], records);
      Counted(kinds[0], records) + if first.Err? then 0 else AllCounted(kinds[1..], rest)
  }

  function Strings(fields: seq<Field>): nat {
    if fields == [] then 0 else Strings(fields[..|fields| - 1]) + if fields[|fields| - 1].Str? then 1 else 0
  }

  lemma CountedOfField(f: Field, chunks: seq<Record>, rest: seq<Record>)
    requires Chunks(chunks, Wire(f)) && Plain(f)
    ensures |Wire(f)| == Counted(KindOf(f), chunks + rest) + (if f.Str? then 1 else 0)
  {
    FlatAppend(chunks, rest);
    FieldRoundTrip(f, chunks, rest);
  }

  lemma FieldsReadFirst(kind: Kind, kinds: seq<Kind>, records: seq<Record>)
    ensures FieldsRead([kind] + kinds, records)
         == var (first, rest) := FieldRead(kind, records);
            var (others, end) := FieldsRead(kinds, rest);
            if first.Err? then (Err(first.error), rest)
            else (if others.Err? then others else Ok([first.value] + others.value), end)
    ensures AllCounted([kind] + kinds, records)
         == Counted(kind, records)
            + (if FieldRead(kind, records).0.Err? then 0 else AllCounted(kinds, FieldRead(kind, records).1))
  {
    assert ([kind] + kinds)[1..] == kinds;
  }

  lemma {:induction false} StringsFirst(f: Field, fields: seq<Field>)
    ensures Strings([f] + fields) == (if f.Str? then 1 else 0) + Strings(fields)
    decreases |fields|
  {
    var all := [f] + fields;
    if fields == [] {
      assert all == [f] && all[..0] == [];
    } else {
      var n := |fields| - 1;
      assert all[..|fields|] == [f] + fields[..n];
      StringsFirst(f, fields[..n]);
    }
  }

  lemma FirstFieldCounted(f: Field, others: seq<Field>, head: seq<Record>, behind: seq<Record>)
    requires Chunks(head, Wire(f)) && Plain(f)
    ensures AllCounted(Kinds([f] + others), head + behind) + (if f.Str? then 1 else 0)
         == |Flat(head)| + AllCounted(Kinds(others), behind)
  {
    FieldRoundTrip(f, head, behind);
    CountedOfField(f, head, behind);
    FieldsReadFirst(KindOf(f), Kinds(others), head + behind);
    assert ([f] + others)[1..] == others;
  }

  /** The receiver counts one byte less than was written for each string. */
  lemma {:induction false} CountedOfFields(fields: seq<Field>, writes: seq<seq<Record>>, rest: seq<Record>)
    requires Carried(writes, fields) && AllPlain(fields)
    ensures |Flat(Concat(writes))| == AllCounted(Kinds(fields), Concat(writes) + rest) + Strings(fields)
  {
    if fields != [] {
      var f, others := fields[0], fields[1..];
      var behind := Concat(writes[1..]) + rest;
      assert fields == [f] + others;
      assert Concat(writes) + rest == writes[0] + behind;
      AllPlainOneByOne(f, others);
      FirstFieldCounted(f, others, writes[0], behind);
      CountedOfFields(others, writes[1..], rest);
      StringsFirst(f, others);
      FlatAppend(writes[0], Concat(writes[1..]));
    }
  }

  // ---- whole conversations

  /** One direction of a connection: the records under way, both ends' counters, what was sent and received. */
  datatype Link = Link(records: seq<Record>, wsize: nat, rsize: nat, sent: seq<Field>, received: seq<Field>)

  /** A field is written, as records of the transport's choice; or the reader reads the next field it expects. */
  datatype Event = Send(f: Field, chunks: seq<Record>) | Receive

  function LinkNext(l: Link, e: Event): Link {
    match e
    case Send(f, chunks) =>
      if !Chunks(chunks, Wire(f)) then l
      else l.(records := l.records + chunks, wsize := l.wsize + |Wire(f)|, sent := l.sent + [f])
    case Receive =>
      if |l.received| >= |l.sent| then l
      else
        var kind := KindOf(l.sent[|l.received|]);
        match FieldRead(kind, l.records)
        case (Ok(f), rest) =>
          l.(records := rest, rsize := l.rsize + Counted(kind, l.records), received := l.received + [f])
        case (Err(_), rest) => l.(records := rest, rsize := l.rsize + Counted(kind, l.records))
  }

  function LinkRun(l: Link, events: seq<Event>): Link {
    if events == [] then l else LinkNext(LinkRun(l, events[..|events| - 1]), events[|events| - 1])
  }

  ghost predicate UnderWay(records: seq<Record>, fields: seq<Field>) {
    exists writes :: Carried(writes, fields) && records == Concat(writes)
  }

  lemma ConcatLast(writes: seq<seq<Record>>)
    requires writes != []
    ensures Concat(writes) == Concat(writes[..|writes| - 1]) + writes[|writes| - 1]
  {
    var n := |writes| - 1;
    ConcatAppend(writes[..n], writes[n]);
    assert writes == writes[..n] + [writes[n]];
  }

  lemma CarriedButLast(writes: seq<seq<Record>>, head: seq<Field>, f: Field)
    requires Carried(writes, head + [f])
    ensures Carried(writes[..|head|], head) && Chunks(writes[|head|], Wire(f))
    ensures Concat(writes) == Concat(writes[..|head|]) + writes[|head|]
  {
    var n := |head|;
    forall i | 0 <= i < n ensures Chunks(writes[..n][i], Wire(head[i])) {
      assert (head + [f])[i] == head[i];
    }
    assert (head + [f])[n] == f;
    ConcatLast(writes);
  }

  lemma HeadThenBody(head: seq<Field>, front: seq<seq<Record>>, last: seq<Record>, rest: seq<Record>)
    requires Carried(front, head)
    ensures FieldsRead(Kinds(head), Concat(front) + last + rest).0 == Ok(head) <==> AllPlain(head)
    ensures AllPlain(head) ==> FieldsRead(Kinds(head), Concat(front) + last + rest).1 == last + rest
    ensures AllPlain(head) ==>
      |Flat(Concat(front) + last)|
      == AllCounted(Kinds(head), Concat(front) + last + rest) + |Flat(last)| + Strings(head)
  {
    assert Concat(front) + last + rest == Concat(front) + (last + rest);
    FieldsRoundTrip(head, front, last + rest);
    FlatAppend(Concat(front), last);
    if AllPlain(head) {
      CountedOfFields(head, front, last + rest);
    }
  }

  lemma MoreUnderWay(chunks: seq<Record>, fields: seq<Field>, more: seq<Record>, f: Field)
    requires UnderWay(chunks, fields) && Chunks(more, Wire(f))
    ensures UnderWay(chunks + more, fields + [f])
  {
    var writes :| Carried(writes, fields) && chunks == Concat(writes);
    ConcatAppend(writes, more);
    assert Carried(writes + [more], fields + [f]);
  }

  /** A message of some fields and a body: whatever records it travels as, the fields are read back exactly when their
      strings are plain; the body's bytes are then what comes next, the receiver is a byte behind for each string, and
      whatever follows the message is untouched. */
  lemma MessageRoundTrip(head: seq<Field>, body: string, chunks: seq<Record>, rest: seq<Record>)
    requires UnderWay(chunks, head + [Raw(body)])
    ensures FieldsRead(Kinds(head), chunks + rest).0 == Ok(head) <==> AllPlain(head)
    ensures AllPlain(head) ==> FullRead(|body|, FieldsRead(Kinds(head), chunks + rest).1) == (Ok(body), rest)
    ensures AllPlain(head) ==> |Flat(chunks)| == AllCounted(Kinds(head), chunks + rest) + |body| + Strings(head)
  {
    var writes :| Carried(writes, head + [Raw(body)]) && chunks == Concat(writes);
    CarriedButLast(writes, head, Raw(body));
    HeadThenBody(head, writes[..|head|], writes[|head|], rest);
    FullReadTakesItsWrite(writes[|head|], rest);
  }

  /** What is under way is what was sent and not yet received, and the counters are apart by it and
      one byte a string. */
  ghost predicate InStep(l: Link) {
    && l.received <= l.sent
    && UnderWay(l.records, l.sent[|l.received|..])
    && l.wsize == l.rsize + |Flat(l.records)| + Strings(l.received)
  }

  lemma SendStaysInStep(l: Link, f: Field, chunks: seq<Record>)
    requires InStep(l)
    ensures InStep(LinkNext(l, Send(f, chunks)))
  {
    if Chunks(chunks, Wire(f)) {
      var due := l.sent[|l.received|..];
      MoreUnderWay(l.records, due, chunks, f);
      FlatAppend(l.records, chunks);
      assert (l.sent + [f])[|l.received|..] == due + [f];
    }
  }

  lemma NextReceived(l: Link) returns (f: Field, rest: seq<Record>)
    requires InStep(l) && AllPlain(l.sent) && |l.received| < |l.sent|
    ensures f == l.sent[|l.received|] && FieldRead(KindOf(f), l.records) == (Ok(f), rest)
    ensures UnderWay(rest, l.sent[|l.received| + 1..])
    ensures |Flat(l.records)| == Counted(KindOf(f), l.records) + (if f.Str? then 1 else 0) + |Flat(rest)|
  {
    var due := l.sent[|l.received|..];
    var writes :| Carried(writes, due) && l.records == Concat(writes);
    f, rest := due[0], Concat(writes[1..]);
    assert f in l.sent && due[1..] == l.sent[|l.received| + 1..];
    assert Carried(writes[1..], due[1..]);
    FieldRoundTrip(f, writes[0], rest);
    CountedOfField(f, writes[0], rest);
    FlatAppend(writes[0], rest);
  }

  lemma ReceiveStaysInStep(l: Link)
    requires InStep(l) && AllPlain(l.sent)
    ensures InStep(LinkNext(l, Receive))
    ensures |l.received| < |l.sent| ==> |LinkNext(l, Receive).received| == |l.received| + 1
  {
    if |l.received| < |l.sent| {
      var f, rest := NextReceived(l);
      assert (l.received + [f])[..|l.received|] == l.received;
    }
  }

  /** The fields sent, and how many of them are taken by the reads that find one waiting. */
  function SentBy(events: seq<Event>): seq<Field> {
    if events == [] then []
    else
      var (before, e) := (SentBy(events[..|events| - 1]), events[|events| - 1]);
      if e.Send? && Flat(e.chunks) == Wire(e.f) then before + [e.f] else before
  }

  function TakenBy(events: seq<Event>): nat {
    if events == [] then 0
    else
      var (before, e) := (TakenBy(events[..|events| - 1]), events[|events| - 1]);
      if e.Receive? && before < |SentBy(events[..|events| - 1])| then before + 1 else before
  }

  /** However writes and reads interleave and however writes are cut into records: plain fields arrive in order and
      unchanged, every read that has something to read succeeds, and when all is read the sender has counted one byte
      more than the receiver for each string. */
  lemma {:induction false} ConversationInStep(events: seq<Event>)
    requires AllPlain(LinkRun(Link([], 0, 0, [], []), events).sent)
    ensures var l := LinkRun(Link([], 0, 0, [], []), events);
      && InStep(l) && l.sent == SentBy(events) && |l.received| == TakenBy(events)
      && (|l.received| == |l.sent| ==> l.received == l.sent && l.records == [] && l.wsize == l.rsize + Strings(l.sent))
  {
    if events == [] {
      assert Carried([], []) && Concat([]) == [];
    } else {
      var before := LinkRun(Link([], 0, 0, [], []), events[..|events| - 1]);
      var e := events[|events| - 1];
      assert before.sent <= LinkNext(before, e).sent;
      assert forall f <- before.sent :: f in LinkNext(before, e).sent;
      ConversationInStep(events[..|events| - 1]);
      match e
      case Send(f, chunks) => SendStaysInStep(before, f, chunks);
      case Receive => ReceiveStaysInStep(before);
    }
  }
}
