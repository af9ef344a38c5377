/** Go's strings.Split and Join, and bufio's line scanner, over text of one byte per character. */
module Text {
  function Split(s: string, sep: char): (r: seq<string>)
    ensures |r| >= 1
    ensures forall piece <- r :: sep !in piece
  {
    if s == [] then [""]
    else
      var rest := Split(s[1..], sep);
      if s[0] == sep then [""] + rest else [[s[0]] + rest[0]] + rest[1..]
  }

  function Join(ss: seq<string>, sep: char): string {
    if ss == [] then ""
    else if |ss| == 1 then ss[0]
    else ss[0] + [sep] + Join(ss[1..], sep)
  }

  function SplitOneMore(c: char, sep: char, pieces: seq<string>): seq<string>
    requires pieces != []
  {
    if c == sep then [""] + pieces else [[c] + pieces[0]] + pieces[1..]
  }

  lemma JoinOneMore(c: char, sep: char, pieces: seq<string>)
    requires pieces != []
    ensures Join(SplitOneMore(c, sep, pieces), sep) == [c] + Join(pieces, sep)
  {
    var more := SplitOneMore(c, sep, pieces);
    if c == sep {
      assert more[1..] == pieces;
    } else if |pieces| > 1 {
      assert more[1..] == pieces[1..];
    }
  }

  lemma {:induction false} JoinSplit(s: string, sep: char)
    ensures Join(Split(s, sep), sep) == s
  {
    if s != [] {
      JoinSplit(s[1..], sep);
      JoinOneMore(s[0], sep, Split(s[1..], sep));
      assert s == [s[0]] + s[1..];
    }
  }

  /** Up to the first separator, then the rest. */
  lemma {:induction false} SplitAtFirst(a: string, sep: char, b: string)
    requires sep !in a
    ensures Split(a + [sep] + b, sep) == [a] + Split(b, sep)
  {
    if a == [] {
      assert ([sep] + b)[1..] == b;
      assert a + [sep] + b == [sep] + b;
    } else {
      assert (a + [sep] + b)[1..] == a[1..] + [sep] + b;
      SplitAtFirst(a[1..], sep, b);
      assert a == [a[0]] + a[1..];
    }
  }

  lemma {:induction false} SplitWithout(a: string, sep: char)
    requires sep !in a
    ensures Split(a, sep) == [a]
  {
    if a != [] {
      SplitWithout(a[1..], sep);
      assert a == [a[0]] + a[1..];
    }
  }

  lemma SplitCons(c: char, s: string, sep: char)
    ensures Split([c] + s, sep) == SplitOneMore(c, sep, Split(s, sep))
  {
    assert ([c] + s)[1..] == s;
  }

  lemma ConsAppend(c: char, sep: char, a: seq<string>, b: seq<string>)
    requires a != []
    ensures SplitOneMore(c, sep, a + b) == SplitOneMore(c, sep, a) + b
  {
  }

  lemma {:induction false} SplitAppend(a: string, sep: char, b: string)
    ensures Split(a + [sep] + b, sep) == Split(a, sep) + Split(b, sep)
  {
    if a == [] {
      SplitAtFirst(a, sep, b);
    } else {
      SplitAppend(a[1..], sep, b);
      assert a + [sep] + b == [a[0]] + (a[1..] + [sep] + b);
      SplitCons(a[0], a[1..] + [sep] + b, sep);
      SplitCons(a[0], a[1..], sep);
      assert a == [a[0]] + a[1..];
      ConsAppend(a[0], sep, Split(a[1..], sep), Split(b, sep));
    }
  }

  /** Splitting what was joined gives the pieces of the pieces. */
  lemma {:induction false} SplitOfJoin(ss: seq<string>, sep: char, piece: string)
    requires ss != []
    ensures piece in Split(Join(ss, sep), sep) <==> exists s <- ss :: piece in Split(s, sep)
  {
    if |ss| == 1 {
      assert ss[0] in ss;
    } else {
      SplitAppend(ss[0], sep, Join(ss[1..], sep));
      SplitOfJoin(ss[1..], sep, piece);
      assert ss == [ss[0]] + ss[1..];
    }
  }

  lemma {:induction false} SplitJoin(ss: seq<string>, sep: char)
    requires ss != [] && forall piece <- ss :: sep !in piece
    ensures Split(Join(ss, sep), sep) == ss
  {
    if |ss| == 1 {
      SplitWithout(ss[0], sep);
    } else {
      SplitAtFirst(ss[0], sep, Join(ss[1..], sep));
      SplitJoin(ss[1..], sep);
      assert ss == [ss[0]] + ss[1..];
    }
  }

  /** Joining brings in no characters but the separator. */
  lemma {:induction false} JoinCharacters(ss: seq<string>, sep: char, c: char)
    requires c != sep
    ensures c in Join(ss, sep) <==> exists piece <- ss :: c in piece
  {
    if |ss| > 1 {
      JoinCharacters(ss[1..], sep, c);
      assert ss == [ss[0]] + ss[1..];
    } else if |ss| == 1 {
      assert ss[0] in ss;
    }
  }

  /** bufio.MaxScanTokenSize less the byte the buffer needs beyond a line. */
  const MAX_LINE := 65535

  /** The lines handed out before the scanner stops, and whether a line too long stopped it. */
  datatype Scan = Scan(lines: seq<string>, tooLong: bool)

  function LineLength(text: string): (n: nat)
    ensures n <= |text|
    ensures '\n' !in text[..n]
    ensures n < |text| ==> text[n] == '\n'
  {
    if text == [] || text[0] == '\n' then 0
    else
      var n := LineLength(text[1..]);
      assert text[..1 + n] == [text[0]] + text[1..][..n];
      1 + n
  }

  function WithoutCarriageReturn(line: string): string {
    if line != [] && line[|line| - 1] == '\r' then line[..|line| - 1] else line
  }

  function ScanText(text: string): (r: Scan)
    ensures forall line <- r.lines :: '\n' !in line
    decreases |text|
  {
    if text == [] then Scan([], false)
    else
      var n := LineLength(text);
      if n > MAX_LINE then Scan([], true)
      else
        var line := WithoutCarriageReturn(text[..n]);
        if n == |text| then Scan([line], false)
        else
          var rest := ScanText(text[n + 1..]);
          Scan([line] + rest.lines, rest.tooLong)
  }

  /** A line that the scanner hands out as it was written. */
  predicate Scannable(line: string) {
    '\n' !in line && |line| <= MAX_LINE && (line != [] ==> line[|line| - 1] != '\r')
  }

  lemma {:induction false} LineLengthIs(line: string, rest: string)
    requires '\n' !in line
    ensures LineLength(line + ['\n'] + rest) == |line|
  {
    if line == [] {
      assert (line + ['\n'] + rest)[0] == '\n';
    } else {
      assert (line + ['\n'] + rest)[1..] == line[1..] + ['\n'] + rest;
      LineLengthIs(line[1..], rest);
    }
  }

  lemma ScanLine(line: string, rest: string)
    requires '\n' !in line && |line| <= MAX_LINE
    ensures ScanText(line + ['\n'] + rest)
         == Scan([WithoutCarriageReturn(line)] + ScanText(rest).lines, ScanText(rest).tooLong)
  {
    LineLengthIs(line, rest);
    var text := line + ['\n'] + rest;
    assert text[..|line|] == line && text[|line| + 1..] == rest;
  }

  lemma {:induction false} ScannedLinesFit(text: string)
    ensures forall line <- ScanText(text).lines :: |line| <= MAX_LINE
    decreases |text|
  {
    var n := LineLength(text);
    if n < |text| && n <= MAX_LINE {
      ScannedLinesFit(text[n + 1..]);
    }
  }

  /** What the scanner makes of one text after another, the first of which ends its last line. */
  function ScanBoth(a: Scan, b: Scan): Scan {
    if a.tooLong then a else Scan(a.lines + b.lines, b.tooLong)
  }

  lemma ScanMore(line: string, a: Scan, b: Scan)
    ensures Scan([line] + ScanBoth(a, b).lines, ScanBoth(a, b).tooLong)
         == ScanBoth(Scan([line] + a.lines, a.tooLong), b)
  {
    assert [line] + (a.lines + b.lines) == [line] + a.lines + b.lines;
  }

  lemma {:induction false} ScanAppend(a: string, b: string)
    requires a == "" || a[|a| - 1] == '\n'
    ensures ScanText(a + b) == ScanBoth(ScanText(a), ScanText(b))
    decreases |a|
  {
    if a == "" {
      assert a + b == b;
    } else {
      var n := LineLength(a);
      var line, rest := a[..n], a[n + 1..];
      assert a == line + ['\n'] + rest;
      assert a + b == line + ['\n'] + (rest + b);
      if n <= MAX_LINE {
        ScanAppend(rest, b);
        ScanLine(line, rest);
        ScanLine(line, rest + b);
        ScanMore(WithoutCarriageReturn(line), ScanText(rest), ScanText(b));
      } else {
        LineLengthIs(line, rest + b);
      }
    }
  }

  /** A last line needs no newline, and an empty rest is no line. */
  lemma ScanLastLine(line: string)
    requires '\n' !in line && |line| <= MAX_LINE
    ensures ScanText(line) == Scan(if line == "" then [] else [WithoutCarriageReturn(line)], false)
  {
    assert line[..|line|] == line;
  }

  function Written(lines: seq<string>): string {
    if lines == [] then "" else lines[0] + ['\n'] + Written(lines[1..])
  }

  lemma {:induction false} ScanWritten(lines: seq<string>)
    requires forall line <- lines :: Scannable(line)
    ensures ScanText(Written(lines)) == Scan(lines, false)
  {
    if lines != [] {
      assert lines[0] in lines;
      ScanLine(lines[0], Written(lines[1..]));
      ScanWritten(lines[1..]);
      assert lines == [lines[0]] + lines[1..];
    }
  }

  lemma {:induction false} WrittenAppend(a: seq<string>, b: seq<string>)
    ensures Written(a + b) == Written(a) + Written(b)
  {
    if a == [] {
      assert a + b == b;
    } else {
      assert (a + b)[1..] == a[1..] + b;
      WrittenAppend(a[1..], b);
    }
  }
}
