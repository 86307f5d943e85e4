/** What heads and chunks look like on the wire, byte by byte, and that they are read as they were written. */
module HttpLaws {
  import opened Basics
  import opened HttpBytes
  import opened HttpBody

  // ----- heads

  /** The four bytes before position k are the end of a line and an empty line. */
  predicate EmptyLineBefore(s: Bytes, k: nat) {
    4 <= k <= |s| && s[k - 4] == 13 && s[k - 3] == 10 && s[k - 2] == 13 && s[k - 1] == 10
  }

  /** The end of a head is the least position after an empty line, if there is one. */
  lemma {:induction false} FindEndIsLeast(s: Bytes)
    ensures FindEnd(s).None? <==> forall k: nat :: !EmptyLineBefore(s, k)
    ensures FindEnd(s).Some? ==>
      EmptyLineBefore(s, FindEnd(s).value) && forall k: nat :: k < FindEnd(s).value ==> !EmptyLineBefore(s, k)
  {
    if |s| >= 4 {
      assert s[..4] == [13, 10, 13, 10] <==> EmptyLineBefore(s, 4);
      if !EmptyLineBefore(s, 4) {
        FindEndIsLeast(s[1..]);
        forall k: nat | k > 4 ensures EmptyLineBefore(s, k) <==> EmptyLineBefore(s[1..], k - 1) {}
        assert FindEnd(s[1..]).Some? ==> EmptyLineBefore(s, FindEnd(s[1..]).value + 1);
      }
    }
  }

  /** A line of a head: something, without line ends. */
  predicate PlainLine(line: Bytes) { line != [] && 13 !in line && 10 !in line }

  /** A head on the wire: its lines, each with its end, and an empty line. */
  function HeadBytes(lines: seq<Bytes>): Bytes {
    if lines == [] then [13, 10] else lines[0] + [13, 10] + HeadBytes(lines[1..])
  }

  function Later(end: Option<nat>, n: nat): Option<nat> { if end.None? then None else Some(end.value + n) }

  lemma {:induction false} PlainBytesPassed(a: Bytes, s: Bytes)
    requires 13 !in a
    ensures FindEnd(a + s) == Later(FindEnd(s), |a|)
  {
    if a == [] {
      assert a + s == s;
    } else {
      PlainBytesPassed(a[1..], s);
      assert (a + s)[1..] == a[1..] + s;
      assert |a + s| >= 4 ==> (a + s)[..4][0] == a[0];
    }
  }

  lemma LineEndPassed(s: Bytes)
    requires s != [] && s[0] != 13
    ensures FindEnd([13, 10] + s) == Later(FindEnd(s), 2)
  {
    var all := [13, 10] + s;
    assert all[1..] == [10] + s && ([10] + s)[1..] == s;
    assert |all| >= 4 ==> all[..4][2] == s[0];
    assert |s| >= 3 ==> ([10] + s)[..4][0] == 10;
  }

  /** The end of a written head is found where it was written, whatever follows. */
  lemma {:induction false} HeadEndsWhereWritten(lines: seq<Bytes>, rest: Bytes)
    requires lines != [] && forall line <- lines :: PlainLine(line)
    ensures FindEnd(HeadBytes(lines) + rest) == Some(|HeadBytes(lines)|)
  {
    var line, more := lines[0], HeadBytes(lines[1..]);
    assert PlainLine(line);
    assert HeadBytes(lines) + rest == line + ([13, 10] + (more + rest));
    PlainBytesPassed(line, [13, 10] + (more + rest));
    if |lines| == 1 {
      assert lines[1..] == [] && more == [13, 10];
      assert ([13, 10] + (more + rest))[..4] == [13, 10, 13, 10];
    } else {
      var next := lines[1..];
      HeadEndsWhereWritten(next, rest);
      assert PlainLine(next[0]) && (more + rest)[0] == next[0][0] && next[0][0] in next[0];
      LineEndPassed(more + rest);
    }
  }

  /** Write a head line by line. */
  method WriteHead(sink: Sink, lines: seq<Bytes>)
    modifies sink
    ensures sink.sent == old(sink.sent) + HeadBytes(lines)
  {
    ghost var goal := sink.sent + HeadBytes(lines);
    for k := 0 to |lines|
      invariant sink.sent + HeadBytes(lines[k..]) == goal
    {
      assert lines[k..][1..] == lines[k + 1..];
      assert sink.sent + (lines[k] + [13, 10] + HeadBytes(lines[k + 1..]))
          == (sink.sent + lines[k] + [13, 10]) + HeadBytes(lines[k + 1..]);
      sink.sent := sink.sent + lines[k] + [13, 10];
    }
    assert lines[|lines|..] == [];
    sink.sent := sink.sent + [13, 10];
  }

  /** A written head is read back whole through any source, and the bytes after it stay unread. It is refused
      only if it is longer than the limit allows. */
  method HeadThereAndBack(lines: seq<Bytes>, rest: Bytes, max: nat) returns (r: Result<Option<Bytes>>, conn: Buffered)
    requires lines != [] && forall line <- lines :: PlainLine(line)
    ensures conn.Valid()
    ensures |HeadBytes(lines)| <= max + 1 ==> r.Ok?
    ensures r.Ok? ==> r == Ok(Some(HeadBytes(lines))) && conn.Unread() == rest
  {
    var sink := new Sink();
    WriteHead(sink, lines);
    ghost var head := HeadBytes(lines);
    var source := new Source(sink.sent + rest);
    conn := new Buffered(source);
    ghost var all := conn.Unread();
    assert all == head + rest;
    HeadEndsWhereWritten(lines, rest);
    assert all[..|head|] == head && all[|head|..] == rest;
    if |head| <= max + 1 <= |all| {
      HeadEndsWhereWritten(lines, rest[..max + 1 - |head|]);
      assert all[..max + 1] == head + rest[..max + 1 - |head|];
    }
    r := conn.ReadHeadBytes(max);
  }

  // ----- lines

  /** A line is taken exactly when a line feed follows at most 4097 other bytes; what follows it is left. */
  lemma LineExact(s: Bytes, k: nat)
    requires k <= |s| && (k < |s| ==> s[k] == 10) && forall i :: 0 <= i < k ==> s[i] != 10
    ensures TakeLine(s).Some? <==> k < |s| && k <= 4097
    ensures TakeLine(s).Some? ==> TakeLine(s).value == Line(Trim(s[..k]), s[k + 1..])
  {
    if k < |s| {
      NewlineIs(s, k);
    } else {
      NoNewline(s, k);
    }
  }

  predicate Blank(b: Byte) { b in {9, 10, 11, 12, 13, 32} }

  lemma {:induction false} TrimStartExact(s: Bytes) returns (a: nat)
    ensures a <= |s| && TrimStart(s) == s[a..]
    ensures (forall i :: 0 <= i < a ==> Blank(s[i])) && (a < |s| ==> !Blank(s[a]))
  {
    if s != [] && IsSpace(s[0]) {
      var b := TrimStartExact(s[1..]);
      a := b + 1;
      forall i | 0 <= i < a ensures Blank(s[i]) {
        if i > 0 { assert s[i] == s[1..][i - 1]; }
      }
    } else {
      a := 0;
    }
  }

  lemma {:induction false} TrimEndExact(s: Bytes) returns (b: nat)
    ensures b <= |s| && TrimEnd(s) == s[..b]
    ensures (forall i :: b <= i < |s| ==> Blank(s[i])) && (b > 0 ==> !Blank(s[b - 1]))
  {
    if s != [] && IsSpace(s[|s| - 1]) {
      b := TrimEndExact(s[..|s| - 1]);
    } else {
      b := |s|;
    }
  }

  /** Trimming takes off the white space at both ends and nothing else. */
  lemma TrimExact(s: Bytes) returns (a: nat, b: nat)
    ensures a <= b <= |s| && Trim(s) == s[a..b]
    ensures forall i :: 0 <= i < a || b <= i < |s| ==> Blank(s[i])
    ensures a < b ==> !Blank(s[a]) && !Blank(s[b - 1])
  {
    a := TrimStartExact(s);
    var end := TrimEndExact(s[a..]);
    b := a + end;
    assert s[a..][..end] == s[a..b];
    forall i | b <= i < |s| ensures Blank(s[i]) {
      assert s[a..][i - a] == s[i];
    }
    assert end > 0 ==> s[a..][end - 1] == s[b - 1];
  }

  // ----- chunks

  /** Sizes are written in lower-case hexadecimal without leading zeros. */
  lemma HexExact(n: nat)
    ensures n < 10 ==> Hex(n) == [48 + n]
    ensures 10 <= n < 16 ==> Hex(n) == [87 + n]
    ensures n >= 16 ==> Hex(n) == Hex(n / 16) + Hex(n % 16)
  {
  }

  /** Digits are read in either case, and a plus sign may come first. */
  lemma DigitsRead(n: nat, upper: bool)
    requires n < 16
    ensures ParseHex([if n < 10 then 48 + n else if upper then 55 + n else 87 + n]) == Some(n)
    ensures ParseHex([43, if n < 10 then 48 + n else if upper then 55 + n else 87 + n]) == Some(n)
  {
    var d: Byte := if n < 10 then 48 + n else if upper then 55 + n else 87 + n;
    assert [d][..0] == [] && [43, d][1..] == [d];
    assert Digits([d][..0]) == Some(0) && DigitValue(d) == Some(n);
    assert Digits([d]) == Some(n);
  }

  predicate HexDigitByte(b: Byte) { 48 <= b < 58 || 65 <= b < 71 || 97 <= b < 103 }

  lemma {:induction false} DigitsExact(s: Bytes)
    ensures Digits(s).Some? ==> forall b <- s :: HexDigitByte(b)
  {
    if s != [] {
      var n := |s| - 1;
      DigitsExact(s[..n]);
      assert s == s[..n] + [s[n]];
    }
  }

  /** Nothing but hexadecimal digits is read, at least one, after at most one plus sign. */
  lemma OtherBytesRefused(s: Bytes)
    ensures ParseHex(s).Some? ==>
      && s != [] && s != [43]
      && forall i :: 0 <= i < |s| ==> HexDigitByte(s[i]) || (i == 0 && s[i] == 43)
  {
    if ParseHex(s).Some? {
      var digits := if s[0] == 43 then s[1..] else s;
      DigitsExact(digits);
      forall i | 0 <= i < |s| && !(i == 0 && s[i] == 43) ensures HexDigitByte(s[i]) {
        assert s[i] in digits by {
          assert s[0] == 43 ==> s[i] == digits[i - 1];
        }
      }
    }
  }

  lemma {:induction false} CutAtSemicolon(a: Bytes, b: Bytes)
    requires 59 !in a
    ensures BeforeSemicolon(a + [59] + b) == a
  {
    var s := a + [59] + b;
    if a == [] {
      assert s[0] == 59;
    } else {
      assert s[1..] == a[1..] + [59] + b;
      CutAtSemicolon(a[1..], b);
    }
  }

  /** Chunk extensions are ignored. */
  lemma ExtensionIgnored(n: nat, extension: Bytes)
    requires n < U64
    ensures ChunkSize(Hex(n) + [59] + extension) == Some(n)
  {
    HexRoundTrip(n);
    SizeRoundTrip(n);
    assert 59 !in Hex(n) by {
      assert forall b :: b in Hex(n) ==> DigitValue(b).Some? && b != 59;
    }
    CutAtSemicolon(Hex(n), extension);
    NoSemicolon(Hex(n));
  }

  /** A trailer: a line with something on it, not too long. */
  predicate Trailer(line: Bytes) { PlainLine(line) && |line| < 4097 && exists b <- line :: !Blank(b) }

  lemma TrailerTaken(line: Bytes, after: Bytes)
    requires Trailer(line)
    ensures var r := TakeLine(line + [13, 10] + after); r.Some? && r.value.text != [] && r.value.rest == after
  {
    var s := line + [13, 10] + after;
    assert s[..|line| + 1] == line + [13] && s[|line| + 2..] == after;
    forall i | 0 <= i < |line| + 1 ensures s[i] != 10 {
      if i < |line| { assert s[i] == line[i] && line[i] in line; }
    }
    LineExact(s, |line| + 1);
    var a, b := TrimExact(line + [13]);
    var byte :| byte in line && !Blank(byte);
    var i :| 0 <= i < |line| && line[i] == byte;
    assert (line + [13])[i] == byte;
  }

  /** Trailers are skipped up to the empty line, and what follows it is left. */
  lemma {:induction false} TrailersSkipped(lines: seq<Bytes>, rest: Bytes)
    requires forall line <- lines :: Trailer(line)
    ensures SkipTrailers(HeadBytes(lines) + rest) == Some(rest)
  {
    if lines == [] {
      LineExact([13, 10] + rest, 1);
      assert ([13, 10] + rest)[..1] == [13] && ([13, 10] + rest)[2..] == rest;
      assert TrimStart([13]) == TrimStart([]) by { assert [13][1..] == []; }
    } else {
      var line, more := lines[0], HeadBytes(lines[1..]);
      assert Trailer(line);
      assert HeadBytes(lines) + rest == line + [13, 10] + (more + rest);
      TrailerTaken(line, more + rest);
      TrailersSkipped(lines[1..], rest);
    }
  }

  /** A line that is not blank at its ends is taken as it is. */
  lemma WholeLineTaken(line: Bytes, after: Bytes)
    requires line != [] && |line| < 4097 && 10 !in line && !Blank(line[0]) && !Blank(line[|line| - 1])
    ensures TakeLine(line + [13, 10] + after) == Some(Line(line, after))
  {
    var s, k := line + [13, 10] + after, |line| + 1;
    assert s[..k] == line + [13] && s[k + 1..] == after;
    LineExact(s, k);
    var a, b := TrimExact(line + [13]);
    assert (line + [13])[0] == line[0] && (line + [13])[|line| - 1] == line[|line| - 1] && (line + [13])[|line|] == 13;
    assert (line + [13])[..|line|] == line;
  }

  /** A body may end in trailers and the last chunk may be extended: neither adds data, and what follows is left. */
  lemma BodyWithTrailers(extension: Bytes, trailers: seq<Bytes>, rest: Bytes)
    requires forall line <- trailers :: Trailer(line)
    requires |extension| < 4000 && 10 !in extension && (extension != [] ==> !Blank(extension[|extension| - 1]))
    ensures Decode(Chunked(0, false), [48, 59] + extension + [13, 10] + (HeadBytes(trailers) + rest)) == Some(Decoded([], rest))
  {
    var first := [48, 59] + extension;
    assert first[|first| - 1] == if extension == [] then 59 else extension[|extension| - 1];
    WholeLineTaken(first, HeadBytes(trailers) + rest);
    assert Hex(0) + [59] + extension == first;
    ExtensionIgnored(0, extension);
    TrailersSkipped(trailers, rest);
  }

  /** A chunk on the wire: its size, a line end, the data, a line end; nothing for no data; and the end of a body. */
  lemma ChunksOnTheWire(data: Bytes)
    ensures data != [] ==> EncodeChunk(data) == Hex(|data|) + [13, 10] + data + [13, 10]
    ensures EncodeChunk([]) == [] && TERMINATOR == [48, 13, 10, 13, 10]
  {
  }

  // ----- bodies of known length, and until the end

  /** A body of known length is exactly that many bytes; a shorter stream is an error; without a length all is body. */
  lemma UnchunkedBodies(data: Bytes, rest: Bytes, n: nat)
    ensures Decode(Length(|data|), data + rest) == Some(Decoded(data, rest))
    ensures |data| < n ==> Decode(Length(n), data) == None
    ensures Decode(UntilClose, data) == Some(Decoded(data, []))
  {
    assert (data + rest)[..|data|] == data && (data + rest)[|data|..] == rest;
  }
}
