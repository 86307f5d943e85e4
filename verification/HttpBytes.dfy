/** The bytes of chunked framing (section 7.1 of RFC 9112): lines, sizes, the encoder, and a
    decoder on values that says what a whole body means. */
module HttpBytes {
  import opened Basics

  type Byte = b: int | 0 <= b < 256

  type Bytes = seq<Byte>

  const CR: Byte := 13
  const LF: Byte := 10
  const CRLF: Bytes := [13, 10]

  // ----- lines

  /** The longest line that is accepted: one more than the limit that is checked before
      each byte is added. */
  const MAX_LINE: nat := 4097

  /** Where the first line feed is, or the length if there is none. */
  function NewlineAt(s: Bytes): (k: nat)
    ensures k <= |s| && LF !in s[..k] && (k < |s| ==> s[k] == LF)
  {
    if s == [] then 0
    else if s[0] == LF then 0
    else
      assert s[..1 + NewlineAt(s[1..])] == [s[0]] + s[1..][..NewlineAt(s[1..])];
      1 + NewlineAt(s[1..])
  }

  predicate IsSpace(b: Byte) { b == 32 || 9 <= b <= 13 }

  function TrimStart(s: Bytes): Bytes { if s != [] && IsSpace(s[0]) then TrimStart(s[1..]) else s }

  function TrimEnd(s: Bytes): Bytes {
    if s != [] && IsSpace(s[|s| - 1]) then TrimEnd(s[..|s| - 1]) else s
  }

  function Trim(s: Bytes): Bytes { TrimEnd(TrimStart(s)) }

  datatype Line = Line(text: Bytes, rest: Bytes)

  /** The first line without surrounding white space, and what follows its line feed. */
  function TakeLine(s: Bytes): (r: Option<Line>)
    ensures r.Some? ==> |r.value.rest| < |s|
  {
    var k := NewlineAt(s);
    if k < |s| && k <= MAX_LINE then Some(Line(Trim(s[..k]), s[k + 1..])) else None
  }

  // ----- sizes

  function DigitValue(b: Byte): Option<nat> {
    if 48 <= b <= 57 then Some(b - 48)
    else if 65 <= b <= 70 then Some(b - 55)
    else if 97 <= b <= 102 then Some(b - 87)
    else None
  }

  /** Hexadecimal digits as a 64-bit number; nothing on a bad digit or an overflow. */
  function Digits(s: Bytes): (r: Option<nat>)
    ensures r.Some? ==> r.value < U64
  {
    if s == [] then Some(0)
    else
      var high, low := Digits(s[..|s| - 1]), DigitValue(s[|s| - 1]);
      if high.None? || low.None? || high.value * 16 + low.value >= U64 then None else Some(high.value * 16 + low.value)
  }

  function ParseHex(s: Bytes): (r: Option<nat>)
    ensures r.Some? ==> r.value < U64
  {
    var digits := if s != [] && s[0] == 43 then s[1..] else s;
    if digits == [] then None else Digits(digits)
  }

  function BeforeSemicolon(s: Bytes): Bytes {
    if s == [] || s[0] == 59 then [] else [s[0]] + BeforeSemicolon(s[1..])
  }

  function ChunkSize(line: Bytes): Option<nat> { ParseHex(Trim(BeforeSemicolon(line))) }

  // ----- the encoder

  function HexDigit(n: nat): Byte
    requires n < 16
  {
    if n < 10 then 48 + n else 87 + n
  }

  function Hex(n: nat): (s: Bytes)
    ensures s != []
  {
    if n < 16 then [HexDigit(n)] else Hex(n / 16) + [HexDigit(n % 16)]
  }

  function EncodeChunk(data: Bytes): Bytes {
    if data == [] then [] else Hex(|data|) + CRLF + data + CRLF
  }

  function EncodeChunks(chunks: seq<Bytes>): Bytes {
    if chunks == [] then [] else EncodeChunk(chunks[0]) + EncodeChunks(chunks[1..])
  }

  const TERMINATOR: Bytes := [48, 13, 10, 13, 10]

  function Concat(chunks: seq<Bytes>): Bytes {
    if chunks == [] then [] else chunks[0] + Concat(chunks[1..])
  }

  // ----- the meaning of a body

  datatype Framing = Length(left: nat) | Chunked(remaining: nat, done: bool) | UntilClose

  /** The data still to come and the bytes after the body. */
  datatype Decoded = Decoded(data: Bytes, rest: Bytes)

  /** The bytes after the empty line that ends the trailers. */
  function SkipTrailers(s: Bytes): Option<Bytes>
    decreases |s|
  {
    var line := TakeLine(s);
    if line.None? then None
    else if line.value.text == [] then Some(line.value.rest)
    else SkipTrailers(line.value.rest)
  }

  /** What the bytes mean from a framing state on; nothing if they are cut short or malformed. */
  function Decode(f: Framing, s: Bytes): Option<Decoded>
    decreases |s|, if f == Chunked(0, false) then 1 else 0
  {
    match f
    case Length(left) => if |s| < left then None else Some(Decoded(s[..left], s[left..]))
    case UntilClose => Some(Decoded(s, []))
    case Chunked(remaining, done) =>
      if done then Some(Decoded([], s))
      else if remaining > 0 then
        if |s| < remaining then None
        else
          var line := TakeLine(s[remaining..]);
          if line.None? then None
          else
            var more := Decode(Chunked(0, false), line.value.rest);
            if more.None? then None else Some(Decoded(s[..remaining] + more.value.data, more.value.rest))
      else
        var line := TakeLine(s);
        if line.None? || ChunkSize(line.value.text).None? then None
        else
          var size := ChunkSize(line.value.text).value;
          if size == 0 then
            var rest := SkipTrailers(line.value.rest);
            if rest.None? then None else Some(Decoded([], rest.value))
          else Decode(Chunked(size, false), line.value.rest)
  }

  function WithData(data: Bytes, tail: Option<Decoded>): Option<Decoded> {
    if tail.None? then None else Some(Decoded(data + tail.value.data, tail.value.rest))
  }

  /** The meaning once the data of a chunk is used up. */
  function AfterData(s: Bytes): Option<Decoded> {
    var line := TakeLine(s);
    if line.None? then None else Decode(Chunked(0, false), line.value.rest)
  }

  lemma ChunkMeaning(s: Bytes, remaining: nat)
    requires remaining > 0
    ensures Decode(Chunked(remaining, false), s) ==
      if |s| < remaining then None else WithData(s[..remaining], AfterData(s[remaining..]))
  {
  }

  lemma HeaderMeaning(s: Bytes, size: nat)
    requires size > 0 && TakeLine(s).Some? && ChunkSize(TakeLine(s).value.text) == Some(size)
    ensures Decode(Chunked(0, false), s) == Decode(Chunked(size, false), TakeLine(s).value.rest)
  {
  }

  // ----- decoding undoes encoding

  predicate AllHex(s: Bytes) { forall b :: b in s ==> DigitValue(b).Some? }

  lemma {:induction false} HexRoundTrip(n: nat)
    requires n < U64
    ensures AllHex(Hex(n)) && Digits(Hex(n)) == Some(n)
    decreases n
  {
    if n < 16 {
      assert Hex(n)[..0] == [];
    } else {
      HexRoundTrip(n / 16);
      var s := Hex(n);
      assert s[..|s| - 1] == Hex(n / 16);
    }
  }

  lemma {:induction false} HexIsShort(n: nat, k: nat)
    requires n < Power16(k) && k > 0
    ensures |Hex(n)| <= k
    decreases n
  {
    if n >= 16 {
      HexIsShort(n / 16, k - 1);
    }
  }

  function Power16(k: nat): nat { if k == 0 then 1 else 16 * Power16(k - 1) }

  lemma {:induction false} NoSpacesToTrim(s: Bytes)
    requires forall b :: b in s ==> !IsSpace(b)
    ensures Trim(s) == s
  {
    if s != [] {
      assert s[0] in s && s[|s| - 1] in s;
    }
  }

  lemma TrimCr(s: Bytes)
    requires forall b :: b in s ==> !IsSpace(b)
    ensures Trim(s + [CR]) == s
  {
    if s == [] {
      var t := s + [CR];
      assert t[0] == CR && t[1..] == s;
      assert TrimStart(t) == TrimStart(s) == s && TrimEnd(s) == s;
    } else {
      assert s[0] in s && s[|s| - 1] in s;
      var t := s + [CR];
      assert !IsSpace(t[0]) && TrimStart(t) == t;
      assert t[|t| - 1] == CR && t[..|t| - 1] == s;
      assert TrimEnd(t) == TrimEnd(s) == s;
    }
  }

  lemma {:induction false} NewlineIs(s: Bytes, k: nat)
    requires k < |s| && s[k] == LF && forall i :: 0 <= i < k ==> s[i] != LF
    ensures NewlineAt(s) == k
  {
    if k > 0 {
      NewlineIs(s[1..], k - 1);
    }
  }

  /** A line of plain characters ending in CR LF is read back as it was written. */
  lemma LineRoundTrip(text: Bytes, rest: Bytes)
    requires |text| < MAX_LINE && forall b :: b in text ==> !IsSpace(b)
    ensures TakeLine(text + CRLF + rest) == Some(Line(text, rest))
  {
    var s := text + CRLF + rest;
    var k := |text| + 1;
    assert s[..k] == text + [CR];
    forall i | 0 <= i < k ensures s[i] != LF {
      assert i < |text| ==> s[i] == text[i] && text[i] in text;
    }
    NewlineIs(s, k);
    TrimCr(text);
    assert s[k + 1..] == rest;
  }

  lemma {:induction false} NoSemicolon(s: Bytes)
    requires 59 !in s
    ensures BeforeSemicolon(s) == s
  {
    if s != [] {
      NoSemicolon(s[1..]);
    }
  }

  lemma SizeRoundTrip(n: nat)
    requires n < U64
    ensures ChunkSize(Hex(n)) == Some(n)
    ensures |Hex(n)| <= 16 && forall b :: b in Hex(n) ==> !IsSpace(b)
  {
    HexRoundTrip(n);
    var s := Hex(n);
    assert forall b :: b in s ==> DigitValue(b).Some? && !IsSpace(b) && b != 59 && b != 43;
    NoSemicolon(s);
    NoSpacesToTrim(s);
    assert s[0] in s;
    assert Power16(16) == U64 by {
      assert Power16(4) == 0x1_0000;
      assert Power16(8) == 0x1_0000_0000;
      assert Power16(12) == 0x1_0000_0000_0000;
    }
    HexIsShort(n, 16);
  }

  /** The size line of a chunk is read, and what follows it is next. */
  lemma HeaderRoundTrip(text: Bytes, size: nat, after: Bytes)
    requires |text| < MAX_LINE && forall b :: b in text ==> !IsSpace(b)
    requires size > 0 && ChunkSize(text) == Some(size)
    ensures Decode(Chunked(0, false), text + CRLF + after) == Decode(Chunked(size, false), after)
  {
    LineRoundTrip(text, after);
    HeaderMeaning(text + CRLF + after, size);
  }

  /** The data of a chunk is read, then its line end. */
  lemma DataRoundTrip(data: Bytes, tail: Bytes)
    requires data != []
    ensures Decode(Chunked(|data|, false), data + tail) == WithData(data, AfterData(tail))
  {
    assert (data + tail)[..|data|] == data && (data + tail)[|data|..] == tail;
    ChunkMeaning(data + tail, |data|);
  }

  lemma LineEndRoundTrip(more: Bytes)
    ensures AfterData(CRLF + more) == Decode(Chunked(0, false), more)
  {
    assert [] + CRLF + more == CRLF + more;
    LineRoundTrip([], more);
  }

  lemma Nest(a: Bytes, b: Bytes, c: Bytes, d: Bytes, e: Bytes)
    ensures a + b + c + d + e == a + b + (c + (d + e))
  {
  }

  lemma ChunkRoundTrip(data: Bytes, more: Bytes)
    requires 0 < |data| < U64
    ensures Decode(Chunked(0, false), EncodeChunk(data) + more) == WithData(data, Decode(Chunked(0, false), more))
  {
    SizeRoundTrip(|data|);
    Nest(Hex(|data|), CRLF, data, CRLF, more);
    HeaderRoundTrip(Hex(|data|), |data|, data + (CRLF + more));
    DataRoundTrip(data, CRLF + more);
    LineEndRoundTrip(more);
  }

  lemma TerminatorRoundTrip(rest: Bytes)
    ensures Decode(Chunked(0, false), TERMINATOR + rest) == Some(Decoded([], rest))
  {
    var after := CRLF + rest;
    assert TERMINATOR + rest == [48] + CRLF + after;
    SizeRoundTrip(0);
    assert Hex(0) == [48];
    LineRoundTrip([48], after);
    assert [] + CRLF + rest == after;
    LineRoundTrip([], rest);
  }

  lemma Regroup(a: Bytes, b: Bytes, c: Bytes, d: Bytes)
    ensures (a + b) + c + d == a + (b + c + d)
  {
  }

  /** For any list of chunks the encoded body means their concatenation, and the bytes after
      the terminator are left over. */
  lemma {:induction false} BodyRoundTrip(chunks: seq<Bytes>, rest: Bytes)
    requires forall c :: c in chunks ==> |c| < U64
    ensures Decode(Chunked(0, false), EncodeChunks(chunks) + TERMINATOR + rest) == Some(Decoded(Concat(chunks), rest))
  {
    if chunks == [] {
      assert EncodeChunks(chunks) + TERMINATOR + rest == TERMINATOR + rest;
      TerminatorRoundTrip(rest);
    } else {
      BodyRoundTrip(chunks[1..], rest);
      var head, tail := EncodeChunk(chunks[0]), EncodeChunks(chunks[1..]);
      var more := tail + TERMINATOR + rest;
      Regroup(head, tail, TERMINATOR, rest);
      if chunks[0] == [] {
        assert head + more == more;
        assert chunks[0] + Concat(chunks[1..]) == Concat(chunks[1..]);
      } else {
        ChunkRoundTrip(chunks[0], more);
      }
    }
  }
}
