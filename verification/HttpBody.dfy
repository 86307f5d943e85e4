/** Reading bodies and heads through a buffered connection whose reads may be short. */
module HttpBody {
  import opened Basics
  import opened HttpBytes

  /** A byte source. A read delivers at least one byte while there are any, but may deliver
      fewer than asked for. */
  class Source {
    var data: Bytes

    constructor (data: Bytes)
      ensures this.data == data
    {
      this.data := data;
    }

    method Read(out: array<Byte>, want: nat) returns (n: nat)
      requires want <= out.Length
      modifies this, out
      ensures n <= want && n <= |old(data)|
      ensures n == 0 <==> want == 0 || old(data) == []
      ensures out[..n] == old(data)[..n] && data == old(data)[n..]
    {
      var most := Min(want, |data|);
      if most == 0 {
        return 0;
      }
      n :| 1 <= n <= most;
      Fill(out, data, n);
      data := data[n..];
    }
  }

  /** Copy the first n bytes into the front of a buffer. */
  method Fill(out: array<Byte>, from: Bytes, n: nat)
    requires n <= out.Length && n <= |from|
    modifies out
    ensures out[..n] == from[..n]
  {
    for k := 0 to n
      invariant out[..k] == from[..k]
    {
      out[k] := from[k];
    }
  }

  /** A connection with bytes read ahead. */
  class Buffered {
    const inner: Source
    var buf: Bytes
    var pos: nat

    ghost predicate Valid()
      reads this
    {
      pos <= |buf|
    }

    /** All bytes not yet delivered, buffered or not. */
    ghost function Unread(): Bytes
      reads this, inner
      requires Valid()
    {
      buf[pos..] + inner.data
    }

    constructor (inner: Source)
      ensures this.inner == inner && Valid() && buf == [] && pos == 0
    {
      this.inner := inner;
      buf, pos := [], 0;
    }

    method Read(out: array<Byte>, want: nat) returns (n: nat)
      requires Valid() && want <= out.Length
      modifies this, inner, out
      ensures Valid()
      ensures n <= want && n <= |old(Unread())|
      ensures n == 0 <==> want == 0 || old(Unread()) == []
      ensures out[..n] == old(Unread())[..n] && Unread() == old(Unread())[n..]
    {
      if pos < |buf| {
        n := Min(want, |buf| - pos);
        Fill(out, buf[pos..], n);
        pos := pos + n;
        if pos == |buf| {
          buf := [];
          pos := 0;
        }
        return;
      }
      n := inner.Read(out, want);
    }

    /** The head of a message, up to and including its empty line; nothing at a clean end. */
    method ReadHeadBytes(max: nat) returns (r: Result<Option<Bytes>>)
      requires Valid()
      modifies this, inner
      ensures Valid()
      ensures match r
        case Ok(Some(head)) =>
          var end := FindEnd(old(Unread()));
          end.Some? && head == old(Unread())[..end.value] && Unread() == old(Unread())[end.value..]
        case Ok(None) => old(Unread()) == []
        case Err(Eof) => old(Unread()) != [] && FindEnd(old(Unread())).None?
        case Err(_) => |old(Unread())| > max && FindEnd(old(Unread())[..max + 1]).None?
    {
      if pos > 0 {
        buf := buf[pos..];
        pos := 0;
      }
      ghost var all := Unread();
      while true
        invariant Valid() && pos == 0 && buf + inner.data == all
        decreases |inner.data|
      {
        var end := FindEnd(buf);
        if end.Some? {
          FindEndOfPrefix(buf, inner.data);
          var head := buf[..end.value];
          assert head == all[..end.value] && buf[end.value..] + inner.data == all[end.value..];
          buf := buf[end.value..];
          return Ok(Some(head));
        }
        if |buf| > max {
          NoEndInPrefix(buf, max + 1);
          assert all[..max + 1] == buf[..max + 1];
          return Err(Invalid("request headers are too large"));
        }
        var n := Refill();
        if n == 0 {
          assert buf == all;
          return if buf == [] then Ok(None) else Err(Eof);
        }
      }
    }

    /** Append what one read of the source delivers. */
    method Refill() returns (n: nat)
      requires Valid()
      modifies this, inner
      ensures pos == old(pos) && old(buf) <= buf && Valid()
      ensures buf + inner.data == old(buf + inner.data)
      ensures n == 0 ==> buf == old(buf)
      ensures if n == 0 then inner.data == [] else |inner.data| < |old(inner.data)|
    {
      var chunk := new Byte[4096];
      n := inner.Read(chunk, 4096);
      buf := buf + chunk[..n];
    }
  }

  // ----- heads

  const BLANK: Bytes := [13, 10, 13, 10]

  /** The position after the first empty line. */
  function FindEnd(s: Bytes): (r: Option<nat>)
    ensures r.Some? ==> 4 <= r.value <= |s|
  {
    if |s| < 4 then None
    else if s[..4] == BLANK then Some(4)
    else
      var rest := FindEnd(s[1..]);
      if rest.None? then None else Some(rest.value + 1)
  }

  lemma {:induction false} FindEndOfPrefix(a: Bytes, b: Bytes)
    requires FindEnd(a).Some?
    ensures FindEnd(a + b) == FindEnd(a)
  {
    assert (a + b)[..4] == a[..4];
    if a[..4] != BLANK {
      FindEndOfPrefix(a[1..], b);
      assert (a + b)[1..] == a[1..] + b;
    }
  }

  lemma NoEndInPrefix(s: Bytes, n: nat)
    requires n <= |s| && FindEnd(s).None?
    ensures FindEnd(s[..n]).None?
  {
    assert s[..n] + s[n..] == s;
    if FindEnd(s[..n]).Some? {
      FindEndOfPrefix(s[..n], s[n..]);
    }
  }

  // ----- bodies

  class Body {
    const conn: Buffered
    var framing: Framing

    ghost predicate Valid()
      reads this, conn
    {
      conn.Valid()
    }

    /** What is still to come of this body, and after it. */
    ghost function Meaning(): Option<Decoded>
      reads this, conn, conn.inner
      requires Valid()
    {
      Decode(framing, conn.Unread())
    }

    constructor (conn: Buffered, framing: Framing)
      requires conn.Valid()
      ensures this.conn == conn && this.framing == framing && Valid()
    {
      this.conn := conn;
      this.framing := framing;
    }

    method ReadLine() returns (r: Result<Bytes>)
      requires Valid()
      modifies conn, conn.inner
      ensures Valid()
      ensures match TakeLine(old(conn.Unread()))
        case Some(line) => r == Ok(line.text) && conn.Unread() == line.rest
        case None => r.Err?
    {
      ghost var start := conn.Unread();
      var line: Bytes := [];
      var byte := new Byte[1];
      while true
        invariant Valid() && |line| <= MAX_LINE
        invariant line <= start && conn.Unread() == start[|line|..]
        invariant forall i :: 0 <= i < |line| ==> start[i] != LF
        decreases |conn.Unread()|
      {
        var n := conn.Read(byte, 1);
        if n == 0 {
          NoNewline(start, |line|);
          return Err(Eof);
        }
        assert byte[0] == byte[..1][0] == start[|line|];
        if byte[0] == LF {
          break;
        }
        if |line| > 4096 {
          NoNewline(start, |line| + 1);
          return Err(Invalid("chunk header too long"));
        }
        line := line + [byte[0]];
      }
      NewlineIs(start, |line|);
      assert line == start[..|line|] && conn.Unread() == start[|line| + 1..];
      return Ok(Trim(line));
    }

    /** Read some of the body; zero bytes mean its end. */
    method Read(out: array<Byte>) returns (r: Result<nat>)
      requires Valid() && out.Length > 0
      modifies this, conn, conn.inner, out
      ensures Valid()
      ensures Delivered(old(Meaning()), r, out[..], Meaning(), conn.Unread())
      ensures r.Ok? && r.value > 0 ==> |conn.Unread()| < |old(conn.Unread())|
    {
      match framing {
        case Length(left) =>
          r := ReadLength(out, left);
        case UntilClose =>
          var n := conn.Read(out, out.Length);
          r := Ok(n);
        case Chunked(remaining, done) =>
          if done {
            return Ok(0);
          }
          if remaining > 0 {
            r := ReadChunk(out, remaining);
            return;
          }
          var line := ReadLine();
          if line.Err? {
            return Err(line.error);
          }
          var size := ChunkSize(line.value);
          if size.None? {
            return Err(Invalid("bad chunk size"));
          }
          if size.value == 0 {
            r := ReadTrailers();
            return;
          }
          r := ReadChunk(out, size.value);
      }
    }

    method ReadLength(out: array<Byte>, left: nat) returns (r: Result<nat>)
      requires Valid() && out.Length > 0 && framing == Length(left)
      modifies this, conn, conn.inner, out
      ensures Valid()
      ensures Delivered(old(Meaning()), r, out[..], Meaning(), conn.Unread())
      ensures r.Ok? && r.value > 0 ==> |conn.Unread()| < |old(conn.Unread())|
    {
      if left == 0 {
        return Ok(0);
      }
      ghost var start := conn.Unread();
      var n := conn.Read(out, Min(out.Length, left));
      if n == 0 {
        return Err(Eof);
      }
      framing := Length(left - n);
      r := Ok(n);
      assert out[..][..n] == out[..n];
      if |start| >= left {
        assert start[..left][n..] == start[n..][..left - n];
        assert start[left..] == start[n..][left - n..];
      }
    }

    /** Read from a chunk with bytes left, and its closing line when it is used up. */
    method ReadChunk(out: array<Byte>, remaining: nat) returns (r: Result<nat>)
      requires Valid() && out.Length > 0 && remaining > 0
      modifies this, conn, conn.inner, out
      ensures Valid()
      ensures Delivered(Decode(Chunked(remaining, false), old(conn.Unread())), r, out[..], Meaning(), conn.Unread())
      ensures r.Ok? ==> r.value > 0 && |conn.Unread()| < |old(conn.Unread())|
    {
      ghost var start := conn.Unread();
      ChunkMeaning(start, remaining);
      var n := conn.Read(out, Min(out.Length, remaining));
      if n == 0 {
        return Err(Eof);
      }
      assert out[..][..n] == out[..n];
      r := Advance(remaining, n, start, out[..]);
    }

    /** Account for n bytes taken from a chunk; read its closing line when it is used up. */
    method Advance(remaining: nat, n: nat, ghost start: Bytes, ghost got: Bytes) returns (r: Result<nat>)
      requires Valid() && 0 < n <= remaining && n <= |start| && n <= |got|
      requires conn.Unread() == start[n..] && got[..n] == start[..n]
      modifies this, conn, conn.inner
      ensures Valid()
      ensures Delivered(Decode(Chunked(remaining, false), start), r, got, Meaning(), conn.Unread())
      ensures r.Ok? ==> r.value > 0 && |conn.Unread()| < |start|
    {
      if n < remaining {
        PartDelivered(start, remaining, n, got);
      } else {
        EndDelivered(start, remaining, got);
        var line := ReadLine();
        if line.Err? {
          return Err(line.error);
        }
      }
      framing := Chunked(remaining - n, false);
      return Ok(n);
    }

    method ReadTrailers() returns (r: Result<nat>)
      requires Valid()
      modifies this, conn, conn.inner
      ensures Valid()
      ensures match SkipTrailers(old(conn.Unread()))
        case Some(rest) => r == Ok(0) && framing == Chunked(0, true) && conn.Unread() == rest
        case None => r.Err?
    {
      while true
        invariant Valid() && SkipTrailers(conn.Unread()) == SkipTrailers(old(conn.Unread()))
        decreases |conn.Unread()|
      {
        var line := ReadLine();
        if line.Err? {
          return Err(line.error);
        }
        if line.value == [] {
          break;
        }
      }
      framing := Chunked(0, true);
      return Ok(0);
    }

    /** Read the rest of the body through a buffer of any size, up to a limit. */
    method ReadAll(chunk: array<Byte>, limit: nat) returns (r: Result<Bytes>)
      requires Valid() && chunk.Length > 0
      modifies this, conn, conn.inner, chunk
      ensures Valid()
      ensures match old(Meaning())
        case Some(d) =>
          if |d.data| <= limit then r == Ok(d.data) && conn.Unread() == d.rest && Meaning() == Some(Decoded([], d.rest))
          else r.Err?
        case None => r.Err?
    {
      ghost var goal := Meaning();
      var out: Bytes := [];
      while true
        invariant Valid() && |out| <= limit && Collected(goal, out, Meaning())
        decreases |conn.Unread()|
      {
        ghost var before := Meaning();
        var n := Read(chunk);
        if n.Err? {
          return Err(n.error);
        }
        assert chunk[..][..n.value] == chunk[..n.value];
        MoreCollected(goal, out, before, n.value, chunk[..], Meaning(), conn.Unread());
        if n.value == 0 {
          return Ok(out);
        }
        if |out| + n.value > limit {
          return Err(Invalid("frame too large"));
        }
        out := out + chunk[..n.value];
      }
    }
  }

  /** Some of what a body meant is collected, and this is what it still means. */
  ghost predicate Collected(goal: Option<Decoded>, out: Bytes, now: Option<Decoded>) {
    match goal
    case None => now == None
    case Some(d) => out <= d.data && now == Some(Decoded(d.data[|out|..], d.rest))
  }

  lemma MoreCollected(
    goal: Option<Decoded>, out: Bytes, before: Option<Decoded>, n: nat, chunk: Bytes, after: Option<Decoded>, unread: Bytes)
    requires Collected(goal, out, before) && Delivered(before, Ok(n), chunk, after, unread)
    ensures n <= |chunk| && Collected(goal, out + chunk[..n], after)
    ensures goal.Some? ==> |out| + n <= |goal.value.data|
    ensures n == 0 ==> goal == Some(Decoded(out, unread))
  {
    if goal.Some? {
      var d := goal.value;
      assert d.data == out + d.data[|out|..];
      assert out + chunk[..n] == d.data[..|out| + n];
      assert d.data[|out|..][n..] == d.data[|out| + n..];
    }
  }

  /** The contract of one read, on values: the delivered bytes come first in what the body
      still meant, the rest keeps its meaning, zero is returned at the true end only, and a
      body that is cut short or malformed never ends well. */
  ghost predicate Delivered(before: Option<Decoded>, r: Result<nat>, out: Bytes, after: Option<Decoded>, unread: Bytes) {
    match before
    case None => r.Err? || (0 < r.value <= |out| && after == None)
    case Some(d) =>
      && r.Ok? && r.value <= |d.data| && r.value <= |out|
      && out[..r.value] == d.data[..r.value]
      && after == Some(Decoded(d.data[r.value..], d.rest))
      && (r.value == 0 <==> d.data == [])
      && (r.value == 0 ==> unread == d.rest)
  }

  lemma NoNewline(s: Bytes, n: nat)
    requires n <= |s| && (n == |s| || n > MAX_LINE)
    requires forall i :: 0 <= i < n ==> s[i] != LF
    ensures TakeLine(s).None?
  {
    assert NewlineAt(s) < |s| ==> s[NewlineAt(s)] == LF;
  }

  /** The state that means the same, less the first n bytes of its data. */
  ghost predicate Lacks(part: Option<Decoded>, whole: Option<Decoded>, n: nat) {
    match whole
    case None => part == None
    case Some(d) => n <= |d.data| && part == Some(Decoded(d.data[n..], d.rest))
  }

  lemma SplitData(s: Bytes, remaining: nat, n: nat, tail: Option<Decoded>)
    requires 0 < n <= remaining <= |s|
    ensures Lacks(WithData(s[n..][..remaining - n], tail), WithData(s[..remaining], tail), n)
    ensures tail.Some? ==> WithData(s[..remaining], tail).value.data[..n] == s[..n]
  {
    if tail.Some? {
      var d := tail.value.data;
      assert (s[..remaining] + d)[n..] == s[n..][..remaining - n] + d;
      assert (s[..remaining] + d)[..n] == s[..n];
    }
  }

  /** Taking fewer bytes than a chunk has left. */
  lemma PartOfChunk(s: Bytes, remaining: nat, n: nat)
    requires 0 < n < remaining && n <= |s|
    ensures Lacks(Decode(Chunked(remaining - n, false), s[n..]), Decode(Chunked(remaining, false), s), n)
    ensures Decode(Chunked(remaining, false), s).Some? ==> Decode(Chunked(remaining, false), s).value.data[..n] == s[..n]
  {
    ChunkMeaning(s, remaining);
    ChunkMeaning(s[n..], remaining - n);
    if |s| >= remaining {
      assert s[n..][remaining - n..] == s[remaining..];
      SplitData(s, remaining, n, AfterData(s[remaining..]));
    }
  }

  /** Taking the last bytes of a chunk, whose closing line comes next. */
  lemma EndOfChunk(s: Bytes, remaining: nat)
    requires 0 < remaining <= |s|
    ensures Lacks(AfterData(s[remaining..]), Decode(Chunked(remaining, false), s), remaining)
    ensures Decode(Chunked(remaining, false), s).Some? ==>
      Decode(Chunked(remaining, false), s).value.data[..remaining] == s[..remaining]
  {
    var tail := AfterData(s[remaining..]);
    ChunkMeaning(s, remaining);
    SplitData(s, remaining, remaining, tail);
    if tail.Some? {
      assert [] + tail.value.data == tail.value.data;
    }
  }

  lemma PartDelivered(s: Bytes, remaining: nat, n: nat, out: Bytes)
    requires 0 < n < remaining && n <= |s| && n <= |out| && out[..n] == s[..n]
    ensures Delivered(Decode(Chunked(remaining, false), s), Ok(n), out, Decode(Chunked(remaining - n, false), s[n..]), s[n..])
  {
    PartOfChunk(s, remaining, n);
  }

  lemma EndDelivered(s: Bytes, remaining: nat, out: Bytes)
    requires 0 < remaining <= |s| && remaining <= |out| && out[..remaining] == s[..remaining]
    ensures TakeLine(s[remaining..]).None? ==> Decode(Chunked(remaining, false), s).None?
    ensures TakeLine(s[remaining..]).Some? ==>
      var next := TakeLine(s[remaining..]).value.rest;
      Delivered(Decode(Chunked(remaining, false), s), Ok(remaining), out, Decode(Chunked(0, false), next), next)
  {
    EndOfChunk(s, remaining);
  }

  // ----- writing, and there and back again

  class Sink {
    var sent: Bytes

    constructor ()
      ensures sent == []
    {
      sent := [];
    }

    method WriteChunk(data: Bytes)
      modifies this
      ensures sent == old(sent) + EncodeChunk(data)
    {
      if data == [] {
        return;
      }
      sent := sent + (Hex(|data|) + CRLF);
      sent := sent + data;
      sent := sent + CRLF;
    }

    method FinishChunks()
      modifies this
      ensures sent == old(sent) + TERMINATOR
    {
      sent := sent + TERMINATOR;
    }
  }

  lemma SentSoFar(sent: Bytes, chunks: seq<Bytes>, k: nat)
    requires k < |chunks|
    ensures sent + EncodeChunks(chunks[k..]) == sent + EncodeChunk(chunks[k]) + EncodeChunks(chunks[k + 1..])
  {
    assert chunks[k..][1..] == chunks[k + 1..] && chunks[k..][0] == chunks[k];
    assert EncodeChunks(chunks[k..]) == EncodeChunk(chunks[k]) + EncodeChunks(chunks[k + 1..]);
  }

  method SendAll(chunks: seq<Bytes>) returns (sent: Bytes)
    ensures sent == EncodeChunks(chunks) + TERMINATOR
  {
    var sink := new Sink();
    for k := 0 to |chunks|
      invariant fresh(sink) && sink.sent + EncodeChunks(chunks[k..]) == EncodeChunks(chunks)
    {
      SentSoFar(sink.sent, chunks, k);
      sink.WriteChunk(chunks[k]);
    }
    assert chunks[|chunks|..] == [] && sink.sent + [] == sink.sent;
    sink.FinishChunks();
    sent := sink.sent;
  }

  /** Whatever is written in chunks is read back whole, through any source and any buffer,
      and the bytes that follow stay unread for the next message. */
  method ThereAndBack(chunks: seq<Bytes>, rest: Bytes, chunk: array<Byte>) returns (r: Result<Bytes>, conn: Buffered)
    requires (forall c :: c in chunks ==> |c| < U64) && chunk.Length > 0
    modifies chunk
    ensures r == Ok(Concat(chunks)) && conn.Valid() && conn.Unread() == rest
  {
    var sent := SendAll(chunks);
    var source := new Source(sent + rest);
    conn := new Buffered(source);
    assert conn.Unread() == EncodeChunks(chunks) + TERMINATOR + rest;
    BodyRoundTrip(chunks, rest);
    var body := new Body(conn, Chunked(0, false));
    assert body.Meaning() == Some(Decoded(Concat(chunks), rest));
    r := body.ReadAll(chunk, |Concat(chunks)|);
  }
}
