/** Templates: text with references in `${...}` and `$$` for a dollar sign. */
module Template {
  import opened Basics

  datatype Reference =
    | Secret(name: string)
    | ServiceAddress(name: string)
    | ServiceAddresses(name: string)
    | LbAddress(name: string)

  datatype Context = Context(
    secrets: map<string, string>,
    addresses: map<string, seq<string>>,
    lbAddresses: map<string, string>)

  // ----- references

  function Split(s: string, c: char): (parts: seq<string>)
    ensures parts != []
  {
    if s == [] then [""]
    else if s[0] == c then [""] + Split(s[1..], c)
    else
      var rest := Split(s[1..], c);
      [[s[0]] + rest[0]] + rest[1..]
  }

  function Join(parts: seq<string>, glue: string): string {
    if parts == [] then "" else if |parts| == 1 then parts[0] else parts[0] + glue + Join(parts[1..], glue)
  }

  function ParseReference(body: string): Result<Reference> {
    var parts := Split(body, '.');
    if "" in parts then Err(Invalid("malformed reference ${" + body + "}"))
    else if |parts| == 2 && parts[0] == "secrets" then Ok(Secret(parts[1]))
    else if |parts| == 3 && parts[0] == "services" && parts[2] == "address" then Ok(ServiceAddress(parts[1]))
    else if |parts| == 3 && parts[0] == "services" && parts[2] == "addresses" then Ok(ServiceAddresses(parts[1]))
    else if |parts| == 3 && parts[0] == "loadbalancers" && parts[2] == "address" then Ok(LbAddress(parts[1]))
    else Err(Invalid("unsupported reference ${" + body + "}"))
  }

  // ----- scanning

  function Find(s: string, c: char): (pos: nat)
    ensures pos <= |s| && c !in s[..pos] && (pos < |s| ==> s[pos] == c)
  {
    if s == [] || s[0] == c then 0
    else
      assert s[..1 + Find(s[1..], c)] == [s[0]] + s[1..][..Find(s[1..], c)];
      1 + Find(s[1..], c)
  }

  /** What comes next: the last text, some text and the rest, some text with a reference and
      the rest, or a reference that is not closed. */
  datatype Piece =
    | Last(text: string)
    | Text(text: string, rest: string)
    | Body(text: string, body: string, rest: string)
    | Open

  /** The piece that starts with some text and a dollar sign. */
  function PieceAt(before: string, after: string): (p: Piece)
    ensures p.Text? || p.Body? ==> |p.rest| <= |after|
  {
    if after != [] && after[0] == '$' then Text(before + "$", after[1..])
    else if after != [] && after[0] == '{' then
      var stripped := after[1..];
      var end := Find(stripped, '}');
      if end == |stripped| then Open else Body(before, stripped[..end], stripped[end + 1..])
    else Text(before + "$", after)
  }

  function NextPiece(s: string): (p: Piece)
    ensures p.Text? || p.Body? ==> |p.rest| < |s|
  {
    var pos := Find(s, '$');
    if pos == |s| then Last(s) else PieceAt(s[..pos], s[pos + 1..])
  }

  const UNTERMINATED: Error := Invalid("unterminated ${ reference")

  function Prepend(text: string, r: Result<string>): Result<string> {
    if r.Ok? then Ok(text + r.value) else r
  }

  /** The text with every reference replaced; the first failure ends it. */
  function Expand(s: string, f: Reference -> Result<string>): Result<string>
    decreases |s|
  {
    match NextPiece(s)
    case Last(text) => Ok(text)
    case Text(text, rest) => Prepend(text, Expand(rest, f))
    case Open => Err(UNTERMINATED)
    case Body(text, body, rest) =>
      var reference := ParseReference(body);
      if reference.Err? then Err(reference.error)
      else
        var value := f(reference.value);
        if value.Err? then value else Prepend(text, Prepend(value.value, Expand(rest, f)))
  }

  /** The references handed to f, in order, up to the first failure. */
  function Reached(s: string, f: Reference -> Result<string>): seq<Reference>
    decreases |s|
  {
    match NextPiece(s)
    case Last(_) => []
    case Text(_, rest) => Reached(rest, f)
    case Open => []
    case Body(_, body, rest) =>
      var reference := ParseReference(body);
      if reference.Err? then []
      else if f(reference.value).Err? then [reference.value]
      else [reference.value] + Reached(rest, f)
  }

  lemma PrependTwice(a: string, b: string, r: Result<string>)
    ensures Prepend(a, Prepend(b, r)) == Prepend(a + b, r)
  {
    if r.Ok? {
      assert a + (b + r.value) == (a + b) + r.value;
    }
  }

  lemma PrependNothing(r: Result<string>)
    ensures Prepend("", r) == r
  {
    if r.Ok? {
      assert "" + r.value == r.value;
    }
  }

  /** Passing a piece of plain text. */
  lemma PassText(out: string, s: string, text: string, more: string, f: Reference -> Result<string>)
    requires NextPiece(s) == Text(text, more)
    ensures Prepend(out, Expand(s, f)) == Prepend(out + text, Expand(more, f))
    ensures Reached(s, f) == Reached(more, f)
  {
    PrependTwice(out, text, Expand(more, f));
  }

  /** Passing a reference that has a value. */
  lemma PassReference(out: string, s: string, text: string, body: string, more: string, f: Reference -> Result<string>)
    requires NextPiece(s) == Body(text, body, more) && ParseReference(body).Ok? && f(ParseReference(body).value).Ok?
    ensures var r := ParseReference(body).value;
      && Prepend(out, Expand(s, f)) == Prepend(out + text + f(r).value, Expand(more, f))
      && Reached(s, f) == [r] + Reached(more, f)
  {
    var value := f(ParseReference(body).value).value;
    PrependTwice(out, text, Prepend(value, Expand(more, f)));
    PrependTwice(out + text, value, Expand(more, f));
  }

  /** Where a scan stops: at the end, or with an error and the references seen up to it. */
  lemma StopHere(s: string, f: Reference -> Result<string>)
    ensures match NextPiece(s)
      case Last(text) => Expand(s, f) == Ok(text) && Reached(s, f) == []
      case Text(_, _) => true
      case Open => Expand(s, f) == Err(UNTERMINATED) && Reached(s, f) == []
      case Body(_, body, _) =>
        match ParseReference(body)
        case Err(e) => Expand(s, f) == Err(e) && Reached(s, f) == []
        case Ok(r) => f(r).Err? ==> Expand(s, f) == f(r) && Reached(s, f) == [r]
  {
  }

  lemma SeenOnward(seen: seq<Reference>, r: Reference, later: seq<Reference>)
    ensures (seen + [r]) + later == seen + ([r] + later)
  {
  }

  /** One scan for both uses: the expanded text, and the references seen on the way. */
  method Scan(s: string, f: Reference -> Result<string>) returns (r: Result<string>, seen: seq<Reference>)
    ensures r == Expand(s, f)
    ensures seen == Reached(s, f)
  {
    ghost var goal, all := Expand(s, f), Reached(s, f);
    var out, rest := "", s;
    seen := [];
    PrependNothing(goal);
    while true
      invariant Prepend(out, Expand(rest, f)) == goal && seen + Reached(rest, f) == all
      decreases |rest|
    {
      match NextPiece(rest) {
        case Last(text) =>
          StopHere(rest, f);
          return Ok(out + text), seen;
        case Text(text, more) =>
          PassText(out, rest, text, more, f);
          out, rest := out + text, more;
        case Open =>
          StopHere(rest, f);
          return Err(UNTERMINATED), seen;
        case Body(text, body, more) =>
          var reference := ParseReference(body);
          if reference.Err? {
            StopHere(rest, f);
            return Err(reference.error), seen;
          }
          var value := f(reference.value);
          if value.Err? {
            StopHere(rest, f);
            return value, seen + [reference.value];
          }
          PassReference(out, rest, text, body, more, f);
          SeenOnward(seen, reference.value, Reached(more, f));
          seen := seen + [reference.value];
          out, rest := out + text + value.value, more;
      }
    }
  }

  // ----- the two uses

  function Blank(): Reference -> Result<string> { (r: Reference) => Ok("") }

  method References(s: string) returns (r: Result<seq<Reference>>)
    ensures Expand(s, Blank()).Ok? ==> r == Ok(Reached(s, Blank()))
    ensures Expand(s, Blank()).Err? ==> r == Err(Expand(s, Blank()).error)
  {
    var text, found := Scan(s, Blank());
    if text.Err? {
      return Err(text.error);
    }
    return Ok(found);
  }

  function ValueOf(ctx: Context): Reference -> Result<string> {
    (r: Reference) => match r
      case Secret(n) => if n in ctx.secrets then Ok(ctx.secrets[n]) else Err(Invalid("unknown secret " + n))
      case ServiceAddress(n) =>
        if n in ctx.addresses && ctx.addresses[n] != [] then Ok(ctx.addresses[n][0])
        else Err(Invalid("no address known for service " + n))
      case ServiceAddresses(n) =>
        if n in ctx.addresses && ctx.addresses[n] != [] then Ok(Join(ctx.addresses[n], ","))
        else Err(Invalid("no addresses known for service " + n))
      case LbAddress(n) =>
        if n in ctx.lbAddresses then Ok(ctx.lbAddresses[n]) else Err(Invalid("no address known for load balancer " + n))
  }

  method Resolve(s: string, ctx: Context) returns (r: Result<string>)
    ensures r == Expand(s, ValueOf(ctx))
  {
    var text, seen := Scan(s, ValueOf(ctx));
    r := text;
  }

  predicate AllValued(refs: seq<Reference>, f: Reference -> Result<string>) {
    forall r :: r in refs ==> f(r).Ok?
  }

  lemma AllValuedStep(r: Reference, refs: seq<Reference>, f: Reference -> Result<string>)
    ensures AllValued([r] + refs, f) <==> f(r).Ok? && AllValued(refs, f)
  {
    assert r in [r] + refs;
    assert forall x :: x in refs ==> x in [r] + refs;
  }

  /** Expanding succeeds exactly when the references can be listed and each of them has a value. */
  lemma {:induction false} ResolvesIffAllKnown(s: string, f: Reference -> Result<string>)
    ensures Expand(s, f).Ok? <==> Expand(s, Blank()).Ok? && AllValued(Reached(s, Blank()), f)
    decreases |s|
  {
    match NextPiece(s)
    case Last(_) =>
    case Text(_, rest) => ResolvesIffAllKnown(rest, f);
    case Open =>
    case Body(_, body, rest) =>
      ResolvesIffAllKnown(rest, f);
      if ParseReference(body).Ok? {
        AllValuedStep(ParseReference(body).value, Reached(rest, Blank()), f);
      }
  }

  // ----- printing

  datatype Part = Literal(text: string) | Ref(reference: Reference)

  function BodyOf(r: Reference): string {
    match r
    case Secret(n) => "secrets" + "." + n
    case ServiceAddress(n) => "services" + "." + (n + "." + "address")
    case ServiceAddresses(n) => "services" + "." + (n + "." + "addresses")
    case LbAddress(n) => "loadbalancers" + "." + (n + "." + "address")
  }

  function Escape(text: string): string {
    if text == [] then "" else (if text[0] == '$' then "$$" else [text[0]]) + Escape(text[1..])
  }

  function Print(parts: seq<Part>): string {
    if parts == [] then ""
    else
      (match parts[0]
       case Literal(text) => Escape(text)
       case Ref(r) => "${" + BodyOf(r) + "}") + Print(parts[1..])
  }

  predicate WellFormed(r: Reference) { r.name != "" && '.' !in r.name && '}' !in r.name }

  /** What the parts stand for. */
  function Fill(parts: seq<Part>, f: Reference -> Result<string>): Result<string> {
    if parts == [] then Ok("")
    else
      match parts[0]
      case Literal(text) => Prepend(text, Fill(parts[1..], f))
      case Ref(r) => if f(r).Err? then f(r) else Prepend(f(r).value, Fill(parts[1..], f))
  }

  function RefsOf(parts: seq<Part>): seq<Reference> {
    if parts == [] then [] else (if parts[0].Ref? then [parts[0].reference] else []) + RefsOf(parts[1..])
  }

  lemma {:induction false} FindIs(s: string, c: char, k: nat)
    requires k <= |s| && (k < |s| ==> s[k] == c) && forall i :: 0 <= i < k ==> s[i] != c
    ensures Find(s, c) == k
  {
    if k > 0 {
      FindIs(s[1..], c, k - 1);
    }
  }

  /** The piece with one more character of text in front. */
  function WithChar(c: char, p: Piece): Piece {
    match p
    case Last(text) => Last([c] + text)
    case Text(text, rest) => Text([c] + text, rest)
    case Body(text, body, rest) => Body([c] + text, body, rest)
    case Open => Open
  }

  lemma PieceAtWithChar(c: char, before: string, after: string)
    ensures PieceAt([c] + before, after) == WithChar(c, PieceAt(before, after))
  {
    assert [c] + (before + "$") == ([c] + before) + "$";
  }

  lemma FindAfterPlain(c: char, rest: string)
    requires c != '$'
    ensures Find([c] + rest, '$') == 1 + Find(rest, '$')
  {
    assert ([c] + rest)[1..] == rest;
  }

  lemma PieceOfPlain(c: char, rest: string)
    requires c != '$'
    ensures NextPiece([c] + rest) == WithChar(c, NextPiece(rest))
  {
    var s, pos := [c] + rest, Find(rest, '$');
    FindAfterPlain(c, rest);
    if pos < |rest| {
      assert s[..1 + pos] == [c] + rest[..pos] && s[1 + pos + 1..] == rest[pos + 1..];
      PieceAtWithChar(c, rest[..pos], rest[pos + 1..]);
    }
  }

  /** An ordinary character stands for itself. */
  lemma PlainChar(c: char, rest: string, f: Reference -> Result<string>)
    requires c != '$'
    ensures Expand([c] + rest, f) == Prepend([c], Expand(rest, f))
    ensures Reached([c] + rest, f) == Reached(rest, f)
  {
    PieceOfPlain(c, rest);
    match NextPiece(rest)
    case Last(_) =>
    case Text(text, more) => PrependTwice([c], text, Expand(more, f));
    case Open =>
    case Body(text, body, more) =>
      if ParseReference(body).Ok? && f(ParseReference(body).value).Ok? {
        PrependTwice([c], text, Prepend(f(ParseReference(body).value).value, Expand(more, f)));
      }
  }

  lemma DoubledDollar(rest: string, f: Reference -> Result<string>)
    ensures Expand("$$" + rest, f) == Prepend("$", Expand(rest, f))
    ensures Reached("$$" + rest, f) == Reached(rest, f)
  {
    var s := "$$" + rest;
    assert s[0] == '$' && s[1..][0] == '$' && s[1..][1..] == rest;
    assert Find(s, '$') == 0 && s[..0] + "$" == "$";
  }

  lemma EscapeStep(text: string, rest: string)
    requires text != []
    ensures Escape(text) + rest == (if text[0] == '$' then "$$" else [text[0]]) + (Escape(text[1..]) + rest)
  {
  }

  lemma {:induction false} EscapedText(text: string, rest: string, f: Reference -> Result<string>)
    ensures Expand(Escape(text) + rest, f) == Prepend(text, Expand(rest, f))
    ensures Reached(Escape(text) + rest, f) == Reached(rest, f)
  {
    if text == [] {
      assert Escape(text) + rest == rest;
      assert Expand(rest, f).Ok? ==> "" + Expand(rest, f).value == Expand(rest, f).value;
    } else {
      var more := Escape(text[1..]) + rest;
      EscapedText(text[1..], rest, f);
      assert text == [text[0]] + text[1..];
      EscapeStep(text, rest);
      if text[0] == '$' {
        DoubledDollar(more, f);
      } else {
        PlainChar(text[0], more, f);
      }
      PrependTwice([text[0]], text[1..], Expand(rest, f));
    }
  }

  lemma {:induction false} SplitWhole(s: string)
    requires '.' !in s
    ensures Split(s, '.') == [s]
  {
    if s != [] {
      SplitWhole(s[1..]);
      assert [s[0]] + s[1..] == s;
    }
  }

  lemma {:induction false} SplitFirst(a: string, b: string)
    requires '.' !in a
    ensures Split(a + "." + b, '.') == [a] + Split(b, '.')
  {
    var s := a + "." + b;
    if a == [] {
      assert s[0] == '.' && s[1..] == b;
    } else {
      SplitFirst(a[1..], b);
      assert s[1..] == a[1..] + "." + b;
      assert [s[0]] + a[1..] == a;
    }
  }

  lemma TwoParts(kind: string, n: string)
    requires '.' !in kind && '.' !in n
    ensures Split(kind + "." + n, '.') == [kind, n]
  {
    SplitFirst(kind, n);
    SplitWhole(n);
  }

  lemma ThreeParts(kind: string, n: string, last: string)
    requires '.' !in kind && '.' !in n && '.' !in last
    ensures Split(kind + "." + (n + "." + last), '.') == [kind, n, last]
  {
    SplitFirst(kind, n + "." + last);
    TwoParts(n, last);
  }

  lemma ParseDotless(r: Reference)
    requires r.name != "" && '.' !in r.name
    ensures ParseReference(BodyOf(r)) == Ok(r)
  {
    match r
    case Secret(n) => TwoParts("secrets", n);
    case ServiceAddress(n) => ThreeParts("services", n, "address");
    case ServiceAddresses(n) => ThreeParts("services", n, "addresses");
    case LbAddress(n) => ThreeParts("loadbalancers", n, "address");
  }

  lemma PieceOfReference(body: string, rest: string)
    requires '}' !in body
    ensures NextPiece("${" + body + "}" + rest) == Body("", body, rest)
  {
    var s := "${" + body + "}" + rest;
    FindIs(s, '$', 0);
    var after := s[1..];
    var stripped := after[1..];
    assert after[0] == '{' && stripped == body + "}" + rest;
    forall i | 0 <= i < |body| ensures stripped[i] != '}' {
      assert stripped[i] == body[i] && body[i] in body;
    }
    FindIs(stripped, '}', |body|);
    assert stripped[..|body|] == body && stripped[|body| + 1..] == rest && s[..0] == "";
  }

  lemma NoBraceInBody(r: Reference)
    requires WellFormed(r)
    ensures '}' !in BodyOf(r)
  {
  }

  lemma PrintedReference(r: Reference, rest: string, f: Reference -> Result<string>)
    requires WellFormed(r)
    ensures var s := "${" + BodyOf(r) + "}" + rest;
      && Expand(s, f) == (if f(r).Err? then f(r) else Prepend(f(r).value, Expand(rest, f)))
      && Reached(s, f) == [r] + (if f(r).Err? then [] else Reached(rest, f))
  {
    NoBraceInBody(r);
    PieceOfReference(BodyOf(r), rest);
    ParseDotless(r);
    if f(r).Ok? {
      PrependNothing(Prepend(f(r).value, Expand(rest, f)));
    }
  }

  /** Scanning a printed template gives back its parts: the text with the values filled in, and
      for the listing all its references in order. */
  lemma {:induction false} PrintRoundTrip(parts: seq<Part>, f: Reference -> Result<string>)
    requires forall p :: p in parts && p.Ref? ==> WellFormed(p.reference)
    ensures Expand(Print(parts), f) == Fill(parts, f)
    ensures Fill(parts, f).Ok? ==> Reached(Print(parts), f) == RefsOf(parts)
  {
    if parts != [] {
      PrintRoundTrip(parts[1..], f);
      var rest := Print(parts[1..]);
      match parts[0]
      case Literal(text) =>
        EscapedText(text, rest, f);
      case Ref(r) =>
        assert parts[0] in parts;
        PrintedReference(r, rest, f);
    }
  }

  lemma {:induction false} BlankAlwaysFills(parts: seq<Part>)
    ensures Fill(parts, Blank()).Ok?
  {
    if parts != [] {
      BlankAlwaysFills(parts[1..]);
    }
  }

  /** Listing the references of a printed template gives exactly those printed. */
  lemma ListingRoundTrip(parts: seq<Part>)
    requires forall p :: p in parts && p.Ref? ==> WellFormed(p.reference)
    ensures Expand(Print(parts), Blank()).Ok? && Reached(Print(parts), Blank()) == RefsOf(parts)
  {
    PrintRoundTrip(parts, Blank());
    BlankAlwaysFills(parts);
  }

  // ----- parsing accepts nothing else

  lemma JoinHead(x: string, parts: seq<string>, glue: string)
    requires parts != []
    ensures Join([x + parts[0]] + parts[1..], glue) == x + Join(parts, glue)
  {
    var longer := [x + parts[0]] + parts[1..];
    assert longer[1..] == parts[1..];
    if |parts| > 1 {
      assert (x + parts[0]) + glue + Join(parts[1..], glue) == x + (parts[0] + glue + Join(parts[1..], glue));
    }
  }

  lemma {:induction false} JoinSplit(s: string)
    ensures Join(Split(s, '.'), ".") == s
  {
    if s != [] {
      JoinSplit(s[1..]);
      var rest := Split(s[1..], '.');
      if s[0] == '.' {
        assert ([""] + rest)[1..] == rest;
      } else {
        JoinHead([s[0]], rest, ".");
      }
      assert s == [s[0]] + s[1..];
    }
  }

  lemma {:induction false} SplitHasNoDots(s: string)
    ensures forall i :: 0 <= i < |Split(s, '.')| ==> '.' !in Split(s, '.')[i]
  {
    if s != [] {
      SplitHasNoDots(s[1..]);
    }
  }

  lemma JoinFew(a: string, b: string, c: string)
    ensures Join([a, b], ".") == a + "." + b
    ensures Join([a, b, c], ".") == a + "." + (b + "." + c)
  {
    assert [a, b][1..] == [b] && [a, b, c][1..] == [b, c] && [b, c][1..] == [c];
    assert Join([b, c], ".") == b + "." + c;
  }

  /** Whatever parses was printed from the reference it parses to. */
  lemma ParsedWasPrinted(body: string)
    requires ParseReference(body).Ok?
    ensures var r := ParseReference(body).value; body == BodyOf(r) && r.name != "" && '.' !in r.name
  {
    JoinSplit(body);
    SplitHasNoDots(body);
    var parts := Split(body, '.');
    assert parts[1] in parts;
    if |parts| == 2 {
      assert parts == [parts[0], parts[1]];
      JoinFew(parts[0], parts[1], "");
    } else {
      assert parts == [parts[0], parts[1], parts[2]];
      JoinFew(parts[0], parts[1], parts[2]);
    }
  }

  /** A body parses to a reference exactly when it is that reference printed, with a nonempty
      name without dots. */
  lemma ParseExact(body: string, r: Reference)
    ensures ParseReference(body) == Ok(r) <==> body == BodyOf(r) && r.name != "" && '.' !in r.name
  {
    if ParseReference(body) == Ok(r) {
      ParsedWasPrinted(body);
    }
    if r.name != "" && '.' !in r.name {
      ParseDotless(r);
    }
  }
}
