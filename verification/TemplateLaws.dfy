/** The scanner by cases on what stands in front, and the value of each kind of reference. */
module TemplateLaws {
  import opened Basics
  import opened Template

  /** The result with some text in front; an error stays an error. */
  function After(text: string, r: Result<string>): Result<string> {
    if r.Ok? then Ok(text + r.value) else Err(r.error)
  }

  /** Text without a dollar sign stands for itself. */
  lemma PlainText(text: string, f: Reference -> Result<string>)
    requires '$' !in text
    ensures Expand(text, f) == Ok(text) && Reached(text, f) == []
  {
    FindNone(text);
  }

  lemma FindNone(text: string)
    requires '$' !in text
    ensures Find(text, '$') == |text|
  {
    FindIs(text, '$', |text|);
  }

  lemma DollarAfter(text: string, rest: string)
    requires '$' !in text
    ensures NextPiece(text + "$" + rest) == PieceAt(text, rest)
  {
    var s := text + "$" + rest;
    FindIs(s, '$', |text|);
    assert s[..|text|] == text && s[|text| + 1..] == rest;
  }

  /** Two dollar signs are one. */
  lemma TwoDollars(text: string, rest: string, f: Reference -> Result<string>)
    requires '$' !in text
    ensures Expand(text + "$" + ("$" + rest), f) == After(text + "$", Expand(rest, f))
    ensures Reached(text + "$" + ("$" + rest), f) == Reached(rest, f)
  {
    DollarAfter(text, "$" + rest);
    assert ("$" + rest)[1..] == rest;
  }

  /** A dollar sign before anything else than a dollar sign or a brace is itself, also at the end. */
  lemma LoneDollar(text: string, rest: string, f: Reference -> Result<string>)
    requires '$' !in text && (rest != [] ==> rest[0] != '$' && rest[0] != '{')
    ensures Expand(text + "$" + rest, f) == After(text + "$", Expand(rest, f))
    ensures Reached(text + "$" + rest, f) == Reached(rest, f)
  {
    DollarAfter(text, rest);
  }

  lemma BodyAfter(text: string, body: string, rest: string)
    requires '$' !in text && '}' !in body
    ensures NextPiece(text + "$" + ("{" + body + "}" + rest)) == Body(text, body, rest)
  {
    var after := "{" + body + "}" + rest;
    DollarAfter(text, after);
    assert after[1..] == body + "}" + rest;
    forall i | 0 <= i < |body| ensures after[1..][i] != '}' {
      assert after[1..][i] == body[i] && body[i] in body;
    }
    FindIs(after[1..], '}', |body|);
    assert after[1..][..|body|] == body && after[1..][|body| + 1..] == rest;
  }

  lemma BodyMeans(s: string, text: string, body: string, rest: string, f: Reference -> Result<string>)
    requires NextPiece(s) == Body(text, body, rest)
    ensures var p := ParseReference(body);
      if p.Err? then Expand(s, f) == Err(p.error) && Reached(s, f) == []
      else if f(p.value).Err? then Expand(s, f) == Err(f(p.value).error) && Reached(s, f) == [p.value]
      else
        && Expand(s, f) == After(text + f(p.value).value, Expand(rest, f))
        && Reached(s, f) == [p.value] + Reached(rest, f)
  {
    var p := ParseReference(body);
    if p.Ok? && f(p.value).Ok? {
      PrependTwice(text, f(p.value).value, Expand(rest, f));
    }
  }

  /** A reference in braces is parsed, handed on and replaced by its value; the first failure is the result. */
  lemma ReferenceReplaced(text: string, body: string, rest: string, f: Reference -> Result<string>)
    requires '$' !in text && '}' !in body
    ensures var s, p := text + "$" + ("{" + body + "}" + rest), ParseReference(body);
      if p.Err? then Expand(s, f) == Err(p.error) && Reached(s, f) == []
      else if f(p.value).Err? then Expand(s, f) == Err(f(p.value).error) && Reached(s, f) == [p.value]
      else
        && Expand(s, f) == After(text + f(p.value).value, Expand(rest, f))
        && Reached(s, f) == [p.value] + Reached(rest, f)
  {
    BodyAfter(text, body, rest);
    BodyMeans(text + "$" + ("{" + body + "}" + rest), text, body, rest, f);
  }

  /** A brace that is not closed is an error. */
  lemma OpenBrace(text: string, body: string, f: Reference -> Result<string>)
    requires '$' !in text && '}' !in body
    ensures Expand(text + "$" + ("{" + body), f).Err? && Reached(text + "$" + ("{" + body), f) == []
  {
    DollarAfter(text, "{" + body);
    assert ("{" + body)[1..] == body;
    FindIs(body, '}', |body|);
  }

  /** The spelling of the four kinds of references. */
  lemma ReferencesSpelled(n: string)
    requires n != "" && '.' !in n
    ensures ParseReference("secrets." + n) == Ok(Secret(n))
    ensures ParseReference("services." + n + ".address") == Ok(ServiceAddress(n))
    ensures ParseReference("services." + n + ".addresses") == Ok(ServiceAddresses(n))
    ensures ParseReference("loadbalancers." + n + ".address") == Ok(LbAddress(n))
  {
    TwoParts("secrets", n);
    assert "secrets." + n == "secrets" + "." + n;
    Spelled("services.", n, ".address", "services", "address");
    Spelled("services.", n, ".addresses", "services", "addresses");
    Spelled("loadbalancers.", n, ".address", "loadbalancers", "address");
  }

  /** Three parts with dots between them are taken by what they are. */
  lemma Spelled(front: string, n: string, end: string, kind: string, last: string)
    requires front == kind + "." && end == "." + last
    requires n != "" && '.' !in n && kind != "" && '.' !in kind && last != "" && '.' !in last
    ensures kind == "services" && last == "address" ==> ParseReference(front + n + end) == Ok(ServiceAddress(n))
    ensures kind == "services" && last == "addresses" ==> ParseReference(front + n + end) == Ok(ServiceAddresses(n))
    ensures kind == "loadbalancers" && last == "address" ==> ParseReference(front + n + end) == Ok(LbAddress(n))
  {
    ThreeParts(kind, n, last);
    assert front + n + end == kind + "." + (n + "." + last);
  }

  /** The addresses with commas between them. */
  function Commas(addresses: seq<string>): string
    requires addresses != []
  {
    if |addresses| == 1 then addresses[0] else addresses[0] + "," + Commas(addresses[1..])
  }

  lemma {:induction false} JoinIsCommas(addresses: seq<string>)
    requires addresses != []
    ensures Join(addresses, ",") == Commas(addresses)
  {
    if |addresses| > 1 {
      JoinIsCommas(addresses[1..]);
    }
  }

  /** A secret has its own value, a service the first of its addresses or all of them, a balancer its address; what
      is not known has none. */
  lemma ValuesExact(ctx: Context, n: string)
    ensures var r := ValueOf(ctx)(Secret(n));
      if n in ctx.secrets then r == Ok(ctx.secrets[n]) else r.Err?
    ensures var r := ValueOf(ctx)(ServiceAddress(n));
      if n in ctx.addresses && |ctx.addresses[n]| > 0 then r == Ok(ctx.addresses[n][0]) else r.Err?
    ensures var r := ValueOf(ctx)(ServiceAddresses(n));
      if n in ctx.addresses && |ctx.addresses[n]| > 0 then r == Ok(Commas(ctx.addresses[n])) else r.Err?
    ensures var r := ValueOf(ctx)(LbAddress(n));
      if n in ctx.lbAddresses then r == Ok(ctx.lbAddresses[n]) else r.Err?
  {
    if n in ctx.addresses && |ctx.addresses[n]| > 0 {
      JoinIsCommas(ctx.addresses[n]);
    }
  }
}
