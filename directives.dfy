/**
 * The directive list of an `Authorization: Digest` header
 * (section 3.2.2 of RFC 2617): `name="value"` and bare `name=value`
 * directives separated by ", ", and a reader for it, as a server would
 * parse the header the client writes.
 */
module Directives {
  import opened Wrappers
  import opened Text
  import opened Challenge

  datatype Directive = Quoted(name: string, value: string) | Token(name: string, value: string)

  function RenderDirective(d: Directive): string {
    match d
    case Quoted(n, v) => n + "=\"" + v + "\""
    case Token(n, v) => n + "=" + v
  }

  /** `implode(', ', $parts)` over the rendered directives. */
  function RenderList(ds: seq<Directive>): string {
    if ds == [] then ""
    else if |ds| == 1 then RenderDirective(ds[0])
    else RenderDirective(ds[0]) + (", " + RenderList(ds[1..]))
  }

  /**
   * A directive that reads back unambiguously: a lowercase name, a quoted
   * value without '"', a bare value without ',' that does not open a quote.
   */
  predicate WellFormed(d: Directive) {
    IsKey(d.name) &&
    match d
    case Quoted(_, v) => '"' !in v
    case Token(_, v) => ',' !in v && (v == [] || v[0] != '"')
  }

  /** Reads one directive at the start of `s`; the number is the length consumed. */
  function ParseDirective(s: string): (r: Option<(Directive, nat)>)
    ensures r.Some? ==> 0 < r.value.1 <= |s|
  {
    var k := LetterRun(s);
    if k == 0 || k >= |s| || s[k] != '=' then None
    else if k + 1 < |s| && s[k + 1] == '"' then
      var v := RunWithout(s[k + 2..], '"');
      if k + 2 + v < |s| then
        Some((Quoted(s[..k], s[k + 2..k + 2 + v]), k + 3 + v))
      else None
    else
      var v := RunWithout(s[k + 1..], ',');
      Some((Token(s[..k], s[k + 1..k + 1 + v]), k + 1 + v))
  }

  /** Reads a non-empty ", "-separated directive list that spans all of `s`. */
  function ParseList(s: string): Option<seq<Directive>>
    decreases |s|
  {
    match ParseDirective(s)
    case None => None
    case Some((d, n)) =>
      if n == |s| then Some([d])
      else if n + 2 <= |s| && s[n] == ',' && s[n + 1] == ' ' then
        match ParseList(s[n + 2..])
        case None => None
        case Some(ds) => Some([d] + ds)
      else None
  }

  lemma ParseQuotedChars(s: string, n: nat, m: nat)
    requires 0 < n && n + 2 + m < |s|
    requires forall i :: 0 <= i < n ==> IsLower(s[i])
    requires s[n] == '=' && s[n + 1] == '"'
    requires forall i :: n + 2 <= i < n + 2 + m ==> s[i] != '"'
    requires s[n + 2 + m] == '"'
    ensures ParseDirective(s) == Some((Quoted(s[..n], s[n + 2..n + 2 + m]), n + 3 + m))
  {
    LetterRunIs(s, n);
    var w := s[n + 2..];
    assert forall i :: 0 <= i < m ==> w[i] == s[n + 2 + i];
    RunWithoutIs(w, '"', m);
  }

  lemma ParseTokenChars(s: string, n: nat, m: nat)
    requires 0 < n && n + 1 + m <= |s|
    requires forall i :: 0 <= i < n ==> IsLower(s[i])
    requires s[n] == '=' && (n + 1 < |s| ==> s[n + 1] != '"')
    requires forall i :: n + 1 <= i < n + 1 + m ==> s[i] != ','
    requires n + 1 + m < |s| ==> s[n + 1 + m] == ','
    ensures ParseDirective(s) == Some((Token(s[..n], s[n + 1..n + 1 + m]), n + 1 + m))
  {
    LetterRunIs(s, n);
    var w := s[n + 1..];
    assert forall i :: 0 <= i < m ==> w[i] == s[n + 1 + i];
    RunWithoutIs(w, ',', m);
  }

  lemma RunWithoutIs(s: string, sep: char, n: nat)
    requires n <= |s|
    requires forall i :: 0 <= i < n ==> s[i] != sep
    requires n < |s| ==> s[n] == sep
    ensures RunWithout(s, sep) == n
  {
  }

  lemma ParseDirectiveThen(d: Directive, tail: string)
    requires WellFormed(d)
    requires tail == [] || tail[0] == ','
    ensures ParseDirective(RenderDirective(d) + tail) == Some((d, |RenderDirective(d)|))
  {
    if d.Quoted? {
      ParseQuotedThen(d.name, d.value, tail);
    } else {
      ParseTokenThen(d.name, d.value, tail);
    }
  }

  lemma ParseQuotedThen(n: string, v: string, tail: string)
    requires IsKey(n) && '"' !in v
    ensures ParseDirective(RenderDirective(Quoted(n, v)) + tail) == Some((Quoted(n, v), |RenderDirective(Quoted(n, v))|))
  {
    var s := RenderDirective(Quoted(n, v)) + tail;
    assert s == n + "=\"" + v + "\"" + tail;
    var k, m := |n|, |v|;
    forall i | 0 <= i < k ensures IsLower(s[i]) {
      assert s[i] == n[i];
    }
    assert s[k] == '=' && s[k + 1] == '"';
    forall i | k + 2 <= i < k + 2 + m ensures s[i] != '"' {
      assert s[i] == v[i - k - 2];
    }
    assert s[k + 2 + m] == '"';
    assert s[..k] == n;
    assert s[k + 2..k + 2 + m] == v;
    ParseQuotedChars(s, k, m);
  }

  lemma ParseTokenThen(n: string, v: string, tail: string)
    requires IsKey(n) && ',' !in v && (v == [] || v[0] != '"')
    requires tail == [] || tail[0] == ','
    ensures ParseDirective(RenderDirective(Token(n, v)) + tail) == Some((Token(n, v), |RenderDirective(Token(n, v))|))
  {
    var s := RenderDirective(Token(n, v)) + tail;
    assert s == n + "=" + v + tail;
    var k, m := |n|, |v|;
    forall i | 0 <= i < k ensures IsLower(s[i]) {
      assert s[i] == n[i];
    }
    assert s[k] == '=';
    forall i | k + 1 <= i < k + 1 + m ensures s[i] != ',' {
      assert s[i] == v[i - k - 1];
    }
    if k + 1 + m < |s| {
      assert s[k + 1 + m] == tail[0];
    }
    if k + 1 < |s| {
      if v != [] {
        assert s[k + 1] == v[0];
      } else {
        assert s[k + 1] == tail[0];
      }
    }
    assert s[..k] == n;
    assert s[k + 1..k + 1 + m] == v;
    ParseTokenChars(s, k, m);
  }

  /** A well-formed, non-empty directive list reads back as itself. */
  lemma {:induction false} ParseRenderList(ds: seq<Directive>)
    requires |ds| >= 1 && forall i :: 0 <= i < |ds| ==> WellFormed(ds[i])
    ensures ParseList(RenderList(ds)) == Some(ds)
  {
    if |ds| == 1 {
      ParseSingle(ds[0]);
      assert ds == [ds[0]];
    } else {
      var d, tail := ds[0], ds[1..];
      assert WellFormed(d) && forall i :: 0 <= i < |tail| ==> WellFormed(tail[i]) by {
        forall i | 0 <= i < |tail| ensures WellFormed(tail[i]) {
          assert tail[i] == ds[i + 1];
        }
      }
      ParseRenderList(tail);
      ParseDirectiveThen(d, ", " + RenderList(tail));
      ParseListCons(RenderDirective(d), RenderList(tail), d, tail);
      assert ds == [d] + tail;
    }
  }

  lemma ParseSingle(d: Directive)
    requires WellFormed(d)
    ensures ParseList(RenderDirective(d)) == Some([d])
  {
    ParseDirectiveThen(d, "");
    assert RenderDirective(d) + "" == RenderDirective(d);
  }

  /** A directive that reads back, then ", ", then a list that reads back. */
  lemma ParseListCons(p: string, rest: string, d: Directive, tail: seq<Directive>)
    requires ParseDirective(p + (", " + rest)) == Some((d, |p|))
    requires ParseList(rest) == Some(tail)
    ensures ParseList(p + (", " + rest)) == Some([d] + tail)
  {
    SeparatorAt(p, rest);
    ParseListStep(p + (", " + rest), d, |p|, tail);
  }

  lemma SeparatorAt(p: string, rest: string)
    ensures var s := p + (", " + rest);
      |p| + 2 <= |s| && s[|p|] == ',' && s[|p| + 1] == ' ' && s[|p| + 2..] == rest
  {
    var s := p + (", " + rest);
    assert s[|p| + 2..] == rest;
  }

  lemma ParseListStep(s: string, d: Directive, n: nat, tail: seq<Directive>)
    requires ParseDirective(s) == Some((d, n))
    requires n + 2 <= |s| && s[n] == ',' && s[n + 1] == ' '
    requires ParseList(s[n + 2..]) == Some(tail)
    ensures ParseList(s) == Some([d] + tail)
  {
  }

  /** The value of the first directive called `name`. */
  function Find(ds: seq<Directive>, name: string): (r: Option<string>)
    ensures r.Some? <==> exists i :: 0 <= i < |ds| && ds[i].name == name
  {
    if ds == [] then None
    else if ds[0].name == name then Some(ds[0].value)
    else Find(ds[1..], name)
  }

  lemma {:induction false} FindAppend(a: seq<Directive>, b: seq<Directive>, name: string)
    ensures Find(a + b, name) == if Find(a, name).Some? then Find(a, name) else Find(b, name)
  {
    if a != [] {
      assert (a + b)[1..] == a[1..] + b;
      FindAppend(a[1..], b, name);
    } else {
      assert a + b == b;
    }
  }

  /** The first directive called `name` is the one `Find` reports. */
  lemma {:induction false} FindFirst(ds: seq<Directive>, i: nat, name: string)
    requires i < |ds| && ds[i].name == name
    requires forall j :: 0 <= j < i ==> ds[j].name != name
    ensures Find(ds, name) == Some(ds[i].value)
  {
    if i > 0 {
      FindFirst(ds[1..], i - 1, name);
    }
  }
}
