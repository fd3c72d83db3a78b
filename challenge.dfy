/**
 * The challenge scanner of `DigestAuthorization::fromChallenge`: the
 * pattern `([a-z]+)=("[^"$]+)"` applied with `preg_match_all`, leftmost
 * match first, each search resuming right after the previous match, and
 * the dictionary those matches are poured into.
 */
module Challenge {
  import opened Wrappers
  import opened Text

  /** A character allowed inside a quoted value: anything but '"' and '$'. */
  predicate IsValueChar(c: char) {
    c != '"' && c != '$'
  }

  /** `[a-z]+` */
  predicate IsKey(k: string) {
    |k| > 0 && forall i :: 0 <= i < |k| ==> IsLower(k[i])
  }

  /** `[^"$]+` */
  predicate IsValue(v: string) {
    |v| > 0 && forall i :: 0 <= i < |v| ==> IsValueChar(v[i])
  }

  /** The text one match covers: key, `="`, value, `"`. */
  function PairText(k: string, v: string): string {
    k + "=\"" + v + "\""
  }

  datatype Pair = Pair(key: string, value: string)

  /** Length of the leading run of lowercase letters (greedy `[a-z]+`). */
  function LetterRun(s: string): (n: nat)
    ensures n <= |s|
    ensures forall i :: 0 <= i < n ==> IsLower(s[i])
    ensures n < |s| ==> !IsLower(s[n])
  {
    if s != [] && IsLower(s[0]) then 1 + LetterRun(s[1..]) else 0
  }

  /** Length of the leading run of value characters (greedy `[^"$]+`). */
  function ValueRun(s: string): (n: nat)
    ensures n <= |s|
    ensures forall i :: 0 <= i < n ==> IsValueChar(s[i])
    ensures n < |s| ==> !IsValueChar(s[n])
  {
    if s != [] && IsValueChar(s[0]) then 1 + ValueRun(s[1..]) else 0
  }

  /** Any run that is followed by a stopper has exactly the run's length. */
  lemma LetterRunIs(s: string, n: nat)
    requires n <= |s|
    requires forall i :: 0 <= i < n ==> IsLower(s[i])
    requires n < |s| ==> !IsLower(s[n])
    ensures LetterRun(s) == n
  {
  }

  lemma ValueRunIs(s: string, n: nat)
    requires n <= |s|
    requires forall i :: 0 <= i < n ==> IsValueChar(s[i])
    requires n < |s| ==> !IsValueChar(s[n])
    ensures ValueRun(s) == n
  {
  }

  datatype Match = Match(key: string, value: string, length: nat)

  /**
   * The match anchored at the start of `s`, if any.  Greedy runs never
   * need to backtrack here: a shorter key would be followed by a letter
   * instead of '=', a shorter value by a value character instead of '"'.
   */
  function MatchAt(s: string): (m: Option<Match>)
    ensures m.Some? ==>
      && IsKey(m.value.key) && IsValue(m.value.value)
      && m.value.length == |PairText(m.value.key, m.value.value)| <= |s|
      && s[..m.value.length] == PairText(m.value.key, m.value.value)
  {
    var n := LetterRun(s);
    if 0 < n && n + 1 < |s| && s[n] == '=' && s[n + 1] == '"' then
      var v := ValueRun(s[n + 2..]);
      if 0 < v && n + 2 + v < |s| && s[n + 2 + v] == '"' then
        var k, value := s[..n], s[n + 2..n + 2 + v];
        MatchedText(s, n, v);
        Some(Match(k, value, n + 3 + v))
      else None
    else None
  }

  lemma MatchedText(s: string, n: nat, v: nat)
    requires n + 2 + v < |s| && s[n] == '=' && s[n + 1] == '"' && s[n + 2 + v] == '"'
    ensures s[..n + 3 + v] == PairText(s[..n], s[n + 2..n + 2 + v])
  {
    var e := n + 2 + v;
    assert s[n..n + 2] == "=\"";
    assert s[e..e + 1] == "\"";
    assert s[..e + 1] == s[..n] + s[n..n + 2] + s[n + 2..e] + s[e..e + 1];
  }

  /** Whenever `s` starts with a pair, the anchored match finds exactly that pair. */
  lemma MatchAtComplete(s: string, k: string, v: string)
    requires IsKey(k) && IsValue(v)
    requires |PairText(k, v)| <= |s| && s[..|PairText(k, v)|] == PairText(k, v)
    ensures MatchAt(s) == Some(Match(k, v, |PairText(k, v)|))
  {
    var n, m := |k|, |v|;
    var t := PairText(k, v);
    PairTextAt(k, v);
    assert forall i :: 0 <= i < |t| ==> s[i] == t[i];
    assert s[..n] == k;
    assert s[n + 2..n + 2 + m] == v;
    MatchAtChars(s, n, m);
  }

  lemma MatchAtChars(s: string, n: nat, m: nat)
    requires 0 < n && 0 < m && n + 2 + m < |s|
    requires forall i :: 0 <= i < n ==> IsLower(s[i])
    requires s[n] == '=' && s[n + 1] == '"'
    requires forall i :: n + 2 <= i < n + 2 + m ==> IsValueChar(s[i])
    requires s[n + 2 + m] == '"'
    ensures MatchAt(s) == Some(Match(s[..n], s[n + 2..n + 2 + m], n + 3 + m))
  {
    LetterRunIs(s, n);
    var w := s[n + 2..];
    assert forall i :: 0 <= i < m ==> w[i] == s[n + 2 + i];
    ValueRunIs(w, m);
  }

  lemma PairTextAt(k: string, v: string)
    ensures var t := PairText(k, v);
      && |t| == |k| + |v| + 3
      && (forall i :: 0 <= i < |k| ==> t[i] == k[i])
      && t[|k|] == '=' && t[|k| + 1] == '"'
      && (forall i :: 0 <= i < |v| ==> t[|k| + 2 + i] == v[i])
      && t[|k| + 2 + |v|] == '"'
  {
  }

  /** `preg_match_all`: every match, left to right, each search resuming after the last match. */
  function Scan(s: string): (ps: seq<Pair>)
    ensures forall i :: 0 <= i < |ps| ==> IsKey(ps[i].key) && IsValue(ps[i].value)
    decreases |s|
  {
    if s == [] then []
    else match MatchAt(s)
      case Some(m) => [Pair(m.key, m.value)] + Scan(s[m.length..])
      case None => Scan(s[1..])
  }

  /** `t` is exactly one text the pattern matches. */
  ghost predicate IsPairText(t: string) {
    exists k, v :: IsKey(k) && IsValue(v) && t == PairText(k, v)
  }

  /** Some substring of `s` is matched by the pattern. */
  ghost predicate ContainsPair(s: string) {
    exists i, j :: 0 <= i <= j <= |s| && IsPairText(s[i..j])
  }

  lemma {:induction false} ScanFindsSomething(s: string)
    requires Scan(s) != []
    ensures ContainsPair(s)
    decreases |s|
  {
    match MatchAt(s)
    case Some(m) =>
      assert IsPairText(s[0..m.length]);
    case None =>
      ScanFindsSomething(s[1..]);
      var i, j :| 0 <= i <= j <= |s[1..]| && IsPairText(s[1..][i..j]);
      assert s[1..][i..j] == s[i + 1..j + 1];
  }

  lemma {:induction false} SomethingIsFound(s: string, i: nat, j: nat)
    requires i <= j <= |s| && IsPairText(s[i..j])
    ensures Scan(s) != []
    decreases i
  {
    if MatchAt(s).None? {
      if i == 0 {
        var k, v :| IsKey(k) && IsValue(v) && s[..j] == PairText(k, v);
        assert s[..j][..|PairText(k, v)|] == s[..|PairText(k, v)|];
        MatchAtComplete(s, k, v);
      } else {
        assert s[1..][i - 1..j - 1] == s[i..j];
        SomethingIsFound(s[1..], i - 1, j - 1);
      }
    }
  }

  /**
   * `fromChallenge` rejects a header (`preg_match_all` finds nothing) if and
   * only if no substring of it has the form `[a-z]+="v"` with `v` non-empty
   * and free of '"' and '$'.
   */
  lemma NoMatchesIff(s: string)
    ensures Scan(s) == [] <==> !ContainsPair(s)
  {
    if Scan(s) != [] {
      ScanFindsSomething(s);
    }
    if ContainsPair(s) {
      var i, j :| 0 <= i <= j <= |s| && IsPairText(s[i..j]);
      SomethingIsFound(s, i, j);
    }
  }

  // ---------------------------------------------------------------------
  // Round trip: a well-formed challenge line parses back to its pairs
  // ---------------------------------------------------------------------

  predicate WellFormedPairs(ps: seq<Pair>) {
    forall i :: 0 <= i < |ps| ==> IsKey(ps[i].key) && IsValue(ps[i].value)
  }

  /** `k1="v1", k2="v2", …` */
  function RenderPairs(ps: seq<Pair>): string {
    if ps == [] then ""
    else if |ps| == 1 then PairText(ps[0].key, ps[0].value)
    else PairText(ps[0].key, ps[0].value) + ", " + RenderPairs(ps[1..])
  }

  /**
   * Text without '=' whose last character is no letter cannot start or
   * contribute a key, whatever follows it.
   */
  lemma {:induction false} ScanSkips(u: string, rest: string)
    requires '=' !in u
    requires u != [] ==> !IsLower(u[|u| - 1])
    ensures Scan(u + rest) == Scan(rest)
    decreases |u|
  {
    if u == [] {
      assert u + rest == rest;
    } else {
      var s := u + rest;
      assert s[|u| - 1] == u[|u| - 1];
      var n := LetterRun(s);
      assert n < |u|;
      assert s[n] == u[n];
      MatchNeedsEquals(s);
      ScanNoMatch(s);
      assert s[1..] == u[1..] + rest;
      ScanSkips(u[1..], rest);
    }
  }

  lemma MatchNeedsEquals(s: string)
    ensures MatchAt(s).Some? ==> LetterRun(s) < |s| && s[LetterRun(s)] == '='
  {
  }

  lemma ScanNoMatch(s: string)
    requires s != [] && MatchAt(s).None?
    ensures Scan(s) == Scan(s[1..])
  {
  }

  lemma ScanPairThen(k: string, v: string, rest: string)
    requires IsKey(k) && IsValue(v)
    ensures Scan(PairText(k, v) + rest) == [Pair(k, v)] + Scan(rest)
  {
    var s := PairText(k, v) + rest;
    var t := PairText(k, v);
    assert s[..|t|] == t;
    MatchAtComplete(s, k, v);
    assert s[|t|..] == rest;
  }

  /** A pair with an empty value, `k=""`, is no match and yields nothing, whatever follows it. */
  lemma {:induction false} ScanSkipsEmptyValue(k: string, rest: string)
    requires forall i :: 0 <= i < |k| ==> IsLower(k[i])
    ensures Scan(k + "=\"\"" + rest) == Scan(rest)
    decreases |k|
  {
    EmptyValueNoMatch(k, rest);
    if k == [] {
      EmptyValueTail(k, rest);
      ScanSkips("\"\"", rest);
      ScanNoMatchThen(k + "=\"\"" + rest, "\"\"" + rest);
    } else {
      EmptyValueTail(k, rest);
      ScanSkipsEmptyValue(k[1..], rest);
      ScanNoMatchThen(k + "=\"\"" + rest, k[1..] + "=\"\"" + rest);
    }
  }

  lemma EmptyValueTail(k: string, rest: string)
    ensures k == [] ==> (k + "=\"\"" + rest)[1..] == "\"\"" + rest
    ensures k != [] ==> (k + "=\"\"" + rest)[1..] == k[1..] + "=\"\"" + rest
  {
  }

  lemma ScanNoMatchThen(s: string, t: string)
    requires s != [] && MatchAt(s).None? && s[1..] == t
    ensures Scan(s) == Scan(t)
  {
  }

  lemma EmptyValueNoMatch(k: string, rest: string)
    requires forall i :: 0 <= i < |k| ==> IsLower(k[i])
    ensures MatchAt(k + "=\"\"" + rest).None?
  {
    var s := k + "=\"\"" + rest;
    var n := |k|;
    assert s[..n] == k;
    assert s[n..n + 3] == "=\"\"";
    assert s[n] == '=' && s[n + 1] == '"' && s[n + 2] == '"';
    LetterRunIs(s, n);
    ValueRunIs(s[n + 2..], 0);
  }

  /** A challenge line written as `k1="v1", k2="v2", …` yields exactly those pairs. */
  lemma {:induction false} RenderPairsRoundTrip(ps: seq<Pair>)
    requires WellFormedPairs(ps)
    ensures Scan(RenderPairs(ps)) == ps
  {
    if |ps| == 1 {
      ScanPairThen(ps[0].key, ps[0].value, "");
      assert PairText(ps[0].key, ps[0].value) + "" == RenderPairs(ps);
    } else if |ps| > 1 {
      var rest := RenderPairs(ps[1..]);
      ScanPairThen(ps[0].key, ps[0].value, ", " + rest);
      assert RenderPairs(ps) == PairText(ps[0].key, ps[0].value) + (", " + rest);
      ScanSkips(", ", rest);
      RenderPairsRoundTrip(ps[1..]);
      assert ps == [ps[0]] + ps[1..];
    }
  }

  /** The same holds for a complete `WWW-Authenticate` value, `Digest k1="v1", …`. */
  lemma DigestChallengeRoundTrip(ps: seq<Pair>)
    requires WellFormedPairs(ps)
    ensures Scan("Digest " + RenderPairs(ps)) == ps
  {
    ScanSkips("Digest ", RenderPairs(ps));
    RenderPairsRoundTrip(ps);
  }

  // ---------------------------------------------------------------------
  // The values dictionary
  // ---------------------------------------------------------------------

  /** `$values= ['algorithm' => 'md5']` */
  const Defaults: map<string, string> := map["algorithm" := "md5"]

  /** The dictionary after storing every pair in order (later keys overwrite earlier ones). */
  function Collect(ps: seq<Pair>): (m: map<string, string>)
    ensures Defaults.Keys <= m.Keys
  {
    if ps == [] then Defaults
    else Collect(ps[..|ps| - 1])[ps[|ps| - 1].key := ps[|ps| - 1].value]
  }

  /** A key that occurs holds the value of its last occurrence. */
  lemma {:induction false} CollectLast(ps: seq<Pair>, i: nat)
    requires i < |ps|
    requires forall j :: i < j < |ps| ==> ps[j].key != ps[i].key
    ensures ps[i].key in Collect(ps) && Collect(ps)[ps[i].key] == ps[i].value
  {
    if i < |ps| - 1 {
      CollectLast(ps[..|ps| - 1], i);
    }
  }

  /** A key that never occurs keeps its default, or is absent. */
  lemma {:induction false} CollectAbsent(ps: seq<Pair>, k: string)
    requires forall j :: 0 <= j < |ps| ==> ps[j].key != k
    ensures k in Collect(ps) <==> k in Defaults
    ensures k in Defaults ==> Collect(ps)[k] == Defaults[k]
  {
    if ps != [] {
      CollectAbsent(ps[..|ps| - 1], k);
    }
  }

  /** `$values[$k]`, where a missing key reads as `null`. */
  function Lookup(m: map<string, string>, k: string): Option<string> {
    if k in m then Some(m[k]) else None
  }
}
