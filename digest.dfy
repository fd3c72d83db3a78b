/**
 * `peer.http.DigestAuthorization`: the client side of HTTP Digest access
 * authentication (RFC 2617) with algorithm MD5 and quality of protection
 * "auth".  MD5 itself is not computed: every member that hashes takes the
 * hash function as its parameter `md5`, so nothing here depends on what
 * MD5 computes, only on how its inputs are put together.
 */
module Digest {
  import opened Wrappers
  import opened Text
  import opened Challenge
  import opened Directives
  import opened Http

  /** What PHP's `md5()` returns: 32 lowercase hexadecimal digits. */
  predicate IsMd5Hex(s: string) {
    |s| == 32 && AllHex(s)
  }

  type Md5Hex = s: string | IsMd5Hex(s) witness "00000000000000000000000000000000"

  type Md5 = string -> Md5Hex

  /** The exceptions the class raises. */
  datatype Failure =
    | InvalidChallenge         // IllegalStateException: no key="value" pair in the challenge
    | AlgorithmNotImplemented  // MethodNotImplementedException: algorithm other than "md5"
    | QopNotImplemented        // MethodNotImplementedException: qop list without "auth"
    | NullPassword             // the password was never set, so it cannot be read

  const Auth := "auth"
  const Md5Algorithm := "md5"

  // -----------------------------------------------------------------------
  // The digest as section 3.2.2 of RFC 2617 defines it for qop="auth"
  // -----------------------------------------------------------------------

  /** A1 = unq(username-value) ":" unq(realm-value) ":" passwd (section 3.2.2.2) */
  function A1(user: string, realm: string, password: string): string {
    user + ":" + realm + ":" + password
  }

  /** A2 = Method ":" digest-uri-value (section 3.2.2.3) */
  function A2(httpMethod: string, uri: string): string {
    httpMethod + ":" + uri
  }

  /** KD(secret, data) = H(concat(secret, ":", data)) (section 3.2.1) */
  function KD(h: Md5, secret: string, data: string): Md5Hex {
    h(secret + ":" + data)
  }

  /** request-digest for qop="auth" (section 3.2.2.1) */
  function RequestDigest(h: Md5, user: string, realm: string, password: string, httpMethod: string,
                         uri: string, nonce: string, nc: string, cnonce: string, qop: string): Md5Hex
  {
    KD(h, h(A1(user, realm, password)), nonce + ":" + nc + ":" + cnonce + ":" + qop + ":" + h(A2(httpMethod, uri)))
  }

  /** The request-uri that is both hashed and sent: the path, then '?' and the query if the URL has parameters. */
  function DigestUri(url: Url): (u: string)
    ensures url.path.GetOr("") <= u
    ensures '?' !in url.path.GetOr("") ==> ('?' in u <==> url.HasParams())
  {
    url.path.GetOr("") + (if url.HasParams() then "?" + url.query.GetOr("") else "")
  }

  /** The directives of the header `sign` writes, in the order it writes them. */
  function SignedDirectives(user: string, realm: string, nonce: string, uri: string, qop: string, nc: string,
                            cnonce: string, response: string, opaqueValue: Option<string>): seq<Directive>
  {
    var parts := RequiredDirectives(user, realm, nonce, uri, qop, nc, cnonce, response);
    if opaqueValue.Some? then parts + [Quoted("opaque", opaqueValue.value)] else parts
  }

  function RequiredDirectives(user: string, realm: string, nonce: string, uri: string, qop: string, nc: string,
                              cnonce: string, response: string): (ds: seq<Directive>)
    ensures |ds| == 8
    ensures forall i :: 0 <= i < |ds| ==> (ds[i].Token? <==> i == 5)
  {
    [ Quoted("username", user), Quoted("realm", realm), Quoted("nonce", nonce), Quoted("uri", uri),
      Quoted("qop", qop), Token("nc", nc), Quoted("cnonce", cnonce), Quoted("response", response) ]
  }

  // -----------------------------------------------------------------------
  // The receiving side: how a server reads the header back and checks it
  // -----------------------------------------------------------------------

  function ParseAuthorization(value: string): Option<seq<Directive>> {
    if |value| >= 7 && value[..7] == "Digest " then ParseList(value[7..]) else None
  }

  /** The response a server holding `password` expects for the directives `ds`. */
  function ExpectedResponse(h: Md5, ds: seq<Directive>, password: string, httpMethod: string): Option<Md5Hex> {
    var user :- Find(ds, "username");
    var realm :- Find(ds, "realm");
    var nonce :- Find(ds, "nonce");
    var uri :- Find(ds, "uri");
    var qop :- Find(ds, "qop");
    var nc :- Find(ds, "nc");
    var cnonce :- Find(ds, "cnonce");
    Some(RequestDigest(h, user, realm, password, httpMethod, uri, nonce, nc, cnonce, qop))
  }

  /**
   * The header `sign` writes reads back as exactly its directives; its
   * nonce count denotes the counter; its opaque directive is there iff the
   * challenge had one; and a server that recomputes the digest from the
   * header's own fields and the password gets the response it carries.
   * The quoted values must be free of '"', as nothing escapes them.
   */
  lemma SignedHeaderVerifies(h: Md5, user: string, realm: string, password: string, httpMethod: string,
                             uri: string, nonce: string, counter: nat, cnonce: string, opaqueValue: Option<string>)
    requires '"' !in user && '"' !in realm && '"' !in nonce && '"' !in uri && '"' !in cnonce
    requires opaqueValue.Some? ==> '"' !in opaqueValue.value
    ensures var nc := Hex8(counter);
      var response := RequestDigest(h, user, realm, password, httpMethod, uri, nonce, nc, cnonce, Auth);
      var ds := SignedDirectives(user, realm, nonce, uri, Auth, nc, cnonce, response, opaqueValue);
      && ParseAuthorization("Digest " + RenderList(ds)) == Some(ds)
      && ExpectedResponse(h, ds, password, httpMethod) == Some(response)
      && Find(ds, "response") == Some(response)
      && Find(ds, "opaque") == opaqueValue
      && Find(ds, "nc") == Some(nc) && Value(nc, 16) == counter
  {
    var nc := Hex8(counter);
    var response := RequestDigest(h, user, realm, password, httpMethod, uri, nonce, nc, cnonce, Auth);
    var ds := SignedDirectives(user, realm, nonce, uri, Auth, nc, cnonce, response, opaqueValue);
    SignedDirectivesReadBack(user, realm, nonce, uri, nc, cnonce, response, opaqueValue);
    SignedDirectivesFind(user, realm, nonce, uri, Auth, nc, cnonce, response, opaqueValue);
  }

  lemma SignedDirectivesReadBack(user: string, realm: string, nonce: string, uri: string, nc: string,
                                 cnonce: string, response: Md5Hex, opaqueValue: Option<string>)
    requires '"' !in user && '"' !in realm && '"' !in nonce && '"' !in uri && '"' !in cnonce
    requires opaqueValue.Some? ==> '"' !in opaqueValue.value
    requires |nc| >= 1 && AllHex(nc)
    ensures var ds := SignedDirectives(user, realm, nonce, uri, Auth, nc, cnonce, response, opaqueValue);
      ParseAuthorization("Digest " + RenderList(ds)) == Some(ds)
  {
    var ds := SignedDirectives(user, realm, nonce, uri, Auth, nc, cnonce, response, opaqueValue);
    assert '"' !in response by {
      forall i | 0 <= i < |response| ensures response[i] != '"' {
        assert IsHexDigit(response[i]);
      }
    }
    assert ',' !in nc && nc[0] != '"' by {
      forall i | 0 <= i < |nc| ensures nc[i] != ',' && nc[i] != '"' {
        assert IsHexDigit(nc[i]);
      }
    }
    assert forall i :: 0 <= i < |ds| ==> WellFormed(ds[i]) by {
      RequiredDirectivesWellFormed(user, realm, nonce, uri, nc, cnonce, response);
      if opaqueValue.Some? {
        assert WellFormed(Quoted("opaque", opaqueValue.value));
      }
    }
    ParseRenderList(ds);
    var value := "Digest " + RenderList(ds);
    assert value[..7] == "Digest " && value[7..] == RenderList(ds);
  }

  lemma RequiredDirectivesWellFormed(user: string, realm: string, nonce: string, uri: string, nc: string,
                                     cnonce: string, response: string)
    requires '"' !in user && '"' !in realm && '"' !in nonce && '"' !in uri && '"' !in cnonce && '"' !in response
    requires ',' !in nc && (nc == [] || nc[0] != '"')
    ensures var ds := RequiredDirectives(user, realm, nonce, uri, Auth, nc, cnonce, response);
      forall i :: 0 <= i < |ds| ==> WellFormed(ds[i])
  {
    var ds := RequiredDirectives(user, realm, nonce, uri, Auth, nc, cnonce, response);
    assert WellFormed(ds[0]) && WellFormed(ds[1]) && WellFormed(ds[2]) && WellFormed(ds[3]);
    assert WellFormed(ds[4]) && WellFormed(ds[5]) && WellFormed(ds[6]) && WellFormed(ds[7]);
  }

  lemma SignedDirectivesFind(user: string, realm: string, nonce: string, uri: string, qop: string, nc: string,
                             cnonce: string, response: string, opaqueValue: Option<string>)
    ensures var ds := SignedDirectives(user, realm, nonce, uri, qop, nc, cnonce, response, opaqueValue);
      && Find(ds, "username") == Some(user) && Find(ds, "realm") == Some(realm)
      && Find(ds, "nonce") == Some(nonce) && Find(ds, "uri") == Some(uri)
      && Find(ds, "qop") == Some(qop) && Find(ds, "nc") == Some(nc)
      && Find(ds, "cnonce") == Some(cnonce) && Find(ds, "response") == Some(response)
      && Find(ds, "opaque") == opaqueValue
  {
    var parts := RequiredDirectives(user, realm, nonce, uri, qop, nc, cnonce, response);
    var tail := if opaqueValue.Some? then [Quoted("opaque", opaqueValue.value)] else [];
    assert SignedDirectives(user, realm, nonce, uri, qop, nc, cnonce, response, opaqueValue) == parts + tail;
    RequiredDirectivesFind(user, realm, nonce, uri, qop, nc, cnonce, response);
    FindAppend(parts, tail, "username");
    FindAppend(parts, tail, "realm");
    FindAppend(parts, tail, "nonce");
    FindAppend(parts, tail, "uri");
    FindAppend(parts, tail, "qop");
    FindAppend(parts, tail, "nc");
    FindAppend(parts, tail, "cnonce");
    FindAppend(parts, tail, "response");
    FindAppend(parts, tail, "opaque");
  }

  lemma RequiredDirectivesFind(user: string, realm: string, nonce: string, uri: string, qop: string, nc: string,
                               cnonce: string, response: string)
    ensures var ds := RequiredDirectives(user, realm, nonce, uri, qop, nc, cnonce, response);
      && Find(ds, "username") == Some(user) && Find(ds, "realm") == Some(realm)
      && Find(ds, "nonce") == Some(nonce) && Find(ds, "uri") == Some(uri)
      && Find(ds, "qop") == Some(qop) && Find(ds, "nc") == Some(nc)
      && Find(ds, "cnonce") == Some(cnonce) && Find(ds, "response") == Some(response)
      && Find(ds, "opaque") == None
  {
    var ds := RequiredDirectives(user, realm, nonce, uri, qop, nc, cnonce, response);
    RequiredDirectivesHead(ds, user, realm, nonce, uri);
    RequiredDirectivesTail(ds, qop, nc, cnonce, response);
  }

  lemma RequiredDirectivesHead(ds: seq<Directive>, user: string, realm: string, nonce: string, uri: string)
    requires |ds| == 8
    requires ds[0] == Quoted("username", user) && ds[1] == Quoted("realm", realm)
    requires ds[2] == Quoted("nonce", nonce) && ds[3] == Quoted("uri", uri)
    ensures Find(ds, "username") == Some(user) && Find(ds, "realm") == Some(realm)
    ensures Find(ds, "nonce") == Some(nonce) && Find(ds, "uri") == Some(uri)
  {
    FindFirst(ds, 0, "username");
    FindFirst(ds, 1, "realm");
    FindFirst(ds, 2, "nonce");
    FindFirst(ds, 3, "uri");
  }

  lemma RequiredDirectivesTail(ds: seq<Directive>, qop: string, nc: string, cnonce: string, response: string)
    requires |ds| == 8
    requires ds[0].name == "username" && ds[1].name == "realm" && ds[2].name == "nonce" && ds[3].name == "uri"
    requires ds[4] == Quoted("qop", qop) && ds[5] == Token("nc", nc)
    requires ds[6] == Quoted("cnonce", cnonce) && ds[7] == Quoted("response", response)
    ensures Find(ds, "qop") == Some(qop) && Find(ds, "nc") == Some(nc)
    ensures Find(ds, "cnonce") == Some(cnonce) && Find(ds, "response") == Some(response)
    ensures Find(ds, "opaque") == None
  {
    assert Find(ds, "qop") == Some(qop) by { FindFirst(ds, 4, "qop"); }
    FindNc(ds, nc);
    FindCnonce(ds, cnonce);
    FindResponse(ds, response);
    NotNamed(ds, "opaque");
  }

  lemma FindNc(ds: seq<Directive>, nc: string)
    requires |ds| == 8
    requires ds[0].name == "username" && ds[1].name == "realm" && ds[2].name == "nonce" && ds[3].name == "uri"
    requires ds[4].name == "qop" && ds[5] == Token("nc", nc)
    ensures Find(ds, "nc") == Some(nc)
  {
    forall j | 0 <= j < 5 ensures ds[j].name != "nc" {
      assert |ds[j].name| != 2;
    }
    FindFirst(ds, 5, "nc");
  }

  lemma FindCnonce(ds: seq<Directive>, cnonce: string)
    requires |ds| == 8
    requires ds[0].name == "username" && ds[1].name == "realm" && ds[2].name == "nonce" && ds[3].name == "uri"
    requires ds[4].name == "qop" && ds[5].name == "nc" && ds[6] == Quoted("cnonce", cnonce)
    ensures Find(ds, "cnonce") == Some(cnonce)
  {
    forall j | 0 <= j < 6 ensures ds[j].name != "cnonce" {
      assert ds[j].name[0] != 'c';
    }
    FindFirst(ds, 6, "cnonce");
  }

  lemma FindResponse(ds: seq<Directive>, response: string)
    requires |ds| == 8
    requires ds[0].name == "username" && ds[1].name == "realm" && ds[2].name == "nonce" && ds[3].name == "uri"
    requires ds[4].name == "qop" && ds[5].name == "nc" && ds[6].name == "cnonce" && ds[7] == Quoted("response", response)
    ensures Find(ds, "response") == Some(response)
  {
    forall j | 0 <= j < 7 ensures ds[j].name != "response" {
      assert |ds[j].name| != 8 || ds[j].name[0] != 'r';
    }
    FindFirst(ds, 7, "response");
  }

  /** No directive of the required list is called `name`. */
  lemma NotNamed(ds: seq<Directive>, name: string)
    requires |ds| == 8 && |name| == 6 && name[0] == 'o'
    requires ds[0].name == "username" && ds[1].name == "realm" && ds[2].name == "nonce" && ds[3].name == "uri"
    requires ds[4].name == "qop" && ds[5].name == "nc" && ds[6].name == "cnonce" && ds[7].name == "response"
    ensures Find(ds, name) == None
  {
    forall i | 0 <= i < |ds| ensures ds[i].name != name {
      assert |ds[i].name| != 6 || ds[i].name[0] != 'o';
    }
  }

  // -----------------------------------------------------------------------
  // The class
  // -----------------------------------------------------------------------

  class DigestAuthorization {
    // server values; a key absent from the challenge is None (PHP null)
    const realm: Option<string>
    const qop: Option<string>
    const nonce: Option<string>
    const opaqueValue: Option<string>

    // client credentials; None until set
    var username: Option<string>
    var password: Option<string>

    // internal state
    var counter: nat
    var cnonce: string

    /** `new DigestAuthorization($realm, $qop, $nonce, $opaque)`: counter 1 and a fresh client nonce. */
    constructor (realm: Option<string>, qop: Option<string>, nonce: Option<string>, opaqueValue: Option<string>,
                 md5: Md5, entropy: string)
      ensures this.realm == realm && this.qop == qop && this.nonce == nonce && this.opaqueValue == opaqueValue
      ensures username == None && password == None
      ensures counter == 1
      ensures cnonce == md5(entropy)[..8]
    {
      this.realm := realm;
      this.qop := qop;
      this.nonce := nonce;
      this.opaqueValue := opaqueValue;
      username, password := None, None;
      counter, cnonce := 1, "";
      new;
      Cnonce(md5, entropy);
    }

    /** Every server value that is present is a non-empty, quote-free value. */
    predicate ServerValuesValid() {
      && (realm.Some? ==> IsValue(realm.value))
      && (qop.Some? ==> IsValue(qop.value))
      && (nonce.Some? ==> IsValue(nonce.value))
      && (opaqueValue.Some? ==> IsValue(opaqueValue.value))
    }

    /**
     * `fromChallenge($header, $user, $pass)`: scans the challenge for
     * key="value" pairs, stores them in order over the default
     * algorithm "md5", rejects any other algorithm, and builds an
     * instance from the stored realm, qop, nonce and opaque.
     */
    static method FromChallenge(header: string, user: string, pass: string, md5: Md5, entropy: string)
      returns (r: Result<DigestAuthorization, Failure>)
      ensures Scan(header) == [] <==> r == Err(InvalidChallenge)
      ensures Scan(header) != [] && Collect(Scan(header))["algorithm"] != Md5Algorithm <==> r == Err(AlgorithmNotImplemented)
      ensures r.Ok? <==> Scan(header) != [] && Collect(Scan(header))["algorithm"] == Md5Algorithm
      ensures r.Ok? ==>
        var values := Collect(Scan(header));
        && fresh(r.value)
        && r.value.realm == Lookup(values, "realm") && r.value.qop == Lookup(values, "qop")
        && r.value.nonce == Lookup(values, "nonce") && r.value.opaqueValue == Lookup(values, "opaque")
        && r.value.username == Some(user) && r.value.password == Some(pass)
        && r.value.counter == 1 && r.value.cnonce == md5(entropy)[..8]
      ensures r.Ok? ==> r.value.ServerValuesValid()
    {
      var matches := Scan(header);
      if |matches| == 0 {
        return Err(InvalidChallenge);
      }
      var values := Defaults;
      for i := 0 to |matches|
        invariant values == Collect(matches[..i])
      {
        assert matches[..i + 1][..i] == matches[..i];
        values := values[matches[i].key := matches[i].value];
      }
      assert matches[..|matches|] == matches;
      if values["algorithm"] != Md5Algorithm {
        return Err(AlgorithmNotImplemented);
      }
      CollectedValuesValid(matches);
      LookupsValid(values);
      var auth := new DigestAuthorization(Lookup(values, "realm"), Lookup(values, "qop"),
                                          Lookup(values, "nonce"), Lookup(values, "opaque"), md5, entropy);
      auth.SetUsername(user);
      auth.SetPassword(pass);
      return Ok(auth);
    }

    /** `username($u)` */
    method SetUsername(u: string)
      modifies this`username
      ensures username == Some(u)
    {
      username := Some(u);
    }

    /** `password($p)` */
    method SetPassword(p: string)
      modifies this`password
      ensures password == Some(p)
    {
      password := Some(p);
    }

    /**
     * `cnonce($c = null)`: the given client nonce, or else the first eight
     * digits of the MD5 of a time-seeded unique id (`entropy` stands for
     * `uniqid(time())`).  The counter and the server values are untouched.
     */
    method Cnonce(md5: Md5, entropy: string, c: Option<string> := None)
      modifies this`cnonce
      ensures c.Some? ==> cnonce == c.value
      ensures c.None? ==> cnonce == md5(entropy)[..8] && |cnonce| == 8 && AllHex(cnonce)
    {
      if c.None? {
        cnonce := md5(entropy)[..8];
      } else {
        cnonce := c.value;
      }
    }

    /** `ha1()`: H(A1); reading an unset password fails. */
    function Ha1(md5: Md5): (r: Result<Md5Hex, Failure>)
      reads this
      ensures r.Err? <==> password.None?
      ensures r.Err? ==> r.error == NullPassword
      ensures r.Ok? ==> r.value == md5(A1(username.GetOr(""), realm.GetOr(""), password.value))
    {
      if password.None? then Err(NullPassword)
      else
        Join3(":", username.GetOr(""), realm.GetOr(""), password.value);
        Ok(md5(Join(":", [username.GetOr(""), realm.GetOr(""), password.value])))
    }

    /** `ha2($request)`: H(A2), with the method upper-cased. */
    function Ha2(req: HttpRequest, md5: Md5): (r: Md5Hex)
      ensures r == md5(A2(ToUpper(req.httpMethod), DigestUri(req.url)))
    {
      Join2(":", ToUpper(req.httpMethod), DigestUri(req.url));
      md5(Join(":", [ToUpper(req.httpMethod), DigestUri(req.url)]))
    }

    /** `qop()`: "auth" if it is one of the comma-separated tokens, compared exactly. */
    function Qop(): (r: Result<string, Failure>)
      ensures r.Ok? ==> r.value == Auth
      ensures r.Err? ==> r.error == QopNotImplemented
    {
      if Auth in Split(qop.GetOr(""), ',') then Ok(Auth) else Err(QopNotImplemented)
    }

    /**
     * `responseFor($request)`: the request-digest of RFC 2617 for the
     * current counter and client nonce.  H(A1) is computed before the qop
     * check, so a missing password is reported first.
     */
    function ResponseFor(req: HttpRequest, md5: Md5): (r: Result<Md5Hex, Failure>)
      reads this
      ensures r.Ok? <==> password.Some? && Qop().Ok?
      ensures r.Err? ==> r.error == if password.None? then NullPassword else QopNotImplemented
      ensures r.Ok? ==> r.value == RequestDigest(md5, username.GetOr(""), realm.GetOr(""), password.value,
                                                 ToUpper(req.httpMethod), DigestUri(req.url), nonce.GetOr(""),
                                                 Hex8(counter), cnonce, Auth)
    {
      var ha1 :- Ha1(md5);
      var q :- Qop();
      JoinCons(":", ha1, [nonce.GetOr(""), Hex8(counter), cnonce, q, Ha2(req, md5)]);
      Join5(":", nonce.GetOr(""), Hex8(counter), cnonce, q, Ha2(req, md5));
      assert [ha1] + [nonce.GetOr(""), Hex8(counter), cnonce, q, Ha2(req, md5)]
          == [ha1, nonce.GetOr(""), Hex8(counter), cnonce, q, Ha2(req, md5)];
      Ok(md5(Join(":", [ha1, nonce.GetOr(""), Hex8(counter), cnonce, q, Ha2(req, md5)])))
    }

    /**
     * The value `sign` gives the Authorization header.  The qop directive
     * is built before the response, so a qop failure is reported first.
     */
    function AuthorizationHeader(req: HttpRequest, md5: Md5): (r: Result<string, Failure>)
      reads this
      ensures r.Ok? <==> Qop().Ok? && password.Some?
      ensures r.Err? ==> r.error == if Qop().Err? then QopNotImplemented else NullPassword
    {
      var q :- Qop();
      var response :- ResponseFor(req, md5);
      Ok("Digest " + RenderList(SignedDirectives(username.GetOr(""), realm.GetOr(""), nonce.GetOr(""),
                                                 DigestUri(req.url), q, Hex8(counter), cnonce, response, opaqueValue)))
    }

    /**
     * `sign($request)`: sets the Authorization header, then advances the
     * counter by one.  On failure neither the headers nor the counter change.
     */
    method Sign(req: HttpRequest, md5: Md5) returns (r: Result<(), Failure>)
      modifies req`headers, this`counter
      ensures r.Ok? <==> old(AuthorizationHeader(req, md5)).Ok?
      ensures r.Err? ==> && r.error == old(AuthorizationHeader(req, md5)).error
                         && req.headers == old(req.headers) && counter == old(counter)
      ensures r.Ok? ==> && req.headers == old(req.headers)["Authorization" := old(AuthorizationHeader(req, md5)).value]
                        && counter == old(counter) + 1
    {
      var header := AuthorizationHeader(req, md5);
      if header.Err? {
        return Err(header.error);
      }
      req.SetHeader("Authorization", header.value);
      counter := counter + 1;
      return Ok(());
    }

    /** `equals($o)`: another DigestAuthorization for the same realm, qop, nonce and opaque. */
    predicate Equals(o: object?)
      ensures Equals(o) ==> o is DigestAuthorization
    {
      o is DigestAuthorization && SameChallenge(o as DigestAuthorization)
    }

    predicate SameChallenge(other: DigestAuthorization) {
      other.realm == realm && other.qop == qop && other.nonce == nonce && other.opaqueValue == opaqueValue
    }
  }

  // -----------------------------------------------------------------------
  // Properties
  // -----------------------------------------------------------------------

  /** Every value stored from a scanned challenge is a non-empty, quote-free value. */
  lemma {:induction false} CollectedValuesValid(ps: seq<Pair>)
    requires WellFormedPairs(ps)
    ensures forall k :: k in Collect(ps) ==> IsValue(Collect(ps)[k])
  {
    if ps != [] {
      CollectedValuesValid(ps[..|ps| - 1]);
    }
  }

  lemma LookupsValid(m: map<string, string>)
    requires forall k :: k in m ==> IsValue(m[k])
    ensures forall k :: Lookup(m, k).Some? ==> IsValue(Lookup(m, k).value)
  {
  }

  /** qop succeeds on a comma-joined token list iff "auth" is one of the tokens. */
  lemma QopAcceptsIff(a: DigestAuthorization, tokens: seq<string>)
    requires |tokens| >= 1 && forall i :: 0 <= i < |tokens| ==> ',' !in tokens[i]
    requires a.qop == Some(Join(",", tokens))
    ensures a.Qop().Ok? <==> Auth in tokens
  {
    SplitJoin(tokens, ',');
  }

  /** An instance whose challenge has no qop can never sign. */
  lemma QopAbsentFails(a: DigestAuthorization)
    requires a.qop == None
    ensures a.Qop() == Err(QopNotImplemented)
  {
    assert Split("", ',') == [""];
  }

  /**
   * The header an instance writes verifies at the server: it reads back as
   * its directives, with the current counter as nonce count and the
   * response of `responseFor`.
   */
  lemma AuthorizationHeaderVerifies(a: DigestAuthorization, req: HttpRequest, md5: Md5)
    requires a.AuthorizationHeader(req, md5).Ok?
    requires a.username.Some? ==> '"' !in a.username.value
    requires a.realm.Some? ==> '"' !in a.realm.value
    requires a.nonce.Some? ==> '"' !in a.nonce.value
    requires a.opaqueValue.Some? ==> '"' !in a.opaqueValue.value
    requires '"' !in DigestUri(req.url) && '"' !in a.cnonce
    ensures var ds := ParseAuthorization(a.AuthorizationHeader(req, md5).value);
      && ds.Some?
      && Find(ds.value, "response") == Some(a.ResponseFor(req, md5).value)
      && ExpectedResponse(md5, ds.value, a.password.value, ToUpper(req.httpMethod)) == Some(a.ResponseFor(req, md5).value)
      && Find(ds.value, "nc").Some? && AllHex(Find(ds.value, "nc").value)
      && Value(Find(ds.value, "nc").value, 16) == a.counter
      && Find(ds.value, "cnonce") == Some(a.cnonce)
      && Find(ds.value, "opaque") == a.opaqueValue
    ensures ParseAuthorization(a.AuthorizationHeader(req, md5).value)
         == Some(SignedDirectives(a.username.GetOr(""), a.realm.GetOr(""), a.nonce.GetOr(""), DigestUri(req.url), Auth,
                                  Hex8(a.counter), a.cnonce, a.ResponseFor(req, md5).value, a.opaqueValue))
  {
    var user, realm, nonce, uri := a.username.GetOr(""), a.realm.GetOr(""), a.nonce.GetOr(""), DigestUri(req.url);
    var nc := Hex8(a.counter);
    var response := a.ResponseFor(req, md5).value;
    assert a.Qop() == Ok(Auth);
    assert response == RequestDigest(md5, user, realm, a.password.value, ToUpper(req.httpMethod), uri, nonce, nc,
                                     a.cnonce, Auth);
    var ds := SignedDirectives(user, realm, nonce, uri, Auth, nc, a.cnonce, response, a.opaqueValue);
    assert a.AuthorizationHeader(req, md5).value == "Digest " + RenderList(ds);
    SignedHeaderVerifies(md5, user, realm, a.password.value, ToUpper(req.httpMethod), uri, nonce, a.counter,
                         a.cnonce, a.opaqueValue);
    SignedDirectivesFind(user, realm, nonce, uri, Auth, nc, a.cnonce, response, a.opaqueValue);
  }

  /**
   * For a method already written in upper case, the method on the request
   * line is the one `ha2` hashes, so a server that recomputes the digest
   * from the method as sent gets the response the header carries.
   */
  lemma AuthorizationHeaderVerifiesAsSent(a: DigestAuthorization, req: HttpRequest, md5: Md5)
    requires a.AuthorizationHeader(req, md5).Ok?
    requires a.username.Some? ==> '"' !in a.username.value
    requires a.realm.Some? ==> '"' !in a.realm.value
    requires a.nonce.Some? ==> '"' !in a.nonce.value
    requires a.opaqueValue.Some? ==> '"' !in a.opaqueValue.value
    requires '"' !in DigestUri(req.url) && '"' !in a.cnonce
    requires ToUpper(req.httpMethod) == req.httpMethod
    ensures ParseAuthorization(a.AuthorizationHeader(req, md5).value).Some?
    ensures ExpectedResponse(md5, ParseAuthorization(a.AuthorizationHeader(req, md5).value).value, a.password.value,
                             req.httpMethod) == Some(a.ResponseFor(req, md5).value)
  {
    AuthorizationHeaderVerifies(a, req, md5);
  }

  /** A method that went through `strtoupper` once is sent as it is hashed. */
  lemma AuthorizationHeaderVerifiesUpperCased(a: DigestAuthorization, req: HttpRequest, md5: Md5, m: string)
    requires a.AuthorizationHeader(req, md5).Ok?
    requires a.username.Some? ==> '"' !in a.username.value
    requires a.realm.Some? ==> '"' !in a.realm.value
    requires a.nonce.Some? ==> '"' !in a.nonce.value
    requires a.opaqueValue.Some? ==> '"' !in a.opaqueValue.value
    requires '"' !in DigestUri(req.url) && '"' !in a.cnonce
    requires req.httpMethod == ToUpper(m)
    ensures ParseAuthorization(a.AuthorizationHeader(req, md5).value).Some?
    ensures ExpectedResponse(md5, ParseAuthorization(a.AuthorizationHeader(req, md5).value).value, a.password.value,
                             req.httpMethod) == Some(a.ResponseFor(req, md5).value)
  {
    ToUpperIdempotent(m);
    AuthorizationHeaderVerifiesAsSent(a, req, md5);
  }

  /** Equality is an equivalence that ignores username, password, counter and client nonce. */
  lemma EqualsIsEquivalence(a: DigestAuthorization, b: DigestAuthorization, c: DigestAuthorization)
    ensures a.Equals(a)
    ensures a.Equals(b) ==> b.Equals(a)
    ensures a.Equals(b) && b.Equals(c) ==> a.Equals(c)
    ensures a.Equals(b) <==> a.realm == b.realm && a.qop == b.qop && a.nonce == b.nonce && a.opaqueValue == b.opaqueValue
  {
  }

  lemma EqualsRejectsOthers(a: DigestAuthorization, o: object?)
    requires !(o is DigestAuthorization)
    ensures !a.Equals(o)
  {
  }
}
