# HTTP Digest authorization and socket transport, modelled in Dafny

This project models two classes of the XP framework's `peer.http` package.

- `DigestAuthorization` is the client side of HTTP Digest access
  authentication (RFC 2617) with algorithm MD5 and qop "auth". It covers:
  - reading a `WWW-Authenticate` challenge into realm, qop, nonce and opaque,
    with the md5-only check on `algorithm`;
  - the qop negotiation;
  - the request-digest `responseFor` computes from H(A1), H(A2), the nonce,
    the eight-digit nonce count, the client nonce and "auth";
  - the `Authorization: Digest …` header `sign` writes, and the counter it
    advances;
  - the client nonce;
  - equality on the four server values.
- `SocketHttpTransport` sends a request either directly or through a
  forward proxy. It covers:
  - the routing decision;
  - the absolute-form target it writes for a proxy (section 5.3.2 of
    RFC 7230);
  - the close/setTimeout/connect/write sequence it drives on the chosen
    socket on every send.

The files, one module each:

- `wrappers.dfy`: `Option` and `Result`.
- `text.dfy`: the PHP string built-ins the core uses. These are
  `strtoupper`, `sprintf('%08x')`, decimal conversion, `implode` and
  `explode`.
- `challenge.dfy`: the `preg_match_all` scan of the challenge, and the
  values dictionary it fills.
- `directives.dfy`: the directive list of the Authorization header, plus a
  reader for it, the way a server parses what the client writes.
- `http.dfy`: the URL value and the request object, whose target and
  headers change in place.
- `digest.dfy`: the DigestAuthorization class, with the digest of sections
  3.2.1 and 3.2.2 of RFC 2617 as an independent reference.
- `transport.dfy`: sockets as objects that record the calls made on them,
  the proxy, and the transport class.

MD5 is not computed. Every member that hashes takes the hash as a parameter
`md5` of type `string -> Md5Hex` (32 lowercase hex digits). The results
therefore hold for any such function, and they describe how the hash inputs
are assembled. Two more things outside the code are parameters:

- the randomness of `uniqid(time())` is the parameter `entropy`;
- whether the peer accepts a connection is the parameter `accepts` of `Send`.

`HttpProxy::isExcluded` is a function-valued field of the proxy value, and
`HttpRequest::getRequestString` is a `render` parameter. The model does not
interpret either.

The model keeps three details of the code as written:

- the proxy target carries no query string, although the absolute form of
  section 5.3.2 of RFC 7230 may include one;
- `send` calls `setTimeout` before `connect`;
- `opaque` is appended whenever it is not null (`sizeof` of any string is
  1), not only when it is non-empty.

Pinned behaviours:

- `setProxy` calls `newSocket` with one argument only. The model gives it
  the PHP 5 meaning of an absent, unused argument.
- An unset password makes `ha1` fail. This is `NullPassword`.
- In `sign` the qop check runs before `responseFor`, so a qop failure is
  reported first.

## Model

| member | source | states |
|---|---|---|
| Text.ToUpper | src/main/php/peer/http/DigestAuthorization.class.php:174 | `strtoupper`: same length, each ASCII lowercase letter mapped to its uppercase partner, everything else kept |
| Text.ToUpperIdempotent | src/main/php/peer/http/DigestAuthorization.class.php:174 | upper-casing an upper-cased method changes nothing |
| Text.Hex8 | src/main/php/peer/http/DigestAuthorization.class.php:141 | `sprintf('%08x', n)` is at least 8 lowercase hex digits, denotes n, is exactly 8 digits for every n below 16^8, and above that has no leading zero |
| Text.Decimal | src/main/php/peer/http/SocketHttpTransport.class.php:69 | the decimal rendering of a port is all digits, denotes the port, and has no leading zero unless it is "0" |
| Text.Split | src/main/php/peer/http/DigestAuthorization.class.php:184 | `explode(',', s)` yields at least one part and no part contains the separator |
| Text.JoinSplit | src/main/php/peer/http/DigestAuthorization.class.php:184 | joining the parts of `explode` with the separator gives back the string |
| Text.SplitJoin | src/main/php/peer/http/DigestAuthorization.class.php:184 | `explode` of separator-free parts joined by the separator gives back exactly those parts |
| Challenge.LetterRun | src/main/php/peer/http/DigestAuthorization.class.php:67 | the greedy `[a-z]+` run: all letters before it, a non-letter or the end after it |
| Challenge.ValueRun | src/main/php/peer/http/DigestAuthorization.class.php:67 | the greedy `[^"$]+` run: no '"' or '$' inside, one of them or the end after it |
| Challenge.MatchAt | src/main/php/peer/http/DigestAuthorization.class.php:67 | an anchored match covers exactly `key="value"` with a lowercase key and a non-empty value free of '"' and '$' |
| Challenge.MatchAtComplete | src/main/php/peer/http/DigestAuthorization.class.php:67 | whenever the text starts with such a pair, the anchored match finds exactly that pair (greedy runs need no backtracking) |
| Challenge.Scan | src/main/php/peer/http/DigestAuthorization.class.php:67 | every pair `preg_match_all` returns has a lowercase key and a quote-free value, with the quotes stripped as `trim` does |
| Challenge.NoMatchesIff | src/main/php/peer/http/DigestAuthorization.class.php:67-69 | the scan finds nothing iff no substring of the header has the form `[a-z]+="v"` with v non-empty and free of '"' and '$' |
| Challenge.ScanFindsSomething | src/main/php/peer/http/DigestAuthorization.class.php:67-69 | a non-empty scan result implies the header contains such a substring |
| Challenge.SomethingIsFound | src/main/php/peer/http/DigestAuthorization.class.php:67-69 | a header containing such a substring makes the scan find something |
| Challenge.ScanSkipsEmptyValue | src/main/php/peer/http/DigestAuthorization.class.php:67 | a pair with an empty value, `k=""`, contributes nothing, whatever follows it |
| Challenge.ScanSkips | src/main/php/peer/http/DigestAuthorization.class.php:67 | text without '=' that does not end in a letter, such as "Digest " or ", ", contributes nothing |
| Challenge.ScanPairThen | src/main/php/peer/http/DigestAuthorization.class.php:67 | a leading pair is found first and the scan resumes right after it |
| Challenge.RenderPairsRoundTrip | src/main/php/peer/http/DigestAuthorization.class.php:67-74 | `k1="v1", k2="v2", …` scans back to exactly those pairs |
| Challenge.DigestChallengeRoundTrip | src/main/php/peer/http/DigestAuthorization.class.php:67-74 | the same for a complete `Digest k1="v1", …` challenge |
| Challenge.Collect | src/main/php/peer/http/DigestAuthorization.class.php:71-74 | the dictionary filled over the default `algorithm => md5` always has the `algorithm` key |
| Challenge.CollectLast | src/main/php/peer/http/DigestAuthorization.class.php:72-74 | a key holds the value of its last occurrence, so a later duplicate overwrites an earlier one |
| Challenge.CollectAbsent | src/main/php/peer/http/DigestAuthorization.class.php:71-74 | a key that never occurs is absent, but `algorithm` keeps its default "md5" |
| Directives.ParseRenderList | src/main/php/peer/http/DigestAuthorization.class.php:135-150 | a well-formed directive list joined by ", " reads back as exactly that list |
| Directives.ParseDirectiveThen | src/main/php/peer/http/DigestAuthorization.class.php:135-147 | each `name="value"` or `name=value` directive, followed by the end or a ',', reads back as itself |
| Directives.Find | src/main/php/peer/http/DigestAuthorization.class.php:135-147 | a directive lookup succeeds iff a directive of that name is present |
| Directives.FindFirst | src/main/php/peer/http/DigestAuthorization.class.php:135-147 | the lookup returns the value of the first directive of that name |
| Directives.FindAppend | src/main/php/peer/http/DigestAuthorization.class.php:146-148 | looking up in an extended list finds the original list's directive first, otherwise the appended one |
| Digest.SignedHeaderVerifies | src/main/php/peer/http/DigestAuthorization.class.php:133-150 | the header `sign` writes parses back as its directives; a server that recomputes the RFC 2617 digest from the header's own fields and the password gets its response; nc denotes the counter; opaque is present iff set |
| Digest.SignedDirectivesReadBack | src/main/php/peer/http/DigestAuthorization.class.php:135-150 | the eight directives, plus opaque when set, read back from `Digest ` and their ", "-joined rendering |
| Digest.SignedDirectivesFind | src/main/php/peer/http/DigestAuthorization.class.php:135-148 | each directive name of the signed header finds the value written for it, and "opaque" finds the opaque value or nothing |
| Digest.DigestUri | src/main/php/peer/http/DigestAuthorization.class.php:139 | the uri directive starts with the path; for a path without '?', it contains a '?' iff the URL has parameters |
| Digest.RequiredDirectives | src/main/php/peer/http/DigestAuthorization.class.php:135-144 | the eight directives `sign` always writes; nc, the sixth, is the only one whose value is not quoted |
| Digest.DigestAuthorization.constructor | src/main/php/peer/http/DigestAuthorization.class.php:46-55 | stores the four server values, no credentials, counter 1, and a client nonce of the first 8 digits of an MD5 |
| Digest.DigestAuthorization.FromChallenge | src/main/php/peer/http/DigestAuthorization.class.php:66-90 | fails with InvalidChallenge iff the scan is empty, fails with AlgorithmNotImplemented iff the stored algorithm is not exactly "md5", and succeeds in every other case; on success, a fresh instance with the stored realm, qop, nonce and opaque (None where absent), the given credentials, counter 1, and only non-empty, quote-free server values |
| Digest.DigestAuthorization.SetUsername | src/main/php/peer/http/DigestAuthorization.class.php:97-99 | sets only the username |
| Digest.DigestAuthorization.SetPassword | src/main/php/peer/http/DigestAuthorization.class.php:106-108 | sets only the password |
| Digest.DigestAuthorization.Cnonce | src/main/php/peer/http/DigestAuthorization.class.php:197-203 | a given value is stored exactly; with none, the first 8 hex digits of an MD5 are stored; only the client nonce changes |
| Digest.DigestAuthorization.Ha1 | src/main/php/peer/http/DigestAuthorization.class.php:161-163 | H(A1) of user, realm and password as RFC 2617 defines A1; fails iff the password is unset |
| Digest.DigestAuthorization.Ha2 | src/main/php/peer/http/DigestAuthorization.class.php:171-177 | H(A2) of the upper-cased method and the path, plus '?' and the query when the URL has parameters |
| Digest.DigestAuthorization.Qop | src/main/php/peer/http/DigestAuthorization.class.php:183-190 | yields "auth" or fails with QopNotImplemented |
| Digest.DigestAuthorization.ResponseFor | src/main/php/peer/http/DigestAuthorization.class.php:116-125 | succeeds iff a password is set and qop passes, with the password failure first; the result is the request-digest of section 3.2.2.1 of RFC 2617 for the nonce, `Hex8(counter)`, the client nonce and "auth" |
| Digest.DigestAuthorization.AuthorizationHeader | src/main/php/peer/http/DigestAuthorization.class.php:135-150 | the header value exists iff qop passes and a password is set, with the qop failure reported first |
| Digest.DigestAuthorization.Sign | src/main/php/peer/http/DigestAuthorization.class.php:133-154 | on success, sets only the Authorization header to that value and raises the counter by exactly one; on failure, headers and counter are unchanged |
| Digest.DigestAuthorization.Equals | src/main/php/peer/http/DigestAuthorization.class.php:211-220 | true only for another DigestAuthorization |
| Digest.CollectedValuesValid | src/main/php/peer/http/DigestAuthorization.class.php:71-74 | every value stored from a challenge is non-empty and free of '"' and '$' |
| Digest.QopAcceptsIff | src/main/php/peer/http/DigestAuthorization.class.php:183-190 | for a qop list of comma-free tokens, qop passes iff "auth" is one of the tokens, compared exactly |
| Digest.QopAbsentFails | src/main/php/peer/http/DigestAuthorization.class.php:184-186 | an absent qop fails the qop check |
| Digest.AuthorizationHeaderVerifies | src/main/php/peer/http/DigestAuthorization.class.php:133-150 | the header an instance builds parses back as exactly the directives `sign` writes, in its order: username, realm, nonce, uri, qop "auth", nc, cnonce, response, then opaque when set. A server holding the password that hashes the upper-cased method, as `ha2` does, recomputes the response the header carries. Its nc denotes the counter, and opaque is present iff the instance has one |
| Digest.AuthorizationHeaderVerifiesAsSent | src/main/php/peer/http/DigestAuthorization.class.php:133-177 | for a method already in upper case, a server that hashes the method as it appears on the request line recomputes the response the header carries |
| Digest.AuthorizationHeaderVerifiesUpperCased | src/main/php/peer/http/DigestAuthorization.class.php:133-177 | for a method that is itself the upper-casing of some string, a server that hashes the method as sent recomputes the response the header carries, because upper-casing twice changes nothing |
| Digest.EqualsIsEquivalence | src/main/php/peer/http/DigestAuthorization.class.php:211-220 | equality is reflexive, symmetric and transitive, and holds iff realm, qop, nonce and opaque agree, whatever the credentials, counter or client nonce |
| Digest.EqualsRejectsOthers | src/main/php/peer/http/DigestAuthorization.class.php:212 | equals is false for anything that is not a DigestAuthorization |
| Http.HttpRequest.SetHeader | src/main/php/peer/http/DigestAuthorization.class.php:150 | replaces the header of that name and leaves the others |
| Http.HttpRequest.SetTarget | src/main/php/peer/http/SocketHttpTransport.class.php:65-71 | replaces the request target |
| Transport.Socket.Connect | src/main/php/peer/http/SocketHttpTransport.class.php:84 | records the connect attempt; connected exactly when the peer accepts |
| Transport.Socket.Close | src/main/php/peer/http/SocketHttpTransport.class.php:81 | the socket is left unconnected, and the close is appended to its log |
| Transport.Socket.SetTimeout | src/main/php/peer/http/SocketHttpTransport.class.php:83 | records the timeout in the log; the connection state is unchanged |
| Transport.Socket.Write | src/main/php/peer/http/SocketHttpTransport.class.php:85 | records the written data in the log; the connection state is unchanged |
| Transport.AbsoluteTargetRoundTrip | src/main/php/peer/http/SocketHttpTransport.class.php:65-71 | a proxy reading the rewritten target gets back the scheme, host, port (only when set and non-zero) and path (default "/") |
| Transport.AbsoluteTargetHasNoQuery | src/main/php/peer/http/SocketHttpTransport.class.php:65-71 | the rewritten target never carries a query |
| Transport.AbsoluteTarget | src/main/php/peer/http/SocketHttpTransport.class.php:65-71 | the rewritten target starts with scheme "://" host and ends with the path, "/" when unset |
| Transport.PortSuffix | src/main/php/peer/http/SocketHttpTransport.class.php:69 | empty iff the port is unset or 0; otherwise ":" then a decimal with no leading zero that denotes the port |
| Transport.ParsePortSuffix | src/main/php/peer/http/SocketHttpTransport.class.php:69 | the `":" port` suffix appears only for a set, non-zero port and reads back as that port |
| Transport.SendEvents | src/main/php/peer/http/SocketHttpTransport.class.php:81-85 | one send closes iff the socket was connected, always connects, and writes iff the connection is accepted |
| Transport.SendEventsOrder | src/main/php/peer/http/SocketHttpTransport.class.php:81-85 | strict order: close first when connected, then setTimeout, connect and, when accepted, the write last |
| Transport.ConsecutiveSends | src/main/php/peer/http/SocketHttpTransport.class.php:78-85 | two sends through one socket both connect, and after an accepted first connection the second send closes before it sets the timeout and reconnects |
| Transport.SocketHttpTransport.Unselected | src/main/php/peer/http/SocketHttpTransport.class.php:64-76 | the socket not chosen is never the chosen one |
| Transport.SocketHttpTransport.constructor | src/main/php/peer/http/SocketHttpTransport.class.php:27-29 | a new, unconnected direct socket on the URL's host and port (80 by default), no proxy |
| Transport.SocketHttpTransport.NewSocket | src/main/php/peer/http/SocketHttpTransport.class.php:38-40 | a new, unconnected socket on the URL's host and its port, or 80 |
| Transport.SocketHttpTransport.SetProxy | src/main/php/peer/http/SocketHttpTransport.class.php:47-50 | records the proxy and a new, unconnected proxy socket on the proxy's host and port (80 if unset); the direct socket stays |
| Transport.SocketHttpTransport.Send | src/main/php/peer/http/SocketHttpTransport.class.php:60-91 | on the proxy route the target becomes the absolute form, otherwise it is kept; the chosen socket sees exactly `SendEvents`, with the request as rendered after the rewrite; the other socket is untouched; a refused connect fails before any write; defaults are timeout 60 and connect timeout 2.0 |
| Transport.SocketHttpTransport.Exchange | src/main/php/peer/http/SocketHttpTransport.class.php:81-85 | the chosen socket ends connected exactly when the peer accepts, and its log grows by exactly the close (when connected), setTimeout, connect and write (when accepted) calls |

## Left out

- MD5 and `uniqid(time())`: passed in as the parameters `md5` and `entropy`, because neither is computed here.
- `SecureString`: the password is a plain string. `getCharacters()` and disposal belong to a foreign library.
- Reading an unset password: PHP raises an error when it calls `getCharacters()` on null. The model reports this as the failure `NullPassword`.
- `toString`: left out, because it depends on `hashCode` and `xp::stringOf`. It lists realm, qop, nonce, opaque and username, never the password.
- The `Header` base class: left out. For the request, only its `Authorization` value (a string) is modelled.
- Real sockets: connecting, writing, the `SocketInputStream`, the `HttpResponse` wrapped around it, and the `$this->cat` logging are not modelled. A socket only records the calls made on it.
- `Send` returns the socket the response would be read from.
- Write and read failures: left out. Only a refused `connect` is modelled, and it ends `send` before the write.
- `HttpProxy::isExcluded` and `HttpRequest::getRequestString`: both are uninterpreted, because their code is not part of this model.
- The base class `HttpTransport`: `parent::setProxy` is modelled as storing the proxy in the field `proxy`.
- Timeouts: passed through unchanged. The connect timeout is a `real`, so nothing about PHP floats is modelled.
- Subclasses that override `newSocket`: left out. `NewSocket` is the one written in this class.
- `setProxy`'s one-argument call to `newSocket` follows PHP 5, where the missing argument is null. From PHP 7.1 on, that call raises an error.
- `sizeof` on a string or null follows PHP 5 to 7: 1 and 0. PHP 8 raises an error for both.
- Digest.DigestAuthorization.Sign: the header value is kept as a string instead of a `Header` object. The counter is an unbounded `nat`, so PHP's integer overflow past `PHP_INT_MAX` is not modelled.
- Text.Hex8: a counter of 16^8 or more gives more than eight digits, as `%08x` does. The model states this; it does not treat it as an error.
- Digest.DigestAuthorization.AuthorizationHeader: its own contract states only when the header can be built. `Digest.AuthorizationHeaderVerifies` states its content as the directive list it parses back to, but only for values free of '"'.
- Quoted values containing '"': nothing escapes them. The read-back lemmas therefore require the username, realm, nonce, uri, client nonce and opaque to be free of '"'. The code itself accepts any value.
- Digest.AuthorizationHeaderVerifiesAsSent: a method not written in upper case, such as "get", is sent as given but hashed upper-cased by `ha2`. A server that hashes the method as sent then computes a different response, so the match with the request line is stated only for upper-case methods.
- Text.ToUpper: models the ASCII (C-locale) `strtoupper`, which changes only 'a' to 'z'. Before PHP 8.2 the function followed the LC_CTYPE locale, and a Latin-1 locale also upper-cases bytes such as 0xE4. HTTP methods are ASCII tokens, so the core does not depend on this.
- Transport.AbsoluteTargetRoundTrip: the reader stops the host at the first ':', so it does not read back IPv6 literal hosts such as `[::1]`. The rewrite itself accepts them.
- FormRequestData and its test: their implementation is not part of this model.
