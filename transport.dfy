/**
 * `peer.http.SocketHttpTransport`: sends a request over a direct socket,
 * or over a proxy socket with the request target rewritten to absolute
 * form, closing and reconnecting the chosen socket on every send.
 *
 * A socket performs no I/O here: it records the calls made on it, in
 * order, and whether the peer accepts a connection is a parameter.
 */
module Transport {
  import opened Wrappers
  import opened Text
  import opened Http

  /** One call made on a socket. */
  datatype SocketEvent =
    | Closed
    | TimeoutSet(seconds: int)
    | ConnectAttempted(timeout: real)
    | Written(data: string)

  /** The exception a failed `connect` raises out of `send`. */
  datatype TransportError = ConnectFailed

  /** `peer.Socket`, reduced to its connection state and the calls made on it. */
  class Socket {
    const host: string
    const port: nat
    var connected: bool
    var log: seq<SocketEvent>

    constructor (host: string, port: nat)
      ensures this.host == host && this.port == port
      ensures !connected && log == []
    {
      this.host := host;
      this.port := port;
      connected := false;
      log := [];
    }

    function IsConnected(): bool
      reads this
    {
      connected
    }

    method Close()
      modifies this
      ensures !connected && log == old(log) + [Closed]
    {
      connected := false;
      log := log + [Closed];
    }

    method SetTimeout(seconds: int)
      modifies this
      ensures connected == old(connected) && log == old(log) + [TimeoutSet(seconds)]
    {
      log := log + [TimeoutSet(seconds)];
    }

    /** `connect($timeout)`; `accepted` says whether the peer took the connection. */
    method Connect(timeout: real, accepted: bool) returns (ok: bool)
      modifies this
      ensures ok == accepted && connected == accepted
      ensures log == old(log) + [ConnectAttempted(timeout)]
    {
      connected := accepted;
      log := log + [ConnectAttempted(timeout)];
      ok := accepted;
    }

    method Write(data: string)
      modifies this
      ensures connected == old(connected) && log == old(log) + [Written(data)]
    {
      log := log + [Written(data)];
    }
  }

  /** `peer.http.HttpProxy`: where the proxy listens, and which URLs bypass it. */
  datatype HttpProxy = HttpProxy(host: string, port: Option<nat>, isExcluded: Url -> bool)

  /** Which of the transport's two sockets a request goes through. */
  datatype Endpoint = Direct | ViaProxy

  /** The routing decision of `send`: the proxy, unless none is set or it excludes the URL. */
  function Route(proxy: Option<HttpProxy>, url: Url): Endpoint {
    if proxy.Some? && !proxy.value.isExcluded(url) then ViaProxy else Direct
  }

  // -----------------------------------------------------------------------
  // The absolute-form target (section 5.3.2 of RFC 7230) and its reading
  // -----------------------------------------------------------------------

  /** ":" and the port in decimal when the port is set and not zero, else nothing. */
  function PortSuffix(port: Option<nat>): (s: string)
    ensures s == [] <==> port.None? || port.value == 0
    ensures s != [] ==> s[0] == ':' && AllDecimal(s[1..]) && Value(s[1..], 10) == port.value
    ensures |s| > 2 ==> s[1] != '0'
  {
    if port.Some? && port.value != 0 then ":" + Decimal(port.value) else ""
  }

  /** The target `send` writes for the proxy: scheme, "://", host, port suffix, path (default "/"); no query. */
  function AbsoluteTarget(url: Url): (t: string)
    ensures url.scheme + "://" + url.host <= t
    ensures |url.GetPath("/")| <= |t| && t[|t| - |url.GetPath("/")|..] == url.GetPath("/")
  {
    url.scheme + "://" + url.host + PortSuffix(url.port) + url.GetPath("/")
  }

  /** The parts a proxy reads back from an absolute-form target. */
  datatype AbsoluteForm = AbsoluteForm(scheme: string, host: string, port: Option<nat>, path: string)

  predicate IsHostChar(c: char) {
    c != ':' && c != '/'
  }

  /** Length of the leading run of characters that may stand in a host name. */
  function HostRun(s: string): (n: nat)
    ensures n <= |s|
    ensures forall i :: 0 <= i < n ==> IsHostChar(s[i])
    ensures n < |s| ==> !IsHostChar(s[n])
  {
    if s != [] && IsHostChar(s[0]) then 1 + HostRun(s[1..]) else 0
  }

  /** Reads `scheme "://" host [":" port] path`. */
  function ParseAbsoluteTarget(t: string): Option<AbsoluteForm> {
    var parts :- SplitTarget(t);
    var portAndPath :- ParsePortAndPath(parts.2);
    Some(AbsoluteForm(parts.0, parts.1, portAndPath.0, portAndPath.1))
  }

  /** The scheme up to the first ':', then "://", the host up to the next ':' or '/', and what follows. */
  function SplitTarget(t: string): Option<(string, string, string)> {
    var i := RunWithout(t, ':');
    if i + 3 > |t| || t[i..i + 3] != "://" then None
    else
      var rest := t[i + 3..];
      var h := HostRun(rest);
      Some((t[..i], rest[..h], rest[h..]))
  }

  /** What follows the host: an optional ":" and decimal port, then the path. */
  function ParsePortAndPath(s: string): Option<(Option<nat>, string)> {
    if s != [] && s[0] == ':' then
      var digits := LeadingDigits(s[1..]);
      if digits == [] then None
      else Some((Some(Value(digits, 10)), s[1 + |digits|..]))
    else
      Some((None, s))
  }

  lemma HostRunIs(s: string, n: nat)
    requires n <= |s|
    requires forall i :: 0 <= i < n ==> IsHostChar(s[i])
    requires n < |s| ==> !IsHostChar(s[n])
    ensures HostRun(s) == n
  {
  }

  /** The scheme ends at the first ':', the host at the first ':' or '/'. */
  lemma SplitTargetIs(scheme: string, host: string, after: string)
    requires ':' !in scheme
    requires ':' !in host && '/' !in host
    requires after == [] || !IsHostChar(after[0])
    ensures SplitTarget(scheme + "://" + host + after) == Some((scheme, host, after))
  {
    var t := scheme + "://" + host + after;
    var rest := host + after;
    assert t == scheme + ("://" + rest);
    RunWithoutFree(scheme, "://" + rest, ':');
    assert t[..|scheme|] == scheme;
    assert t[|scheme|..|scheme| + 3] == "://";
    assert t[|scheme| + 3..] == rest;
    forall i | 0 <= i < |host| ensures IsHostChar(rest[i]) {
      assert rest[i] == host[i];
    }
    if |host| < |rest| {
      assert rest[|host|] == after[0];
    }
    HostRunIs(rest, |host|);
    assert rest[..|host|] == host;
    assert rest[|host|..] == after;
  }

  /** A port suffix followed by a path that starts with neither ':' nor a digit reads back as that port and path. */
  lemma ParsePortSuffix(port: Option<nat>, path: string)
    requires path == [] || (path[0] != ':' && !IsDecimalDigit(path[0]))
    ensures ParsePortAndPath(PortSuffix(port) + path)
         == Some((if port.Some? && port.value != 0 then port else None, path))
  {
    if port.Some? && port.value != 0 {
      ParsePortThen(port.value, path);
    } else {
      assert PortSuffix(port) + path == path;
    }
  }

  lemma ParsePortThen(n: nat, path: string)
    requires path == [] || !IsDecimalDigit(path[0])
    ensures ParsePortAndPath([':'] + Decimal(n) + path) == Some((Some(n), path))
  {
    var digits := Decimal(n);
    ParseDigitsThen(digits, path);
    assert [':'] + digits + path == [':'] + (digits + path);
  }

  lemma ParseDigitsThen(digits: string, path: string)
    requires |digits| >= 1 && AllDecimal(digits) && AllHex(digits)
    requires path == [] || !IsDecimalDigit(path[0])
    ensures ParsePortAndPath([':'] + (digits + path)) == Some((Some(Value(digits, 10)), path))
  {
    var t := digits + path;
    var s := [':'] + t;
    assert s[1..] == t;
    LeadingDigitsIs(digits, path);
    assert t[|digits|..] == path;
    assert s[1 + |digits|..] == t[|digits|..];
  }

  /**
   * A proxy reading the rewritten target gets back the scheme, the host,
   * the port when it is set and not zero, and the path (or "/").  The
   * scheme must not contain ':', the host neither ':' nor '/', and the
   * path must be empty or start with '/'.
   */
  lemma AbsoluteTargetRoundTrip(url: Url)
    requires ':' !in url.scheme
    requires ':' !in url.host && '/' !in url.host
    requires url.GetPath("/") == [] || url.GetPath("/")[0] == '/'
    ensures ParseAbsoluteTarget(AbsoluteTarget(url))
         == Some(AbsoluteForm(url.scheme, url.host,
                              if url.port.Some? && url.port.value != 0 then url.port else None,
                              url.GetPath("/")))
  {
    var suffix, path := PortSuffix(url.port), url.GetPath("/");
    var after := suffix + path;
    assert AbsoluteTarget(url) == url.scheme + "://" + url.host + after;
    if after != [] {
      assert after[0] == if suffix != [] then ':' else '/';
    }
    SplitTargetIs(url.scheme, url.host, after);
    ParsePortSuffix(url.port, path);
  }

  /** The rewritten target never carries a query, whatever the URL's query is. */
  lemma AbsoluteTargetHasNoQuery(url: Url)
    requires '?' !in url.scheme && '?' !in url.host && '?' !in url.GetPath("/")
    ensures '?' !in AbsoluteTarget(url)
  {
    var suffix := PortSuffix(url.port);
    assert '?' !in suffix by {
      if suffix != [] {
        var digits := Decimal(url.port.value);
        assert suffix == ":" + digits;
        forall i | 0 <= i < |suffix| ensures suffix[i] != '?' {
          if i > 0 { assert suffix[i] == digits[i - 1]; }
        }
      }
    }
  }

  // -----------------------------------------------------------------------
  // The calls one send makes on the socket it chose
  // -----------------------------------------------------------------------

  /**
   * close (only if still connected), setTimeout, connect, and write (only
   * if the connection was accepted).
   */
  function SendEvents(wasConnected: bool, timeout: int, connectTimeout: real, accepted: bool, data: string)
    : (es: seq<SocketEvent>)
    ensures (Closed in es) <==> wasConnected
    ensures (Written(data) in es) <==> accepted
    ensures ConnectAttempted(connectTimeout) in es
  {
    (if wasConnected then [Closed] else [])
      + [TimeoutSet(timeout), ConnectAttempted(connectTimeout)]
      + (if accepted then [Written(data)] else [])
  }

  /** The close comes first, the write last, and the connect right before the write. */
  lemma SendEventsOrder(wasConnected: bool, timeout: int, connectTimeout: real, accepted: bool, data: string)
    ensures var es := SendEvents(wasConnected, timeout, connectTimeout, accepted, data);
      && (wasConnected ==> es[0] == Closed)
      && (accepted ==> es[|es| - 1] == Written(data) && es[|es| - 2] == ConnectAttempted(connectTimeout))
      && (!accepted ==> es[|es| - 1] == ConnectAttempted(connectTimeout))
      && es[|es| - (if accepted then 3 else 2)] == TimeoutSet(timeout)
      && |es| == (if wasConnected then 1 else 0) + 2 + (if accepted then 1 else 0)
  {
  }

  /**
   * Two sends in a row through the same socket: both connect, and when the
   * first connection was accepted (so the socket still reports connected),
   * the second send closes it before reconnecting.
   */
  lemma ConsecutiveSends(c: bool, t1: int, ct1: real, a1: bool, d1: string, t2: int, ct2: real, a2: bool, d2: string)
    ensures var first := SendEvents(c, t1, ct1, a1, d1);
      var second := SendEvents(a1, t2, ct2, a2, d2);
      && ConnectAttempted(ct1) in first && ConnectAttempted(ct2) in second
      && (a1 ==> second[0] == Closed && second[1] == TimeoutSet(t2) && second[2] == ConnectAttempted(ct2))
  {
  }

  // -----------------------------------------------------------------------
  // The transport
  // -----------------------------------------------------------------------

  class SocketHttpTransport {
    var socket: Socket
    var proxySocket: Socket?
    /** Set by the base class's `setProxy`. */
    var proxy: Option<HttpProxy>

    /** A proxy socket exists exactly when a proxy is set, and it is not the direct socket. */
    predicate Valid()
      reads this
    {
      (proxy.Some? <==> proxySocket != null) && proxySocket != socket
    }

    /** The socket a request for `url` goes through. */
    function Selected(url: Url): Socket
      requires Valid()
      reads this
    {
      if Route(proxy, url) == ViaProxy then proxySocket else socket
    }

    /** The socket a request for `url` does not go through, if there is one. */
    function Unselected(url: Url): (s: Socket?)
      requires Valid()
      reads this
      ensures s != Selected(url)
    {
      if Route(proxy, url) == ViaProxy then socket else proxySocket
    }

    /** `new SocketHttpTransport($url, $arg)`: a direct socket, no proxy. */
    constructor (url: Url, arg: Option<string>)
      ensures Valid() && proxy == None
      ensures fresh(socket) && socket.host == url.host && socket.port == url.GetPort(80)
      ensures !socket.connected && socket.log == []
    {
      var s := NewSocket(url, arg);
      socket := s;
      proxySocket := null;
      proxy := None;
    }

    /** `newSocket($url, $arg)`: an unconnected socket on the URL's host and port, 80 by default. */
    static method NewSocket(url: Url, arg: Option<string>) returns (s: Socket)
      ensures fresh(s) && s.host == url.host && s.port == url.GetPort(80)
      ensures !s.connected && s.log == []
    {
      s := new Socket(url.host, url.GetPort(80));
    }

    /**
     * `setProxy($proxy)`: records the proxy and replaces the proxy socket
     * by a new one on the proxy's host and port; the direct socket stays.
     */
    method SetProxy(p: HttpProxy)
      requires Valid()
      modifies this
      ensures Valid() && proxy == Some(p) && socket == old(socket)
      ensures fresh(proxySocket) && proxySocket.host == p.host && proxySocket.port == p.port.GetOr(80)
      ensures !proxySocket.connected && proxySocket.log == []
    {
      proxy := Some(p);
      proxySocket := NewSocket(Url("", p.host, p.port, None, None), None);
    }

    /**
     * `send($request, $timeout, $connecttimeout)`.  On the proxy route the
     * request target becomes the absolute form of its URL; otherwise it is
     * left as it was.  The chosen socket then sees exactly `SendEvents`,
     * the write carrying the request as rendered after the rewrite, and the
     * other socket is not touched.  A refused connection ends the send
     * before anything is written.  On success the result is the socket the
     * response is read from.
     */
    method Send(request: HttpRequest, render: RequestImage -> string, accepts: bool,
                timeout: int := 60, connectTimeout: real := 2.0)
      returns (r: Result<Socket, TransportError>)
      requires Valid()
      modifies request`target, socket, proxySocket
      ensures Valid()
      ensures Route(proxy, request.url) == ViaProxy ==> request.target == Some(AbsoluteTarget(request.url))
      ensures Route(proxy, request.url) == Direct ==> request.target == old(request.target)
      ensures var s := Selected(request.url);
        && s.log == old(s.log) + SendEvents(old(s.connected), timeout, connectTimeout, accepts, render(request.Image()))
        && s.connected == accepts
        && (r.Ok? <==> accepts)
        && (r.Ok? ==> r.value == s)
        && (r.Err? ==> r.error == ConnectFailed)
      ensures Unselected(request.url) != null ==> unchanged(Unselected(request.url))
    {
      var url := request.url;
      var s: Socket;
      if proxy.Some? && !proxy.value.isExcluded(url) {
        request.SetTarget(AbsoluteTarget(url));
        s := proxySocket;
      } else {
        s := socket;
      }
      var ok := Exchange(s, request, render, accepts, timeout, connectTimeout);
      if !ok {
        return Err(ConnectFailed);
      }
      return Ok(s);
    }

    /**
     * The calls `send` makes on the socket it chose: close when still
     * connected, set the timeout, connect, and write the request when the
     * connection was accepted.
     */
    static method Exchange(s: Socket, request: HttpRequest, render: RequestImage -> string, accepts: bool,
                           timeout: int, connectTimeout: real)
      returns (ok: bool)
      modifies s
      ensures ok == accepts && s.connected == accepts
      ensures s.log == old(s.log) + SendEvents(old(s.connected), timeout, connectTimeout, accepts, render(request.Image()))
    {
      if s.IsConnected() {
        s.Close();
      }
      s.SetTimeout(timeout);
      ok := s.Connect(connectTimeout, accepts);
      if ok {
        s.Write(render(request.Image()));
      }
    }
  }
}
