/**
 * The HTTP collaborators the core talks to: a URL value and a request
 * whose target and header map are updated in place.
 */
module Http {
  import opened Wrappers

  /** `peer.URL`; an unset port, path or query is `None`. */
  datatype Url = Url(scheme: string, host: string, port: Option<nat>, path: Option<string>, query: Option<string>) {

    /** `getPort($default)` */
    function GetPort(default: nat): nat {
      port.GetOr(default)
    }

    /** `getPath($default)` */
    function GetPath(default: string): string {
      path.GetOr(default)
    }

    /** `hasParams()`: the URL carries a query. */
    predicate HasParams() {
      query.Some?
    }
  }

  /** Everything `getRequestString()` renders, as one value. */
  datatype RequestImage = RequestImage(httpMethod: string, url: Url, target: Option<string>, headers: map<string, string>)

  /** `peer.http.HttpRequest`, reduced to the parts the core reads or writes. */
  class HttpRequest {
    const httpMethod: string
    const url: Url
    var target: Option<string>
    var headers: map<string, string>

    constructor (httpMethod: string, url: Url)
      ensures this.httpMethod == httpMethod && this.url == url
      ensures target == None && headers == map[]
    {
      this.httpMethod := httpMethod;
      this.url := url;
      target := None;
      headers := map[];
    }

    /** `setHeader($name, $value)` replaces any header of that name. */
    method SetHeader(name: string, value: string)
      modifies this`headers
      ensures headers == old(headers)[name := value]
    {
      headers := headers[name := value];
    }

    /** `setTarget($target)` */
    method SetTarget(t: string)
      modifies this`target
      ensures target == Some(t)
    {
      target := Some(t);
    }

    function Image(): RequestImage
      reads this
    {
      RequestImage(httpMethod, url, target, headers)
    }
  }
}
