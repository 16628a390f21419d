/** The parts of the servlet request and response the core reads and writes,
    and the configuration it is given (`JwtProperties`). */
module Servlet {
  import opened Java

  /** `jakarta.servlet.http.Cookie`, with the attributes the core sets. A servlet
      container creates request cookies with only a name and a value. */
  datatype Cookie = Cookie(name: string, value: string, path: Option<string>, maxAge: int, httpOnly: bool, secure: bool)

  /** A cookie of an incoming request: `new Cookie(name, value)` with the class defaults. */
  function RequestCookie(name: string, value: string): Cookie
  {
    Cookie(name, value, None, -1, false, false)
  }

  /** What the core reads from an `HttpServletRequest`: the `X-Device-Id` and
      `User-Agent` headers and `getCookies()`, which is `null` when the request
      carries no cookie. */
  datatype HttpRequest = HttpRequest(deviceId: Option<string>, userAgent: Option<string>, cookies: Option<seq<Cookie>>)

  type Headers = map<string, seq<string>>

  /** The values of one header; none when it was never set. */
  function HeaderValues(headers: Headers, name: string): seq<string>
  {
    if name in headers then headers[name] else []
  }

  /** The response headers, by name, each with its list of values. */
  class HttpResponse {
    var headers: Headers

    constructor ()
      ensures headers == map[]
    {
      headers := map[];
    }

    function Values(name: string): seq<string>
      reads this
    {
      HeaderValues(headers, name)
    }

    /** `setHeader`: the new value replaces every earlier one. */
    method SetHeader(name: string, value: string)
      modifies this
      ensures headers == old(headers)[name := [value]]
    {
      headers := headers[name := [value]];
    }

    /** `addHeader`: the new value is appended to the earlier ones. */
    method AddHeader(name: string, value: string)
      modifies this
      ensures headers == old(headers)[name := old(Values(name)) + [value]]
    {
      headers := headers[name := Values(name) + [value]];
    }
  }

  /** `JwtProperties.CookieProps`. */
  datatype CookieProps = CookieProps(refreshName: string, sameSite: Option<string>)

  /** The defaults `JwtProperties` starts from: cookie `refresh_token`, `SameSite=Strict`. */
  const DEFAULT_COOKIE_PROPS: CookieProps := CookieProps("refresh_token", Some("Strict"))

  /** `JwtProperties` (`security.jwt.*`). `issuer` and `audience` are nullable strings;
      `accessExpMin` and `refreshExpDays` are Java `long`s. */
  datatype JwtProperties = JwtProperties(
    issuer: Option<string>,
    audience: Option<string>,
    accessExpMin: int,
    refreshExpDays: int,
    cookie: CookieProps)
}
