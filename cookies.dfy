/** The refresh cookie: its `Set-Cookie` serialisation (`HttpCookieUtil`), whose
    attributes follow section 4.1 of RFC 6265 plus `SameSite`, and the lookup of a
    request cookie by name (`CookieHeader.read`). */
module HttpCookies {
  import opened Java
  import opened Servlet

  const SET_COOKIE: string := "Set-Cookie"

  /** `StringBuilder.append(String)` renders `null` as the text "null". */
  function PathText(path: Option<string>): string
  {
    match path
    case None => "null"
    case Some(p) => p
  }

  /** `cookieToString`. The cookie's own `httpOnly` and `secure` flags are not
      consulted: both attributes are always written. */
  function CookieToString(c: Cookie, sameSite: Option<string>): string
  {
    c.name + "=" + c.value + "; Path=" + PathText(c.path) + "; Max-Age=" + LongToString(c.maxAge)
    + "; HttpOnly" + "; Secure"
    + (if sameSite.Some? then "; SameSite=" + sameSite.value else "")
  }

  /** The `set-cookie-string` of section 4.1.1 of RFC 6265: the cookie pair, then
      each attribute after a `"; "` separator. */
  function SetCookieString(pair: string, attributes: seq<string>): string
  {
    if attributes == [] then pair
    else SetCookieString(pair, attributes[..|attributes| - 1]) + "; " + attributes[|attributes| - 1]
  }

  /** The attributes `cookieToString` writes, in order. */
  function Attributes(c: Cookie, sameSite: Option<string>): seq<string>
  {
    ["Path=" + PathText(c.path), "Max-Age=" + LongToString(c.maxAge), "HttpOnly", "Secure"]
    + (if sameSite.Some? then ["SameSite=" + sameSite.value] else [])
  }

  predicate IsSameSiteAttribute(a: string)
  {
    |a| >= 9 && a[..9] == "SameSite="
  }

  /** The serialised cookie is exactly `name=value` followed by the attribute list. */
  lemma CookieToStringIsSetCookieString(c: Cookie, sameSite: Option<string>)
    ensures CookieToString(c, sameSite) == SetCookieString(c.name + "=" + c.value, Attributes(c, sameSite))
  {
    var avs := Attributes(c, sameSite);
    var pair := c.name + "=" + c.value;
    assert SetCookieString(pair, avs[..1]) == pair + "; " + avs[0] by {
      assert avs[..1][..0] == [];
    }
    assert SetCookieString(pair, avs[..2]) == SetCookieString(pair, avs[..1]) + "; " + avs[1] by {
      assert avs[..2][..1] == avs[..1];
    }
    assert SetCookieString(pair, avs[..3]) == SetCookieString(pair, avs[..2]) + "; " + avs[2] by {
      assert avs[..3][..2] == avs[..2];
    }
    assert SetCookieString(pair, avs[..4]) == SetCookieString(pair, avs[..3]) + "; " + avs[3] by {
      assert avs[..4][..3] == avs[..3];
    }
    var path, age := PathText(c.path), LongToString(c.maxAge);
    assert "; Path=" == "; " + "Path=" && "; Max-Age=" == "; " + "Max-Age=";
    assert "; HttpOnly" == "; " + "HttpOnly" && "; Secure" == "; " + "Secure";
    var head := pair + "; " + avs[0] + "; " + avs[1] + "; " + avs[2] + "; " + avs[3];
    assert head == pair + "; Path=" + path + "; Max-Age=" + age + "; HttpOnly" + "; Secure";
    if sameSite.Some? {
      assert avs[..|avs| - 1] == avs[..4];
      assert "; SameSite=" == "; " + "SameSite=";
    } else {
      assert avs == avs[..4];
    }
  }

  /** The `SameSite` attribute is present exactly when a `SameSite` value is configured,
      and then it carries that value. */
  lemma SameSiteExactlyWhenConfigured(c: Cookie, sameSite: Option<string>)
    ensures sameSite.Some? <==> exists a :: a in Attributes(c, sameSite) && IsSameSiteAttribute(a)
    ensures sameSite.Some? ==> Attributes(c, sameSite)[4] == "SameSite=" + sameSite.value
  {
    var avs := Attributes(c, sameSite);
    assert avs[0][0] == 'P' && avs[1][0] == 'M' && |avs[2]| < 9 && |avs[3]| < 9;
    assert forall k :: 0 <= k < 4 ==> !IsSameSiteAttribute(avs[k]);
    if sameSite.Some? {
      assert IsSameSiteAttribute(avs[4]);
    } else {
      assert forall a :: a in avs ==> !IsSameSiteAttribute(a);
    }
  }

  /** The cookie `writeRefreshCookie` builds. */
  function RefreshCookie(props: CookieProps, value: string, maxAgeSeconds: int): (c: Cookie)
    ensures c.name == props.refreshName && c.value == value && c.path == Some("/")
    ensures c.maxAge == maxAgeSeconds && c.httpOnly && c.secure
  {
    Cookie(props.refreshName, value, Some("/"), maxAgeSeconds, true, true)
  }

  /** The `Set-Cookie` header values the two writers produce. */
  function RefreshCookieHeader(props: CookieProps, value: string, maxAgeSeconds: int): string
  {
    CookieToString(RefreshCookie(props, value, maxAgeSeconds), props.sameSite)
  }

  function ClearCookieHeader(props: CookieProps): string
  {
    RefreshCookieHeader(props, "", 0)
  }

  /** Clearing writes the configured cookie name with an empty value, `Path=/`,
      `Max-Age=0`, `HttpOnly`, `Secure`, and then the configured `SameSite`. */
  lemma ClearCookieHeaderContents(props: CookieProps)
    ensures ClearCookieHeader(props)
         == SetCookieString(props.refreshName + "=", Attributes(RefreshCookie(props, "", 0), props.sameSite))
    ensures Attributes(RefreshCookie(props, "", 0), props.sameSite)[..4] == ["Path=/", "Max-Age=0", "HttpOnly", "Secure"]
  {
    var c := RefreshCookie(props, "", 0);
    CookieToStringIsSetCookieString(c, props.sameSite);
    assert c.name + "=" + c.value == props.refreshName + "=";
    assert LongToString(0) == "0" by {
      assert NatToString(0) == [DigitChar(0)];
    }
    var avs := Attributes(c, props.sameSite);
    assert avs[0] == "Path=" + "/" == "Path=/";
    assert avs[1] == "Max-Age=" + "0" == "Max-Age=0";
  }

  /** `writeRefreshCookie`: replaces any earlier `Set-Cookie` header (`setHeader`). */
  method WriteRefreshCookie(props: CookieProps, res: HttpResponse, value: string, maxAgeSeconds: int)
    modifies res
    ensures res.headers == old(res.headers)[SET_COOKIE := [RefreshCookieHeader(props, value, maxAgeSeconds)]]
  {
    var cookie := RefreshCookie(props, value, maxAgeSeconds);
    res.SetHeader(SET_COOKIE, CookieToString(cookie, props.sameSite));
  }

  /** `clearRefreshCookie`: an empty value with `Max-Age=0`, appended to the earlier
      `Set-Cookie` headers (`addHeader`). */
  method ClearRefreshCookie(props: CookieProps, res: HttpResponse)
    modifies res
    ensures res.headers == old(res.headers)[SET_COOKIE := old(res.Values(SET_COOKIE)) + [ClearCookieHeader(props)]]
  {
    var cookie := RefreshCookie(props, "", 0);
    res.AddHeader(SET_COOKIE, CookieToString(cookie, props.sameSite));
  }

  /** The index of the first cookie called `name`, or `|cs|` when there is none. */
  function FirstNamed(cs: seq<Cookie>, name: string): (k: nat)
    ensures k <= |cs|
    ensures forall j :: 0 <= j < k ==> cs[j].name != name
    ensures k < |cs| ==> cs[k].name == name
  {
    if cs == [] then 0 else if cs[0].name == name then 0 else 1 + FirstNamed(cs[1..], name)
  }

  /** The value `CookieHeader.read` returns: `null` without cookies or without a
      match, else the value of the first cookie with that name. */
  function CookieValue(cookies: Option<seq<Cookie>>, name: string): Option<string>
  {
    match cookies
    case None => None
    case Some(cs) =>
      var k := FirstNamed(cs, name);
      if k < |cs| then Some(cs[k].value) else None
  }

  /** An earlier cookie with the name hides every later one: what follows it is never read. */
  lemma EarlierCookieWins(cs: seq<Cookie>, rest: seq<Cookie>, name: string)
    requires CookieValue(Some(cs), name).Some?
    ensures CookieValue(Some(cs + rest), name) == CookieValue(Some(cs), name)
  {
    var k := FirstNamed(cs, name);
    var k' := FirstNamed(cs + rest, name);
    assert (cs + rest)[k] == cs[k];
  }

  /** `CookieHeader.read`: a loop over the request's cookies with an early return. */
  method Read(req: HttpRequest, name: string) returns (v: Option<string>)
    ensures v == CookieValue(req.cookies, name)
  {
    if req.cookies.None? {
      return None;
    }
    var cs := req.cookies.value;
    for i := 0 to |cs|
      invariant forall j :: 0 <= j < i ==> cs[j].name != name
    {
      if cs[i].name == name {
        return Some(cs[i].value);
      }
    }
    return None;
  }
}
