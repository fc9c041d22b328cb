/** internal/webpath/redirect.go: where a redirect response leads. */
module Redirects {
  import opened Basics
  import opened Hostnames
  import opened WebPath

  /** A reference resolved against the current URL by net/url. */
  datatype RawUrl = RawUrl(
    opaqueOrUser: bool, scheme: string, hostname: string, port: string, path: string, query: string)

  /** net/url's resolution of a Location, and NormalizeWebRequestTarget's verdict on a path and query. */
  datatype Net = Net(
    resolve: (Url, string) -> Option<RawUrl>, requestTarget: (string, string) -> Option<(string, string)>)
  {
    ghost predicate Valid() {
      forall p, q :: requestTarget(p, q).Some? ==> requestTarget(p, q).value.0 != ""
    }
  }

  function SchemeOf(text: string): Option<Scheme> {
    if text == "http" then Some(HTTP) else if text == "https" then Some(HTTPS) else None
  }

  predicate DefaultPort(scheme: Scheme, port: string) {
    port == "" || port == (if scheme == HTTP then "80" else "443")
  }

  function Resolve(tables: Tables, net: Net, current: Url, location: string): Redirect {
    match net.resolve(current, location)
    case None => InvalidTarget
    case Some(next) =>
      if next.opaqueOrUser then UnsafeTarget
      else
        match SchemeOf(ToLower(tables, next.scheme))
        case None => UnsafeTarget
        case Some(scheme) =>
          var hostname := Normalized(tables, next.hostname);
          if !WebCheck(tables, hostname) then InvalidTarget
          else if !DefaultPort(scheme, next.port) then UnsafeTarget
          else
            match net.requestTarget(if next.path == "" then "/" else next.path, next.query)
            case None => InvalidTarget
            case Some(target) => Target(Url(scheme, hostname, target.0, target.1))
  }

  function WebRules(tables: Tables, net: Net, publicText: string -> Option<string>, family: string -> Family): Rules {
    Rules(v => Normalized(tables, v), h => WebCheck(tables, h), publicText, family,
          (u, l) => Resolve(tables, net, u, l))
  }

  /** What the Web path theorems assume of hostnames and redirects holds of the code's own rules. */
  lemma WebRulesAreValid(tables: Tables, net: Net, publicText: string -> Option<string>, family: string -> Family)
    requires tables.Valid() && net.Valid()
    ensures WebRules(tables, net, publicText, family).Valid()
  {
    var rules := WebRules(tables, net, publicText, family);
    forall v | rules.check(rules.text(v)) ensures rules.text(rules.text(v)) == rules.text(v) {
      AcceptedNamesAreFixpoints(tables, v);
    }
    forall u, l | rules.resolve(u, l).Target? ensures rules.CanonicalUrl(rules.resolve(u, l).url) {
      AcceptedNamesAreFixpoints(tables, net.resolve(u, l).value.hostname);
    }
  }

  /** The resolved URL is one the path may go on to: no credentials, HTTP or HTTPS on its own port, a public hostname,
      and a request target that holds. */
  predicate LeadsTo(tables: Tables, net: Net, next: RawUrl, u: Url) {
    && !next.opaqueOrUser
    && ToLower(tables, next.scheme) == (if u.scheme == HTTP then "http" else "https")
    && u.hostname == Normalized(tables, next.hostname) && WebCheck(tables, u.hostname)
    && (next.port != "" ==> next.port == if u.scheme == HTTP then "80" else "443")
    && net.requestTarget(if next.path != "" then next.path else "/", next.query) == Some((u.path, u.query))
  }

  /** What makes a resolved URL unsafe: credentials, another scheme, or a public host on another port. */
  predicate LeadsAstray(tables: Tables, next: RawUrl) {
    || next.opaqueOrUser
    || (ToLower(tables, next.scheme) != "http" && ToLower(tables, next.scheme) != "https")
    || (WebCheck(tables, Normalized(tables, next.hostname)) && next.port != ""
        && next.port != if ToLower(tables, next.scheme) == "http" then "80" else "443")
  }

  lemma SchemeIsItsText(text: string, u: Scheme)
    ensures SchemeOf(text) == Some(u) <==> text == if u == HTTP then "http" else "https"
    ensures SchemeOf(text).None? <==> text != "http" && text != "https"
  {
  }

  lemma TargetIsLedTo(tables: Tables, net: Net, current: Url, location: string, next: RawUrl, u: Url)
    requires net.resolve(current, location) == Some(next)
    ensures Resolve(tables, net, current, location) == Target(u) <==> LeadsTo(tables, net, next, u)
  {
    SchemeIsItsText(ToLower(tables, next.scheme), u.scheme);
  }

  lemma UnsafeIsAstray(tables: Tables, net: Net, current: Url, location: string, next: RawUrl)
    requires net.resolve(current, location) == Some(next)
    ensures Resolve(tables, net, current, location) == UnsafeTarget <==> LeadsAstray(tables, next)
  {
    SchemeIsItsText(ToLower(tables, next.scheme), HTTP);
    SchemeIsItsText(ToLower(tables, next.scheme), HTTPS);
  }

  /** A redirect is followed to exactly the URL its Location leads to, is unsafe exactly if that leads astray, and is
      invalid otherwise; it is never unavailable. */
  lemma ResolveIsExact(tables: Tables, net: Net, current: Url, location: string, u: Url)
    ensures var raw, redirect := net.resolve(current, location), Resolve(tables, net, current, location);
      && (redirect == Target(u) <==> raw.Some? && LeadsTo(tables, net, raw.value, u))
      && (redirect == UnsafeTarget <==> raw.Some? && LeadsAstray(tables, raw.value))
      && redirect != Unavailable
  {
    match net.resolve(current, location)
    case None =>
    case Some(next) =>
      TargetIsLedTo(tables, net, current, location, next, u);
      UnsafeIsAstray(tables, net, current, location, next);
  }
}
