/** The redirect policy: how many hops to follow, and what is carried across them. */
module Redirect {
  import opened Wrappers
  import opened RetryPolicy

  datatype Action = Follow | Stop | Error

  datatype PolicyKind =
    | Custom(decide: (nat, Url, seq<Url>) -> Action)
    | Limit(max: nat)
    | NoRedirects

  datatype Settings = Settings(policy: PolicyKind, httpsOnly: bool, referer: bool)

  datatype Answer = Followed | Stopped | BadLocation | BadScheme | Refused

  /** `previous` holds the URLs already requested, the first of which is no redirection. */
  function Check(policy: PolicyKind, status: nat, next: Url, previous: seq<Url>): Action {
    match policy
    case Custom(decide) => decide(status, next, previous)
    case Limit(max) => if |previous| > max then Error else Follow
    case NoRedirects => Stop
  }

  /** `location` is `None` when it does not parse as a URL, which fails before the history grows. */
  function History(urls: seq<Url>, previous: Url, location: Option<Url>): seq<Url> {
    if location.None? then urls else urls + [previous]
  }

  function Answered(s: Settings, status: nat, location: Option<Url>, history: seq<Url>): Answer {
    if location.None? then BadLocation
    else
      match Check(s.policy, status, location.value, history)
      case Follow =>
        if location.value.scheme != "http" && location.value.scheme != "https" then BadScheme
        else if s.httpsOnly && location.value.scheme != "https" then BadScheme
        else Followed
      case Stop => Stopped
      case Error => Refused
  }

  predicate IsAllowed(s: Settings, next: Url) {
    next.scheme == "https" || (next.scheme == "http" && !s.httpsOnly)
  }

  /** The deadline the policy remembers after seeing a request. */
  function Carried(deadline: Option<nat>, req: Request): Option<nat> {
    if req.deadline.Some? then req.deadline else deadline
  }

  // ----- headers

  const SENSITIVE := {"authorization", "cookie", "cookie2", "proxy-authorization", "www-authenticate"}
  const REFERER := "referer"

  /** The port, or the one that the scheme is known to use. */
  function PortOrKnownDefault(u: Url): Option<string> {
    if u.port != "" then Some(u.port)
    else if u.scheme == "http" || u.scheme == "ws" then Some("80")
    else if u.scheme == "https" || u.scheme == "wss" then Some("443")
    else if u.scheme == "ftp" then Some("21")
    else None
  }

  predicate SameOrigin(a: Url, b: Url) {
    a.host == b.host && PortOrKnownDefault(a) == PortOrKnownDefault(b) && a.scheme == b.scheme
  }

  predicate CrossesOrigin(previous: seq<Url>, next: Url) {
    previous != [] && !SameOrigin(next, previous[|previous| - 1])
  }

  /** The last URL without credentials and fragment, but none from HTTPS to HTTP. */
  function MakeReferer(next: Url, previous: Url): Option<string> {
    if next.scheme == "http" && previous.scheme == "https" then None
    else Some(previous.(userinfo := "", fragment := "").Show())
  }

  function WithoutSensitive(previous: seq<Url>, next: Url, headers: Headers): Headers {
    if CrossesOrigin(previous, next) then headers - SENSITIVE else headers
  }

  function Edited(s: Settings, previous: seq<Url>, next: Url, headers: Headers): Headers {
    var kept := WithoutSensitive(previous, next, headers);
    if !s.referer || previous == [] then kept
    else
      var referer := MakeReferer(next, previous[|previous| - 1]);
      if referer.Some? then kept[REFERER := [referer.value]] else kept
  }

  /** The port that a URL of this scheme may leave out. */
  predicate IsDefaultPort(scheme: string, port: string) {
    || (scheme in ["http", "ws"] && port == "80")
    || (scheme in ["https", "wss"] && port == "443")
    || (scheme == "ftp" && port == "21")
  }

  /** Two URLs of different host, scheme or port, an empty port being the default one of the scheme. */
  predicate Foreign(a: Url, b: Url) {
    || a.host != b.host || a.scheme != b.scheme
    || (a.port != b.port
        && !(a.port == "" && IsDefaultPort(a.scheme, b.port)) && !(b.port == "" && IsDefaultPort(a.scheme, a.port)))
  }

  predicate HasNoCredentials(headers: Headers) {
    && "authorization" !in headers && "cookie" !in headers && "cookie2" !in headers
    && "proxy-authorization" !in headers && "www-authenticate" !in headers
  }

  predicate SameAt(name: string, a: Headers, b: Headers) {
    (name in a <==> name in b) && (name in a ==> a[name] == b[name])
  }

  predicate SameCredentials(a: Headers, b: Headers) {
    && SameAt("authorization", a, b) && SameAt("cookie", a, b) && SameAt("cookie2", a, b)
    && SameAt("proxy-authorization", a, b) && SameAt("www-authenticate", a, b)
  }

  /** Credentials are taken off towards a foreign URL, and kept otherwise. */
  predicate KeepsToOrigin(previous: seq<Url>, next: Url, before: Headers, after: Headers) {
    if previous != [] && Foreign(previous[|previous| - 1], next) then HasNoCredentials(after)
    else SameCredentials(before, after)
  }

  lemma EditedKeepsToOrigin(s: Settings, previous: seq<Url>, next: Url, headers: Headers)
    ensures KeepsToOrigin(previous, next, headers, Edited(s, previous, next, headers))
  {
    hide MakeReferer;
    if previous != [] {
      ForeignIsAnotherOrigin(previous[|previous| - 1], next);
    }
    RefererIsNoCredential();
  }

  lemma BareUrl(u: Url)
    ensures u.(userinfo := "", fragment := "").Show()
            == u.scheme + "://" + u.host + (if u.port == "" then "" else ":" + u.port) + u.path
  {
    var port := if u.port == "" then "" else ":" + u.port;
    assert u.(userinfo := "", fragment := "").Authority() == u.host + port;
    assert u.scheme + "://" + (u.host + port) == u.scheme + "://" + u.host + port;
  }

  lemma RefererIsNoCredential()
    ensures REFERER !in SENSITIVE && SENSITIVE == {"authorization", "cookie", "cookie2", "proxy-authorization", "www-authenticate"}
  {
    assert forall name :: name in SENSITIVE ==> name[0] != REFERER[0];
  }

  lemma ForeignIsAnotherOrigin(a: Url, b: Url)
    ensures Foreign(a, b) <==> !SameOrigin(b, a)
  {
  }

  class TowerRedirectPolicy {
    const settings: Settings
    var urls: seq<Url>
    var deadline: Option<nat>

    constructor (settings: Settings)
      ensures this.settings == settings && urls == [] && deadline == None
    {
      this.settings := settings;
      urls, deadline := [], None;
    }

    /** Under a limit a hop is followed exactly while fewer hops than the limit have been, to an HTTP URL,
        and to an HTTPS one if only those are allowed; a custom policy is asked about the URLs up to the last one,
        and obeyed, but for the scheme. */
    method Redirect(status: nat, previous: Url, location: Option<Url>) returns (answer: Answer)
      modifies this`urls
      ensures urls == History(old(urls), previous, location)
      ensures answer == Answered(settings, status, location, urls)
      ensures answer.Followed? ==> urls == old(urls) + [previous] && IsAllowed(settings, location.value)
      ensures settings.policy.Limit? ==>
                (answer.Followed? <==>
                 location.Some? && |old(urls)| < settings.policy.max && IsAllowed(settings, location.value))
      ensures settings.policy.Limit? ==>
                (answer.Refused? <==> location.Some? && |old(urls)| >= settings.policy.max)
      ensures settings.policy.Custom? && location.Some? ==>
                var verdict := settings.policy.decide(status, location.value, old(urls) + [previous]);
                && (answer.Followed? <==> verdict.Follow? && IsAllowed(settings, location.value))
                && (answer.BadScheme? <==> verdict.Follow? && !IsAllowed(settings, location.value))
                && (answer.Stopped? <==> verdict.Stop?) && (answer.Refused? <==> verdict.Error?)
      ensures answer.BadLocation? <==> location.None?
      ensures settings.policy.NoRedirects? ==> answer == if location.None? then BadLocation else Stopped
    {
      if location.None? {
        return BadLocation;
      }
      urls := urls + [previous];
      var next := location.value;
      match Check(settings.policy, status, next, urls)
      case Follow =>
        if next.scheme != "http" && next.scheme != "https" {
          return BadScheme;
        }
        if settings.httpsOnly && next.scheme != "https" {
          return BadScheme;
        }
        return Followed;
      case Stop => return Stopped;
      case Error => return Refused;
    }

    /** Following a redirect builds a request without extensions; the deadline is put back. To another origin
        than the last no sensitive header goes, a referer has neither credentials nor fragment and is not
        told over HTTP where the last URL was HTTPS, and the other headers are left alone. */
    method OnRequest(req: Request) returns (sent: Request)
      modifies this`deadline
      ensures deadline == Carried(old(deadline), req)
      ensures sent == req.(deadline := deadline, headers := Edited(settings, urls, req.uri, req.headers))
      ensures KeepsToOrigin(urls, req.uri, req.headers, sent.headers)
      ensures forall name ::
                name !in ["authorization", "cookie", "cookie2", "proxy-authorization", "www-authenticate", "referer"] ==>
                  SameAt(name, req.headers, sent.headers)
      ensures if settings.referer && urls != [] && !(urls[|urls| - 1].scheme == "https" && req.uri.scheme == "http") then
                var last := urls[|urls| - 1];
                "referer" in sent.headers
                && sent.headers["referer"]
                   == [last.scheme + "://" + last.host + (if last.port == "" then "" else ":" + last.port) + last.path]
              else SameAt("referer", req.headers, sent.headers)
    {
      sent := req;
      match req.deadline {
        case Some(d) => deadline := Some(d);
        case None =>
          if deadline.Some? {
            sent := req.(deadline := deadline);
          }
      }
      EditedKeepsToOrigin(settings, urls, req.uri, req.headers);
      RefererIsNoCredential();
      if urls != [] {
        BareUrl(urls[|urls| - 1]);
      }
      var headers := WithoutSensitive(urls, req.uri, req.headers);
      if settings.referer && urls != [] {
        var referer := MakeReferer(req.uri, urls[|urls| - 1]);
        if referer.Some? {
          headers := headers[REFERER := [referer.value]];
        }
      }
      sent := sent.(headers := headers);
    }
  }
}
