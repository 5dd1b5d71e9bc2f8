/** Validation and canonical form of allowed origins.

    `ParseUrl` stands for the library's URL parser on what `normalizeOrigins` keeps of its result:
    scheme, user information and host of an absolute URL (section 3 of RFC 3986). */
module OriginUrl {
  import opened Options
  import opened Text

  const HTTP := "http"
  const HTTPS := "https"
  const SEPARATOR := "://"
  const STAR_LABEL := "*."
  const WILDCARD_LABEL := "wildcard."

  /** The mark of a wildcard entry, and what replaces it before parsing. */
  const WILD := SEPARATOR + STAR_LABEL
  const SENTINEL := SEPARATOR + WILDCARD_LABEL

  datatype Url = Url(scheme: string, host: string)

  // ---------------------------------------------------------------------------------------
  // The parser
  // ---------------------------------------------------------------------------------------

  function LowerChar(c: char): char {
    if 'A' <= c <= 'Z' then c - 'A' + 'a' else c
  }

  function Lower(s: string): string {
    if s == "" then "" else [LowerChar(s[0])] + Lower(s[1..])
  }

  predicate IsControl(c: char) {
    c < ' ' || c == '\U{7F}'
  }

  predicate IsDigit(c: char) {
    '0' <= c <= '9'
  }

  predicate IsLetterOrDigit(c: char) {
    'a' <= c <= 'z' || 'A' <= c <= 'Z' || IsDigit(c)
  }

  predicate IsHex(c: char) {
    IsDigit(c) || 'a' <= c <= 'f' || 'A' <= c <= 'F'
  }

  /** The characters the parser leaves in a host: every one outside ASCII, and these. */
  predicate IsHostChar(c: char) {
    || c >= '\U{80}' || IsLetterOrDigit(c)
    || c == '-' || c == '_' || c == '.' || c == '~' || c == '!' || c == '$' || c == '&' || c == '\''
    || c == '(' || c == ')' || c == '*' || c == '+' || c == ',' || c == ';' || c == '=' || c == ':'
    || c == '<' || c == '>' || c == '"'
  }

  predicate AllDigits(s: string) {
    forall i | 0 <= i < |s| :: IsDigit(s[i])
  }

  /** Only digits follow the last colon, if there is one. */
  predicate PortOk(host: string) {
    if host == "" then true
    else if ':' in host[1..] then PortOk(host[1..])
    else if host[0] == ':' then AllDigits(host[1..])
    else true
  }

  predicate HostOk(host: string) {
    host != "" && (forall i | 0 <= i < |host| :: IsHostChar(host[i])) && PortOk(host)
  }

  predicate IsUserinfoChar(c: char) {
    || IsLetterOrDigit(c)
    || c == '-' || c == '.' || c == '_' || c == ':' || c == '~' || c == '!' || c == '$' || c == '&' || c == '\''
    || c == '(' || c == ')' || c == '*' || c == '+' || c == ',' || c == ';' || c == '=' || c == '%' || c == '@'
  }

  predicate EscapesOk(s: string) {
    if s == "" then true
    else if s[0] == '%' then |s| >= 3 && IsHex(s[1]) && IsHex(s[2]) && EscapesOk(s[3..])
    else EscapesOk(s[1..])
  }

  predicate UserinfoOk(s: string) {
    (forall i | 0 <= i < |s| :: IsUserinfoChar(s[i])) && EscapesOk(s)
  }

  predicate IsWeb(scheme: string) {
    scheme == HTTP || scheme == HTTPS
  }

  predicate HasControl(s: string) {
    exists i | 0 <= i < |s| :: IsControl(s[i])
  }

  /** The scheme and host of an absolute web URL; None for everything that `normalizeOrigins` refuses. */
  function ParseUrl(s: string): (url: Option<Url>)
    ensures url.Some? ==> IsWeb(url.value.scheme) && HostOk(url.value.host)
  {
    if HasControl(Before(s, '#')) || !EscapesOk(AfterFirst(s, '#')) then None else ParseScheme(Before(s, '#'))
  }

  function ParseScheme(u: string): (url: Option<Url>)
    ensures url.Some? ==> IsWeb(url.value.scheme) && HostOk(url.value.host)
  {
    var scheme := Before(u, ':');
    if |scheme| == |u| || !IsWeb(Lower(scheme)) then None
    else ParseHierarchy(Lower(scheme), Before(u[|scheme| + 1..], '?'))
  }

  function ParseHierarchy(scheme: string, rest: string): (url: Option<Url>)
    requires IsWeb(scheme)
    ensures url.Some? ==> IsWeb(url.value.scheme) && HostOk(url.value.host)
  {
    if |rest| < 2 || rest[0] != '/' || rest[1] != '/' then None
    else
      var authority := Before(rest[2..], '/');
      if EscapesOk(rest[2 + |authority|..]) then ParseAuthority(scheme, authority) else None
  }

  function ParseAuthority(scheme: string, authority: string): (url: Option<Url>)
    requires IsWeb(scheme)
    ensures url.Some? ==> IsWeb(url.value.scheme) && HostOk(url.value.host)
  {
    var host := AfterLast(authority, '@');
    var userinfo := if |host| < |authority| then authority[..|authority| - |host| - 1] else "";
    if HostOk(host) && UserinfoOk(userinfo) then Some(Url(scheme, host)) else None
  }

  // ---------------------------------------------------------------------------------------
  // Canonical entries
  // ---------------------------------------------------------------------------------------

  datatype Entry = Blank | Bad | Good(origin: string)

  function Replaced(o: string): string
    requires Contains(o, WILD)
  {
    var i := Find(o, WILD);
    o[..i] + SENTINEL + o[i + |WILD|..]
  }

  function CanonicalOf(raw: string): Entry {
    Canonical(Trim(raw))
  }

  /** One entry of the request, already trimmed. */
  function Canonical(o: string): Entry {
    if o == "" then Blank
    else if o == "*" then Good(o)
    else if Contains(o, WILD) then
      (match ParseUrl(Replaced(o))
       case None => Bad
       case Some(url) => Good(url.scheme + SEPARATOR + (STAR_LABEL + TrimPrefix(url.host, WILDCARD_LABEL))))
    else
      match ParseUrl(o)
      case None => Bad
      case Some(url) => Good(url.scheme + SEPARATOR + url.host)
  }

  /** What `CanonicalOf` yields besides "*": a web scheme and a host that the parser accepts. */
  ghost predicate IsCanonical(c: string, scheme: string, host: string) {
    IsWeb(scheme) && HostOk(host) && c == scheme + SEPARATOR + host
  }

  // ---------------------------------------------------------------------------------------
  // Hosts
  // ---------------------------------------------------------------------------------------

  lemma {:induction false} PortOfLonger(prefix: string, host: string)
    requires ':' !in prefix
    ensures PortOk(prefix + host) == PortOk(host)
  {
    if prefix == "" {
      assert prefix + host == host;
    } else {
      assert (prefix + host)[1..] == prefix[1..] + host;
      PortOfLonger(prefix[1..], host);
      if ':' !in host {
        NoColonNoPort(host);
        assert forall c | c in prefix[1..] + host :: c in prefix || c in host;
      } else {
        assert ':' in prefix[1..] + host;
      }
    }
  }

  lemma NoColonNoPort(host: string)
    requires ':' !in host
    ensures PortOk(host)
  {
  }

  /** A host that ends in anything but a digit or a colon has no colon. */
  lemma {:induction false} PortEndsInDigit(host: string)
    requires PortOk(host) && ':' in host
    ensures host[|host| - 1] == ':' || IsDigit(host[|host| - 1])
  {
    if ':' in host[1..] {
      PortEndsInDigit(host[1..]);
    }
  }

  lemma SpaceIsNotPort(c: char)
    requires IsSpace(c)
    ensures c != ':' && !IsDigit(c)
  {
  }

  /** Trimming a host leaves a host, unless nothing is left. */
  lemma TrimmedHostOk(host: string)
    requires HostOk(host)
    ensures TrimRight(host) != "" ==> HostOk(TrimRight(host))
  {
    hide IsHostChar;
    var c := host[|host| - 1];
    if IsSpace(c) {
      SpaceIsNotPort(c);
      if ':' in host {
        PortEndsInDigit(host);
      }
      NoColonNoPort(TrimRight(host));
    }
  }

  lemma StarHostOk(host: string)
    requires host == "" || HostOk(host)
    ensures HostOk(STAR_LABEL + host)
  {
    PortOfLonger(STAR_LABEL, host);
  }

  lemma LabelHostOk(rest: string)
    requires HostOk(STAR_LABEL + rest)
    ensures HostOk(WILDCARD_LABEL + rest)
  {
    PortOfLonger(STAR_LABEL, rest);
    PortOfLonger(WILDCARD_LABEL, rest);
    forall i | 0 <= i < |WILDCARD_LABEL + rest| ensures IsHostChar((WILDCARD_LABEL + rest)[i]) {
      if i >= |WILDCARD_LABEL| {
        assert (WILDCARD_LABEL + rest)[i] == (STAR_LABEL + rest)[i - |WILDCARD_LABEL| + |STAR_LABEL|];
      }
    }
  }

  lemma SuffixHostOk(prefix: string, rest: string)
    requires HostOk(prefix + rest) && ':' !in prefix
    ensures rest == "" || HostOk(rest)
  {
    hide IsHostChar;
    PortOfLonger(prefix, rest);
    forall i | 0 <= i < |rest| ensures IsHostChar(rest[i]) {
      assert rest[i] == (prefix + rest)[|prefix| + i];
    }
  }

  // ---------------------------------------------------------------------------------------
  // Parsing a canonical origin
  // ---------------------------------------------------------------------------------------

  lemma NotInHost(host: string, c: char)
    requires HostOk(host) && !IsHostChar(c)
    ensures c !in host
  {
    hide IsHostChar;
  }

  lemma WebScheme(scheme: string)
    requires IsWeb(scheme)
    ensures Lower(scheme) == scheme && 4 <= |scheme| <= 5
    ensures forall i | 0 <= i < |scheme| :: 'a' <= scheme[i] <= 'z'
  {
    if scheme == HTTP {
      LowerOf(HTTP);
    } else {
      LowerOf(HTTPS);
    }
  }

  lemma {:induction false} LowerOf(s: string)
    requires forall i | 0 <= i < |s| :: 'a' <= s[i] <= 'z'
    ensures Lower(s) == s
  {
    if s != "" {
      LowerOf(s[1..]);
      assert [s[0]] + s[1..] == s;
    }
  }

  lemma ParseCanonical(scheme: string, host: string)
    requires IsWeb(scheme) && HostOk(host)
    ensures ParseUrl(scheme + SEPARATOR + host) == Some(Url(scheme, host))
  {
    var s := scheme + SEPARATOR + host;
    NoControls(scheme, host);
    NotInHost(host, '#');
    WebScheme(scheme);
    hide HostOk;
    hide Lower;
    BeforeIs(s, '#', "");
    assert s + "" == s && Before(s, '#') == s;
    ParseSchemeOf(scheme, host);
    hide ParseScheme;
    hide HasControl;
  }

  lemma NoControls(scheme: string, host: string)
    requires IsWeb(scheme) && HostOk(host)
    ensures !HasControl(scheme + SEPARATOR + host)
  {
    WebScheme(scheme);
    hide Lower;
    var s := scheme + SEPARATOR + host;
    forall i | 0 <= i < |s| ensures !IsControl(s[i]) {
      if i >= |scheme| + 3 {
        assert s[i] == host[i - |scheme| - 3];
      }
    }
  }

  lemma ParseSchemeOf(scheme: string, host: string)
    requires IsWeb(scheme) && HostOk(host)
    ensures ParseScheme(scheme + SEPARATOR + host) == Some(Url(scheme, host))
  {
    var s := scheme + SEPARATOR + host;
    WebScheme(scheme);
    NotInHost(host, '?');
    hide HostOk;
    hide Lower;
    assert s == scheme + (SEPARATOR + host);
    BeforeIs(scheme, ':', SEPARATOR + host);
    var rest := "//" + host;
    assert s[|scheme| + 1..] == rest;
    BeforeIs(rest, '?', "");
    assert rest + "" == rest;
    ParseHierarchyOf(scheme, host);
    hide Before;
  }

  lemma ParseHierarchyOf(scheme: string, host: string)
    requires IsWeb(scheme) && HostOk(host)
    ensures ParseHierarchy(scheme, "//" + host) == Some(Url(scheme, host))
  {
    NotInHost(host, '/');
    NotInHost(host, '@');
    var rest := "//" + host;
    BeforeIs(host, '/', "");
    assert rest[2..] == host && host + "" == host && rest[2 + |host|..] == "";
  }
}
