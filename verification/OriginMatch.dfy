/** Which origins an allow-list permits. */
module OriginMatch {
  import opened Text
  import opened OriginUrl
  import opened Origins

  const DOT := "."

  /** What follows the first wildcard mark of an entry, and what stands before its first separator. */
  function PatternSuffix(a: string): string
    requires Contains(a, WILD)
  {
    a[Find(a, WILD) + |WILD|..]
  }

  function PatternPrefix(a: string): string
    requires Contains(a, WILD)
  {
    WildHasSeparator(a);
    a[..Find(a, SEPARATOR)] + SEPARATOR
  }

  predicate MatchPattern(a: string, origin: string)
    requires Contains(a, WILD)
  {
    var prefix, suffix := PatternPrefix(a), PatternSuffix(a);
    HasPrefix(origin, prefix) &&
    var host := TrimPrefix(origin, prefix);
    host == suffix || HasSuffix(host, DOT + suffix)
  }

  /** One round of the loop. */
  predicate MatchOne(a: string, origin: string) {
    a == "*" || a == origin || (Contains(a, WILD) && MatchPattern(a, origin))
  }

  predicate AnyMatch(allowed: seq<string>, origin: string) {
    exists a | a in allowed :: MatchOne(a, origin)
  }

  /** The result of `MatchOrigin`. */
  predicate Permitted(allowed: seq<string>, origin: string) {
    allowed == [] || (origin != "" && AnyMatch(allowed, origin))
  }

  method MatchOrigin(allowed: seq<string>, origin: string) returns (ok: bool)
    ensures ok == Permitted(allowed, origin)
  {
    hide MatchOne;
    if |allowed| == 0 {
      return true;
    }
    if origin == "" {
      return false;
    }
    ok := ScanAllowed(allowed, origin);
  }

  /** The middleware's copy, which its caller runs on nonempty lists only. */
  method MatchOriginInGate(allowed: seq<string>, origin: string) returns (ok: bool)
    ensures ok == (origin != "" && AnyMatch(allowed, origin))
  {
    if origin == "" {
      return false;
    }
    ok := ScanAllowed(allowed, origin);
  }

  method ScanAllowed(allowed: seq<string>, origin: string) returns (ok: bool)
    ensures ok == AnyMatch(allowed, origin)
  {
    hide MatchPattern;
    for i := 0 to |allowed|
      invariant forall j | 0 <= j < i :: !MatchOne(allowed[j], origin)
    {
      var a := allowed[i];
      if a == "*" || a == origin {
        assert MatchOne(a, origin);
        return true;
      }
      if Contains(a, WILD) && MatchPattern(a, origin) {
        assert MatchOne(a, origin);
        return true;
      }
    }
    return false;
  }

  lemma WildHasSeparator(a: string)
    requires Contains(a, WILD)
    ensures 0 <= Find(a, SEPARATOR) <= Find(a, WILD)
  {
    WildIsSeparatorAndStar(a[Find(a, WILD)..]);
  }

  // ---------------------------------------------------------------------------------------
  // What an entry of a normalised list permits
  // ---------------------------------------------------------------------------------------

  /** The meaning of the canonical origin scheme://host: itself; and when the host is "*.d", every
      origin of the same scheme on d or below it. */
  ghost predicate Covers(scheme: string, host: string, origin: string) {
    if STAR_LABEL <= host then OnOrBelow(scheme, host[2..], origin) else origin == scheme + SEPARATOR + host
  }

  ghost predicate OnOrBelow(scheme: string, domain: string, origin: string) {
    origin == scheme + SEPARATOR + domain || exists x :: IsBelow(scheme, x, domain, origin)
  }

  ghost predicate IsBelow(scheme: string, x: string, domain: string, origin: string) {
    origin == scheme + SEPARATOR + (x + (DOT + domain))
  }

  lemma PatternPieces(scheme: string, domain: string)
    requires IsWeb(scheme) && '/' !in domain
    ensures var a := scheme + SEPARATOR + (STAR_LABEL + domain);
            Contains(a, WILD) && PatternPrefix(a) == scheme + SEPARATOR && PatternSuffix(a) == domain
  {
    WildInCanonical(scheme, STAR_LABEL + domain);
    SeparatorInCanonical(scheme, STAR_LABEL + domain);
    hide IsWeb;
    hide Find;
    Pieces(scheme, SEPARATOR, STAR_LABEL, "", domain);
  }

  lemma SuffixIffBelow(host: string, tail: string)
    ensures HasSuffix(host, tail) <==> exists x :: host == x + tail
  {
    if HasSuffix(host, tail) {
      assert host == host[..|host| - |tail|] + tail;
    }
  }

  lemma PrefixCancels(prefix: string, a: string, b: string)
    ensures prefix + a == prefix + b <==> a == b
    ensures HasPrefix(prefix + a, prefix) && TrimPrefix(prefix + a, prefix) == a
  {
    assert (prefix + a)[|prefix|..] == a && (prefix + b)[|prefix|..] == b;
  }

  /** Stripping the prefix turns "on d or below it" into the test of the suffix. */
  lemma StrippedOnOrBelow(scheme: string, host: string, domain: string)
    ensures OnOrBelow(scheme, domain, scheme + SEPARATOR + host) <==> host == domain || HasSuffix(host, DOT + domain)
  {
    var prefix, tail, origin := scheme + SEPARATOR, DOT + domain, scheme + SEPARATOR + host;
    PrefixCancels(prefix, host, domain);
    SuffixIffBelow(host, tail);
    hide HasSuffix;
    if x :| host == x + tail {
      assert IsBelow(scheme, x, domain, origin);
    }
    if x :| IsBelow(scheme, x, domain, origin) {
      PrefixCancels(prefix, host, x + tail);
    }
  }

  lemma MatchPatternIff(a: string, prefix: string, domain: string, origin: string)
    requires Contains(a, WILD) && PatternPrefix(a) == prefix && PatternSuffix(a) == domain
    ensures MatchPattern(a, origin) <==>
            exists host :: origin == prefix + host && (host == domain || HasSuffix(host, DOT + domain))
  {
    hide PatternPrefix;
    hide PatternSuffix;
    hide Find;
    hide HasSuffix;
    if HasPrefix(origin, prefix) {
      assert origin == prefix + origin[|prefix|..];
    }
    if host :| origin == prefix + host && (host == domain || HasSuffix(host, DOT + domain)) {
      PrefixCancels(prefix, host, host);
    }
  }

  lemma PatternCovers(scheme: string, domain: string, origin: string)
    requires IsWeb(scheme) && HostOk(STAR_LABEL + domain)
    ensures MatchOne(scheme + SEPARATOR + (STAR_LABEL + domain), origin)
       <==> Covers(scheme, STAR_LABEL + domain, origin)
  {
    hide IsWeb;
    hide HostOk;
    hide Find;
    hide MatchPattern;
    hide PatternPrefix;
    hide PatternSuffix;
    hide OnOrBelow;
    hide IsBelow;
    NotInHost(STAR_LABEL + domain, '/');
    NotInTail(STAR_LABEL, domain, '/');
    PatternPieces(scheme, domain);
    var a, prefix := scheme + SEPARATOR + (STAR_LABEL + domain), scheme + SEPARATOR;
    MatchPatternIff(a, prefix, domain, origin);
    if host :| origin == prefix + host && (host == domain || HasSuffix(host, DOT + domain)) {
      StrippedOnOrBelow(scheme, host, domain);
    }
    if OnOrBelow(scheme, domain, origin) {
      OnOrBelowHasPrefix(scheme, domain, origin);
      StrippedOnOrBelow(scheme, origin[|prefix|..], domain);
    }
    PatternIsBelow(scheme, domain);
    CoversStar(scheme, domain, origin);
    hide Covers;
    assert |a| > 1;
  }

  lemma NotInTail(prefix: string, rest: string, c: char)
    requires c !in prefix + rest
    ensures c !in rest
  {
    assert forall i | 0 <= i < |rest| :: rest[i] == (prefix + rest)[|prefix| + i];
  }

  lemma OnOrBelowHasPrefix(scheme: string, domain: string, origin: string)
    requires OnOrBelow(scheme, domain, origin)
    ensures scheme + SEPARATOR <= origin && origin == scheme + SEPARATOR + origin[|scheme + SEPARATOR|..]
  {
  }

  lemma PatternIsBelow(scheme: string, domain: string)
    ensures OnOrBelow(scheme, domain, scheme + SEPARATOR + (STAR_LABEL + domain))
  {
    assert STAR_LABEL + domain == "*" + (DOT + domain);
    assert IsBelow(scheme, "*", domain, scheme + SEPARATOR + (STAR_LABEL + domain));
  }

  lemma CoversStar(scheme: string, domain: string, origin: string)
    ensures Covers(scheme, STAR_LABEL + domain, origin) <==> OnOrBelow(scheme, domain, origin)
  {
    assert (STAR_LABEL + domain)[2..] == domain;
  }

  lemma PlainCovers(scheme: string, host: string, origin: string)
    requires IsWeb(scheme) && HostOk(host) && !(STAR_LABEL <= host)
    ensures MatchOne(scheme + SEPARATOR + host, origin) <==> Covers(scheme, host, origin)
  {
    NotInHost(host, '/');
    WildInCanonical(scheme, host);
    hide IsWeb;
    hide HostOk;
    hide Find;
    assert |scheme + SEPARATOR + host| > 1;
  }

  /** A canonical entry matches exactly what it covers. */
  lemma CanonicalCovers(scheme: string, host: string, origin: string)
    requires IsWeb(scheme) && HostOk(host)
    ensures MatchOne(scheme + SEPARATOR + host, origin) <==> Covers(scheme, host, origin)
  {
    hide IsWeb;
    hide HostOk;
    hide MatchOne;
    hide Covers;
    if STAR_LABEL <= host {
      assert host == STAR_LABEL + host[2..];
      PatternCovers(scheme, host[2..], origin);
    } else {
      PlainCovers(scheme, host, origin);
    }
  }

  /** What one entry of the request asks for. */
  ghost predicate Asks(raw: string, origin: string) {
    CanonicalOf(raw).Good? &&
    (CanonicalOf(raw).origin == "*" ||
     exists scheme, host :: IsCanonical(CanonicalOf(raw).origin, scheme, host) && Covers(scheme, host, origin))
  }

  lemma AsksIffMatches(raw: string, origin: string)
    requires CanonicalOf(raw).Good?
    ensures Asks(raw, origin) <==> MatchOne(CanonicalOf(raw).origin, origin)
  {
    hide CanonicalOf;
    hide MatchPattern;
    hide Covers;
    hide IsWeb;
    hide HostOk;
    var c := CanonicalOf(raw).origin;
    if c != "*" {
      var scheme, host := CanonicalShape(raw);
      CanonicalCovers(scheme, host, origin);
      if s, h :| IsCanonical(c, s, h) && Covers(s, h, origin) {
        CanonicalCovers(s, h, origin);
      }
    }
  }

  /** An accepted request list permits an origin when all its entries are blank, or when the origin is
      not empty and some entry asks for it. */
  lemma NormalizedPermits(list: seq<string>, origin: string)
    requires Normalize(list).Accepted?
    ensures Permitted(Normalize(list).origins, origin) <==>
            (forall raw | raw in list :: CanonicalOf(raw) == Blank)
            || (origin != "" && exists raw | raw in list :: Asks(raw, origin))
  {
    hide CanonicalOf;
    hide MatchOne;
    hide Asks;
    var out := Normalize(list).origins;
    RefusedForFirstBad(list, |list|);
    forall raw | raw in list && CanonicalOf(raw).Good?
      ensures CanonicalOf(raw).origin in out && (Asks(raw, origin) <==> MatchOne(CanonicalOf(raw).origin, origin))
    {
      NormalizedMembers(list, |list|, CanonicalOf(raw).origin);
      AsksIffMatches(raw, origin);
    }
    forall a | a in out ensures exists raw | raw in list :: CanonicalOf(raw) == Good(a) {
      NormalizedMembers(list, |list|, a);
    }
    forall raw | raw in list ensures Asks(raw, origin) ==> CanonicalOf(raw).Good? {
      NotGoodAsksNothing(raw, origin);
    }
    if out != [] {
      assert out[0] in out;
    }
  }

  lemma NotGoodAsksNothing(raw: string, origin: string)
    ensures Asks(raw, origin) ==> CanonicalOf(raw).Good?
  {
  }
}
