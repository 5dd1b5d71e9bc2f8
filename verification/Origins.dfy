/** The allow-list of a token: the normal form in which a request list is stored. */
module Origins {
  import opened Options
  import opened Text
  import opened OriginUrl

  // ---------------------------------------------------------------------------------------
  // Normalisation
  // ---------------------------------------------------------------------------------------

  datatype Normal = Accepted(origins: seq<string>) | Refused(raw: string)

  /** The loop of `normalizeOrigins` after its first `n` entries. */
  function Normalized(list: seq<string>, n: nat): Normal
    requires n <= |list|
  {
    if n == 0 then Accepted([])
    else
      match Normalized(list, n - 1)
      case Refused(raw) => Refused(raw)
      case Accepted(earlier) =>
        match CanonicalOf(list[n - 1])
        case Blank => Accepted(earlier)
        case Bad => Refused(list[n - 1])
        case Good(c) => Accepted(if c in earlier then earlier else earlier + [c])
  }

  function Normalize(list: seq<string>): Normal {
    Normalized(list, |list|)
  }

  method NormalizeOrigins(list: seq<string>) returns (r: Normal)
    ensures r == Normalize(list)
  {
    hide CanonicalOf;
    var seen: set<string> := {};
    var out: seq<string> := [];
    var i := 0;
    while i < |list|
      invariant 0 <= i <= |list|
      invariant Normalized(list, i) == Accepted(out)
      invariant forall c :: c in seen <==> c in out
    {
      var entry := CanonicalOf(list[i]);
      if entry == Bad {
        RefusedStays(list, i + 1, |list|);
        return Refused(list[i]);
      }
      if entry.Good? && entry.origin !in seen {
        out := out + [entry.origin];
        seen := seen + {entry.origin};
      }
      i := i + 1;
    }
    return Accepted(out);
  }

  lemma {:induction false} RefusedStays(list: seq<string>, n: nat, m: nat)
    requires n <= m <= |list| && Normalized(list, n).Refused?
    ensures Normalized(list, m) == Normalized(list, n)
  {
    hide CanonicalOf;
    if n < m {
      RefusedStays(list, n, m - 1);
    }
  }

  /** A list is accepted exactly when every entry is blank or good, and refused for its first bad one. */
  lemma {:induction false} RefusedForFirstBad(list: seq<string>, n: nat)
    requires n <= |list|
    ensures Normalized(list, n).Accepted? <==> forall i | 0 <= i < n :: CanonicalOf(list[i]) != Bad
    ensures Normalized(list, n).Refused? ==>
              exists i :: 0 <= i < n && CanonicalOf(list[i]) == Bad && Normalized(list, n).raw == list[i]
                          && forall j | 0 <= j < i :: CanonicalOf(list[j]) != Bad
  {
    hide CanonicalOf;
    if n > 0 {
      RefusedForFirstBad(list, n - 1);
    }
  }

  ghost predicate FirstAt(list: seq<string>, c: string, i: nat) {
    i < |list| && CanonicalOf(list[i]) == Good(c) && forall j | 0 <= j < i :: CanonicalOf(list[j]) != Good(c)
  }

  lemma {:induction false} NormalizedMembers(list: seq<string>, n: nat, c: string)
    requires n <= |list| && Normalized(list, n).Accepted?
    ensures c in Normalized(list, n).origins <==> exists i :: 0 <= i < n && CanonicalOf(list[i]) == Good(c)
  {
    hide CanonicalOf;
    if n > 0 {
      NormalizedMembers(list, n - 1, c);
    }
  }

  /** The result holds exactly the canonical forms of the entries, each once, in the order in which
      they first occur: `at` gives for each its first position. */
  lemma {:induction false} NormalizedInOrder(list: seq<string>, n: nat) returns (at: seq<nat>)
    requires n <= |list| && Normalized(list, n).Accepted?
    ensures |at| == |Normalized(list, n).origins|
    ensures forall a | 0 <= a < |at| :: at[a] < n && FirstAt(list, Normalized(list, n).origins[a], at[a])
    ensures forall a, b | 0 <= a < b < |at| :: at[a] < at[b]
    ensures forall a, b | 0 <= a < b < |at| :: Normalized(list, n).origins[a] != Normalized(list, n).origins[b]
  {
    hide CanonicalOf;
    if n == 0 {
      at := [];
    } else {
      at := NormalizedInOrder(list, n - 1);
      var earlier, entry := Normalized(list, n - 1).origins, CanonicalOf(list[n - 1]);
      if entry.Good? && entry.origin !in earlier {
        NormalizedMembers(list, n - 1, entry.origin);
        assert FirstAt(list, entry.origin, n - 1);
        at := at + [n - 1];
      }
    }
  }

  // ---------------------------------------------------------------------------------------
  // Normalising twice
  // ---------------------------------------------------------------------------------------

  /** A canonical origin ends in white space when its host does; only white space outside ASCII can
      stand in a host. */
  predicate EndsInSpace(c: string) {
    c != "" && IsSpace(c[|c| - 1])
  }

  lemma CanonicalShape(raw: string) returns (scheme: string, host: string)
    requires CanonicalOf(raw).Good? && CanonicalOf(raw).origin != "*"
    ensures IsCanonical(CanonicalOf(raw).origin, scheme, host)
  {
    hide ParseUrl;
    hide Trim;
    hide IsWeb;
    hide HostOk;
    var o := Trim(raw);
    var url := ParseUrl(if Contains(o, WILD) then Replaced(o) else o).value;
    scheme, host := url.scheme, url.host;
    if Contains(o, WILD) {
      WithoutLabelOk(host);
      host := STAR_LABEL + TrimPrefix(host, WILDCARD_LABEL);
    }
  }

  lemma WithoutLabelOk(host: string)
    requires HostOk(host)
    ensures HostOk(STAR_LABEL + TrimPrefix(host, WILDCARD_LABEL))
  {
    var rest := TrimPrefix(host, WILDCARD_LABEL);
    if WILDCARD_LABEL <= host {
      assert host == WILDCARD_LABEL + rest;
      SuffixHostOk(WILDCARD_LABEL, rest);
    }
    StarHostOk(rest);
  }

  lemma SeparatorAt(scheme: string, rest: string, i: nat)
    requires IsWeb(scheme) && i <= |scheme + SEPARATOR + rest| && '/' !in rest
    requires SEPARATOR <= (scheme + SEPARATOR + rest)[i..]
    ensures i == |scheme|
  {
    WebScheme(scheme);
    hide Lower;
    hide IsWeb;
    var s := scheme + SEPARATOR + rest;
    assert s[i] == s[i..][0] == ':' && s[i + 1] == s[i..][1] == '/' && s[i + 2] == s[i..][2] == '/';
  }

  lemma WildIsSeparatorAndStar(t: string)
    ensures WILD <= t <==> SEPARATOR <= t && STAR_LABEL <= t[3..]
  {
    if SEPARATOR <= t && STAR_LABEL <= t[3..] {
      assert t == SEPARATOR + t[3..] && t[3..] == STAR_LABEL + t[3..][2..];
      assert t == WILD + t[3..][2..];
    }
  }

  /** In a canonical origin the wildcard mark can only follow the scheme. */
  lemma WildInCanonical(scheme: string, host: string)
    requires IsWeb(scheme) && '/' !in host
    ensures Find(scheme + SEPARATOR + host, WILD) == if STAR_LABEL <= host then |scheme| else -1
  {
    hide Find;
    hide IsWeb;
    var s := scheme + SEPARATOR + host;
    assert s[|scheme|..] == SEPARATOR + host && (SEPARATOR + host)[3..] == host;
    WildIsSeparatorAndStar(s[|scheme|..]);
    var i := Find(s, WILD);
    if i >= 0 {
      WildIsSeparatorAndStar(s[i..]);
      SeparatorAt(scheme, host, i);
    }
  }

  lemma SeparatorInCanonical(scheme: string, host: string)
    requires IsWeb(scheme) && '/' !in host
    ensures Find(scheme + SEPARATOR + host, SEPARATOR) == |scheme|
  {
    hide Find;
    hide IsWeb;
    var s := scheme + SEPARATOR + host;
    assert s[|scheme|..] == SEPARATOR + host;
    var i := Find(s, SEPARATOR);
    if i >= 0 {
      SeparatorAt(scheme, host, i);
    }
  }

  lemma TrimCanonical(scheme: string, host: string)
    requires IsWeb(scheme)
    ensures Trim(scheme + SEPARATOR + host) == scheme + SEPARATOR + TrimRight(host)
  {
    hide IsWeb;
    hide Lower;
    hide TrimRight;
    var a := scheme + SEPARATOR;
    WebScheme(scheme);
    assert a[|a| - 1] == '/' && a + host != "" && (a + host)[0] == scheme[0];
    TrimRightAfter(a, host);
  }

  lemma PlainAgain(scheme: string, host: string)
    requires IsWeb(scheme) && HostOk(host) && !(STAR_LABEL <= host)
    ensures Canonical(scheme + SEPARATOR + host) == Good(scheme + SEPARATOR + host)
  {
    NotInHost(host, '/');
    WildInCanonical(scheme, host);
    ParseCanonical(scheme, host);
    hide ParseUrl;
    hide IsWeb;
    hide HostOk;
    hide Find;
    assert |scheme + SEPARATOR + host| > 1;
  }

  lemma StarAgain(scheme: string, rest: string)
    requires IsWeb(scheme) && HostOk(STAR_LABEL + rest)
    ensures Canonical(scheme + SEPARATOR + (STAR_LABEL + rest)) == Good(scheme + SEPARATOR + (STAR_LABEL + rest))
  {
    NotInHost(STAR_LABEL + rest, '/');
    WildInCanonical(scheme, STAR_LABEL + rest);
    LabelHostOk(rest);
    ParseCanonical(scheme, WILDCARD_LABEL + rest);
    hide ParseUrl;
    hide IsWeb;
    hide HostOk;
    hide Find;
    ReplacedCanonical(scheme, rest);
    hide Replaced;
    assert |scheme + SEPARATOR + (STAR_LABEL + rest)| > 1;
  }

  lemma ReplacedCanonical(scheme: string, rest: string)
    requires Find(scheme + SEPARATOR + (STAR_LABEL + rest), WILD) == |scheme|
    ensures Replaced(scheme + SEPARATOR + (STAR_LABEL + rest)) == scheme + SEPARATOR + (WILDCARD_LABEL + rest)
    ensures TrimPrefix(WILDCARD_LABEL + rest, WILDCARD_LABEL) == rest
  {
    hide Find;
    Pieces(scheme, SEPARATOR, STAR_LABEL, WILDCARD_LABEL, rest);
  }

  lemma Pieces(a: string, b: string, c: string, d: string, e: string)
    ensures (a + b + (c + e))[..|a|] == a
    ensures (a + b + (c + e))[|a| + |b + c|..] == e
    ensures a + (b + d) + e == a + b + (d + e)
    ensures TrimPrefix(d + e, d) == e
  {
  }

  lemma NoHostAgain(scheme: string)
    requires IsWeb(scheme)
    ensures Canonical(scheme + SEPARATOR + "") == Bad
  {
    WildInCanonical(scheme, "");
    ParseNoHost(scheme);
    hide ParseUrl;
    hide IsWeb;
    hide Find;
    assert |scheme + SEPARATOR + ""| > 1;
  }

  /** A canonical origin is read as itself without the white space at its end. */
  lemma CanonicalAgain(scheme: string, host: string)
    requires IsWeb(scheme) && HostOk(host)
    ensures CanonicalOf(scheme + SEPARATOR + host) ==
            if TrimRight(host) == "" then Bad else Good(scheme + SEPARATOR + TrimRight(host))
  {
    hide IsWeb;
    hide HostOk;
    hide Canonical;
    hide Trim;
    hide TrimRight;
    var trimmed := TrimRight(host);
    TrimCanonical(scheme, host);
    TrimmedHostOk(host);
    if trimmed == "" {
      NoHostAgain(scheme);
    } else if STAR_LABEL <= trimmed {
      assert trimmed == STAR_LABEL + trimmed[2..];
      StarAgain(scheme, trimmed[2..]);
    } else {
      PlainAgain(scheme, trimmed);
    }
  }

  lemma ParseNoHost(scheme: string)
    requires IsWeb(scheme)
    ensures ParseUrl(scheme + SEPARATOR + "") == None
  {
    var s := scheme + SEPARATOR + "";
    WebScheme(scheme);
    hide Lower;
    BeforeIs(s, '#', "");
    assert s + "" == s && s == scheme + SEPARATOR;
    BeforeIs(scheme, ':', SEPARATOR);
    var rest := "//";
    assert s[|scheme| + 1..] == rest;
    BeforeIs(rest, '?', "");
    assert rest + "" == rest && rest[2..] == "";
    hide IsWeb;
    hide Before;
    assert Before("", '/') == "" by { BeforeIs("", '/', ""); assert "" + "" == ""; }
  }

  lemma SettledAgain(c: string, raw: string)
    requires CanonicalOf(raw) == Good(c)
    ensures !EndsInSpace(c) ==> CanonicalOf(c) == Good(c)
    ensures CanonicalOf(c).Good? ==> !EndsInSpace(CanonicalOf(c).origin)
  {
    hide Canonical;
    hide IsWeb;
    hide HostOk;
    if c == "*" {
      StarStays();
    } else {
      var scheme, host := CanonicalShape(raw);
      CanonicalAgain(scheme, host);
      HostNotEmpty(host);
      assert c[|c| - 1] == host[|host| - 1];
      var trimmed := TrimRight(host);
      if trimmed != "" {
        var again := scheme + SEPARATOR + trimmed;
        assert again[|again| - 1] == trimmed[|trimmed| - 1];
      }
    }
  }

  lemma HostNotEmpty(host: string)
    requires HostOk(host)
    ensures host != ""
  {
  }

  lemma StarStays()
    ensures CanonicalOf("*") == Good("*") && !EndsInSpace("*")
  {
    TrimmedIff("*");
  }

  lemma {:induction false} SettledPrefix(origins: seq<string>, n: nat)
    requires n <= |origins|
    requires forall c | c in origins :: CanonicalOf(c) == Good(c)
    requires forall a, b | 0 <= a < b < |origins| :: origins[a] != origins[b]
    ensures Normalized(origins, n) == Accepted(origins[..n])
  {
    hide CanonicalOf;
    if n > 0 {
      SettledPrefix(origins, n - 1);
      assert origins[n - 1] in origins;
      assert origins[..n] == origins[..n - 1] + [origins[n - 1]];
    }
  }

  /** Normalising an accepted list again changes nothing exactly when no entry has a host that ends in
      white space. */
  lemma NormalizeTwiceIff(list: seq<string>)
    requires Normalize(list).Accepted?
    ensures Normalize(Normalize(list).origins) == Normalize(list) <==>
            forall raw | raw in list && CanonicalOf(raw).Good? :: !EndsInSpace(CanonicalOf(raw).origin)
  {
    hide CanonicalOf;
    var out := Normalize(list).origins;
    var _ := NormalizedInOrder(list, |list|);
    forall c | c in out
      ensures exists raw :: raw in list && CanonicalOf(raw) == Good(c)
    {
      NormalizedMembers(list, |list|, c);
    }
    if forall raw | raw in list && CanonicalOf(raw).Good? :: !EndsInSpace(CanonicalOf(raw).origin) {
      forall c | c in out ensures CanonicalOf(c) == Good(c) {
        var raw :| raw in list && CanonicalOf(raw) == Good(c);
        SettledAgain(c, raw);
      }
      SettledPrefix(out, |out|);
    } else {
      var raw :| raw in list && CanonicalOf(raw).Good? && EndsInSpace(CanonicalOf(raw).origin);
      UnsettledIsLost(list, raw);
    }
  }

  lemma UnsettledIsLost(list: seq<string>, raw: string)
    requires Normalize(list).Accepted? && raw in list
    requires CanonicalOf(raw).Good? && EndsInSpace(CanonicalOf(raw).origin)
    ensures Normalize(Normalize(list).origins) != Normalize(list)
  {
    hide CanonicalOf;
    var out, lost := Normalize(list).origins, CanonicalOf(raw).origin;
    NormalizedMembers(list, |list|, lost);
    if Normalize(out) == Accepted(out) {
      NormalizedMembers(out, |out|, lost);
      var i :| 0 <= i < |out| && CanonicalOf(out[i]) == Good(lost);
      NormalizedMembers(list, |list|, out[i]);
      var j :| 0 <= j < |list| && CanonicalOf(list[j]) == Good(out[i]);
      SettledAgain(out[i], list[j]);
    }
  }

  lemma ParseFragment(scheme: string, host: string)
    requires IsWeb(scheme) && HostOk(host)
    ensures ParseUrl(scheme + SEPARATOR + (host + "#")) == Some(Url(scheme, host))
  {
    hide IsWeb;
    hide HostOk;
    hide ParseScheme;
    hide HasControl;
    var raw, u := scheme + SEPARATOR + (host + "#"), scheme + SEPARATOR + host;
    NoFragment(scheme, host);
    NoControls(scheme, host);
    ParseSchemeOf(scheme, host);
    assert raw == u + "#";
    BeforeIs(u, '#', "#");
    hide Before;
    assert raw[|u| + 1..] == "";
  }

  lemma NoFragment(scheme: string, host: string)
    requires IsWeb(scheme) && HostOk(host)
    ensures '#' !in scheme + SEPARATOR + host
  {
    NotInHost(host, '#');
    WebScheme(scheme);
    hide IsWeb;
    hide HostOk;
    hide Lower;
  }

  lemma FragmentIsTrimmed(scheme: string, rest: string)
    requires IsWeb(scheme)
    ensures Trim(scheme + SEPARATOR + (rest + "#")) == scheme + SEPARATOR + (rest + "#")
  {
    var raw := scheme + SEPARATOR + (rest + "#");
    WebScheme(scheme);
    assert raw[0] == scheme[0] && raw[|raw| - 1] == '#';
    TrimmedIff(raw);
  }

  lemma HashKeepsSpace(scheme: string, host: string)
    requires IsWeb(scheme) && HostOk(host) && !(STAR_LABEL <= host)
    ensures CanonicalOf(scheme + SEPARATOR + (host + "#")) == Good(scheme + SEPARATOR + host)
  {
    NotInHost(host, '/');
    WildInCanonical(scheme, host + "#");
    ParseFragment(scheme, host);
    FragmentIsTrimmed(scheme, host);
    hide IsWeb;
    hide HostOk;
    hide ParseUrl;
    hide Trim;
    hide Find;
    assert |scheme + SEPARATOR + (host + "#")| > 1;
  }

  /** The claim fails for an accepted list: a host that ends in an ideographic space. */
  lemma NormalizeTwiceFails() returns (list: seq<string>)
    ensures Normalize(list).Accepted? && Normalize(Normalize(list).origins) != Normalize(list)
  {
    var raw := UnsettledEntry(HTTP, ['a', '\U{3000}']);
    hide CanonicalOf;
    hide EndsInSpace;
    list := [raw];
    assert Normalized(list, 0) == Accepted([]);
    assert Normalized(list, 1).Accepted?;
    UnsettledIsLost(list, raw);
  }

  lemma UnsettledEntry(scheme: string, host: string) returns (raw: string)
    requires IsWeb(scheme) && |host| == 2 && host[0] == 'a' && host[1] == '\U{3000}'
    ensures CanonicalOf(raw).Good? && EndsInSpace(CanonicalOf(raw).origin)
  {
    assert HostOk(host) by {
      assert ':' !in host;
      NoColonNoPort(host);
    }
    assert !(STAR_LABEL <= host) && IsSpace(host[1]);
    hide IsWeb;
    hide CanonicalOf;
    hide HostOk;
    hide IsSpace;
    HashKeepsSpace(scheme, host);
    raw := scheme + SEPARATOR + (host + "#");
    var c := scheme + SEPARATOR + host;
    assert c[|c| - 1] == host[1];
  }
}
