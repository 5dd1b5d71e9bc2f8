/** The texts that the parser of origins accepts: a grammar, in the style of appendix A of RFC 3986, and the
    proof that the parser accepts exactly its words and reads off their scheme and host. */
module UrlGrammar {
  import opened Options
  import opened Text
  import opened OriginUrl

  /** The parts of a word, each with the mark that sets it off: the user information with the "@" after it, the
      query with its "?", the fragment with its "#". */
  datatype Parts = Parts(scheme: string, user: string, host: string, path: string, query: string, fragment: string) {
    function Hierarchy(): string {
      "//" + (user + host + path)
    }

    function Plain(): string {
      scheme + (":" + (Hierarchy() + query))
    }

    function Word(): string {
      Plain() + fragment
    }

    predicate IsAuthority() {
      && HostOk(host)
      && (user == "" || (user[|user| - 1] == '@' && UserinfoOk(user[..|user| - 1])))
    }

    predicate IsPath() {
      (path == "" || path[0] == '/') && '?' !in path && EscapesOk(path)
    }

    predicate IsWord() {
      && IsWeb(Lower(scheme)) && IsAuthority() && IsPath()
      && (query == "" || query[0] == '?')
      && (fragment == "" || (fragment[0] == '#' && EscapesOk(fragment[1..])))
      && '#' !in Plain() && !HasControl(Plain())
    }
  }

  ghost predicate Reads(p: Parts, s: string, url: Url) {
    p.IsWord() && p.Word() == s && url == Url(Lower(p.scheme), p.host)
  }

  // ---------------------------------------------------------------------------------------
  // Texts without a mark
  // ---------------------------------------------------------------------------------------

  lemma {:induction false} LowerChars(s: string)
    ensures |Lower(s)| == |s| && forall i | 0 <= i < |s| :: Lower(s)[i] == LowerChar(s[i])
  {
    if s != "" {
      LowerChars(s[1..]);
    }
  }

  lemma NoColonInScheme(scheme: string)
    requires IsWeb(Lower(scheme))
    ensures ':' !in scheme
  {
    LowerChars(scheme);
    WebScheme(Lower(scheme));
  }

  lemma NoMarkInAuthority(p: Parts, c: char)
    requires p.IsAuthority() && (c == '/' || c == '?')
    ensures c !in p.user + p.host
  {
    NotInHost(p.host, c);
    hide HostOk;
    if p.user != "" {
      assert p.user == p.user[..|p.user| - 1] + ['@'];
      assert c !in p.user[..|p.user| - 1];
    }
  }

  lemma {:induction false} AfterLastIs(a: string, c: char, b: string)
    requires c !in b && (a == "" || a[|a| - 1] == c)
    ensures AfterLast(a + b, c) == b
  {
    if a == "" {
      assert a + b == b;
    } else {
      assert (a + b)[1..] == a[1..] + b;
      if |a| > 1 {
        assert (a + b)[1..][|a| - 2] == c;
      }
      AfterLastIs(a[1..], c, b);
    }
  }

  lemma {:induction false} AfterLastSplits(s: string, c: char)
    ensures |AfterLast(s, c)| < |s| ==> s[|s| - |AfterLast(s, c)| - 1] == c
  {
    AfterLastStep(s, c);
    hide AfterLast;
    if s != "" && c in s[1..] {
      AfterLastSplits(s[1..], c);
      var k := |s| - |AfterLast(s, c)| - 1;
      assert s[k] == s[1..][k - 1];
    }
  }

  lemma AfterLastStep(s: string, c: char)
    ensures if s != "" && c in s[1..] then AfterLast(s, c) == AfterLast(s[1..], c) && |AfterLast(s, c)| < |s| - 1
            else |AfterLast(s, c)| < |s| ==> s[|s| - |AfterLast(s, c)| - 1] == c
  {
  }

  lemma BeforeSplits(s: string, c: char)
    ensures var a := Before(s, c); |a| < |s| ==> s == a + ([c] + s[|a| + 1..])
  {
  }

  // ---------------------------------------------------------------------------------------
  // Escapes and ports
  // ---------------------------------------------------------------------------------------

  /** A percent sign is followed by two hexadecimal digits. */
  ghost predicate EscapeAt(s: string, i: nat) {
    i < |s| && s[i] == '%' ==>
      i + 2 < |s| && forall j | i < j <= i + 2 :: '0' <= s[j] <= '9' || 'a' <= s[j] <= 'f' || 'A' <= s[j] <= 'F'
  }

  /** Escapes are in order when every percent sign is. */
  lemma {:induction false} EscapesIff(s: string)
    ensures EscapesOk(s) <==> forall i: nat | i < |s| :: EscapeAt(s, i)
    decreases |s|
  {
    if s != "" {
      var k := if s[0] == '%' && |s| >= 3 then 3 else 1;
      EscapesIff(s[k..]);
      forall i: nat | k <= i < |s| ensures EscapeAt(s, i) <==> EscapeAt(s[k..], i - k) {
        EscapeLater(s, k, i);
      }
      EscapesStep(s, k);
    }
  }

  lemma EscapeLater(s: string, k: nat, i: nat)
    requires k <= i < |s|
    ensures EscapeAt(s, i) <==> EscapeAt(s[k..], i - k)
  {
    assert forall j | k <= j < |s| :: s[j] == s[k..][j - k];
    if EscapeAt(s[k..], i - k) && s[i] == '%' {
      forall j | i < j <= i + 2 ensures s[j] == s[k..][j - k] {}
    }
  }

  lemma EscapesStep(s: string, k: nat)
    requires s != "" && k == if s[0] == '%' && |s| >= 3 then 3 else 1
    requires EscapesOk(s[k..]) <==> forall i: nat | i < |s[k..]| :: EscapeAt(s[k..], i)
    requires forall i: nat | k <= i < |s| :: EscapeAt(s, i) <==> EscapeAt(s[k..], i - k)
    ensures EscapesOk(s) <==> forall i: nat | i < |s| :: EscapeAt(s, i)
  {
    if forall i: nat | i < |s| :: EscapeAt(s, i) {
      assert EscapeAt(s, 0);
      forall i: nat | i < |s[k..]| ensures EscapeAt(s[k..], i) {
        assert EscapeAt(s, i + k);
      }
    }
    if EscapesOk(s) {
      forall i: nat | i < |s| ensures EscapeAt(s, i) {
        if i >= k {
          assert EscapeAt(s[k..], i - k);
        }
      }
    }
  }

  lemma PortStep(host: string)
    requires ':' in host
    ensures if ':' in host[1..]
            then AfterLast(host, ':') == AfterLast(host[1..], ':') && PortOk(host) == PortOk(host[1..])
            else AfterLast(host, ':') == host[1..] && PortOk(host) == AllDigits(host[1..])
  {
    assert host == [host[0]] + host[1..];
  }

  /** The text after the last colon of a host, if there is one, is a number or empty. */
  lemma {:induction false} PortIff(host: string)
    ensures PortOk(host) <==> ':' !in host || IsNumber(AfterLast(host, ':'))
  {
    hide PortOk;
    hide AfterLast;
    if ':' in host {
      PortStep(host);
      if ':' in host[1..] {
        PortIff(host[1..]);
      }
    } else {
      NoColonNoPort(host);
    }
  }

  predicate IsNumber(s: string) {
    forall i | 0 <= i < |s| :: '0' <= s[i] <= '9'
  }

  // ---------------------------------------------------------------------------------------
  // Every word is accepted
  // ---------------------------------------------------------------------------------------

  lemma AuthorityIsRead(p: Parts, scheme: string)
    requires IsWeb(scheme) && p.IsAuthority()
    ensures ParseAuthority(scheme, p.user + p.host) == Some(Url(scheme, p.host))
  {
    NotInHost(p.host, '@');
    hide HostOk;
    hide UserinfoOk;
    AfterLastIs(p.user, '@', p.host);
    var authority := p.user + p.host;
    assert p.user != "" ==> authority[..|authority| - |p.host| - 1] == p.user[..|p.user| - 1];
    assert UserinfoOk("") by { NoUserinfo(); }
  }

  lemma NoUserinfo()
    ensures UserinfoOk("")
  {
  }

  /** What each step of the parser leaves to the next one. */
  lemma HierarchyStep(scheme: string, authority: string, path: string)
    requires IsWeb(scheme) && '/' !in authority && (path == "" || path[0] == '/') && EscapesOk(path)
    ensures ParseHierarchy(scheme, "//" + (authority + path)) == ParseAuthority(scheme, authority)
  {
    hide EscapesOk;
    hide ParseAuthority;
    hide IsWeb;
    var rest, tail := "//" + (authority + path), authority + path;
    assert rest[2..] == tail;
    BeforeIs(authority, '/', path);
    assert rest[2 + |authority|..] == tail[|authority|..] == path;
  }

  lemma SchemeStep(scheme: string, rest: string, query: string)
    requires IsWeb(Lower(scheme)) && ':' !in scheme && '?' !in rest && (query == "" || query[0] == '?')
    ensures ParseScheme(scheme + (":" + (rest + query))) == ParseHierarchy(Lower(scheme), rest)
  {
    hide ParseHierarchy;
    hide IsWeb;
    hide Lower;
    var tail := ":" + (rest + query);
    BeforeIs(scheme, ':', tail);
    assert (scheme + tail)[|scheme| + 1..] == tail[1..] == rest + query;
    BeforeIs(rest, '?', query);
  }

  lemma FragmentStep(u: string, fragment: string)
    requires '#' !in u && !HasControl(u)
    requires fragment == "" || (fragment[0] == '#' && EscapesOk(fragment[1..]))
    ensures ParseUrl(u + fragment) == ParseScheme(u)
  {
    NoEscapes();
    hide ParseScheme;
    hide HasControl;
    hide EscapesOk;
    BeforeIs(u, '#', fragment);
    assert fragment != "" ==> (u + fragment)[|u| + 1..] == fragment[1..];
  }

  lemma NoEscapes()
    ensures EscapesOk("")
  {
  }

  lemma NoQueryMark(p: Parts)
    requires p.IsAuthority() && p.IsPath()
    ensures '?' !in p.Hierarchy()
  {
    NoMarkInAuthority(p, '?');
  }

  lemma WordIsRead(p: Parts)
    requires p.IsWord()
    ensures ParseUrl(p.Word()) == Some(Url(Lower(p.scheme), p.host))
  {
    NoMarkInAuthority(p, '/');
    NoColonInScheme(p.scheme);
    NoQueryMark(p);
    hide IsWeb;
    hide HasControl;
    hide EscapesOk;
    FragmentStep(p.Plain(), p.fragment);
    SchemeStep(p.scheme, p.Hierarchy(), p.query);
    HierarchyStep(Lower(p.scheme), p.user + p.host, p.path);
    AuthorityIsRead(p, Lower(p.scheme));
    hide ParseUrl;
    hide ParseScheme;
    hide ParseHierarchy;
    hide ParseAuthority;
  }

  // ---------------------------------------------------------------------------------------
  // Everything accepted is a word
  // ---------------------------------------------------------------------------------------

  lemma AuthorityParts(scheme: string, authority: string) returns (user: string, host: string)
    requires IsWeb(scheme) && ParseAuthority(scheme, authority).Some?
    ensures ParseAuthority(scheme, authority).value == Url(scheme, host) && authority == user + host && HostOk(host)
    ensures user == "" || (user[|user| - 1] == '@' && UserinfoOk(user[..|user| - 1]))
  {
    AfterLastSplits(authority, '@');
    hide HostOk;
    hide UserinfoOk;
    host := AfterLast(authority, '@');
    user := authority[..|authority| - |host|];
    if user != "" {
      assert user[..|user| - 1] == authority[..|authority| - |host| - 1];
    }
  }

  lemma HierarchyParts(scheme: string, rest: string) returns (user: string, host: string, path: string)
    requires IsWeb(scheme) && ParseHierarchy(scheme, rest).Some? && '?' !in rest
    ensures var p := Parts(scheme, user, host, path, "", "");
            && ParseHierarchy(scheme, rest).value == Url(scheme, host) && rest == p.Hierarchy()
            && p.IsAuthority() && p.IsPath()
  {
    hide HostOk;
    hide UserinfoOk;
    hide EscapesOk;
    hide ParseAuthority;
    var authority := Before(rest[2..], '/');
    user, host := AuthorityParts(scheme, authority);
    path := rest[2 + |authority|..];
    assert rest == "//" + rest[2..] && rest[2..] == authority + path;
  }

  lemma SchemeParts(u: string) returns (p: Parts)
    requires ParseScheme(u).Some?
    ensures p.fragment == "" && u == p.Plain() && ParseScheme(u).value == Url(Lower(p.scheme), p.host)
    ensures IsWeb(Lower(p.scheme)) && p.IsAuthority() && p.IsPath() && (p.query == "" || p.query[0] == '?')
  {
    hide ParseHierarchy;
    hide HostOk;
    hide UserinfoOk;
    hide EscapesOk;
    hide IsWeb;
    hide Lower;
    var scheme := Before(u, ':');
    var tail := u[|scheme| + 1..];
    var rest := Before(tail, '?');
    var user, host, path := HierarchyParts(Lower(scheme), rest);
    p := Parts(scheme, user, host, path, tail[|rest|..], "");
    BeforeSplits(u, ':');
    hide Before;
    assert [':'] + tail == ":" + tail;
    assert tail == rest + p.query && rest == p.Hierarchy();
  }

  lemma UrlParts(s: string) returns (p: Parts)
    requires ParseUrl(s).Some?
    ensures Reads(p, s, ParseUrl(s).value)
  {
    hide ParseScheme;
    hide HostOk;
    hide UserinfoOk;
    hide EscapesOk;
    hide IsWeb;
    hide Lower;
    hide HasControl;
    var u := Before(s, '#');
    p := SchemeParts(u);
    p := p.(fragment := s[|u|..]);
    assert p.Plain() == u && s == u + p.fragment;
  }

  /** The parser accepts exactly the words of the grammar, and reads the scheme in lower case and the host. */
  lemma ParseUrlIff(s: string, url: Url)
    ensures ParseUrl(s) == Some(url) <==> exists p :: Reads(p, s, url)
  {
    hide ParseUrl;
    if ParseUrl(s).Some? {
      var p := UrlParts(s);
    }
    if p :| Reads(p, s, url) {
      WordIsRead(p);
    }
  }

  // ---------------------------------------------------------------------------------------
  // Entries of a request
  // ---------------------------------------------------------------------------------------

  /** An entry without the wildcard mark is good exactly when it is a word, but for white space around it, and
      what is kept of it is its scheme in lower case and its host. */
  lemma PlainEntryIff(raw: string, c: string)
    requires !Contains(Trim(raw), "://*.") && Trim(raw) != "*"
    ensures CanonicalOf(raw) == Good(c)
            <==> exists p, url :: Reads(p, Trim(raw), url) && c == url.scheme + "://" + url.host
    ensures CanonicalOf(raw) == Blank <==> Trim(raw) == ""
  {
    hide Trim;
    hide ParseUrl;
    hide Reads;
    assert SEPARATOR + STAR_LABEL == "://*.";
    var o := Trim(raw);
    if o == "" {
      EmptyIsNoWord();
    }
    if ParseUrl(o).Some? {
      ParseUrlIff(o, ParseUrl(o).value);
    }
    if p, url :| Reads(p, o, url) && c == url.scheme + "://" + url.host {
      ParseUrlIff(o, url);
    }
    hide Contains;
  }

  lemma EmptyIsNoWord()
    ensures forall p, url :: !Reads(p, "", url)
  {
  }

  /** The word with the wildcard mark in place of the label that stands for it. */
  function WildcardText(p: Parts, domain: string): string {
    p.scheme + ("://*." + (domain + p.path + p.query + p.fragment))
  }

  lemma WildcardAt(scheme: string, rest: string)
    requires ':' !in scheme
    ensures Find(scheme + ("://*." + rest), WILD) == |scheme|
  {
    var s := scheme + ("://*." + rest);
    assert SEPARATOR + STAR_LABEL == "://*.";
    assert s[|scheme|..] == "://*." + rest;
    forall i | 0 <= i < |scheme| ensures !(WILD <= s[i..]) {
      assert s[i..][0] == scheme[i];
    }
  }

  lemma WildcardReplaced(p: Parts, domain: string)
    requires p.user == "" && p.host == WILDCARD_LABEL + domain && ':' !in p.scheme
    ensures Contains(WildcardText(p, domain), WILD) && Replaced(WildcardText(p, domain)) == p.Word()
  {
    var rest := domain + p.path + p.query + p.fragment;
    WildcardAt(p.scheme, rest);
    hide Find;
    WildcardPieces(p.scheme, rest);
    Regrouped(p.scheme, WILDCARD_LABEL, domain, p.path, p.query, p.fragment);
    assert p.user + p.host == WILDCARD_LABEL + domain;
  }

  lemma Regrouped(scheme: string, mark: string, domain: string, path: string, query: string, fragment: string)
    ensures scheme + (":" + ("//" + (mark + domain + path) + query)) + fragment
            == scheme + ("://" + mark) + (domain + path + query + fragment)
  {
    assert ":" + ("//" + (mark + domain + path) + query) == "://" + mark + (domain + path + query);
  }

  lemma WildcardPieces(scheme: string, rest: string)
    ensures var s := scheme + ("://*." + rest);
            && s[..|scheme|] == scheme && s[|scheme| + |WILD|..] == rest
  {
    assert SEPARATOR + STAR_LABEL == "://*.";
  }

  /** An entry with the wildcard mark after its scheme is good when it is a word with a label in place of the
      star, and is kept as scheme, star and domain. */
  lemma WildcardEntry(p: Parts, domain: string)
    requires p.IsWord() && p.user == "" && p.host == "wildcard." + domain
    ensures Canonical(WildcardText(p, domain)) == Good(Lower(p.scheme) + "://" + ("*." + domain))
  {
    NoColonInScheme(p.scheme);
    WildcardReplaced(p, domain);
    WordIsRead(p);
    hide ParseUrl;
    hide Find;
    hide Replaced;
    hide Lower;
    assert p.host[|WILDCARD_LABEL|..] == domain;
    assert |WildcardText(p, domain)| > 1;
  }
}
