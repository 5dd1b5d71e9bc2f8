/** The gate on tracking requests, and what storage does to the allow-list on its way there. */
module TokenGate {
  import opened Options
  import opened Text
  import opened OriginUrl
  import opened OriginCodec
  import opened Origins
  import opened OriginMatch
  import opened Schema
  import opened Storage

  datatype Verdict = Unauthorized | Forbidden | Passed(projectId: int)

  function VerdictOn(row: Token, origin: string): Verdict {
    if !row.active then Unauthorized
    else
      var allowed := Decode(row.allowedOrigins);
      if allowed != [] && !(origin != "" && AnyMatch(allowed, origin)) then Forbidden else Passed(row.projectId)
  }

  /** The verdict on a request that carries the token text `token`. */
  ghost predicate Gives(db: Database, token: string, origin: string, v: Verdict) {
    if token == "" || !TokenTaken(db, token) then v == Unauthorized
    else exists t :: IsToken(db, t, token) && v == VerdictOn(db.tokens[t], origin)
  }

  /** The row admits a request with this token text and origin to the project: it is active, and its list is
      empty or has an entry that matches a nonempty origin. */
  ghost predicate Opens(row: Token, token: string, origin: string, projectId: int) {
    && row.token == token && row.active && row.projectId == projectId
    && (|| Decode(row.allowedOrigins) == []
        || (origin != "" && exists a | a in Decode(row.allowedOrigins) :: MatchOne(a, origin)))
  }

  ghost predicate IsActive(row: Token, token: string) {
    row.token == token && row.active
  }

  /** A request passes with project p exactly when some row opens for it, and is answered 401 exactly when no
      active row has its token. */
  lemma GateIff(db: Database, token: string, origin: string, v: Verdict)
    requires UniqueTokens(db) && Gives(db, token, origin, v)
    ensures forall p :: v == Passed(p) <==>
                        token != "" && exists t | t in db.tokens :: Opens(db.tokens[t], token, origin, p)
    ensures v != Unauthorized <==> token != "" && exists t | t in db.tokens :: IsActive(db.tokens[t], token)
  {
    hide Decode;
    hide MatchOne;
    if token != "" && TokenTaken(db, token) {
      var t :| IsToken(db, t, token) && v == VerdictOn(db.tokens[t], origin);
      forall u | u in db.tokens && db.tokens[u].token == token ensures u == t {}
      VerdictIff(db.tokens[t], token, origin);
      hide Opens;
      hide VerdictOn;
    } else {
      hide VerdictOn;
      forall p, t | t in db.tokens ensures Opens(db.tokens[t], token, origin, p) ==> token == "" {}
    }
  }

  lemma VerdictIff(row: Token, token: string, origin: string)
    requires row.token == token
    ensures forall p :: VerdictOn(row, origin) == Passed(p) <==> Opens(row, token, origin, p)
    ensures VerdictOn(row, origin) != Unauthorized <==> IsActive(row, token)
  {
    hide Decode;
    hide MatchOne;
  }

  method TokenAuth(store: Store, token: string, origin: string, fails: bool) returns (v: Verdict)
    ensures if fails then v == Unauthorized else Gives(store.DB(), token, origin, v)
    ensures UniqueTokens(store.DB()) ==>
              forall p :: v == Passed(p) <==>
                          !fails && token != ""
                          && exists t | t in store.tokens :: Opens(store.tokens[t], token, origin, p)
    ensures UniqueTokens(store.DB()) ==>
              (v != Unauthorized <==>
               !fails && token != "" && exists t | t in store.tokens :: IsActive(store.tokens[t], token))
  {
    hide Decode;
    hide AnyMatch;
    if token == "" {
      return Unauthorized;
    }
    var found := store.GetProjectTokenByToken(token, fails);
    if found.None? {
      return Unauthorized;
    }
    var pt := found.value;
    assert IsToken(store.DB(), pt.id, token);
    if UniqueTokens(store.DB()) {
      GateIff(store.DB(), token, origin, VerdictOn(store.tokens[pt.id], origin));
    }
    hide Opens;
    hide IsActive;
    if !pt.active {
      return Unauthorized;
    }
    if |pt.allowedOrigins| > 0 {
      var ok := MatchOriginInGate(pt.allowedOrigins, origin);
      if !ok {
        return Forbidden;
      }
    }
    return Passed(pt.projectId);
  }

  // ---------------------------------------------------------------------------------------
  // What is read back
  // ---------------------------------------------------------------------------------------

  lemma NoNewline(scheme: string, host: string)
    requires IsWeb(scheme) && HostOk(host)
    ensures NEWLINE !in scheme + SEPARATOR + host
  {
    WebScheme(scheme);
    NotInHost(host, NEWLINE);
    hide IsWeb;
    hide HostOk;
    hide Lower;
    assert NEWLINE !in scheme;
  }

  lemma TrimmedCanonical(scheme: string, host: string)
    requires IsWeb(scheme)
    ensures Trim(scheme + SEPARATOR + host) == scheme + SEPARATOR + TrimRight(host) != ""
  {
    TrimCanonical(scheme, host);
    hide IsWeb;
    hide Trim;
    hide TrimRight;
  }

  /** A canonical entry is read back without the white space at its end. */
  lemma DecodeCanonical(c: string, raw: string)
    requires CanonicalOf(raw) == Good(c)
    ensures Decode(c) == [Trim(c)]
  {
    hide Decode;
    hide Trim;
    hide IsWeb;
    hide HostOk;
    DecodeTrim(c);
    TrimIsTrimmed(c);
    if c == "*" {
      TrimmedIff("*");
    } else {
      hide CanonicalOf;
      var scheme, host := CanonicalShape(raw);
      NoNewline(scheme, host);
      TrimmedCanonical(scheme, host);
    }
    DecodeStorable(Trim(c));
  }

  lemma {:induction false} ReadBackMembers(origins: seq<string>, a: string)
    requires forall c | c in origins :: Decode(c) == [Trim(c)]
    ensures a in DecodeAll(origins) <==> exists c :: c in origins && a == Trim(c)
  {
    hide Decode;
    hide Trim;
    if origins != [] {
      ReadBackMembers(origins[1..], a);
      assert origins[0] in origins;
      assert forall c :: c in origins <==> c == origins[0] || c in origins[1..];
    }
  }

  /** Each entry of a normalised list is read back, without the white space at its end. */
  lemma ReadBack(list: seq<string>, a: string)
    requires Normalize(list).Accepted?
    ensures a in Decode(Encode(Normalize(list).origins)) <==> exists c :: c in Normalize(list).origins && a == Trim(c)
  {
    hide CanonicalOf;
    hide Decode;
    hide Encode;
    hide Trim;
    var out := Normalize(list).origins;
    forall c | c in out ensures Decode(c) == [Trim(c)] {
      NormalizedMembers(list, |list|, c);
      var i :| 0 <= i < |list| && CanonicalOf(list[i]) == Good(c);
      DecodeCanonical(c, list[i]);
    }
    DecodeEncode(out);
    ReadBackMembers(out, a);
  }

  lemma TrimSettled(c: string, raw: string)
    requires CanonicalOf(raw) == Good(c)
    ensures Trim(c) == c <==> !EndsInSpace(c)
  {
    hide Trim;
    hide IsWeb;
    hide HostOk;
    TrimmedIff(c);
    if c != "*" {
      var scheme, host := CanonicalShape(raw);
      WebScheme(scheme);
      assert c[0] == scheme[0];
    }
  }

  /** Nothing that ends in white space is covered by an entry that was trimmed. */
  lemma TrimmedCoversNoSpace(scheme: string, host: string, origin: string)
    requires IsWeb(scheme) && HostOk(host) && Covers(scheme, TrimRight(host), origin)
    ensures !EndsInSpace(origin)
  {
    hide IsWeb;
    hide HostOk;
    var t := TrimRight(host);
    hide TrimRight;
    if STAR_LABEL <= t {
      if origin == scheme + SEPARATOR + t[2..] {
        assert origin[|origin| - 1] == if |t| == 2 then '/' else t[|t| - 1];
      } else {
        var x :| IsBelow(scheme, x, t[2..], origin);
        assert origin[|origin| - 1] == t[|t| - 1];
      }
    } else {
      assert origin[|origin| - 1] == if t == "" then '/' else t[|t| - 1];
    }
  }

  lemma TrimmedMatchesNoSpace(c: string, raw: string, origin: string)
    requires CanonicalOf(raw) == Good(c) && c != "*" && EndsInSpace(origin)
    ensures !MatchOne(Trim(c), origin)
  {
    hide Trim;
    hide TrimRight;
    hide IsWeb;
    hide HostOk;
    hide Covers;
    hide EndsInSpace;
    hide MatchPattern;
    hide Find;
    var scheme, host := CanonicalShape(raw);
    hide CanonicalOf;
    TrimmedCanonical(scheme, host);
    TrimmedHostOk(host);
    var t := TrimRight(host);
    if Covers(scheme, t, origin) {
      TrimmedCoversNoSpace(scheme, host, origin);
    }
    if t != "" {
      CanonicalCovers(scheme, t, origin);
    } else {
      BareSchemeMatchesNoSpace(scheme, origin);
    }
  }

  lemma BareSchemeMatchesNoSpace(scheme: string, origin: string)
    requires IsWeb(scheme) && EndsInSpace(origin)
    ensures !MatchOne(scheme + SEPARATOR + "", origin)
  {
    WildInCanonical(scheme, "");
    hide IsWeb;
    hide Find;
    var a := scheme + SEPARATOR + "";
    assert |a| > 1 && a[|a| - 1] == '/';
  }

  // ---------------------------------------------------------------------------------------
  // The gate keeps the meaning of the request list
  // ---------------------------------------------------------------------------------------

  ghost predicate AsksForAll(list: seq<string>) {
    exists raw :: raw in list && CanonicalOf(raw) == Good("*")
  }

  /** Some entry has a host that ends in white space. */
  ghost predicate Unsettled(list: seq<string>) {
    exists raw :: raw in list && CanonicalOf(raw).Good? && EndsInSpace(CanonicalOf(raw).origin)
  }

  /** The gate on a row that stores the list decides as `MatchOrigin` does on the normalised list. */
  ghost predicate Agrees(list: seq<string>, row: Token, origin: string)
    requires Normalize(list).Accepted?
  {
    VerdictOn(row, origin) == if Permitted(Normalize(list).origins, origin) then Passed(row.projectId) else Forbidden
  }

  lemma SettledIsStored(list: seq<string>)
    requires Normalize(list).Accepted? && !Unsettled(list)
    ensures Decode(Encode(Normalize(list).origins)) == Normalize(list).origins
  {
    hide CanonicalOf;
    hide Decode;
    hide Encode;
    hide Trim;
    var out := Normalize(list).origins;
    forall c | c in out ensures Storable(c) {
      NormalizedMembers(list, |list|, c);
      var i :| 0 <= i < |list| && CanonicalOf(list[i]) == Good(c);
      TrimSettled(c, list[i]);
      DecodeCanonical(c, list[i]);
      assert !EndsInSpace(c);
      DecodedIsStorable(c);
      assert Trim(c) in Decode(c);
    }
    RoundTripIff(out);
  }

  lemma StarMatchesAll(allowed: seq<string>, origin: string)
    requires "*" in allowed
    ensures AnyMatch(allowed, origin)
  {
    assert MatchOne("*", origin);
  }

  lemma StarIsStored(list: seq<string>)
    requires Normalize(list).Accepted? && AsksForAll(list)
    ensures "*" in Normalize(list).origins && "*" in Decode(Encode(Normalize(list).origins))
  {
    hide CanonicalOf;
    hide Decode;
    hide Encode;
    NormalizedMembers(list, |list|, "*");
    ReadBack(list, "*");
    TrimmedIff("*");
  }

  lemma UnsettledDisagrees(list: seq<string>, row: Token, raw: string)
    requires Normalize(list).Accepted? && !AsksForAll(list)
    requires raw in list && CanonicalOf(raw).Good? && EndsInSpace(CanonicalOf(raw).origin)
    requires row.active && row.allowedOrigins == Encode(Normalize(list).origins)
    ensures !Agrees(list, row, CanonicalOf(raw).origin)
  {
    hide CanonicalOf;
    hide Decode;
    hide Encode;
    hide Trim;
    hide EndsInSpace;
    hide MatchOne;
    var out, c := Normalize(list).origins, CanonicalOf(raw).origin;
    NormalizedMembers(list, |list|, c);
    SelfMatches(c);
    ReadBack(list, Trim(c));
    forall a | a in Decode(Encode(out)) ensures !MatchOne(a, c) {
      ReadBack(list, a);
      var e :| e in out && a == Trim(e);
      NormalizedMembers(list, |list|, e);
      var i :| 0 <= i < |list| && CanonicalOf(list[i]) == Good(e);
      TrimmedMatchesNoSpace(e, list[i], c);
    }
    assert c in out && Permitted(out, c);
    assert Trim(c) in Decode(Encode(out));
  }

  lemma SelfMatches(c: string)
    requires EndsInSpace(c)
    ensures MatchOne(c, c) && c != ""
  {
  }

  /** For every accepted list, and with the empty list meaning no restriction: the gate on the stored
      token decides about every origin as `MatchOrigin` does on the normalised list, if and only if
      the list asks for "*" or none of its hosts ends in white space. */
  lemma GateAgreesIff(list: seq<string>, row: Token)
    requires Normalize(list).Accepted?
    requires row.active && row.allowedOrigins == Encode(Normalize(list).origins)
    ensures (forall origin :: Agrees(list, row, origin)) <==> AsksForAll(list) || !Unsettled(list)
  {
    hide CanonicalOf;
    hide Decode;
    hide Encode;
    hide AnyMatch;
    hide EndsInSpace;
    if AsksForAll(list) {
      StarIsStored(list);
      forall origin ensures Agrees(list, row, origin) {
        StarMatchesAll(Normalize(list).origins, origin);
        StarMatchesAll(Decode(row.allowedOrigins), origin);
      }
    } else if Unsettled(list) {
      var raw :| raw in list && CanonicalOf(raw).Good? && EndsInSpace(CanonicalOf(raw).origin);
      UnsettledDisagrees(list, row, raw);
    } else {
      SettledIsStored(list);
    }
  }

  /** Creating a token and asking the gate about it. */
  lemma CreatedTokenGate(db: Database, id: int, token: Token, list: seq<string>, origin: string, v: Verdict)
    requires UniqueTokens(db) && id !in db.tokens && token.projectId in db.projects && !TokenTaken(db, token.token)
    requires token.token != "" && token.active
    requires Normalize(list).Accepted? && token.allowedOrigins == Encode(Normalize(list).origins)
    requires AsksForAll(list) || !Unsettled(list)
    requires Gives(WithToken(db, id, token), token.token, origin, v)
    ensures v == if Permitted(Normalize(list).origins, origin) then Passed(token.projectId) else Forbidden
  {
    hide Normalize;
    hide Encode;
    hide Decode;
    hide AnyMatch;
    hide Permitted;
    hide AsksForAll;
    hide Unsettled;
    var after := WithToken(db, id, token);
    var row := after.tokens[id];
    assert IsToken(after, id, token.token);
    GateAgreesIff(list, row);
    assert Agrees(list, row, origin);
    var t :| IsToken(after, t, token.token) && v == VerdictOn(after.tokens[t], origin);
  }

  /** Writing a row back with the origins it was read with changes no verdict but by `active`. */
  lemma OtherEditsKeepOrigins(row: Token, labelText: string, active: bool, disabledAt: Option<int>, origin: string)
    ensures var written := row.(labelText := labelText, active := active,
                                allowedOrigins := Encode(Decode(row.allowedOrigins)), disabledAt := disabledAt);
            active && row.active ==> VerdictOn(written, origin) == VerdictOn(row, origin)
  {
    hide Encode;
    hide Decode;
    DecodeEncodeDecode(row.allowedOrigins);
  }
}
