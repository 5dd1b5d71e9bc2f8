/** A token from its creation through edits to the gate, alone and along runs of interleaved edits. */
module TokenLife {
  import opened Options
  import opened Schema
  import opened Storage
  import opened TokenGate
  import opened RowWriters
  import OriginCodec
  import Origins
  import OriginMatch
  import OriginUrl
  import Console
  import P = Projects

  // ---------------------------------------------------------------------------------------
  // One request and the gate
  // ---------------------------------------------------------------------------------------

  lemma OnlyRowDecides(db: Database, tokenId: int, token: string, origin: string, v: Verdict)
    requires UniqueTokens(db) && IsToken(db, tokenId, token) && token != "" && Gives(db, token, origin, v)
    ensures v == VerdictOn(db.tokens[tokenId], origin)
  {
    hide VerdictOn;
    var t :| IsToken(db, t, token) && v == VerdictOn(db.tokens[t], origin);
  }

  lemma AddedTokenIsUnique(db: Database, after: Database, newId: int)
    requires UniqueTokens(db) && newId !in db.tokens && P.OnlyToken(db, after, newId)
    requires forall t | t in db.tokens :: db.tokens[t].token != after.tokens[newId].token
    ensures UniqueTokens(after)
  {
    assert forall t | t in after.tokens :: t == newId || t in db.tokens;
  }

  /** A token just created admits exactly what its request asked for. */
  lemma CreatedAdmits(db: Database, newId: int, projectId: int, token: string, labelText: string, list: seq<string>,
                      now: int, origin: string, v: Verdict)
    requires UniqueTokens(db) && newId !in db.tokens && token != ""
    requires AsksForAll(list) || !Unsettled(list)
    requires var Outcome(after, response) := P.CreatedAlone(db, newId, projectId, token, labelText, list, now, false);
             response == P.Created && Gives(after, token, origin, v)
    ensures v == (if (forall raw | raw in list :: OriginUrl.CanonicalOf(raw) == OriginUrl.Blank)
                     || (origin != "" && exists raw | raw in list :: OriginMatch.Asks(raw, origin))
                  then Passed(projectId) else Forbidden)
  {
    hide Origins.Normalize;
    hide OriginCodec.Encode;
    hide AsksForAll;
    hide Unsettled;
    hide VerdictOn;
    hide OriginMatch.Asks;
    hide OriginMatch.Permitted;
    P.CreateWrites(db, newId, projectId, token, labelText, list, now, false);
    var after := P.CreatedAlone(db, newId, projectId, token, labelText, list, now, false).db;
    hide P.CreatedAlone;
    AddedTokenIsUnique(db, after, newId);
    OnlyRowDecides(after, newId, token, origin, v);
    GateAgreesIff(list, after.tokens[newId]);
    assert Agrees(list, after.tokens[newId], origin);
    OriginMatch.NormalizedPermits(list, origin);
  }

  lemma EditedIsUnique(db: Database, after: Database, tokenId: int)
    requires UniqueTokens(db) && tokenId in db.tokens && P.OnlyToken(db, after, tokenId)
    requires after.tokens[tokenId].token == db.tokens[tokenId].token
    ensures UniqueTokens(after)
  {
    assert forall t | t in after.tokens :: t in db.tokens && after.tokens[t].token == db.tokens[t].token;
  }

  /** What the edit leaves for the gate. */
  lemma EditedRow(db: Database, projectId: int, tokenId: int, edit: P.TokenEdit, origin: string, v: Verdict)
    requires UniqueTokens(db) && tokenId in db.tokens && db.tokens[tokenId].token != ""
    requires var Outcome(after, response) := P.EditedAlone(db, projectId, tokenId, edit, false, false);
             response == P.Done && Gives(after, db.tokens[tokenId].token, origin, v)
    ensures var after := P.EditedAlone(db, projectId, tokenId, edit, false, false).db;
            && tokenId in after.tokens && P.Writes(db.tokens[tokenId], after.tokens[tokenId], edit)
            && v == VerdictOn(after.tokens[tokenId], origin)
  {
    hide VerdictOn;
    P.EditWrites(db, projectId, tokenId, edit, false, false);
    var after := P.EditedAlone(db, projectId, tokenId, edit, false, false).db;
    hide P.EditedAlone;
    EditedIsUnique(db, after, tokenId);
    OnlyRowDecides(after, tokenId, db.tokens[tokenId].token, origin, v);
  }

  /** After a request to disable every use of the token is answered 401; after one to enable it, and after one
      that changes its label, its list decides as before; after one that changes the list of an active token,
      the new list decides. */
  lemma EditedAdmits(db: Database, projectId: int, tokenId: int, edit: P.TokenEdit, origin: string, v: Verdict)
    requires UniqueTokens(db) && tokenId in db.tokens && db.tokens[tokenId].token != ""
    requires var Outcome(after, response) := P.EditedAlone(db, projectId, tokenId, edit, false, false);
             response == P.Done && Gives(after, db.tokens[tokenId].token, origin, v)
    ensures var row := db.tokens[tokenId];
            match edit
            case Disable(_) => v == Unauthorized
            case Enable => v == VerdictOn(row.(active := true), origin)
            case Update(_, None) => v == VerdictOn(row, origin)
            case Update(_, Some(list)) =>
              row.active && (AsksForAll(list) || !Unsettled(list)) ==>
                Origins.Normalize(list).Accepted? &&
                v == if OriginMatch.Permitted(Origins.Normalize(list).origins, origin)
                     then Passed(row.projectId) else Forbidden
  {
    hide Origins.Normalize;
    hide OriginCodec.Encode;
    hide OriginCodec.Decode;
    hide AsksForAll;
    hide Unsettled;
    hide OriginMatch.Permitted;
    hide OriginMatch.AnyMatch;
    P.EditAnswers(db, projectId, tokenId, edit, false, false);
    EditedRow(db, projectId, tokenId, edit, origin, v);
    hide P.EditedAlone;
    if edit.Update? && edit.allowedOrigins.Some? {
      var list := edit.allowedOrigins.value;
      if AsksForAll(list) || !Unsettled(list) {
        var stored := OriginCodec.Encode(Origins.Normalize(list).origins);
        var row := db.tokens[tokenId].(active := true, allowedOrigins := stored);
        GateAgreesIff(list, row);
        assert Agrees(list, row, origin);
      }
    }
  }

  // ---------------------------------------------------------------------------------------
  // Along runs
  // ---------------------------------------------------------------------------------------

  /** Every request with this token text is answered 401. */
  ghost predicate Shut(db: Database, token: string) {
    forall origin: string, v: Verdict | Gives(db, token, origin, v) :: v == Unauthorized
  }

  /** No other token has this text. */
  ghost predicate OnlyOwner(db: Database, tokenId: int, token: string) {
    forall t | t in db.tokens && db.tokens[t].token == token :: t == tokenId
  }

  predicate Spares(move: Move, tokenId: int, token: string) {
    LeavesOff(move, tokenId) && !(move.InsertToken? && move.token == token)
  }

  ghost predicate SparingRun(lib: Console.Library, s: System, states: seq<System>, moves: seq<Move>, tokenId: int,
                             token: string)
  {
    IsRun(lib, states, moves) && states[0] == s && forall i | 0 <= i < |moves| :: Spares(moves[i], tokenId, token)
  }

  /** The gate refuses the token along every run, until a request enables the token or creates one with its
      id or its text. */
  ghost predicate StaysShut(lib: Console.Library, s: System, tokenId: int, token: string) {
    forall states: seq<System>, moves: seq<Move> | SparingRun(lib, s, states, moves, tokenId, token) ::
      Shut(states[|moves|].db, token)
  }

  lemma OffIsShut(s: System, tokenId: int, token: string)
    requires Off(s, tokenId) && OnlyOwner(s.db, tokenId, token)
    ensures Shut(s.db, token)
  {
    hide OriginCodec.Decode;
  }

  lemma ActiveIsNotShut(db: Database, tokenId: int, token: string)
    requires IsToken(db, tokenId, token) && token != "" && db.tokens[tokenId].active
    ensures !Shut(db, token)
  {
    hide OriginCodec.Decode;
    var v := VerdictOn(db.tokens[tokenId], "");
    assert Gives(db, token, "", v) && v != Unauthorized;
  }

  lemma MoveKeepsOwner(lib: Console.Library, s: System, move: Move, tokenId: int, token: string)
    requires Enabled(s, move) && OnlyOwner(s.db, tokenId, token) && Spares(move, tokenId, token)
    ensures OnlyOwner(Next(lib, s, move).db, tokenId, token)
  {
    hide Origins.Normalize;
    hide P.Edited;
    hide Apply;
    hide Console.Edited;
    hide OriginCodec.Encode;
    if move.Run? {
      TokensShrink(s.db, move.cmd);
    }
  }

  lemma {:induction false} RunKeepsOwner(lib: Console.Library, states: seq<System>, moves: seq<Move>, n: nat,
                                         tokenId: int, token: string)
    requires IsRun(lib, states, moves) && n < |states|
    requires OnlyOwner(states[0].db, tokenId, token)
    requires forall i | 0 <= i < n :: Spares(moves[i], tokenId, token)
    ensures OnlyOwner(states[n].db, tokenId, token)
  {
    hide Enabled;
    hide Next;
    hide OnlyOwner;
    hide Spares;
    if n > 0 {
      RunKeepsOwner(lib, states, moves, n - 1, tokenId, token);
      assert Follows(lib, states[n - 1], moves[n - 1], states[n]);
      MoveKeepsOwner(lib, states[n - 1], moves[n - 1], tokenId, token);
    }
  }

  /** A stored token is refused along every run, whatever else is edited, until a request enables it, if and
      only if it is disabled and no copy in flight holds it enabled. */
  lemma RefusedStaysIff(lib: Console.Library, s: System, tokenId: int, token: string)
    requires IsToken(s.db, tokenId, token) && token != "" && UniqueTokens(s.db)
    ensures StaysShut(lib, s, tokenId, token) <==> Off(s, tokenId)
  {
    hide Next;
    hide Enabled;
    hide Shut;
    assert OnlyOwner(s.db, tokenId, token);
    if Off(s, tokenId) {
      forall states: seq<System>, moves: seq<Move> | SparingRun(lib, s, states, moves, tokenId, token)
        ensures Shut(states[|moves|].db, token)
      {
        RunKeepsOff(lib, states, moves, |moves|, tokenId);
        RunKeepsOwner(lib, states, moves, |moves|, tokenId, token);
        OffIsShut(states[|moves|], tokenId, token);
      }
    } else if s.db.tokens[tokenId].active {
      ActiveIsNotShut(s.db, tokenId, token);
      assert SparingRun(lib, s, [s], [], tokenId, token);
    } else {
      var r :| r in s.tokenCopies && s.tokenCopies[r].id == tokenId && s.tokenCopies[r].active;
      StaleCopyOpens(lib, s, tokenId, r);
      var states, moves := [s, Next(lib, s, WriteToken(r, false))], [WriteToken(r, false)];
      ActiveIsNotShut(states[1].db, tokenId, token);
      assert Follows(lib, s, moves[0], states[1]);
      assert SparingRun(lib, s, states, moves, tokenId, token);
    }
  }

  lemma StaleCopyOpens(lib: Console.Library, s: System, tokenId: int, r: int)
    requires tokenId in s.db.tokens
    requires r in s.tokenCopies && s.tokenCopies[r].id == tokenId && s.tokenCopies[r].active
    ensures Enabled(s, WriteToken(r, false))
    ensures var after := Next(lib, s, WriteToken(r, false));
            IsToken(after.db, tokenId, s.db.tokens[tokenId].token) && after.db.tokens[tokenId].active
  {
  }
}
