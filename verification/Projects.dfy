/** The handlers that create and edit tokens.  Each edit reads a row, changes the copy and writes it
    back, with no lock in between. */
module Projects {
  import opened Options
  import opened Schema
  import opened Storage
  import Origins
  import OriginCodec

  datatype TokenResponse = Created | Done | NotFound | BadRequest | InternalError

  /** What one handler does to the copy it read. */
  datatype TokenEdit =
    | Update(labelText: Option<string>, allowedOrigins: Option<seq<string>>)
    | Disable(now: int)
    | Enable

  /** The copy to write back; None when the request is refused. */
  function Edited(t: ProjectToken, edit: TokenEdit): Option<ProjectToken> {
    match edit
    case Disable(now) => Some(t.(active := false, disabledAt := Some(now)))
    case Enable => Some(t.(active := true, disabledAt := None))
    case Update(labelText, allowedOrigins) =>
      var relabelled := if labelText.Some? then t.(labelText := labelText.value) else t;
      if allowedOrigins.None? then Some(relabelled)
      else
        match Origins.Normalize(allowedOrigins.value)
        case Refused(_) => None
        case Accepted(origins) => Some(relabelled.(allowedOrigins := origins))
  }

  /** The database after a copy is written back. */
  function Written(db: Database, t: ProjectToken): Database {
    WithTokenUpdate(db, t.id, t.labelText, t.active, OriginCodec.Encode(t.allowedOrigins), t.disabledAt)
  }

  ghost predicate Listed(db: Database, projectId: int, tokenId: int) {
    tokenId in db.tokens && db.tokens[tokenId].projectId == projectId
  }

  datatype Outcome = Outcome(db: Database, response: TokenResponse)

  /** A whole edit with no other request in between. */
  ghost function EditedAlone(db: Database, projectId: int, tokenId: int, edit: TokenEdit, listFails: bool,
                             writeFails: bool): Outcome
  {
    if listFails then Outcome(db, InternalError)
    else if !Listed(db, projectId, tokenId) then Outcome(db, NotFound)
    else
      match Edited(ViewOf(tokenId, db.tokens[tokenId]), edit)
      case None => Outcome(db, BadRequest)
      case Some(t) => if writeFails then Outcome(db, InternalError) else Outcome(Written(db, t), Done)
  }

  /** The row that `CreateToken` asks the store to insert. */
  function NewToken(projectId: int, token: string, labelText: string, origins: seq<string>, now: int): Token {
    Token(projectId, token, labelText, true, OriginCodec.Encode(origins), now, None)
  }

  ghost function CreatedAlone(db: Database, newId: int, projectId: int, token: string, labelText: string,
                              list: seq<string>, now: int, fails: bool): Outcome
  {
    match Origins.Normalize(list)
    case Refused(_) => Outcome(db, BadRequest)
    case Accepted(origins) =>
      if fails || projectId !in db.projects || TokenTaken(db, token) then Outcome(db, InternalError)
      else Outcome(WithToken(db, newId, NewToken(projectId, token, labelText, origins, now)), Created)
  }

  // ---------------------------------------------------------------------------------------
  // What a success writes, column by column
  // ---------------------------------------------------------------------------------------

  /** The two databases differ at most in this token. */
  ghost predicate OnlyToken(db: Database, after: Database, tokenId: int) {
    && after == db.(tokens := after.tokens) && after.tokens.Keys == db.tokens.Keys + {tokenId}
    && forall t | t in db.tokens && t != tokenId :: after.tokens[t] == db.tokens[t]
  }

  /** The label is the one given, if any; the origins are those of the list given, if any; active and the time
      of disabling change with a request to enable or disable; the other columns stay. */
  ghost predicate Writes(a: Token, b: Token, edit: TokenEdit) {
    && b.projectId == a.projectId && b.token == a.token && b.createdAt == a.createdAt
    && b.labelText == (if edit.Update? && edit.labelText.Some? then edit.labelText.value else a.labelText)
    && b.active == (edit.Enable? || (a.active && !edit.Disable?))
    && b.disabledAt == (if edit.Disable? then Some(edit.now) else if edit.Enable? then None else a.disabledAt)
    && OriginCodec.Decode(b.allowedOrigins) ==
       if edit.Update? && edit.allowedOrigins.Some? && Origins.Normalize(edit.allowedOrigins.value).Accepted?
       then OriginCodec.Decode(OriginCodec.Encode(Origins.Normalize(edit.allowedOrigins.value).origins))
       else OriginCodec.Decode(a.allowedOrigins)
  }

  lemma RowWrites(row: Token, tokenId: int, edit: TokenEdit, t: ProjectToken)
    requires Edited(ViewOf(tokenId, row), edit) == Some(t)
    ensures t.id == tokenId
    ensures Writes(row, row.(labelText := t.labelText, active := t.active,
                             allowedOrigins := OriginCodec.Encode(t.allowedOrigins), disabledAt := t.disabledAt), edit)
  {
    hide Origins.Normalize;
    hide OriginCodec.Encode;
    hide OriginCodec.Decode;
    OriginCodec.DecodeEncodeDecode(row.allowedOrigins);
  }

  lemma EditWrites(db: Database, projectId: int, tokenId: int, edit: TokenEdit, listFails: bool, writeFails: bool)
    requires EditedAlone(db, projectId, tokenId, edit, listFails, writeFails).response == Done
    ensures var after := EditedAlone(db, projectId, tokenId, edit, listFails, writeFails).db;
            && tokenId in db.tokens && db.tokens[tokenId].projectId == projectId && OnlyToken(db, after, tokenId)
            && Writes(db.tokens[tokenId], after.tokens[tokenId], edit)
  {
    hide Edited;
    hide ViewOf;
    hide Writes;
    hide OriginCodec.Encode;
    var t := Edited(ViewOf(tokenId, db.tokens[tokenId]), edit).value;
    RowWrites(db.tokens[tokenId], tokenId, edit, t);
  }

  /** When each of the answers is given, and that nothing is written but with a success. */
  lemma EditAnswers(db: Database, projectId: int, tokenId: int, edit: TokenEdit, listFails: bool, writeFails: bool)
    ensures var Outcome(after, response) := EditedAlone(db, projectId, tokenId, edit, listFails, writeFails);
            var known := !listFails && tokenId in db.tokens && db.tokens[tokenId].projectId == projectId;
            var bad := edit.Update? && edit.allowedOrigins.Some?
                       && Origins.Normalize(edit.allowedOrigins.value).Refused?;
            && (response == Done <==> known && !bad && !writeFails)
            && (response == NotFound <==> !listFails && !known)
            && (response == BadRequest <==> known && bad)
            && (response == InternalError <==> listFails || (known && !bad && writeFails))
            && (response != Done ==> after == db)
  {
    hide Origins.Normalize;
  }

  /** A created token is active, with the columns given and the origins of the list. */
  lemma CreateWrites(db: Database, newId: int, projectId: int, token: string, labelText: string, list: seq<string>,
                     now: int, fails: bool)
    requires newId !in db.tokens
    ensures var Outcome(after, response) := CreatedAlone(db, newId, projectId, token, labelText, list, now, fails);
            var good := Origins.Normalize(list).Accepted?;
            && (response == Created <==>
                good && !fails && projectId in db.projects && forall t | t in db.tokens :: db.tokens[t].token != token)
            && (response == BadRequest <==> !good)
            && (response == Created || response == BadRequest || response == InternalError)
            && (response != Created ==> after == db)
            && (response == Created ==>
                  && OnlyToken(db, after, newId)
                  && var b := after.tokens[newId];
                     && b.projectId == projectId && b.token == token && b.labelText == labelText && b.active
                     && b.createdAt == now && b.disabledAt == None
                     && b.allowedOrigins == OriginCodec.Encode(Origins.Normalize(list).origins))
  {
    hide Origins.Normalize;
    hide OriginCodec.Encode;
  }

  class ProjectsHandler {
    const store: Store

    constructor (store: Store)
      ensures this.store == store
    {
      this.store := store;
    }

    method FindToken(projectId: int, tokenId: int, fails: bool) returns (r: TokenResponse, found: Option<ProjectToken>)
      ensures found.Some? <==> !fails && Listed(store.DB(), projectId, tokenId)
      ensures found.Some? ==> found.value == ViewOf(tokenId, store.tokens[tokenId])
      ensures found.None? ==> r == if fails then InternalError else NotFound
    {
      hide ViewOf;
      var listed := store.ListProjectTokens(projectId, fails);
      if listed.None? {
        return InternalError, None;
      }
      var tokens := listed.value;
      for i := 0 to |tokens|
        invariant forall j | 0 <= j < i :: tokens[j].id != tokenId
      {
        if tokens[i].id == tokenId {
          assert tokens[i] in tokens;
          return Done, Some(tokens[i]);
        }
      }
      assert Listed(store.DB(), projectId, tokenId) ==> ViewOf(tokenId, store.tokens[tokenId]) in tokens;
      return NotFound, None;
    }

    /** `token` is the generated secret; `newId` the id that the database gives the row. */
    method CreateToken(projectId: int, token: string, labelText: string, list: seq<string>, newId: int, now: int,
                       fails: bool)
      returns (r: TokenResponse)
      requires newId !in store.tokens
      modifies store`tokens
      ensures Outcome(store.DB(), r)
              == CreatedAlone(old(store.DB()), newId, projectId, token, labelText, list, now, fails)
    {
      hide Origins.Normalize;
      hide OriginCodec.Encode;
      var normal := Origins.NormalizeOrigins(list);
      if normal.Refused? {
        return BadRequest;
      }
      var row := ProjectToken(0, projectId, token, labelText, true, normal.origins, 0, None);
      var ok := store.CreateProjectToken(newId, row, now, fails);
      return if ok then Created else InternalError;
    }

    method UpdateToken(projectId: int, tokenId: int, labelText: Option<string>, list: Option<seq<string>>,
                       listFails: bool, writeFails: bool) returns (r: TokenResponse)
      modifies store`tokens
      ensures Outcome(store.DB(), r)
              == EditedAlone(old(store.DB()), projectId, tokenId, Update(labelText, list), listFails, writeFails)
    {
      hide Origins.Normalize;
      hide ViewOf;
      hide OriginCodec.Encode;
      var found;
      r, found := FindToken(projectId, tokenId, listFails);
      if found.None? {
        return;
      }
      var t := found.value;
      if labelText.Some? {
        t := t.(labelText := labelText.value);
      }
      if list.Some? {
        var normal := Origins.NormalizeOrigins(list.value);
        if normal.Refused? {
          return BadRequest;
        }
        t := t.(allowedOrigins := normal.origins);
      }
      var ok := store.UpdateProjectToken(t, writeFails);
      return if ok then Done else InternalError;
    }

    method DisableToken(projectId: int, tokenId: int, now: int, listFails: bool, writeFails: bool)
      returns (r: TokenResponse)
      modifies store`tokens
      ensures Outcome(store.DB(), r)
              == EditedAlone(old(store.DB()), projectId, tokenId, Disable(now), listFails, writeFails)
    {
      hide ViewOf;
      hide OriginCodec.Encode;
      var found;
      r, found := FindToken(projectId, tokenId, listFails);
      if found.None? {
        return;
      }
      var t := found.value.(active := false, disabledAt := Some(now));
      var ok := store.UpdateProjectToken(t, writeFails);
      return if ok then Done else InternalError;
    }

    method EnableToken(projectId: int, tokenId: int, listFails: bool, writeFails: bool) returns (r: TokenResponse)
      modifies store`tokens
      ensures Outcome(store.DB(), r) == EditedAlone(old(store.DB()), projectId, tokenId, Enable, listFails, writeFails)
    {
      hide ViewOf;
      hide OriginCodec.Encode;
      var found;
      r, found := FindToken(projectId, tokenId, listFails);
      if found.None? {
        return;
      }
      var t := found.value.(active := true, disabledAt := None);
      var ok := store.UpdateProjectToken(t, writeFails);
      return if ok then Done else InternalError;
    }
  }
}
