/** Runs of the handlers that read a whole row, change the copy, and write the whole row back.
    Nothing is locked: between the read and the write any other request may run, and copies that are
    still to be written may be stale. */
module RowWriters {
  import opened Options
  import opened Schema
  import opened Storage
  import C = Console
  import P = Projects
  import Origins
  import Auth

  /** A console user's row, read and edited but not yet written. */
  datatype UserCopy = UserCopy(id: int, user: C.ConsoleUser)

  /** Copies are held by the requests that read them. */
  datatype System = System(db: Database, users: C.Table, tokenCopies: map<int, ProjectToken>,
                           userCopies: map<int, UserCopy>)

  datatype Move =
    | ReadToken(request: int, projectId: int, tokenId: int, tokenEdit: P.TokenEdit)
    | WriteToken(request: int, fails: bool)
    | InsertToken(newId: int, projectId: int, token: string, labelText: string, list: seq<string>, now: int)
    /** A statement that no token edit runs. */
    | Run(cmd: Command)
    | ReadUser(request: int, id: int, edit: C.UserEdit)
    | WriteUser(request: int, fails: bool)
    | InsertUser(newId: int, username: string, email: Option<string>, hash: string, role: C.Role)
    | RemoveUser(id: int)

  predicate Enabled(s: System, move: Move) {
    match move
    case ReadToken(request, _, _, _) => request !in s.tokenCopies
    case WriteToken(request, _) => request in s.tokenCopies
    case InsertToken(newId, _, _, _, _, _) => newId !in s.db.tokens
    case Run(cmd) => !cmd.CreateToken? && !cmd.UpdateToken? && FreshId(s.db, cmd)
    case ReadUser(request, _, _) => request !in s.userCopies
    case WriteUser(request, _) => request in s.userCopies
    case InsertUser(newId, _, _, _, _) => newId !in s.users
    case RemoveUser(_) => true
  }

  ghost function TokenRead(s: System, move: Move): System
    requires move.ReadToken?
  {
    if !P.Listed(s.db, move.projectId, move.tokenId) then s
    else
      match P.Edited(ViewOf(move.tokenId, s.db.tokens[move.tokenId]), move.tokenEdit)
      case None => s
      case Some(t) => s.(tokenCopies := s.tokenCopies[move.request := t])
  }

  ghost function TokenWritten(s: System, move: Move): System
    requires move.WriteToken? && Enabled(s, move)
  {
    var t := s.tokenCopies[move.request];
    s.(tokenCopies := s.tokenCopies - {move.request}, db := if move.fails then s.db else P.Written(s.db, t))
  }

  ghost function TokenInserted(s: System, move: Move): System
    requires move.InsertToken?
  {
    s.(db := P.CreatedAlone(s.db, move.newId, move.projectId, move.token, move.labelText, move.list,
                              move.now, false).db)
  }

  ghost function UserRead(lib: C.Library, s: System, move: Move): System
    requires move.ReadUser?
  {
    if move.id !in s.users then s
    else
      match C.Edited(lib, s.users[move.id], move.edit)
      case Stop(_) => s
      case Copy(u) => s.(userCopies := s.userCopies[move.request := UserCopy(move.id, u)])
  }

  ghost function UserWritten(s: System, move: Move): System
    requires move.WriteUser? && Enabled(s, move)
  {
    var c := s.userCopies[move.request];
    s.(userCopies := s.userCopies - {move.request},
       users := if move.fails then s.users else C.WithUserUpdate(s.users, c.id, c.user))
  }

  ghost function Next(lib: C.Library, s: System, move: Move): System
    requires Enabled(s, move)
  {
    match move
    case ReadToken(_, _, _, _) => TokenRead(s, move)
    case WriteToken(_, _) => TokenWritten(s, move)
    case InsertToken(_, _, _, _, _, _) => TokenInserted(s, move)
    case Run(cmd) => s.(db := Apply(s.db, cmd))
    case ReadUser(_, _, _) => UserRead(lib, s, move)
    case WriteUser(_, _) => UserWritten(s, move)
    case InsertUser(newId, username, email, hash, role) =>
      s.(users := C.WithUser(s.users, newId, C.NewUser(username, email, hash, role)))
    case RemoveUser(id) => s.(users := s.users - {id})
  }

  ghost predicate Follows(lib: C.Library, s: System, move: Move, t: System) {
    Enabled(s, move) && t == Next(lib, s, move)
  }

  ghost predicate IsRun(lib: C.Library, states: seq<System>, moves: seq<Move>) {
    |states| == |moves| + 1 && forall i | 0 <= i < |moves| :: Follows(lib, states[i], moves[i], states[i + 1])
  }

  // ---------------------------------------------------------------------------------------
  // Row invariants
  // ---------------------------------------------------------------------------------------

  /** A token is active exactly when it has no time of disabling. */
  ghost predicate TokensSound(s: System) {
    && (forall t | t in s.db.tokens :: s.db.tokens[t].active <==> s.db.tokens[t].disabledAt.None?)
    && (forall r | r in s.tokenCopies :: s.tokenCopies[r].active <==> s.tokenCopies[r].disabledAt.None?)
  }

  predicate HasSecret(u: C.ConsoleUser) {
    u.totpEnabled ==> u.totpSecret.Some?
  }

  /** UNIQUE and CHECK of the table of console users. */
  ghost predicate UniqueLogins(users: C.Table) {
    forall i | i in users :: C.CanStore(users, i, users[i])
  }

  ghost predicate CopiesHaveRoles(s: System) {
    forall r | r in s.userCopies :: !s.userCopies[r].user.role.OtherRole?
  }

  /** A user whose second factor is on has a secret. */
  ghost predicate UsersSound(s: System) {
    && CopiesHaveRoles(s)
    && (forall i | i in s.users :: HasSecret(s.users[i]))
    && (forall r | r in s.userCopies :: HasSecret(s.userCopies[r].user))
    && UniqueLogins(s.users)
  }

  lemma EditKeepsSound(t: ProjectToken, edit: P.TokenEdit)
    requires t.active <==> t.disabledAt.None?
    ensures P.Edited(t, edit).Some? ==> (P.Edited(t, edit).value.active <==> P.Edited(t, edit).value.disabledAt.None?)
  {
    hide Origins.Normalize;
  }

  lemma EditKeepsOff(t: ProjectToken, edit: P.TokenEdit)
    ensures P.Edited(t, edit).Some? ==> P.Edited(t, edit).value.id == t.id
    ensures P.Edited(t, edit).Some? && !edit.Enable? && !t.active ==> !P.Edited(t, edit).value.active
  {
    hide Origins.Normalize;
  }

  lemma TokenReadKeepsSound(s: System, move: Move)
    requires move.ReadToken? && TokensSound(s)
    ensures TokensSound(TokenRead(s, move))
  {
    hide P.Edited;
    if P.Listed(s.db, move.projectId, move.tokenId) {
      EditKeepsSound(ViewOf(move.tokenId, s.db.tokens[move.tokenId]), move.tokenEdit);
    }
  }

  lemma TokenWriteKeepsSound(s: System, move: Move)
    requires move.WriteToken? && Enabled(s, move) && TokensSound(s)
    ensures TokensSound(TokenWritten(s, move))
  {
  }

  lemma TokenInsertKeepsSound(s: System, move: Move)
    requires move.InsertToken? && TokensSound(s)
    ensures TokensSound(TokenInserted(s, move))
  {
    hide Origins.Normalize;
    hide TokenTaken;
  }

  lemma TokenMoveKeepsSound(lib: C.Library, s: System, move: Move)
    requires Enabled(s, move) && TokensSound(s)
    ensures TokensSound(Next(lib, s, move))
  {
    hide TokenRead;
    hide TokenWritten;
    hide TokenInserted;
    hide Apply;
    match move
    case ReadToken(_, _, _, _) => TokenReadKeepsSound(s, move);
    case WriteToken(_, _) => TokenWriteKeepsSound(s, move);
    case InsertToken(_, _, _, _, _, _) => TokenInsertKeepsSound(s, move);
    case Run(cmd) => TokensShrink(s.db, cmd);
    case _ =>
  }

  lemma RoleOfUser(users: C.Table, id: int)
    requires UniqueLogins(users) && id in users
    ensures !users[id].role.OtherRole?
  {
    assert C.CanStore(users, id, users[id]);
  }

  lemma UpdateKeepsUnique(users: C.Table, id: int, u: C.ConsoleUser)
    requires UniqueLogins(users) && C.CanStore(users, id, u)
    ensures UniqueLogins(users[id := u])
  {
    var after := users[id := u];
    forall i | i in after ensures C.CanStore(after, i, after[i]) {
      if i != id {
        assert C.CanStore(users, i, users[i]);
      }
    }
  }

  lemma RemoveKeepsUnique(users: C.Table, id: int)
    requires UniqueLogins(users)
    ensures UniqueLogins(users - {id})
  {
    var after := users - {id};
    forall i | i in after ensures C.CanStore(after, i, after[i]) {
      assert C.CanStore(users, i, users[i]);
    }
  }

  lemma UserMoveKeepsSound(lib: C.Library, s: System, move: Move)
    requires Enabled(s, move) && UsersSound(s)
    ensures UsersSound(Next(lib, s, move))
  {
    hide C.CanStore;
    hide UniqueLogins;
    match move
    case ReadUser(request, id, edit) =>
      if id in s.users {
        RoleOfUser(s.users, id);
      }
    case WriteUser(request, _) =>
      var c := s.userCopies[request];
      if C.CanStore(s.users, c.id, c.user) {
        UpdateKeepsUnique(s.users, c.id, c.user);
      }
    case InsertUser(newId, username, email, hash, role) =>
      var u := C.NewUser(username, email, hash, role);
      if C.CanStore(s.users, newId, u) {
        UpdateKeepsUnique(s.users, newId, u);
      }
    case RemoveUser(id) => RemoveKeepsUnique(s.users, id);
    case _ =>
  }

  /** In every run from a sound state, such as that of a restart on a database of earlier runs, whatever
      copies are in flight and however stale they are: a token is active exactly when it has no time of
      disabling, every user whose second factor is on has a secret, and user names, emails and roles
      meet the constraints of their table. */
  lemma {:induction false} RunKeepsSound(lib: C.Library, states: seq<System>, moves: seq<Move>, n: nat)
    requires IsRun(lib, states, moves) && n < |states|
    requires TokensSound(states[0]) && UsersSound(states[0])
    ensures TokensSound(states[n]) && UsersSound(states[n])
  {
    hide Enabled;
    hide Next;
    hide TokensSound;
    hide UsersSound;
    if n > 0 {
      RunKeepsSound(lib, states, moves, n - 1);
      assert Follows(lib, states[n - 1], moves[n - 1], states[n]);
      TokenMoveKeepsSound(lib, states[n - 1], moves[n - 1]);
      UserMoveKeepsSound(lib, states[n - 1], moves[n - 1]);
    }
  }

  /** Stopping the server drops the copies in flight and keeps the tables. */
  lemma RestartIsSound(s: System)
    requires TokensSound(s) && UsersSound(s)
    ensures TokensSound(s.(tokenCopies := map[], userCopies := map[]))
    ensures UsersSound(s.(tokenCopies := map[], userCopies := map[]))
  {
  }

  /** So in every state of a run a user whose second factor is on logs in only with a code that is
      valid for the stored secret, and only when the tracker lets the attempt through. */
  lemma SecondFactorHolds(lib: C.Library, states: seq<System>, moves: seq<Move>, n: nat, id: int,
                          password: string, code: string, allowed: bool, signed: bool)
    requires IsRun(lib, states, moves) && n < |states|
    requires TokensSound(states[0]) && UsersSound(states[0])
    requires id in states[n].users && states[n].users[id].totpEnabled
    requires Auth.LoginOn(lib, C.Found(id, states[n].users[id]), password, code, allowed, signed).LoggedIn?
    ensures states[n].users[id].totpSecret.Some? && lib.validCode(states[n].users[id].totpSecret.value, code)
    ensures allowed && lib.checkPassword(states[n].users[id].passwordHash, password)
  {
    RunKeepsSound(lib, states, moves, n);
    hide Enabled;
    hide Next;
    assert HasSecret(states[n].users[id]);
  }

  // ---------------------------------------------------------------------------------------
  // A disabled token
  // ---------------------------------------------------------------------------------------

  /** The token is disabled or gone, and no copy in flight would enable it. */
  ghost predicate Off(s: System, tokenId: int) {
    && (tokenId in s.db.tokens ==> !s.db.tokens[tokenId].active)
    && (forall r | r in s.tokenCopies && s.tokenCopies[r].id == tokenId :: !s.tokenCopies[r].active)
  }

  /** The request neither enables the token nor gives its id to a new one. */
  predicate LeavesOff(move: Move, tokenId: int) {
    && !(move.ReadToken? && move.tokenId == tokenId && move.tokenEdit.Enable?)
    && !(move.InsertToken? && move.newId == tokenId)
  }

  lemma MoveKeepsOff(lib: C.Library, s: System, move: Move, tokenId: int)
    requires Enabled(s, move) && Off(s, tokenId) && LeavesOff(move, tokenId)
    ensures Off(Next(lib, s, move), tokenId)
  {
    hide Origins.Normalize;
    hide P.Edited;
    hide Apply;
    match move
    case ReadToken(_, projectId, id, edit) =>
      if P.Listed(s.db, projectId, id) {
        EditKeepsOff(ViewOf(id, s.db.tokens[id]), edit);
      }
    case Run(cmd) => TokensShrink(s.db, cmd);
    case _ =>
  }

  lemma {:induction false} RunKeepsOff(lib: C.Library, states: seq<System>, moves: seq<Move>, n: nat, tokenId: int)
    requires IsRun(lib, states, moves) && n < |states|
    requires Off(states[0], tokenId)
    requires forall i | 0 <= i < n :: LeavesOff(moves[i], tokenId)
    ensures Off(states[n], tokenId)
  {
    hide Enabled;
    hide Next;
    hide Off;
    hide LeavesOff;
    if n > 0 {
      RunKeepsOff(lib, states, moves, n - 1, tokenId);
      assert Follows(lib, states[n - 1], moves[n - 1], states[n]);
      MoveKeepsOff(lib, states[n - 1], moves[n - 1], tokenId);
    }
  }

  /** No run from here enables the token without a request to. */
  ghost predicate StaysOff(lib: C.Library, s: System, tokenId: int) {
    forall states: seq<System>, moves: seq<Move> | RunLeavingOff(lib, s, states, moves, tokenId) ::
      tokenId in states[|moves|].db.tokens ==> !states[|moves|].db.tokens[tokenId].active
  }

  ghost predicate RunLeavingOff(lib: C.Library, s: System, states: seq<System>, moves: seq<Move>, tokenId: int) {
    IsRun(lib, states, moves) && states[0] == s && forall i | 0 <= i < |moves| :: LeavesOff(moves[i], tokenId)
  }

  /** A stored token stays disabled along every run, whatever else is edited, until a request enables
      it, if and only if it is disabled and no copy in flight holds it enabled. */
  lemma DisabledStaysIff(lib: C.Library, s: System, tokenId: int)
    requires tokenId in s.db.tokens
    ensures StaysOff(lib, s, tokenId) <==> Off(s, tokenId)
  {
    hide Next;
    hide Enabled;
    hide LeavesOff;
    if Off(s, tokenId) {
      forall states: seq<System>, moves: seq<Move> | RunLeavingOff(lib, s, states, moves, tokenId)
        ensures tokenId in states[|moves|].db.tokens ==> !states[|moves|].db.tokens[tokenId].active
      {
        RunKeepsOff(lib, states, moves, |moves|, tokenId);
      }
    } else if s.db.tokens[tokenId].active {
      assert RunLeavingOff(lib, s, [s], [], tokenId);
    } else {
      var r :| r in s.tokenCopies && s.tokenCopies[r].id == tokenId && s.tokenCopies[r].active;
      StaleCopyEnables(lib, s, tokenId, r);
      var states, moves := [s, Next(lib, s, WriteToken(r, false))], [WriteToken(r, false)];
      assert Follows(lib, s, moves[0], states[1]);
      assert RunLeavingOff(lib, s, states, moves, tokenId);
    }
  }

  lemma StaleCopyEnables(lib: C.Library, s: System, tokenId: int, r: int)
    requires tokenId in s.db.tokens
    requires r in s.tokenCopies && s.tokenCopies[r].id == tokenId && s.tokenCopies[r].active
    ensures Enabled(s, WriteToken(r, false)) && LeavesOff(WriteToken(r, false), tokenId)
    ensures var after := Next(lib, s, WriteToken(r, false));
            tokenId in after.db.tokens && after.db.tokens[tokenId].active
  {
  }

  /** Such copies do arise: from any state with an active token, a request that relabels it and one that
      disables it can interleave so that the token is disabled and, without a request to enable it, is
      active again afterwards. */
  lemma StaleWriteReenables(lib: C.Library, s: System, tokenId: int, a: int, b: int, labelText: string, now: int)
    returns (states: seq<System>, moves: seq<Move>)
    requires tokenId in s.db.tokens && s.db.tokens[tokenId].active
    requires a != b && a !in s.tokenCopies && b !in s.tokenCopies
    ensures IsRun(lib, states, moves) && |moves| == 4 && states[0] == s
    ensures forall i | 0 <= i < 4 :: LeavesOff(moves[i], tokenId)
    ensures tokenId in states[3].db.tokens && !states[3].db.tokens[tokenId].active
    ensures tokenId in states[4].db.tokens && states[4].db.tokens[tokenId].active
  {
    hide Apply;
    var row := s.db.tokens[tokenId];
    var view := ViewOf(tokenId, row);
    var update, disable := P.Update(Some(labelText), None), P.Disable(now);
    moves := [ReadToken(a, row.projectId, tokenId, update), ReadToken(b, row.projectId, tokenId, disable),
              WriteToken(b, false), WriteToken(a, false)];
    var relabelled, disabled := view.(labelText := labelText), view.(active := false, disabledAt := Some(now));
    assert P.Edited(view, update) == Some(relabelled) && P.Edited(view, disable) == Some(disabled);
    var s1 := s.(tokenCopies := s.tokenCopies[a := relabelled]);
    var s2 := s1.(tokenCopies := s1.tokenCopies[b := disabled]);
    var s3 := s2.(tokenCopies := s2.tokenCopies - {b}, db := P.Written(s2.db, disabled));
    var s4 := s3.(tokenCopies := s3.tokenCopies - {a}, db := P.Written(s3.db, relabelled));
    hide ViewOf;
    hide P.Edited;
    states := [s, s1, s2, s3, s4];
    assert Follows(lib, s, moves[0], s1);
    assert Follows(lib, s1, moves[1], s2);
    assert Follows(lib, s2, moves[2], s3);
    assert Follows(lib, s3, moves[3], s4);
  }

  // ---------------------------------------------------------------------------------------
  // What the row of a console user keeps
  // ---------------------------------------------------------------------------------------

  /** Something that a row says: the second factor is on, the secret, the password or the role is this one. */
  datatype Aspect = FactorOn | SecretIs(secret: string) | PasswordIs(hash: string) | RoleIs(role: C.Role)

  predicate Shows(u: C.ConsoleUser, aspect: Aspect) {
    match aspect
    case FactorOn => u.totpEnabled
    case SecretIs(secret) => u.totpSecret == Some(secret)
    case PasswordIs(hash) => u.passwordHash == hash
    case RoleIs(role) => u.role == role
  }

  /** The requests that are there to change it. */
  predicate Changes(edit: C.UserEdit, aspect: Aspect) {
    match aspect
    case FactorOn => edit.DisableTotp? || edit.ResetAdmin?
    case SecretIs(_) => edit.SetupTotp? || edit.DisableTotp? || edit.ResetAdmin?
    case PasswordIs(_) => edit.ChangePassword? || edit.ResetAdmin?
    case RoleIs(_) => edit.Profile? && edit.role.Some?
  }

  /** The row of the user, unless the user is gone, and all its copies in flight show the aspect. */
  ghost predicate Shown(s: System, id: int, aspect: Aspect) {
    && (id in s.users ==> Shows(s.users[id], aspect))
    && (forall r | r in s.userCopies && s.userCopies[r].id == id :: Shows(s.userCopies[r].user, aspect))
  }

  /** The request is not there to change the aspect, and does not give the id to a new user. */
  predicate Leaves(move: Move, id: int, aspect: Aspect) {
    && !(move.ReadUser? && move.id == id && Changes(move.edit, aspect))
    && !(move.InsertUser? && move.newId == id)
  }

  lemma EditKeepsAspect(lib: C.Library, u: C.ConsoleUser, edit: C.UserEdit, aspect: Aspect)
    requires Shows(u, aspect) && !Changes(edit, aspect) && C.Edited(lib, u, edit).Copy?
    ensures Shows(C.Edited(lib, u, edit).user, aspect)
  {
  }

  lemma MoveKeepsShown(lib: C.Library, s: System, move: Move, id: int, aspect: Aspect)
    requires Enabled(s, move) && Shown(s, id, aspect) && Leaves(move, id, aspect)
    ensures Shown(Next(lib, s, move), id, aspect)
  {
    hide C.CanStore;
    hide C.Edited;
    hide Shows;
    hide Changes;
    if move.ReadUser? && move.id == id && id in s.users && C.Edited(lib, s.users[id], move.edit).Copy? {
      EditKeepsAspect(lib, s.users[id], move.edit, aspect);
    }
  }

  lemma {:induction false} RunKeepsShown(lib: C.Library, states: seq<System>, moves: seq<Move>, n: nat, id: int,
                                         aspect: Aspect)
    requires IsRun(lib, states, moves) && n < |states|
    requires Shown(states[0], id, aspect)
    requires forall i | 0 <= i < n :: Leaves(moves[i], id, aspect)
    ensures Shown(states[n], id, aspect)
  {
    hide Enabled;
    hide Next;
    hide Shown;
    hide Leaves;
    if n > 0 {
      RunKeepsShown(lib, states, moves, n - 1, id, aspect);
      assert Follows(lib, states[n - 1], moves[n - 1], states[n]);
      MoveKeepsShown(lib, states[n - 1], moves[n - 1], id, aspect);
    }
  }

  ghost predicate RunLeaving(lib: C.Library, s: System, states: seq<System>, moves: seq<Move>, id: int,
                             aspect: Aspect)
  {
    IsRun(lib, states, moves) && states[0] == s && forall i | 0 <= i < |moves| :: Leaves(moves[i], id, aspect)
  }

  /** No run from here changes the aspect without a request to. */
  ghost predicate Stays(lib: C.Library, s: System, id: int, aspect: Aspect) {
    forall states: seq<System>, moves: seq<Move> | RunLeaving(lib, s, states, moves, id, aspect) ::
      id in states[|moves|].users ==> Shows(states[|moves|].users[id], aspect)
  }

  lemma StaysNext(lib: C.Library, s: System, move: Move, id: int, aspect: Aspect)
    requires Enabled(s, move) && Leaves(move, id, aspect) && Stays(lib, s, id, aspect)
    ensures Stays(lib, Next(lib, s, move), id, aspect)
  {
    hide Enabled;
    hide Leaves;
    hide Shows;
    var after := Next(lib, s, move);
    hide Next;
    assert Follows(lib, s, move, after);
    forall states: seq<System>, moves: seq<Move> | RunLeaving(lib, after, states, moves, id, aspect)
      ensures id in states[|moves|].users ==> Shows(states[|moves|].users[id], aspect)
    {
      var longer, more := [s] + states, [move] + moves;
      forall i | 0 <= i < |more|
        ensures Follows(lib, longer[i], more[i], longer[i + 1]) && Leaves(more[i], id, aspect)
      {
        if i > 0 {
          assert Follows(lib, states[i - 1], moves[i - 1], states[i]);
        }
      }
      assert RunLeaving(lib, s, longer, more, id, aspect);
      assert longer[|more|] == states[|moves|];
    }
  }

  lemma StaysNow(lib: C.Library, s: System, id: int, aspect: Aspect)
    requires Stays(lib, s, id, aspect)
    ensures id in s.users ==> Shows(s.users[id], aspect)
  {
    hide Next;
    assert RunLeaving(lib, s, [s], [], id, aspect);
  }

  /** A stale copy that shows something else can be written, at the latest when every user whose name or
      email it would repeat has been removed. */
  lemma {:induction false} StaleCopyWins(lib: C.Library, s: System, id: int, r: int, aspect: Aspect)
    requires id in s.users && r in s.userCopies && s.userCopies[r].id == id
    requires !Shows(s.userCopies[r].user, aspect) && !s.userCopies[r].user.role.OtherRole?
    ensures !Stays(lib, s, id, aspect)
    decreases |s.users|
  {
    hide Stays;
    hide Shows;
    var u := s.userCopies[r].user;
    if Stays(lib, s, id, aspect) {
      if C.CanStore(s.users, id, u) {
        StaysNext(lib, s, WriteUser(r, false), id, aspect);
        StaysNow(lib, Next(lib, s, WriteUser(r, false)), id, aspect);
      } else {
        var i :| i in s.users && i != id;
        assert |(s.users - {i}).Keys| < |s.users.Keys|;
        StaysNext(lib, s, RemoveUser(i), id, aspect);
        StaleCopyWins(lib, Next(lib, s, RemoveUser(i)), id, r, aspect);
      }
    }
  }

  /** A second factor that is on, a secret, a password and a role each stay along every run, whatever else
      is edited, until a request that is there to change them, if and only if the row and all its copies
      in flight agree on it.  That every copy has a role of the schema holds in every run. */
  lemma AspectStaysIff(lib: C.Library, s: System, id: int, aspect: Aspect)
    requires id in s.users && CopiesHaveRoles(s)
    ensures Stays(lib, s, id, aspect) <==> Shown(s, id, aspect)
  {
    hide Next;
    hide Leaves;
    hide Shows;
    if Shown(s, id, aspect) {
      forall states: seq<System>, moves: seq<Move> | RunLeaving(lib, s, states, moves, id, aspect)
        ensures id in states[|moves|].users ==> Shows(states[|moves|].users[id], aspect)
      {
        RunKeepsShown(lib, states, moves, |moves|, id, aspect);
      }
    } else if Stays(lib, s, id, aspect) {
      StaysNow(lib, s, id, aspect);
      hide Stays;
      var r :| r in s.userCopies && s.userCopies[r].id == id && !Shows(s.userCopies[r].user, aspect);
      StaleCopyWins(lib, s, id, r, aspect);
    }
  }

  /** Until a request is there to change the password, only a password that meets the stored hash logs in as
      the user, in every state of a run from one in which the row and its copies agree on the hash. */
  lemma PasswordHolds(lib: C.Library, states: seq<System>, moves: seq<Move>, n: nat, id: int, hash: string,
                      password: string, code: string, open: bool, signed: bool)
    requires IsRun(lib, states, moves) && n < |states| && id in states[n].users
    requires Shown(states[0], id, PasswordIs(hash))
    requires forall i | 0 <= i < n :: Leaves(moves[i], id, PasswordIs(hash))
    requires Auth.LoginOn(lib, C.Found(id, states[n].users[id]), password, code, open, signed).LoggedIn?
    ensures lib.checkPassword(hash, password)
  {
    RunKeepsShown(lib, states, moves, n, id, PasswordIs(hash));
    hide Enabled;
    hide Next;
  }

  /** And while the second factor, its secret and the password are left alone, a login as the user succeeds
      exactly with the password and with a code that is valid for the secret and let through. */
  lemma CredentialsHold(lib: C.Library, states: seq<System>, moves: seq<Move>, n: nat, id: int, hash: string,
                        secret: string, password: string, code: string, open: bool, signed: bool)
    requires IsRun(lib, states, moves) && n < |states| && id in states[n].users
    requires forall aspect | aspect in [FactorOn, SecretIs(secret), PasswordIs(hash)] :: Shown(states[0], id, aspect)
    requires forall i, aspect | 0 <= i < n && aspect in [FactorOn, SecretIs(secret), PasswordIs(hash)] ::
               Leaves(moves[i], id, aspect)
    ensures Auth.LoginOn(lib, C.Found(id, states[n].users[id]), password, code, open, signed) == Auth.LoggedIn(id)
            <==> lib.checkPassword(hash, password) && code != "" && open && lib.validCode(secret, code) && signed
  {
    forall aspect | aspect in [FactorOn, SecretIs(secret), PasswordIs(hash)]
      ensures Shows(states[n].users[id], aspect)
    {
      RunKeepsShown(lib, states, moves, n, id, aspect);
      assert Shown(states[n], id, aspect);
    }
    hide Enabled;
    hide Next;
    hide IsRun;
    assert Shows(states[n].users[id], FactorOn);
    assert Shows(states[n].users[id], SecretIs(secret));
    assert Shows(states[n].users[id], PasswordIs(hash));
  }

  /** The secret of a user whose second factor is on need not be one that a code has confirmed: setting up
      replaces it from any state, whatever the library says of passwords and codes. */
  lemma SetupReplacesSecret(lib: C.Library, s: System, id: int, r: int, secret: string)
    returns (states: seq<System>, moves: seq<Move>)
    requires id in s.users && UniqueLogins(s.users) && s.users[id].totpEnabled && r !in s.userCopies
    ensures IsRun(lib, states, moves) && states[0] == s
    ensures moves == [ReadUser(r, id, C.SetupTotp(secret)), WriteUser(r, false)]
    ensures forall i | 0 <= i < 2 :: Leaves(moves[i], id, FactorOn)
    ensures id in states[2].users
    ensures Shows(states[2].users[id], FactorOn) && Shows(states[2].users[id], SecretIs(secret))
  {
    var u := s.users[id].(totpSecret := Some(secret));
    SameLoginsStore(s.users, id, u);
    hide C.CanStore;
    hide Next;
    hide Enabled;
    moves := [ReadUser(r, id, C.SetupTotp(secret)), WriteUser(r, false)];
    var s1 := ReadStep(lib, s, r, id, C.SetupTotp(secret), u);
    var s2 := WriteStep(lib, s1, r);
    states := [s, s1, s2];
  }

  /** Copies that disagree arise: a change of the profile that read the row before the second factor was turned on
      turns it off again. */
  lemma StaleWriteDropsFactor(lib: C.Library, s: System, id: int, a: int, b: int, code: string, password: string)
    returns (states: seq<System>, moves: seq<Move>)
    requires id in s.users && UniqueLogins(s.users) && !s.users[id].totpEnabled && s.users[id].totpSecret.Some?
    requires lib.checkPassword(s.users[id].passwordHash, password) && lib.validCode(s.users[id].totpSecret.value, code)
    requires a != b && a !in s.userCopies && b !in s.userCopies
    ensures IsRun(lib, states, moves) && |moves| == 4 && states[0] == s
    ensures forall i | 0 <= i < 4 :: Leaves(moves[i], id, FactorOn)
    ensures id in states[3].users && states[3].users[id].totpEnabled
    ensures id in states[4].users && !states[4].users[id].totpEnabled
  {
    var u := s.users[id];
    var v := u.(totpEnabled := true);
    var profile, enable := C.Profile(None, None, None), C.EnableTotp(code, password);
    assert C.Edited(lib, u, profile) == C.Copy(u) && C.Edited(lib, u, enable) == C.Copy(v);
    SameLoginsStore(s.users, id, v);
    SameLoginsStore(s.users[id := v], id, u);
    hide C.Edited;
    hide C.CanStore;
    hide UniqueLogins;
    hide Next;
    hide Enabled;
    moves := [ReadUser(a, id, profile), ReadUser(b, id, enable), WriteUser(b, false), WriteUser(a, false)];
    var s1 := ReadStep(lib, s, a, id, profile, u);
    var s2 := ReadStep(lib, s1, b, id, enable, v);
    var s3 := WriteStep(lib, s2, b);
    var s4 := WriteStep(lib, s3, a);
    states := [s, s1, s2, s3, s4];
  }

  lemma ReadStep(lib: C.Library, s: System, r: int, id: int, edit: C.UserEdit, u: C.ConsoleUser) returns (after: System)
    requires r !in s.userCopies && id in s.users && C.Edited(lib, s.users[id], edit) == C.Copy(u)
    ensures Follows(lib, s, ReadUser(r, id, edit), after)
    ensures after == s.(userCopies := s.userCopies[r := UserCopy(id, u)])
  {
    hide C.Edited;
    after := Next(lib, s, ReadUser(r, id, edit));
  }

  lemma WriteStep(lib: C.Library, s: System, r: int) returns (after: System)
    requires r in s.userCopies && s.userCopies[r].id in s.users
    requires C.CanStore(s.users, s.userCopies[r].id, s.userCopies[r].user)
    ensures Follows(lib, s, WriteUser(r, false), after)
    ensures after.users == s.users[s.userCopies[r].id := s.userCopies[r].user]
    ensures after.userCopies == s.userCopies - {r}
  {
    hide C.CanStore;
    after := Next(lib, s, WriteUser(r, false));
  }

  /** A row that repeats the stored name, email and role can be stored. */
  lemma SameLoginsStore(users: C.Table, id: int, u: C.ConsoleUser)
    requires id in users && C.CanStore(users, id, users[id])
    requires u.username == users[id].username && u.email == users[id].email && u.role == users[id].role
    ensures C.CanStore(users, id, u) && C.CanStore(users[id := u], id, u)
  {
  }

  // ---------------------------------------------------------------------------------------
  // A request that runs alone
  // ---------------------------------------------------------------------------------------

  /** The state after a token request reads its row and, when it made a copy, at once writes it back. */
  ghost function TokenEditInTurn(lib: C.Library, s: System, request: int, projectId: int, tokenId: int,
                                 edit: P.TokenEdit, fails: bool): System
    requires request !in s.tokenCopies
  {
    var read := Next(lib, s, ReadToken(request, projectId, tokenId, edit));
    if request in read.tokenCopies then Next(lib, read, WriteToken(request, fails)) else read
  }

  /** Undisturbed, the two moves do what the handler does, and it writes exactly when it made a copy. */
  lemma TokenEditAlone(lib: C.Library, s: System, request: int, projectId: int, tokenId: int, edit: P.TokenEdit,
                       fails: bool)
    requires request !in s.tokenCopies
    ensures var alone := P.EditedAlone(s.db, projectId, tokenId, edit, false, fails);
            var read := Next(lib, s, ReadToken(request, projectId, tokenId, edit));
            && TokenEditInTurn(lib, s, request, projectId, tokenId, edit, fails) == s.(db := alone.db)
            && (request in read.tokenCopies <==> alone.response.Done? || alone.response.InternalError?)
  {
    hide P.Edited;
    hide P.Written;
    hide ViewOf;
    if P.Listed(s.db, projectId, tokenId) {
      var edited := P.Edited(ViewOf(tokenId, s.db.tokens[tokenId]), edit);
      if edited.Some? {
        assert s.tokenCopies[request := edited.value] - {request} == s.tokenCopies;
      }
    }
  }

  ghost function UserEditInTurn(lib: C.Library, s: System, request: int, id: int, edit: C.UserEdit, fails: bool): System
    requires request !in s.userCopies
  {
    var read := Next(lib, s, ReadUser(request, id, edit));
    if request in read.userCopies then Next(lib, read, WriteUser(request, fails)) else read
  }

  /** The same for the row of a console user. */
  lemma UserEditAlone(lib: C.Library, s: System, request: int, id: int, edit: C.UserEdit, fails: bool)
    requires request !in s.userCopies
    ensures UserEditInTurn(lib, s, request, id, edit, fails)
            == s.(users := C.EditedAlone(lib, s.users, id, edit, false, fails).users)
    ensures request !in Next(lib, s, ReadUser(request, id, edit)).userCopies ==>
              C.EditedAlone(lib, s.users, id, edit, false, fails)
              == C.Outcome(s.users, if id in s.users then C.Edited(lib, s.users[id], edit).response else C.NotFound)
  {
    hide C.Edited;
    hide C.CanStore;
    if id in s.users {
      var edited := C.Edited(lib, s.users[id], edit);
      if edited.Copy? {
        assert s.userCopies[request := UserCopy(id, edited.user)] - {request} == s.userCopies;
      }
    }
  }
}
