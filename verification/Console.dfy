/** Console users: the table, its statements, and what each handler does to the row it read. */
module Console {
  import opened Options

  /** The text of `role`: one of the three names the schema allows, or any other text. */
  datatype Role = Admin | Manager | Viewer | OtherRole(name: string)

  datatype ConsoleUser = ConsoleUser(username: string, email: Option<string>, passwordHash: string, role: Role,
                                     totpSecret: Option<string>, totpEnabled: bool)

  type Table = map<int, ConsoleUser>

  /** The library calls that handlers rely on. */
  datatype Library = Library(checkPassword: (string, string) -> bool, validCode: (string, string) -> bool)

  datatype Response = Success | BadRequest | Unauthorized | Forbidden | NotFound | InternalError

  const MIN_PASSWORD := 8

  // ---------------------------------------------------------------------------------------
  // Statements
  // ---------------------------------------------------------------------------------------

  /** UNIQUE (username), UNIQUE (email) and CHECK (role IN (...)) for a row stored under `id`. */
  predicate CanStore(users: Table, id: int, u: ConsoleUser) {
    && !u.role.OtherRole?
    && (forall i | i in users && i != id :: users[i].username != u.username)
    && (u.email.Some? ==> forall i | i in users && i != id :: users[i].email != u.email)
  }

  function WithUser(users: Table, id: int, u: ConsoleUser): Table {
    if CanStore(users, id, u) then users[id := u] else users
  }

  /** UPDATE ... WHERE id = ? */
  function WithUserUpdate(users: Table, id: int, u: ConsoleUser): Table {
    if id in users then WithUser(users, id, u) else users
  }

  predicate HasLogin(u: ConsoleUser, login: string) {
    u.username == login || u.email == Some(login)
  }

  ghost predicate Finds(users: Table, login: string, id: int) {
    id in users && HasLogin(users[id], login)
  }

  datatype Found = Found(id: int, user: ConsoleUser)

  class ConsoleStore {
    var users: Table

    constructor ()
      ensures users == map[]
    {
      users := map[];
    }

    method CreateConsoleUser(newId: int, u: ConsoleUser, fails: bool) returns (ok: bool)
      requires newId !in users
      modifies this
      ensures ok == (!fails && CanStore(old(users), newId, u))
      ensures users == if fails then old(users) else WithUser(old(users), newId, u)
    {
      if fails || !CanStore(users, newId, u) {
        return false;
      }
      users := users[newId := u];
      return true;
    }

    method GetConsoleUserByID(id: int, fails: bool) returns (u: Option<ConsoleUser>)
      ensures u == if !fails && id in users then Some(users[id]) else None
    {
      if fails || id !in users {
        return None;
      }
      return Some(users[id]);
    }

    /** Any row with this username or email. */
    method GetConsoleUserByLogin(login: string, fails: bool) returns (found: Option<Found>)
      ensures found.None? <==> fails || forall id :: !Finds(users, login, id)
      ensures found.Some? ==> Finds(users, login, found.value.id) && found.value.user == users[found.value.id]
    {
      if fails {
        return None;
      }
      if id :| id in users && HasLogin(users[id], login) {
        assert Finds(users, login, id);
        return Some(Found(id, users[id]));
      }
      return None;
    }

    method UpdateConsoleUser(id: int, u: ConsoleUser, fails: bool) returns (ok: bool)
      modifies this
      ensures ok == (!fails && (id in old(users) ==> CanStore(old(users), id, u)))
      ensures users == if fails then old(users) else WithUserUpdate(old(users), id, u)
    {
      if fails {
        return false;
      }
      if id in users {
        if !CanStore(users, id, u) {
          return false;
        }
        users := users[id := u];
      }
      return true;
    }

    method DeleteConsoleUser(id: int, fails: bool) returns (ok: bool)
      modifies this
      ensures ok == !fails
      ensures users == if fails then old(users) else old(users) - {id}
    {
      if fails {
        return false;
      }
      users := users - {id};
      return true;
    }
  }

  // ---------------------------------------------------------------------------------------
  // Edits of a copy
  // ---------------------------------------------------------------------------------------

  /** A `newHash` is None when hashing fails. */
  datatype UserEdit =
    | ChangePassword(current: string, newHash: Option<string>)
    | SetupTotp(secret: string)
    | EnableTotp(code: string, password: string)
    | DisableTotp(password: string)
    | Profile(username: Option<string>, email: Option<string>, role: Option<Role>)
    | ResetAdmin(adminPassword: string, newHash: Option<string>)

  /** The copy to write back, or the answer that is given without a write. */
  datatype EditResult = Stop(response: Response) | Copy(user: ConsoleUser)

  function Edited(lib: Library, u: ConsoleUser, edit: UserEdit): EditResult {
    match edit
    case ChangePassword(current, newHash) =>
      if !lib.checkPassword(u.passwordHash, current) then Stop(Unauthorized)
      else if newHash.None? then Stop(InternalError)
      else Copy(u.(passwordHash := newHash.value))
    case SetupTotp(secret) => Copy(u.(totpSecret := Some(secret)))
    case EnableTotp(code, password) =>
      if !lib.checkPassword(u.passwordHash, password) then Stop(Unauthorized)
      else if u.totpSecret.None? || !lib.validCode(u.totpSecret.value, code) then Stop(BadRequest)
      else Copy(u.(totpEnabled := true))
    case DisableTotp(password) =>
      if !lib.checkPassword(u.passwordHash, password) then Stop(Unauthorized)
      else Copy(u.(totpEnabled := false, totpSecret := None))
    case Profile(username, email, role) =>
      if role.Some? && role.value.OtherRole? then Stop(BadRequest)
      else Copy(u.(username := if username.Some? then username.value else u.username,
                   email := if email.Some? then email else u.email,
                   role := if role.Some? then role.value else u.role))
    case ResetAdmin(adminPassword, newHash) =>
      if lib.checkPassword(u.passwordHash, adminPassword) then Stop(Success)
      else if newHash.None? then Stop(InternalError)
      else Copy(u.(passwordHash := newHash.value, totpEnabled := false, totpSecret := None))
  }

  function NewUser(username: string, email: Option<string>, hash: string, role: Role): ConsoleUser {
    ConsoleUser(username, email, hash, role, None, false)
  }

  /** What an edit may change, and what it needs for that: names, email and role only by a change of the
      profile and only to a role of the schema; the password only with the old one or by the reset of
      the administrator; the second factor on only with the password and a code for the stored secret,
      and off only with the password or by that reset. */
  lemma EditIsAuthorised(lib: Library, u: ConsoleUser, edit: UserEdit)
    requires Edited(lib, u, edit).Copy?
    ensures var v := Edited(lib, u, edit).user;
            && (v.username != u.username || v.email != u.email || v.role != u.role ==> edit.Profile?)
            && (v.role != u.role ==> !v.role.OtherRole?)
            && (v.passwordHash != u.passwordHash ==>
                  || (edit.ChangePassword? && lib.checkPassword(u.passwordHash, edit.current))
                  || (edit.ResetAdmin? && !lib.checkPassword(u.passwordHash, edit.adminPassword)))
            && (!u.totpEnabled && v.totpEnabled ==>
                  edit.EnableTotp? && lib.checkPassword(u.passwordHash, edit.password)
                  && u.totpSecret.Some? && lib.validCode(u.totpSecret.value, edit.code))
            && (u.totpEnabled && !v.totpEnabled ==>
                  v.totpSecret == None
                  && ((edit.DisableTotp? && lib.checkPassword(u.passwordHash, edit.password)) || edit.ResetAdmin?))
            && (v.totpSecret != u.totpSecret ==> edit.SetupTotp? || !v.totpEnabled)
  {
  }

  datatype Outcome = Outcome(users: Table, response: Response)

  /** A whole edit with no other request in between. */
  function EditedAlone(lib: Library, users: Table, id: int, edit: UserEdit, readFails: bool, writeFails: bool)
    : Outcome
  {
    if readFails || id !in users then Outcome(users, NotFound)
    else
      match Edited(lib, users[id], edit)
      case Stop(response) => Outcome(users, response)
      case Copy(u) =>
        if writeFails || !CanStore(users, id, u) then Outcome(users, InternalError)
        else Outcome(users[id := u], Success)
  }

  // ---------------------------------------------------------------------------------------
  // Constraints of the table
  // ---------------------------------------------------------------------------------------

  /** UNIQUE (username), UNIQUE (email) and CHECK (role IN (...)) of a whole table. */
  ghost predicate Constrained(users: Table) {
    && (forall i | i in users :: users[i].role == Admin || users[i].role == Manager || users[i].role == Viewer)
    && (forall i, j | i in users && j in users && users[i].username == users[j].username :: i == j)
    && (forall i, j | i in users && j in users && users[i].email.Some? && users[i].email == users[j].email :: i == j)
  }

  /** A row is stored exactly when the table then meets its constraints. */
  lemma CanStoreIff(users: Table, id: int, u: ConsoleUser)
    requires Constrained(users)
    ensures CanStore(users, id, u) <==> Constrained(users[id := u])
  {
    var after := users[id := u];
    assert after[id] == u;
    if Constrained(after) {
      forall i | i in users && i != id
        ensures users[i].username != u.username && (u.email.Some? ==> users[i].email != u.email)
      {
        assert after[i] == users[i];
      }
    }
  }

  // ---------------------------------------------------------------------------------------
  // What a success writes, column by column
  // ---------------------------------------------------------------------------------------

  ghost predicate Named<T(!new)>(column: T, before: T, given: Option<T>) {
    column == if given.Some? then given.value else before
  }

  /** Each column is the one given by the request that is there to set it, and otherwise as it was. */
  ghost predicate Writes(a: ConsoleUser, b: ConsoleUser, edit: UserEdit) {
    var off := edit.DisableTotp? || edit.ResetAdmin?;
    && Named(b.username, a.username, if edit.Profile? then edit.username else None)
    && (b.email == if edit.Profile? && edit.email.Some? then edit.email else a.email)
    && Named(b.role, a.role, if edit.Profile? then edit.role else None)
    && Named(b.passwordHash, a.passwordHash, if edit.ChangePassword? || edit.ResetAdmin? then edit.newHash else None)
    && b.totpSecret == (if edit.SetupTotp? then Some(edit.secret) else if off then None else a.totpSecret)
    && b.totpEnabled == (edit.EnableTotp? || (a.totpEnabled && !off))
  }

  /** The administrator's password is the configured one already. */
  predicate Settled(lib: Library, u: ConsoleUser, edit: UserEdit) {
    edit.ResetAdmin? && lib.checkPassword(u.passwordHash, edit.adminPassword)
  }

  lemma EditWrites(lib: Library, users: Table, id: int, edit: UserEdit, readFails: bool, writeFails: bool)
    requires EditedAlone(lib, users, id, edit, readFails, writeFails).response == Success
    ensures var after := EditedAlone(lib, users, id, edit, readFails, writeFails).users;
            && id in users && after.Keys == users.Keys
            && (forall i | i in users && i != id :: after[i] == users[i])
            && if Settled(lib, users[id], edit) then after[id] == users[id] else Writes(users[id], after[id], edit)
  {
    hide CanStore;
  }

  /** What a request needs: the password it names, a code for the stored secret, a role of the schema. */
  predicate Granted(lib: Library, u: ConsoleUser, edit: UserEdit) {
    match edit
    case ChangePassword(current, _) => lib.checkPassword(u.passwordHash, current)
    case SetupTotp(_) => true
    case EnableTotp(code, password) =>
      lib.checkPassword(u.passwordHash, password) && u.totpSecret.Some? && lib.validCode(u.totpSecret.value, code)
    case DisableTotp(password) => lib.checkPassword(u.passwordHash, password)
    case Profile(_, _, role) => role.Some? ==> role.value == Admin || role.value == Manager || role.value == Viewer
    case ResetAdmin(_, _) => true
  }

  predicate Hashed(edit: UserEdit) {
    edit.ChangePassword? || edit.ResetAdmin? ==> edit.newHash.Some?
  }

  /** On a table that meets its constraints a request succeeds exactly when it finds its row, has what it
      needs, and leaves a table that meets them; it writes nothing but with a success. */
  lemma EditSucceedsIff(lib: Library, users: Table, id: int, edit: UserEdit, readFails: bool, writeFails: bool)
    requires Constrained(users)
    ensures var Outcome(after, response) := EditedAlone(lib, users, id, edit, readFails, writeFails);
            && (response == Success <==>
                && !readFails && id in users
                && (|| Settled(lib, users[id], edit)
                    || (&& Granted(lib, users[id], edit) && Hashed(edit) && !writeFails
                        && exists u :: Writes(users[id], u, edit) && Constrained(users[id := u]))))
            && (response != Success ==> after == users)
            && Constrained(after)
  {
    hide Edited;
    hide CanStore;
    hide Constrained;
    hide Writes;
    hide Granted;
    if !readFails && id in users {
      var u := users[id];
      StopIff(lib, u, edit);
      if Edited(lib, u, edit).Copy? {
        var v := Edited(lib, u, edit).user;
        CanStoreIff(users, id, v);
        CopyIsWritten(lib, u, edit);
        assert Writes(u, v, edit);
        assert Constrained(users[id := v]) <==> exists w :: Writes(u, w, edit) && Constrained(users[id := w]);
      }
    }
  }

  lemma CopyIsWritten(lib: Library, u: ConsoleUser, edit: UserEdit)
    requires Edited(lib, u, edit).Copy?
    ensures forall v :: Writes(u, v, edit) <==> v == Edited(lib, u, edit).user
  {
  }

  lemma StopIff(lib: Library, u: ConsoleUser, edit: UserEdit)
    ensures Edited(lib, u, edit).Copy? <==> !Settled(lib, u, edit) && Granted(lib, u, edit) && Hashed(edit)
    ensures Edited(lib, u, edit) == Stop(Success) <==> Settled(lib, u, edit)
  {
  }
}
