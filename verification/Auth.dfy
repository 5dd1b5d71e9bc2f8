/** The handlers that log console users in and edit their rows. */
module Auth {
  import opened Options
  import opened Console
  import Totp

  datatype LoginResult =
    | Refused(response: Response)
    | TooManyAttempts
    | CodeRequired
    | BadCode
    | LoggedIn(id: int)

  predicate NeedsCode(u: ConsoleUser) {
    u.totpEnabled && u.totpSecret.Some?
  }

  /** The answer to a login for which the store found a row, and the tracker's answer was `allowed`. */
  function LoginOn(lib: Library, found: Found, password: string, code: string, allowed: bool, signed: bool)
    : LoginResult
  {
    var u := found.user;
    if !lib.checkPassword(u.passwordHash, password) then Refused(Unauthorized)
    else if NeedsCode(u) && code == "" then CodeRequired
    else if NeedsCode(u) && !allowed then TooManyAttempts
    else if NeedsCode(u) && !lib.validCode(u.totpSecret.value, code) then BadCode
    else if !signed then Refused(InternalError)
    else LoggedIn(found.id)
  }

  /** When each answer is given to a login that found this row: it succeeds exactly with the password and,
      while the second factor is on and has a secret, with a code that is valid for it and let through. */
  ghost predicate Answers(lib: Library, id: int, u: ConsoleUser, password: string, code: string, open: bool,
                          signed: bool, r: LoginResult)
  {
    var known, coded := lib.checkPassword(u.passwordHash, password), u.totpEnabled && u.totpSecret.Some?;
    var valid := coded && lib.validCode(u.totpSecret.value, code);
    && (forall i :: r == LoggedIn(i) <==> i == id && known && signed && (coded ==> code != "" && open && valid))
    && (r == Refused(Unauthorized) <==> !known)
    && (r == CodeRequired <==> known && coded && code == "")
    && (r == TooManyAttempts <==> known && coded && code != "" && !open)
    && (r == BadCode <==> known && coded && code != "" && open && !valid)
    && (r == Refused(InternalError) <==> known && !signed && (coded ==> code != "" && open && valid))
  }

  /** These are all the answers, and they exclude each other. */
  lemma LoginAnswers(lib: Library, found: Found, password: string, code: string, open: bool, signed: bool,
                     r: LoginResult)
    ensures r == LoginOn(lib, found, password, code, open, signed)
            <==> Answers(lib, found.id, found.user, password, code, open, signed, r)
  {
  }

  /** The tracker lets an attempt through: it has no record, its record has run out, or fewer than five
      failures. */
  predicate LetsThrough(attempts: map<string, Totp.Tracker>, login: string, now: int) {
    login in attempts && now <= attempts[login].resetAt ==> attempts[login].failures < 5
  }

  /** The row has this name or this email. */
  ghost predicate IsLogin(users: Table, login: string, id: int) {
    id in users && (users[id].username == login || users[id].email == Some(login))
  }

  /** Clock readings: of the check, of the record, and of the record when it opens a window. */
  datatype Times = Times(check: int, record: int, stamped: int)

  class AuthHandler {
    const lib: Library
    const store: ConsoleStore
    const limiter: Totp.AttemptLimiter

    constructor (lib: Library, store: ConsoleStore, limiter: Totp.AttemptLimiter)
      ensures this.lib == lib && this.store == store && this.limiter == limiter
    {
      this.lib, this.store, this.limiter := lib, store, limiter;
    }

    method Login(login: string, password: string, code: string, times: Times, fails: bool, signed: bool)
      returns (r: LoginResult)
      modifies limiter
      ensures login == "" || password == "" ==> r == Refused(BadRequest)
      ensures login != "" && password != "" && (fails || forall id :: !Finds(store.users, login, id)) ==>
                r == Refused(Unauthorized)
      ensures login != "" && password != "" && !fails && (exists id :: Finds(store.users, login, id)) ==>
                exists id :: Finds(store.users, login, id)
                  && r == LoginOn(lib, Found(id, store.users[id]), password, code,
                                  Totp.Allowed(Totp.Lookup(old(limiter.attempts), login), times.check), signed)
      ensures (login == "" || password == "") <==> r == Refused(BadRequest)
      ensures r.LoggedIn? ==> !fails
      ensures login != "" && password != "" && !fails && (exists id :: IsLogin(store.users, login, id)) ==>
                exists id :: IsLogin(store.users, login, id)
                  && Answers(lib, id, store.users[id], password, code,
                             LetsThrough(old(limiter.attempts), login, times.check), signed, r)
      ensures limiter.attempts ==
              if r == BadCode
              then old(limiter.attempts)[login := Totp.Recorded(Totp.Lookup(old(limiter.attempts), login),
                                                                times.record, times.stamped)]
              else old(limiter.attempts)
    {
      if login == "" || password == "" {
        return Refused(BadRequest);
      }
      var found := store.GetConsoleUserByLogin(login, fails);
      if found.None? {
        return Refused(Unauthorized);
      }
      var u := found.value.user;
      assert IsLogin(store.users, login, found.value.id);
      if !lib.checkPassword(u.passwordHash, password) {
        return Refused(Unauthorized);
      }
      if u.totpEnabled && u.totpSecret.Some? {
        if code == "" {
          return CodeRequired;
        }
        var allowed := limiter.CheckLimit(login, times.check);
        if !allowed {
          return TooManyAttempts;
        }
        if !lib.validCode(u.totpSecret.value, code) {
          limiter.RecordFailure(login, times.record, times.stamped);
          return BadCode;
        }
      }
      return if signed then LoggedIn(found.value.id) else Refused(InternalError);
    }

    method ChangePassword(id: int, current: string, newPassword: string, newHash: Option<string>,
                          readFails: bool, writeFails: bool) returns (r: Response)
      modifies store
      ensures Outcome(store.users, r) ==
              if |newPassword| < 8 then Outcome(old(store.users), BadRequest)
              else EditedAlone(lib, old(store.users), id, UserEdit.ChangePassword(current, newHash), readFails,
                               writeFails)
    {
      if |newPassword| < MIN_PASSWORD {
        return BadRequest;
      }
      var u := store.GetConsoleUserByID(id, readFails);
      if u.None? {
        return NotFound;
      }
      if !lib.checkPassword(u.value.passwordHash, current) {
        return Unauthorized;
      }
      if newHash.None? {
        return InternalError;
      }
      var ok := store.UpdateConsoleUser(id, u.value.(passwordHash := newHash.value), writeFails);
      return if ok then Success else InternalError;
    }

    method TOTPSetup(id: int, secret: string, readFails: bool, writeFails: bool) returns (r: Response)
      modifies store
      ensures Outcome(store.users, r)
              == EditedAlone(lib, old(store.users), id, SetupTotp(secret), readFails, writeFails)
    {
      var u := store.GetConsoleUserByID(id, readFails);
      if u.None? {
        return NotFound;
      }
      var ok := store.UpdateConsoleUser(id, u.value.(totpSecret := Some(secret)), writeFails);
      return if ok then Success else InternalError;
    }

    method TOTPEnable(id: int, code: string, password: string, readFails: bool, writeFails: bool) returns (r: Response)
      modifies store
      ensures Outcome(store.users, r)
              == EditedAlone(lib, old(store.users), id, EnableTotp(code, password), readFails, writeFails)
    {
      var u := store.GetConsoleUserByID(id, readFails);
      if u.None? {
        return NotFound;
      }
      if !lib.checkPassword(u.value.passwordHash, password) {
        return Unauthorized;
      }
      if u.value.totpSecret.None? {
        return BadRequest;
      }
      if !lib.validCode(u.value.totpSecret.value, code) {
        return BadRequest;
      }
      var ok := store.UpdateConsoleUser(id, u.value.(totpEnabled := true), writeFails);
      return if ok then Success else InternalError;
    }

    method TOTPDisable(id: int, password: string, readFails: bool, writeFails: bool) returns (r: Response)
      modifies store
      ensures Outcome(store.users, r)
              == EditedAlone(lib, old(store.users), id, DisableTotp(password), readFails, writeFails)
    {
      var u := store.GetConsoleUserByID(id, readFails);
      if u.None? {
        return NotFound;
      }
      if !lib.checkPassword(u.value.passwordHash, password) {
        return Unauthorized;
      }
      var ok := store.UpdateConsoleUser(id, u.value.(totpEnabled := false, totpSecret := None), writeFails);
      return if ok then Success else InternalError;
    }
  }

  class UsersHandler {
    const lib: Library
    const store: ConsoleStore

    constructor (lib: Library, store: ConsoleStore)
      ensures this.lib == lib && this.store == store
    {
      this.lib, this.store := lib, store;
    }

    method Create(username: string, email: Option<string>, password: string, role: Role, newHash: Option<string>,
                  newId: int, fails: bool) returns (r: Response)
      requires newId !in store.users
      modifies store
      ensures var refused := username == "" || |password| < 8 || role.OtherRole?;
              if refused then r == BadRequest && store.users == old(store.users)
              else if newHash.None? || fails then r == InternalError && store.users == old(store.users)
              else
                var u := NewUser(username, email, newHash.value, role);
                r == (if CanStore(old(store.users), newId, u) then Success else InternalError)
                && store.users == Console.WithUser(old(store.users), newId, u)
      ensures r == Success <==>
                && username != "" && |password| >= 8 && !role.OtherRole? && newHash.Some? && !fails
                && forall i | i in old(store.users) ::
                     && old(store.users)[i].username != username
                     && (email.Some? ==> old(store.users)[i].email != email)
      ensures r == Success ==>
                && store.users.Keys == old(store.users).Keys + {newId}
                && newHash == Some(store.users[newId].passwordHash)
                && store.users[newId].username == username && store.users[newId].email == email
                && store.users[newId].role == role
                && !store.users[newId].totpEnabled && store.users[newId].totpSecret == None
      ensures forall i | i in old(store.users) :: i in store.users && store.users[i] == old(store.users)[i]
    {
      if username == "" || password == "" || |password| < MIN_PASSWORD || role.OtherRole? {
        return BadRequest;
      }
      if newHash.None? {
        return InternalError;
      }
      var ok := store.CreateConsoleUser(newId, NewUser(username, email, newHash.value, role), fails);
      return if ok then Success else InternalError;
    }

    method Update(actor: int, id: int, username: Option<string>, email: Option<string>, role: Option<Role>,
                  readFails: bool, writeFails: bool) returns (r: Response)
      modifies store
      ensures Outcome(store.users, r) ==
              if id == actor then Outcome(old(store.users), Forbidden)
              else EditedAlone(lib, old(store.users), id, Profile(username, email, role), readFails, writeFails)
    {
      if id == actor {
        return Forbidden;
      }
      var found := store.GetConsoleUserByID(id, readFails);
      if found.None? {
        return NotFound;
      }
      var u := found.value;
      if username.Some? {
        u := u.(username := username.value);
      }
      if email.Some? {
        u := u.(email := email);
      }
      if role.Some? {
        if role.value.OtherRole? {
          return BadRequest;
        }
        u := u.(role := role.value);
      }
      var ok := store.UpdateConsoleUser(id, u, writeFails);
      return if ok then Success else InternalError;
    }

    method Delete(actor: int, id: int, fails: bool) returns (r: Response)
      modifies store
      ensures Outcome(store.users, r) ==
              if id == actor then Outcome(old(store.users), Forbidden)
              else if fails then Outcome(old(store.users), InternalError)
              else Outcome(old(store.users) - {id}, Success)
    {
      if id == actor {
        return Forbidden;
      }
      var ok := store.DeleteConsoleUser(id, fails);
      return if ok then Success else InternalError;
    }
  }

  /** Creates the administrator, or resets its password and its second factor. */
  method BootstrapAdmin(lib: Library, store: ConsoleStore, username: string, password: string, newHash: Option<string>,
                        newId: int, readFails: bool, writeFails: bool) returns (ok: bool)
    requires newId !in store.users
    modifies store
    ensures readFails ==> !ok && store.users == old(store.users)
    ensures !readFails && (forall id :: !Finds(old(store.users), username, id)) ==>
              ok == (newHash.Some? && !writeFails
                     && CanStore(old(store.users), newId, NewUser(username, None, newHash.value, Admin)))
              && store.users ==
                 if newHash.None? || writeFails then old(store.users)
                 else Console.WithUser(old(store.users), newId, NewUser(username, None, newHash.value, Admin))
    ensures !readFails && (forall id :: !Finds(old(store.users), username, id)) && ok ==>
              && newId in store.users && newHash == Some(store.users[newId].passwordHash)
              && store.users[newId].username == username && store.users[newId].email == None
              && store.users[newId].role == Admin
              && !store.users[newId].totpEnabled && store.users[newId].totpSecret == None
    ensures !readFails && (exists id :: Finds(old(store.users), username, id)) ==>
              exists id :: Finds(old(store.users), username, id)
                && Outcome(store.users, if ok then Success else InternalError)
                   == EditedAlone(lib, old(store.users), id, ResetAdmin(password, newHash), false, writeFails)
  {
    if readFails {
      return false;
    }
    var found := store.GetConsoleUserByLogin(username, false);
    if found.None? {
      if newHash.None? {
        return false;
      }
      ok := store.CreateConsoleUser(newId, NewUser(username, None, newHash.value, Admin), writeFails);
      return;
    }
    var u := found.value.user;
    if !lib.checkPassword(u.passwordHash, password) {
      if newHash.None? {
        return false;
      }
      u := u.(passwordHash := newHash.value, totpEnabled := false, totpSecret := None);
      ok := store.UpdateConsoleUser(found.value.id, u, writeFails);
      return;
    }
    return true;
  }

  // ---------------------------------------------------------------------------------------
  // Edits and the next login
  // ---------------------------------------------------------------------------------------

  /** After a change of the password exactly the new one logs in, with the second factor as it was. */
  lemma ChangedPasswordLogsIn(lib: Library, users: Table, id: int, current: string, hash: string, password: string,
                              code: string, open: bool, signed: bool)
    requires EditedAlone(lib, users, id, UserEdit.ChangePassword(current, Some(hash)), false, false).response == Success
    ensures var after := EditedAlone(lib, users, id, UserEdit.ChangePassword(current, Some(hash)), false, false).users;
            && id in users && lib.checkPassword(users[id].passwordHash, current) && id in after
            && var u := users[id];
               LoginOn(lib, Found(id, after[id]), password, code, open, signed) == LoggedIn(id)
               <==> lib.checkPassword(hash, password) && signed
                    && (u.totpEnabled && u.totpSecret.Some? ==>
                          code != "" && open && lib.validCode(u.totpSecret.value, code))
  {
    hide CanStore;
  }

  /** Once a secret is set up and the second factor is turned on, a login needs a code for that secret; once it
      is turned off, the password is enough again. */
  lemma FactorLifecycle(lib: Library, users: Table, id: int, secret: string, confirmed: string, given: string,
                        password: string, code: string, open: bool, signed: bool)
    requires EditedAlone(lib, users, id, SetupTotp(secret), false, false).response == Success
    requires var ready := EditedAlone(lib, users, id, SetupTotp(secret), false, false).users;
             EditedAlone(lib, ready, id, EnableTotp(confirmed, given), false, false).response == Success
    ensures var ready := EditedAlone(lib, users, id, SetupTotp(secret), false, false).users;
            var on := EditedAlone(lib, ready, id, EnableTotp(confirmed, given), false, false).users;
            var Outcome(off, response) := EditedAlone(lib, on, id, DisableTotp(given), false, false);
            && id in users && id in on && lib.validCode(secret, confirmed)
            && (LoginOn(lib, Found(id, on[id]), password, code, open, signed) == LoggedIn(id)
                <==> lib.checkPassword(users[id].passwordHash, password) && signed && code != "" && open
                     && lib.validCode(secret, code))
            && (response == Success ==>
                  && id in off
                  && (LoginOn(lib, Found(id, off[id]), password, code, open, signed) == LoggedIn(id)
                      <==> lib.checkPassword(users[id].passwordHash, password) && signed))
  {
    var ready := EditedAlone(lib, users, id, SetupTotp(secret), false, false).users;
    EditWrites(lib, users, id, SetupTotp(secret), false, false);
    EditWrites(lib, ready, id, EnableTotp(confirmed, given), false, false);
    var on := EditedAlone(lib, ready, id, EnableTotp(confirmed, given), false, false).users;
    NeedsBoth(lib, ready, id, confirmed, given);
    if EditedAlone(lib, on, id, DisableTotp(given), false, false).response == Success {
      EditWrites(lib, on, id, DisableTotp(given), false, false);
    }
    hide EditedAlone;
    hide CanStore;
  }

  lemma NeedsBoth(lib: Library, users: Table, id: int, confirmed: string, given: string)
    requires EditedAlone(lib, users, id, EnableTotp(confirmed, given), false, false).response == Success
    ensures id in users && users[id].totpSecret.Some? && lib.validCode(users[id].totpSecret.value, confirmed)
  {
    hide CanStore;
  }

  // ---------------------------------------------------------------------------------------
  // Login and the tracker
  // ---------------------------------------------------------------------------------------

  /** A login that reaches the tracker is a check followed by a record or by nothing: the tracker's
      next state is the one that the two critical sections give. */
  lemma LoginIsTwoSections(s: Totp.State, login: string, times: Times, valid: bool)
    requires s.clock <= times.check <= times.record <= times.stamped
    ensures var checked := Totp.Next(s, Totp.Check(login, times.check));
            var allowed := Totp.Allowed(Totp.Lookup(s.attempts, login), times.check);
            && Totp.Enabled(s, Totp.Check(login, times.check))
            && (allowed && !valid ==>
                  var recorded := Totp.Record(login, times.record, times.stamped);
                  && Totp.Enabled(checked, recorded)
                  && Totp.Next(checked, recorded).attempts
                     == s.attempts[login := Totp.Recorded(Totp.Lookup(s.attempts, login), times.record, times.stamped)]
                  && Totp.Next(checked, recorded).inFlight == s.inFlight)
            && (allowed && valid ==>
                  && Totp.Enabled(checked, Totp.Leave(login))
                  && Totp.Next(checked, Totp.Leave(login)).attempts == s.attempts
                  && Totp.Next(checked, Totp.Leave(login)).inFlight == s.inFlight)
            && (!allowed ==> checked.attempts == s.attempts && checked.inFlight == s.inFlight)
  {
    assert s.inFlight + multiset{login} - multiset{login} == s.inFlight;
  }

  /** The texts with which a user can log in. */
  function LoginsOf(u: ConsoleUser): (logins: set<string>)
    ensures forall login :: login in logins <==> HasLogin(u, login)
    ensures |logins| <= 2
  {
    {u.username} + (if u.email.Some? then {u.email.value} else {})
  }

  /** A user logs in by name or by email, and the tracker counts them apart: while neither changes, and
      with at most k logins for each between check and record, an account meets in five minutes at most
      twice as many failures as a login string. */
  lemma AccountBound(u: ConsoleUser, states: seq<Totp.State>, actions: seq<Totp.Action>, k: nat, from: int)
    requires Totp.IsRun(states, actions)
    requires forall login | login in LoginsOf(u) :: Totp.AtMostInFlight(states, login, k)
    ensures Totp.RecordedForAny(actions, LoginsOf(u), from, from + Totp.WINDOW, |actions|)
            <= 2 * (2 * (Totp.LIMIT - 1 + k) - 1)
  {
    hide Totp.IsRun;
    hide Totp.AtMostInFlight;
    Totp.BoundForAny(states, actions, LoginsOf(u), k, from);
    var n := |LoginsOf(u)|;
    assert n == 0 || n == 1 || n == 2;
  }
}
