/** Whole runs of the server: any number of `Track` and `Identify` requests, each a sequence of
    separate statements, interleaved with one another and with administrative statements. */
module Runs {
  import opened Options
  import opened Schema
  import opened Tracking
  import opened Effects

  /** A request between two statements. */
  datatype Thread =
    /** `Track` before it looks up the device's user. */
    | Looking(projectId: int, req: TrackRequest, location: Location)
    /** `Track` at the head of its loop. */
    | Tracking(ctx: Context, todo: seq<TrackEvent>, accepted: nat)
    /** `Track` after it inserted `ev` and before it writes the property rows. */
    | Writing(ctx: Context, ev: TrackEvent, todo: seq<TrackEvent>, accepted: nat)
    /** `Track` has answered. */
    | Tracked(accepted: nat)
    /** `Identify` before it selects the user, before it inserts it, and before it links the device. */
    | Selecting(projectId: int, deviceId: string, anonymousId: string)
    | Creating(projectId: int, deviceId: string, anonymousId: string)
    | Linking(projectId: int, deviceId: string, anonymousId: string, userId: int)
    /** `Identify` has answered with a user id, or with an error. */
    | Identified(projectId: int, anonymousId: string, userId: int)
    | Errored

  /** `sources` records for each event row inserted in this run the request event it came from. */
  datatype System = System(db: Database, threads: seq<Thread>, sources: map<string, TrackEvent>)

  /** A clock reading, a transient error and the id that a new user row would get. */
  datatype Env = Env(now: int, fails: bool, newId: int)

  datatype Move =
    | Spawn(thread: Thread)
    | Advance(t: nat, env: Env)
    | Administer(cmd: Command)

  predicate IsRequest(thread: Thread) {
    || (thread.Looking? && ValidBatch(thread.req))
    || (thread.Selecting? && thread.deviceId != "" && thread.anonymousId != "")
  }

  /** The statements that the console, the device endpoint and the cleanup job run. */
  predicate IsAdministrative(cmd: Command) {
    !cmd.LinkDevice? && !cmd.InsertUser? && !cmd.InsertEvent? && !cmd.InsertProperties?
  }

  predicate Enabled(s: System, move: Move) {
    match move
    case Spawn(thread) => IsRequest(thread)
    case Advance(t, env) => t < |s.threads| && env.newId !in s.db.users
    case Administer(cmd) => IsAdministrative(cmd) && FreshId(s.db, cmd)
  }

  // ---------------------------------------------------------------------------------------
  // One move
  // ---------------------------------------------------------------------------------------

  ghost function FindUser(db: Database, projectId: int, anonymousId: string): (user: Option<int>)
    ensures user.None? <==> !UserTaken(db, projectId, anonymousId)
    ensures user.Some? ==> IsUser(db, user.value, projectId, anonymousId)
  {
    if UserTaken(db, projectId, anonymousId) then
      var u :| IsUser(db, u, projectId, anonymousId);
      Some(u)
    else None
  }

  /** The thread's next statement inserts the head of its batch. */
  predicate Accepting(db: Database, thread: Thread, env: Env) {
    && thread.Tracking? && thread.todo != [] && !env.fails && WellFormed(thread.todo[0])
    && Accepts(db, thread.todo[0].id, RowFor(thread.ctx, thread.todo[0], env.now), thread.todo[0].storable)
  }

  /** The statement by which a thread changes the database, if any. */
  function ThreadCommand(db: Database, thread: Thread, env: Env): Option<Command> {
    if Accepting(db, thread, env) then
      Some(Command.InsertEvent(thread.todo[0].id, RowFor(thread.ctx, thread.todo[0], env.now), thread.todo[0].storable))
    else if env.fails then None
    else
      match thread
      case Writing(_, ev, _, _) => Some(InsertProperties(ev.id, PropertyBag(ev.properties)))
      case Creating(projectId, _, anonymousId) => Some(InsertUser(env.newId, projectId, anonymousId))
      case Linking(_, deviceId, _, userId) => Some(LinkDevice(deviceId, userId))
      case _ => None
  }

  ghost function ThreadNext(db: Database, thread: Thread, env: Env): Thread {
    match thread
    case Looking(projectId, req, location) =>
      Tracking(ContextFor(db, projectId, req, location, env.fails), req.events, 0)
    case Tracking(ctx, todo, accepted) =>
      if todo == [] then Tracked(accepted)
      else if !Accepting(db, thread, env) then Tracking(ctx, todo[1..], accepted)
      else if todo[0].properties == map[] then Tracking(ctx, todo[1..], accepted + 1)
      else Writing(ctx, todo[0], todo[1..], accepted)
    case Writing(ctx, _, todo, accepted) => Tracking(ctx, todo, accepted + 1)
    case Selecting(projectId, deviceId, anonymousId) =>
      if env.fails then Errored
      else
        (match FindUser(db, projectId, anonymousId)
         case Some(u) => Linking(projectId, deviceId, anonymousId, u)
         case None => Creating(projectId, deviceId, anonymousId))
    case Creating(projectId, deviceId, anonymousId) =>
      if env.fails || projectId !in db.projects || UserTaken(db, projectId, anonymousId) then Errored
      else Linking(projectId, deviceId, anonymousId, env.newId)
    case Linking(projectId, deviceId, anonymousId, userId) =>
      if env.fails || (deviceId in db.devices && userId !in db.users) then Errored
      else Identified(projectId, anonymousId, userId)
    case _ => thread
  }

  /** The statement of a move. */
  function MoveCommand(s: System, move: Move): Option<Command>
    requires Enabled(s, move)
  {
    match move
    case Spawn(_) => None
    case Advance(t, env) => ThreadCommand(s.db, s.threads[t], env)
    case Administer(cmd) => Some(cmd)
  }

  ghost function NextDB(s: System, move: Move): Database
    requires Enabled(s, move)
  {
    var cmd := MoveCommand(s, move);
    if cmd.Some? then Apply(s.db, cmd.value) else s.db
  }

  ghost function Next(s: System, move: Move): System
    requires Enabled(s, move)
  {
    var db := NextDB(s, move);
    match move
    case Spawn(thread) => System(db, s.threads + [thread], s.sources)
    case Advance(t, env) =>
      System(db, s.threads[t := ThreadNext(s.db, s.threads[t], env)],
             if Accepting(s.db, s.threads[t], env)
             then s.sources[s.threads[t].todo[0].id := s.threads[t].todo[0]] else s.sources)
    case Administer(cmd) =>
      System(db, s.threads, map e | e in s.sources && e in db.events :: s.sources[e])
  }

  // ---------------------------------------------------------------------------------------
  // Runs
  // ---------------------------------------------------------------------------------------

  /** `states` is a run when each state follows from the previous one by the move between them. */
  ghost predicate IsRun(states: seq<System>, moves: seq<Move>) {
    && |states| == |moves| + 1
    && forall i | 0 <= i < |moves| :: Enabled(states[i], moves[i]) && states[i + 1] == Next(states[i], moves[i])
  }

  /** A server just started on a database. */
  ghost predicate Initial(s: System) {
    Consistent(s.db) && s.threads == [] && s.sources == map[]
  }

  lemma MoveKeepsConsistent(s: System, move: Move)
    requires Enabled(s, move) && Consistent(s.db)
    ensures Consistent(Next(s, move).db)
  {
    hide Consistent;
    hide Apply;
    var cmd := MoveCommand(s, move);
    if cmd.Some? {
      assert FreshId(s.db, cmd.value);
      ApplyKeepsConsistent(s.db, cmd.value);
    }
  }

  /** Every foreign key, UNIQUE key and CHECK holds in every state of every run. */
  lemma {:induction false} RunKeepsConsistent(states: seq<System>, moves: seq<Move>, i: nat)
    requires IsRun(states, moves) && Consistent(states[0].db) && i < |states|
    ensures Consistent(states[i].db)
  {
    hide Consistent;
    hide Next;
    if i > 0 {
      RunKeepsConsistent(states, moves, i - 1);
      MoveKeepsConsistent(states[i - 1], moves[i - 1]);
    }
  }

  // ---------------------------------------------------------------------------------------
  // Conservation
  // ---------------------------------------------------------------------------------------

  /** The events a thread has inserted: those it has counted and the one it is about to count. */
  function Credit(thread: Thread): nat {
    match thread
    case Tracking(_, _, accepted) => accepted
    case Writing(_, _, _, accepted) => accepted + 1
    case Tracked(accepted) => accepted
    case _ => 0
  }

  function TotalCredit(threads: seq<Thread>): nat {
    if threads == [] then 0 else TotalCredit(threads[..|threads| - 1]) + Credit(threads[|threads| - 1])
  }

  lemma {:induction false} TotalCreditUpdate(threads: seq<Thread>, t: nat, thread: Thread)
    requires t < |threads|
    ensures TotalCredit(threads[t := thread]) == TotalCredit(threads) - Credit(threads[t]) + Credit(thread)
  {
    var last := |threads| - 1;
    if t == last {
      assert threads[t := thread][..last] == threads[..last];
    } else {
      assert threads[t := thread][..last] == threads[..last][t := thread];
      TotalCreditUpdate(threads[..last], t, thread);
    }
  }

  /** What the move's own answer says it deleted: the count that `CleanupEvents` returns, or the
      number of events under a deleted project. */
  function MoveRemoved(s: System, move: Move): nat {
    if move.Administer? then Removed(s.db, move.cmd) else 0
  }

  function TotalRemoved(states: seq<System>, moves: seq<Move>, i: nat): nat
    requires i <= |moves| < |states|
  {
    if i == 0 then 0 else TotalRemoved(states, moves, i - 1) + MoveRemoved(states[i - 1], moves[i - 1])
  }

  /** A thread's credit grows by the event that its statement inserts. */
  lemma ThreadEarns(db: Database, thread: Thread, env: Env)
    ensures var cmd := ThreadCommand(db, thread, env);
            && Credit(ThreadNext(db, thread, env))
               == Credit(thread) + (if cmd.Some? then Inserted(db, cmd.value) else 0)
            && (cmd.Some? ==> Removed(db, cmd.value) == 0)
  {
    hide Insertable;
    hide WellFormed;
  }

  lemma MoveConserves(s: System, move: Move)
    requires Enabled(s, move)
    ensures |Next(s, move).db.events| + MoveRemoved(s, move) + TotalCredit(s.threads)
            == |s.db.events| + TotalCredit(Next(s, move).threads)
  {
    hide Apply;
    hide Accepting;
    hide ThreadNext;
    hide Removed;
    hide Credit;
    var cmd := MoveCommand(s, move);
    if cmd.Some? {
      EventCount(s.db, cmd.value);
    }
    match move
    case Spawn(thread) => SpawnEarnsNothing(s.threads, thread);
    case Advance(t, env) =>
      ThreadEarns(s.db, s.threads[t], env);
      hide ThreadCommand;
      TotalCreditUpdate(s.threads, t, ThreadNext(s.db, s.threads[t], env));
    case Administer(_) =>
  }

  lemma SpawnEarnsNothing(threads: seq<Thread>, thread: Thread)
    requires IsRequest(thread)
    ensures TotalCredit(threads + [thread]) == TotalCredit(threads)
  {
    assert (threads + [thread])[..|threads|] == threads;
  }

  /** Along every run, even when inserts fail at random: the initial events and the events that
      `Track` calls counted are the final events and the removed ones. */
  lemma {:induction false} RunConserves(states: seq<System>, moves: seq<Move>, i: nat)
    requires IsRun(states, moves) && states[0].threads == [] && i < |states|
    ensures |states[0].db.events| + TotalCredit(states[i].threads)
            == |states[i].db.events| + TotalRemoved(states, moves, i)
  {
    hide Next;
    if i > 0 {
      RunConserves(states, moves, i - 1);
      MoveConserves(states[i - 1], moves[i - 1]);
    }
  }

  // ---------------------------------------------------------------------------------------
  // First write wins
  // ---------------------------------------------------------------------------------------

  /** While an event stays stored no move rewrites it; its user link is cleared only by the
      disappearance of that user's row. */
  lemma {:induction false} FirstWriteWins(states: seq<System>, moves: seq<Move>, i: nat, j: nat, e: string)
    requires IsRun(states, moves) && i <= j < |states|
    requires forall k | i <= k <= j :: e in states[k].db.events
    ensures var before, after := states[i].db.events[e], states[j].db.events[e];
            || after == before
            || (&& before.userId.Some? && after == before.(userId := None)
                && exists k :: i < k <= j && before.userId.value !in states[k].db.users)
  {
    hide Apply;
    if i < j {
      FirstWriteWins(states, moves, i, j - 1, e);
      var s, cmd := states[j - 1], MoveCommand(states[j - 1], moves[j - 1]);
      assert states[j] == Next(s, moves[j - 1]);
      if cmd.Some? {
        EventsAreNotRewritten(s.db, cmd.value, e);
      }
    }
  }

  /** While a device stays stored it keeps its project, its platform and its first sighting, whichever
      project registers it again. */
  lemma {:induction false} DevicesStay(states: seq<System>, moves: seq<Move>, i: nat, j: nat, d: string)
    requires IsRun(states, moves) && i <= j < |states|
    requires forall k | i <= k <= j :: d in states[k].db.devices
    ensures SameDevice(states[i].db, states[j].db, d)
  {
    hide Apply;
    if i < j {
      DevicesStay(states, moves, i, j - 1, d);
      var s, cmd := states[j - 1], MoveCommand(states[j - 1], moves[j - 1]);
      assert states[j] == Next(s, moves[j - 1]);
      if cmd.Some? {
        DevicesAreNotMoved(s.db, cmd.value, d);
      }
    }
  }

  // ---------------------------------------------------------------------------------------
  // One user per anonymous id
  // ---------------------------------------------------------------------------------------

  /** `GetOrCreateAppUser` has returned `userId` to this thread. */
  predicate Got(thread: Thread, projectId: int, anonymousId: string, userId: int) {
    || (thread.Linking? && thread.projectId == projectId && thread.anonymousId == anonymousId
        && thread.userId == userId)
    || thread == Identified(projectId, anonymousId, userId)
  }

  /** The call has returned since the earlier state. */
  predicate GotSince(earlier: System, s: System, t: int, projectId: int, anonymousId: string, userId: int) {
    && 0 <= t < |s.threads| && Got(s.threads[t], projectId, anonymousId, userId)
    && !(t < |earlier.threads| && Got(earlier.threads[t], projectId, anonymousId, userId))
  }

  ghost predicate GotStored(earlier: System, s: System, projectId: int) {
    && |earlier.threads| <= |s.threads|
    && (forall t, a, u | 0 <= t < |earlier.threads| && Got(earlier.threads[t], projectId, a, u) ::
          Got(s.threads[t], projectId, a, u) || s.threads[t].Errored?)
    && (forall t, a, u | GotSince(earlier, s, t, projectId, a, u) :: IsUser(s.db, u, projectId, a))
  }

  /** A call that has returned an id keeps it, or ends with an error of the link. */
  lemma GotStays(db: Database, thread: Thread, env: Env, projectId: int, anonymousId: string, userId: int)
    requires Got(thread, projectId, anonymousId, userId)
    ensures Got(ThreadNext(db, thread, env), projectId, anonymousId, userId) || ThreadNext(db, thread, env).Errored?
  {
  }

  /** A thread gets an id by finding the row, by inserting it, or has it already. */
  lemma GotNow(db: Database, thread: Thread, env: Env, projectId: int, anonymousId: string, userId: int)
    requires Got(ThreadNext(db, thread, env), projectId, anonymousId, userId)
    ensures || Got(thread, projectId, anonymousId, userId)
            || IsUser(db, userId, projectId, anonymousId)
            || (&& thread.Creating? && !env.fails && projectId in db.projects && userId == env.newId
                && !UserTaken(db, projectId, anonymousId)
                && ThreadCommand(db, thread, env) == Some(InsertUser(userId, projectId, anonymousId)))
  {
  }

  lemma MoveKeepsGot(earlier: System, s: System, move: Move, projectId: int)
    requires Enabled(s, move) && GotStored(earlier, s, projectId)
    requires move != Administer(DeleteProject(projectId))
    ensures GotStored(earlier, Next(s, move), projectId)
  {
    hide Apply;
    hide ThreadNext;
    hide ThreadCommand;
    var after, cmd := Next(s, move), MoveCommand(s, move);
    forall t, a, u | 0 <= t < |earlier.threads| && Got(earlier.threads[t], projectId, a, u)
      ensures Got(after.threads[t], projectId, a, u) || after.threads[t].Errored?
    {
      if s.threads[t].Errored? {
        ErrorStays(s, move, t);
      }
      if move.Advance? && move.t == t && Got(s.threads[t], projectId, a, u) {
        GotStays(s.db, s.threads[t], move.env, projectId, a, u);
      }
    }
    forall t, a, u | GotSince(earlier, after, t, projectId, a, u) ensures IsUser(after.db, u, projectId, a) {
      GotIsStored(earlier, s, move, projectId, t, a, u);
    }
  }

  lemma ErrorStays(s: System, move: Move, t: nat)
    requires Enabled(s, move) && t < |s.threads| && s.threads[t].Errored?
    ensures Next(s, move).threads[t].Errored?
  {
    hide Apply;
  }

  /** Whose statement it is, and which ones a thread runs. */
  lemma CommandOfMove(s: System, move: Move)
    requires Enabled(s, move) && MoveCommand(s, move).Some?
    ensures FreshId(s.db, MoveCommand(s, move).value)
    ensures MoveCommand(s, move).value.DeleteProject? ==> move == Administer(MoveCommand(s, move).value)
  {
  }

  lemma GotBefore(earlier: System, s: System, move: Move, projectId: int, t: nat, a: string, u: int)
    requires Enabled(s, move) && GotStored(earlier, s, projectId)
    requires GotSince(earlier, Next(s, move), t, projectId, a, u)
    ensures || IsUser(s.db, u, projectId, a)
            || (&& projectId in s.db.projects && !UserTaken(s.db, projectId, a)
                && MoveCommand(s, move) == Some(InsertUser(u, projectId, a)))
  {
    hide Apply;
    hide ThreadNext;
    hide ThreadCommand;
    if move.Advance? && move.t == t {
      GotNow(s.db, s.threads[t], move.env, projectId, a, u);
    }
    if t < |s.threads| && Got(s.threads[t], projectId, a, u) {
      assert GotSince(earlier, s, t, projectId, a, u);
    }
  }

  lemma GotIsStored(earlier: System, s: System, move: Move, projectId: int, t: nat, a: string, u: int)
    requires Enabled(s, move) && GotStored(earlier, s, projectId)
    requires move != Administer(DeleteProject(projectId))
    requires GotSince(earlier, Next(s, move), t, projectId, a, u)
    ensures IsUser(Next(s, move).db, u, projectId, a)
  {
    hide Apply;
    hide ThreadNext;
    GotBefore(earlier, s, move, projectId, t, a, u);
    hide GotStored;
    hide GotSince;
    var cmd := MoveCommand(s, move);
    if cmd.Some? {
      CommandOfMove(s, move);
      hide ThreadCommand;
      if IsUser(s.db, u, projectId, a) {
        UsersStay(s.db, cmd.value, u);
      } else {
        InsertedUser(s.db, u, projectId, a);
      }
    }
  }

  lemma InsertedUser(db: Database, id: int, projectId: int, anonymousId: string)
    ensures projectId in db.projects && !UserTaken(db, projectId, anonymousId) ==>
              IsUser(Apply(db, InsertUser(id, projectId, anonymousId)), id, projectId, anonymousId)
  {
  }

  lemma {:induction false} RunKeepsGot(states: seq<System>, moves: seq<Move>, m: nat, i: nat, projectId: int)
    requires IsRun(states, moves) && m <= i < |states|
    requires forall k | m <= k < i :: moves[k] != Administer(DeleteProject(projectId))
    ensures GotStored(states[m], states[i], projectId)
  {
    hide Next;
    if m < i {
      RunKeepsGot(states, moves, m, i - 1, projectId);
      assert moves[i - 1] != Administer(DeleteProject(projectId));
      MoveKeepsGot(states[m], states[i - 1], moves[i - 1], projectId);
    }
  }

  /** Over any interleaving of any number of calls, all calls of `GetOrCreateAppUser` that have
      succeeded for one anonymous id since the last deletion of the project returned the same id, and
      it is the id of the only row for that pair. */
  lemma SameUserForAll(states: seq<System>, moves: seq<Move>, m: nat, i: nat, projectId: int, anonymousId: string,
                       t: nat, u: int, t': nat, u': int)
    requires IsRun(states, moves) && Initial(states[0]) && m <= i < |states|
    requires forall k | m <= k < i :: moves[k] != Administer(DeleteProject(projectId))
    requires GotSince(states[m], states[i], t, projectId, anonymousId, u)
    requires GotSince(states[m], states[i], t', projectId, anonymousId, u')
    ensures u == u'
    ensures forall v :: IsUser(states[i].db, v, projectId, anonymousId) <==> v == u
  {
    RunKeepsGot(states, moves, m, i, projectId);
    RunKeepsConsistent(states, moves, i);
    hide Next;
    hide Closed;
    assert IsUser(states[i].db, u, projectId, anonymousId);
    assert IsUser(states[i].db, u', projectId, anonymousId);
  }

  // ---------------------------------------------------------------------------------------
  // An `Identify` request that runs alone
  // ---------------------------------------------------------------------------------------

  /** Select, insert when nothing was found, and link, with nothing in between. */
  ghost function IdentifyInTurn(s: System, t: nat, newId: int, otherId: int, selectFails: bool, insertFails: bool,
                                linkFails: bool): System
    requires t < |s.threads| && s.threads[t].Selecting?
    requires newId !in s.db.users && otherId !in s.db.users && newId != otherId
  {
    var selected := Next(s, Advance(t, Env(0, selectFails, newId)));
    var created :=
      if selected.threads[t].Creating? && newId !in selected.db.users
      then Next(selected, Advance(t, Env(0, insertFails, newId))) else selected;
    if created.threads[t].Linking? && otherId !in created.db.users
    then Next(created, Advance(t, Env(0, linkFails, otherId))) else created
  }

  function Answer(thread: Thread): Response {
    match thread
    case Identified(_, _, userId) => UserId(userId)
    case Errored => ServerError
    case _ => Rejected
  }

  lemma SelectStep(s: System, t: nat, env: Env)
    requires t < |s.threads| && env.newId !in s.db.users && s.threads[t].Selecting?
    ensures var Selecting(projectId, deviceId, anonymousId) := s.threads[t];
            var user := FindUser(s.db, projectId, anonymousId);
            Next(s, Advance(t, env)) ==
            System(s.db, s.threads[t := if env.fails then Errored
                                        else if user.Some? then Linking(projectId, deviceId, anonymousId, user.value)
                                        else Creating(projectId, deviceId, anonymousId)], s.sources)
  {
  }

  lemma CreateStep(s: System, t: nat, env: Env)
    requires t < |s.threads| && env.newId !in s.db.users && s.threads[t].Creating?
    ensures var Creating(projectId, deviceId, anonymousId) := s.threads[t];
            var ok := !env.fails && projectId in s.db.projects && !UserTaken(s.db, projectId, anonymousId);
            Next(s, Advance(t, env)) ==
            System(if ok then WithUser(s.db, env.newId, projectId, anonymousId) else s.db,
                   s.threads[t := if ok then Linking(projectId, deviceId, anonymousId, env.newId) else Errored],
                   s.sources)
  {
  }

  lemma LinkStep(s: System, t: nat, env: Env)
    requires t < |s.threads| && env.newId !in s.db.users && s.threads[t].Linking?
    requires s.threads[t].userId in s.db.users
    ensures var Linking(projectId, deviceId, anonymousId, userId) := s.threads[t];
            Next(s, Advance(t, env)) ==
            System(if env.fails then s.db else WithLink(s.db, deviceId, userId),
                   s.threads[t := if env.fails then Errored else Identified(projectId, anonymousId, userId)], s.sources)
  {
  }

  /** From the link on. */
  lemma LinkAlone(db: Database, s: System, t: nat, env: Env, newId: int, createFails: bool)
    requires t < |s.threads| && env.newId !in s.db.users && s.threads[t].Linking?
    requires var Linking(projectId, _, anonymousId, userId) := s.threads[t];
             && s.db == WithUser(db, newId, projectId, anonymousId) && IsUser(s.db, userId, projectId, anonymousId)
             && !createFails && (projectId in db.projects || UserTaken(db, projectId, anonymousId))
    ensures var Linking(projectId, deviceId, anonymousId, _) := s.threads[t];
            var after := Next(s, Advance(t, env));
            && |after.threads| == |s.threads|
            && Identifies(db, projectId, IdentifyRequest(deviceId, anonymousId), newId, createFails, env.fails,
                          after.db, Answer(after.threads[t]))
  {
    hide Next;
    hide WithUser;
    hide WithLink;
    hide UserTaken;
    LinkStep(s, t, env);
  }

  /** Undisturbed, a thread does to the database and answers what the handler does. */
  lemma IdentifyAlone(s: System, t: nat, newId: int, otherId: int, selectFails: bool, insertFails: bool,
                      linkFails: bool)
    requires t < |s.threads| && s.threads[t].Selecting?
    requires newId !in s.db.users && otherId !in s.db.users && newId != otherId
    ensures var Selecting(projectId, deviceId, anonymousId) := s.threads[t];
            var after := IdentifyInTurn(s, t, newId, otherId, selectFails, insertFails, linkFails);
            var createFails := selectFails || (insertFails && !UserTaken(s.db, projectId, anonymousId));
            && |after.threads| == |s.threads|
            && Identifies(s.db, projectId, IdentifyRequest(deviceId, anonymousId), newId, createFails, linkFails,
                          after.db, Answer(after.threads[t]))
  {
    hide Next;
    hide UserTaken;
    hide FindUser;
    var Selecting(projectId, deviceId, anonymousId) := s.threads[t];
    var select, insert, link := Env(0, selectFails, newId), Env(0, insertFails, newId), Env(0, linkFails, otherId);
    var createFails := selectFails || (insertFails && !UserTaken(s.db, projectId, anonymousId));
    SelectStep(s, t, select);
    var selected := Next(s, Advance(t, select));
    if selected.threads[t].Creating? {
      CreateStep(selected, t, insert);
      var created := Next(selected, Advance(t, insert));
      if created.threads[t].Linking? {
        hide Identifies;
        LinkAlone(s.db, created, t, link, newId, createFails);
      }
    } else if selected.threads[t].Linking? {
      hide Identifies;
      LinkAlone(s.db, selected, t, link, newId, createFails);
    }
  }
}
