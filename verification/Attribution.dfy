/** Which user an event is attributed to after its device was identified. */
module Attribution {
  import opened Options
  import opened Schema
  import opened Tracking
  import opened Effects
  import opened Runs

  /** An event tracked without a user id after a successful `Identify` on its stored device has the user that
      `Identify` answered. */
  lemma IdentifiedThenTracked(db: Database, projectId: int, id: IdentifyRequest, newId: int, linked: Database, u: int,
                              trackedBy: int, req: TrackRequest, location: Location, fates: seq<Fate>, e: string)
    requires newId !in db.users && id.deviceId in db.devices
    requires Identifies(db, projectId, id, newId, false, false, linked, UserId(u))
    requires req.deviceId == id.deviceId && req.userId == None && |fates| == |req.events|
    requires var after := TrackCall(linked, trackedBy, req, location, false, fates).db;
             e in after.events && e !in linked.events
    ensures TrackCall(linked, trackedBy, req, location, false, fates).db.events[e].userId == Some(u)
  {
    hide Identifies;
    hide TrackAll;
    hide FromEntry;
    hide AddsUser;
    IdentifiesLinks(db, projectId, id, newId, false, false, linked, u);
    TrackAdds(linked, trackedBy, req, location, false, fates);
  }

  // ---------------------------------------------------------------------------------------
  // Along runs
  // ---------------------------------------------------------------------------------------

  ghost predicate HasUser(s: System, d: string, u: int) {
    d in s.db.devices && s.db.devices[d].userId == Some(u)
  }

  /** The move links the device again. */
  predicate Relinks(s: System, move: Move, d: string)
    requires Enabled(s, move)
  {
    var cmd := MoveCommand(s, move);
    cmd.Some? && cmd.value.LinkDevice? && cmd.value.deviceId == d
  }

  lemma MoveKeepsLink(s: System, move: Move, d: string, u: int)
    requires Enabled(s, move) && HasUser(s, d, u) && !Relinks(s, move, d)
    requires d in Next(s, move).db.devices && u in Next(s, move).db.users
    ensures HasUser(Next(s, move), d, u)
  {
    hide Apply;
    hide ThreadCommand;
    var cmd := MoveCommand(s, move);
    if cmd.Some? {
      LinksStay(s.db, cmd.value, d);
    }
  }

  lemma {:induction false} LinkStays(states: seq<System>, moves: seq<Move>, i: nat, j: nat, d: string, u: int)
    requires IsRun(states, moves) && i <= j < |states| && HasUser(states[i], d, u)
    requires forall k | i <= k < j :: !Relinks(states[k], moves[k], d)
    requires forall k | i < k <= j :: d in states[k].db.devices && u in states[k].db.users
    ensures HasUser(states[j], d, u)
  {
    hide Next;
    hide HasUser;
    if i < j {
      LinkStays(states, moves, i, j - 1, d, u);
      assert Enabled(states[j - 1], moves[j - 1]) && Next(states[j - 1], moves[j - 1]) == states[j];
      assert d in states[j].db.devices && u in states[j].db.users && !Relinks(states[j - 1], moves[j - 1], d);
      MoveKeepsLink(states[j - 1], moves[j - 1], d, u);
    }
  }

  /** A thread that answers with a user has linked its device, if that is stored. */
  lemma IdentifiedHasUser(s: System, t: nat, env: Env, d: string)
    requires Enabled(s, Advance(t, env)) && s.threads[t].Linking? && s.threads[t].deviceId == d
    requires d in s.db.devices && Next(s, Advance(t, env)).threads[t].Identified?
    ensures HasUser(Next(s, Advance(t, env)), d, s.threads[t].userId)
  {
  }

  lemma LooksUp(s: System, q: nat, look: Env)
    requires Enabled(s, Advance(q, look)) && s.threads[q].Looking? && !look.fails
    requires s.threads[q].req.userId == None && s.threads[q].req.deviceId in s.db.devices
    ensures Gives(Next(s, Advance(q, look)).threads[q], s.db.devices[s.threads[q].req.deviceId].userId)
  {
  }

  /** The thread has answered, or gives its events this user. */
  predicate Gives(thread: Thread, userId: Option<int>) {
    || thread.Tracked?
    || (thread.Tracking? && thread.ctx.userId == userId)
    || (thread.Writing? && thread.ctx.userId == userId)
  }

  lemma MoveKeepsGiven(s: System, move: Move, q: nat, userId: Option<int>)
    requires Enabled(s, move) && q < |s.threads| && Gives(s.threads[q], userId)
    ensures q < |Next(s, move).threads| && Gives(Next(s, move).threads[q], userId)
  {
    hide Apply;
    hide ThreadCommand;
    hide Accepting;
  }

  lemma {:induction false} GivenStays(states: seq<System>, moves: seq<Move>, i: nat, j: nat, q: nat,
                                      userId: Option<int>)
    requires IsRun(states, moves) && i <= j < |states| && q < |states[i].threads| && Gives(states[i].threads[q], userId)
    ensures q < |states[j].threads| && Gives(states[j].threads[q], userId)
  {
    hide Next;
    hide Gives;
    if i < j {
      GivenStays(states, moves, i, j - 1, q, userId);
      MoveKeepsGiven(states[j - 1], moves[j - 1], q, userId);
    }
  }

  /** An event that a thread inserts has the user that the thread gives. */
  lemma InsertedHasUser(s: System, q: nat, env: Env, userId: Option<int>, e: string)
    requires Enabled(s, Advance(q, env)) && Gives(s.threads[q], userId)
    requires e !in s.db.events && e in Next(s, Advance(q, env)).db.events
    ensures Next(s, Advance(q, env)).db.events[e].userId == userId
  {
    var cmd := ThreadCommand(s.db, s.threads[q], env);
    if cmd.Some? {
      CommandGives(s.db, s.threads[q], env, userId);
    }
    hide ThreadCommand;
    hide ThreadNext;
    hide Accepting;
    hide Apply;
    if cmd.Some? {
      if cmd.value.InsertEvent? {
        InsertAddsOnly(s.db, cmd.value.eventId, cmd.value.event, cmd.value.storable, e);
      } else {
        OtherCount(s.db, cmd.value);
      }
    }
  }

  lemma CommandGives(db: Database, thread: Thread, env: Env, userId: Option<int>)
    requires Gives(thread, userId) && ThreadCommand(db, thread, env).Some?
    ensures var cmd := ThreadCommand(db, thread, env).value;
            && !cmd.DeleteProject? && !cmd.CleanupEvents? && (cmd.InsertEvent? ==> cmd.event.userId == userId)
  {
    hide WellFormed;
    hide Accepts;
  }

  lemma InsertAddsOnly(db: Database, eventId: string, event: Event, storable: bool, e: string)
    requires e !in db.events && e in Apply(db, Command.InsertEvent(eventId, event, storable)).events
    ensures Apply(db, Command.InsertEvent(eventId, event, storable)).events[e] == event
  {
    hide Accepts;
  }

  /** In every run, from the moment an `Identify` request answers with a user: a request that is tracked without
      a user id and looks the device up, before the device is linked again or it or the user is deleted, gives
      every event that it inserts to that user. */
  lemma IdentifiedIsAttributed(states: seq<System>, moves: seq<Move>, i: nat, t: nat, env: Env, j: nat, q: nat,
                               look: Env, m: nat, insert: Env, e: string)
    requires IsRun(states, moves) && i < j < m < |moves|
    requires moves[i] == Advance(t, env) && states[i].threads[t].Linking? && states[i + 1].threads[t].Identified?
    requires moves[j] == Advance(q, look) && states[j].threads[q].Looking? && !look.fails
    requires var d, u := states[i].threads[t].deviceId, states[i].threads[t].userId;
             && states[j].threads[q].req.deviceId == d && states[j].threads[q].req.userId == None
             && d in states[i].db.devices
             && (forall k | i < k < j :: !Relinks(states[k], moves[k], d))
             && (forall k | i < k <= j :: d in states[k].db.devices && u in states[k].db.users)
    requires moves[m] == Advance(q, insert) && e !in states[m].db.events && e in states[m + 1].db.events
    ensures states[m + 1].db.events[e].userId == Some(states[i].threads[t].userId)
  {
    var d, u := states[i].threads[t].deviceId, states[i].threads[t].userId;
    IdentifiedHasUser(states[i], t, env, d);
    LinkStays(states, moves, i + 1, j, d, u);
    LooksUp(states[j], q, look);
    hide Next;
    hide Gives;
    GivenStays(states, moves, j + 1, m, q, Some(u));
    InsertedHasUser(states[m], q, insert, Some(u), e);
  }
}
