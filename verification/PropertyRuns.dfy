/** The property rows of an event under interleaved `Track` calls. */
module PropertyRuns {
  import opened Options
  import opened Schema
  import opened Tracking
  import opened Effects
  import opened Runs
  import TrackLaws

  /** Thread `t` has inserted event `e` and has not yet run its property transaction. */
  predicate Pending(s: System, t: int, e: string) {
    0 <= t < |s.threads| && s.threads[t].Writing? && s.threads[t].ev.id == e
  }

  /** That transaction would write rows, if the event is still stored. */
  predicate Due(s: System, t: int, e: string) {
    Pending(s, t, e) && StoredRows(s.db.driver, s.threads[t].ev.properties) != multiset{}
  }

  // ---------------------------------------------------------------------------------------
  // What holds in every run
  // ---------------------------------------------------------------------------------------

  /** The events of pending transactions passed the checks and the driver. */
  ghost predicate PendingCandidates(s: System) {
    forall t, e | Pending(s, t, e) :: TrackLaws.CandidateKey(s.db.driver, s.threads[t].ev) == Some(e)
  }

  /** A stored event with a pending transaction was inserted in this run. */
  ghost predicate PendingSourced(s: System) {
    forall t, e | Pending(s, t, e) && e in s.db.events :: e in s.sources
  }

  ghost predicate SourcesStored(s: System) {
    forall e | e in s.sources :: e in s.db.events
  }

  ghost predicate Sane(s: System) {
    Closed(s.db) && PendingCandidates(s) && PendingSourced(s) && SourcesStored(s)
  }

  // ---------------------------------------------------------------------------------------
  // The property of the rows, and the states that keep it
  // ---------------------------------------------------------------------------------------

  /** The rows are none, or exactly those made for the one accepted request event. */
  predicate NoneOrExact(db: Database, e: string, source: TrackEvent) {
    RowsOf(db, e) == multiset{} || RowsOf(db, e) == PropertyBag(source.properties)
  }

  ghost predicate SourcesExact(s: System) {
    forall e | e in s.sources :: NoneOrExact(s.db, e, s.sources[e])
  }

  ghost predicate OthersDistinct(s: System) {
    forall e | e in s.db.events && e !in s.sources :: DistinctKeys(RowsOf(s.db, e))
  }

  /** Every event inserted in the run has no rows or exactly its own, and no other event has two rows
      with one key. */
  ghost predicate RowsSound(s: System) {
    SourcesExact(s) && OthersDistinct(s)
  }

  ghost predicate CalmAt(s: System, t: int, e: string)
    requires Pending(s, t, e)
  {
    && e in s.db.events && e in s.sources && RowsOf(s.db, e) == multiset{}
    && PropertyBag(s.threads[t].ev.properties) == PropertyBag(s.sources[e].properties)
  }

  ghost predicate DueOnce(s: System) {
    forall t, t', e | Due(s, t, e) && Due(s, t', e) :: t == t'
  }

  /** Every transaction that is due writes the rows of the stored event, which has none yet, and no
      other one is due for that event. */
  ghost predicate Calm(s: System) {
    (forall t, e | Due(s, t, e) :: CalmAt(s, t, e)) && DueOnce(s)
  }

  /** The move deletes no stored event for which a transaction is due. */
  ghost predicate SparesDue(s: System, move: Move)
    requires Enabled(s, move)
  {
    forall t, e | Due(s, t, e) && e in s.db.events :: e in NextDB(s, move).events
  }

  // ---------------------------------------------------------------------------------------
  // Three effects of a move
  // ---------------------------------------------------------------------------------------

  /** An accepted insert. */
  ghost predicate InsertedBy(s: System, t: nat, ev: TrackEvent, after: System) {
    && t < |s.threads| && !s.threads[t].Writing?
    && TrackLaws.CandidateKey(s.db.driver, ev) == Some(ev.id)
    && ev.id !in s.db.events && ev.id !in s.db.properties
    && after.db.driver == s.db.driver
    && after.db.events.Keys == s.db.events.Keys + {ev.id}
    && after.db.properties == s.db.properties
    && after.sources == s.sources[ev.id := ev]
    && |after.threads| == |s.threads|
    && (forall i | 0 <= i < |s.threads| && i != t :: after.threads[i] == s.threads[i])
    && (after.threads[t].Writing? ==> after.threads[t].ev == ev)
  }

  /** A property transaction, committed or refused. */
  ghost predicate WrittenBy(s: System, t: nat, after: System) {
    && t < |s.threads| && s.threads[t].Writing?
    && after.db == WithProperties(s.db, s.threads[t].ev.id, PropertyBag(s.threads[t].ev.properties))
    && after.sources == s.sources
    && |after.threads| == |s.threads|
    && (forall i | 0 <= i < |s.threads| && i != t :: after.threads[i] == s.threads[i])
    && !after.threads[t].Writing?
  }

  /** Events and their rows are left alone, or some are deleted; no transaction becomes pending. */
  ghost predicate LeftBy(s: System, after: System) {
    && after.db.driver == s.db.driver
    && (forall e | e in after.db.events :: e in s.db.events && RowsOf(after.db, e) == RowsOf(s.db, e))
    && (forall t, e | Pending(after, t, e) :: Pending(s, t, e) && s.threads[t] == after.threads[t])
    && after.sources == map e | e in s.sources && e in after.db.events :: s.sources[e]
  }

  lemma InsertEffect(s: System, t: nat, env: Env)
    requires t < |s.threads| && env.newId !in s.db.users && Closed(s.db)
    requires Accepting(s.db, s.threads[t], env)
    ensures InsertedBy(s, t, s.threads[t].todo[0], Next(s, Advance(t, env)))
  {
    hide WellFormed;
    hide StorableOption;
  }

  lemma WriteEffect(s: System, t: nat, env: Env)
    requires t < |s.threads| && env.newId !in s.db.users
    requires s.threads[t].Writing? && !env.fails
    ensures WrittenBy(s, t, Next(s, Advance(t, env)))
  {
    hide PropertyBag;
    hide WithProperties;
  }

  lemma OtherEffect(s: System, move: Move)
    requires Enabled(s, move) && SourcesStored(s)
    requires move.Advance? ==> !Accepting(s.db, s.threads[move.t], move.env)
    requires move.Advance? && s.threads[move.t].Writing? ==> move.env.fails
    ensures LeftBy(s, Next(s, move))
  {
    hide Accepting;
    hide Apply;
    hide RowsOf;
    var after, cmd := Next(s, move), MoveCommand(s, move);
    if cmd.Some? {
      DriverStays(s.db, cmd.value);
      forall e | e in after.db.events ensures e in s.db.events && RowsOf(after.db, e) == RowsOf(s.db, e) {
        RowsAreNotRewritten(s.db, cmd.value, e);
      }
    }
    if cmd.Some? && move.Advance? {
      forall e | e in s.db.events ensures e in after.db.events {
        EventsOnlyDeleted(s.db, cmd.value, e);
      }
    }
  }

  lemma DriverStays(db: Database, cmd: Command)
    ensures Apply(db, cmd).driver == db.driver
  {
  }

  lemma EventsOnlyDeleted(db: Database, cmd: Command, e: string)
    requires e in db.events && !cmd.DeleteProject? && !cmd.CleanupEvents?
    ensures e in Apply(db, cmd).events
  {
  }

  lemma ApplyKeepsClosed(db: Database, cmd: Command)
    requires Closed(db)
    ensures Closed(Apply(db, cmd))
  {
    hide Closed;
    hide Apply;
    if cmd.CreateProject? || cmd.UpdateProject? || cmd.DeleteProject? {
      ProjectCommandKeepsClosed(db, cmd);
    } else if cmd.CreateToken? || cmd.UpdateToken? || cmd.DeleteToken? {
      TokenCommandKeepsClosed(db, cmd);
    } else if cmd.UpsertDevice? || cmd.LinkDevice? || cmd.InsertUser? {
      DeviceCommandKeepsClosed(db, cmd);
    } else {
      EventCommandKeepsClosed(db, cmd);
    }
  }

  lemma MoveEffect(s: System, move: Move)
    requires Enabled(s, move) && Closed(s.db) && SourcesStored(s)
    ensures Closed(Next(s, move).db)
    ensures || (exists t: nat, ev :: InsertedBy(s, t, ev, Next(s, move)))
            || (exists t: nat :: WrittenBy(s, t, Next(s, move)))
            || LeftBy(s, Next(s, move))
  {
    MoveKeepsClosed(s, move);
    hide Closed;
    hide Next;
    hide LeftBy;
    hide WrittenBy;
    hide InsertedBy;
    if move.Advance? && Accepting(s.db, s.threads[move.t], move.env) {
      InsertEffect(s, move.t, move.env);
    } else if move.Advance? && s.threads[move.t].Writing? && !move.env.fails {
      WriteEffect(s, move.t, move.env);
    } else {
      OtherEffect(s, move);
    }
  }

  lemma MoveKeepsClosed(s: System, move: Move)
    requires Enabled(s, move) && Closed(s.db)
    ensures Closed(Next(s, move).db)
  {
    hide Closed;
    hide Apply;
    var cmd := MoveCommand(s, move);
    if cmd.Some? {
      ApplyKeepsClosed(s.db, cmd.value);
    }
  }

  // ---------------------------------------------------------------------------------------
  // Each effect keeps what holds in every run
  // ---------------------------------------------------------------------------------------

  lemma EffectKeepsSane(s: System, after: System)
    requires Sane(s) && Closed(after.db)
    requires || (exists t: nat, ev :: InsertedBy(s, t, ev, after))
             || (exists t: nat :: WrittenBy(s, t, after))
             || LeftBy(s, after)
    ensures Sane(after)
  {
    hide Closed;
    hide PropertyBag;
    hide TrackLaws.CandidateKey;
    hide RowsOf;
    if t: nat, ev :| InsertedBy(s, t, ev, after) {
      forall i, e | Pending(after, i, e) ensures if i == t then e == ev.id else Pending(s, i, e) {}
    } else if t: nat :| WrittenBy(s, t, after) {
      WriteKeepsEvents(s.db, s.threads[t].ev.id, PropertyBag(s.threads[t].ev.properties));
      hide WithProperties;
      forall i, e | Pending(after, i, e) ensures i != t && Pending(s, i, e) {}
    }
  }

  lemma WriteKeepsEvents(db: Database, e: string, rows: multiset<Property>)
    ensures var after := WithProperties(db, e, rows);
            after.driver == db.driver && after.events == db.events && after.users == db.users
  {
  }

  lemma MoveKeepsSane(s: System, move: Move)
    requires Enabled(s, move) && Sane(s)
    ensures Sane(Next(s, move))
  {
    MoveEffect(s, move);
    hide Next;
    hide InsertedBy;
    hide WrittenBy;
    hide LeftBy;
    EffectKeepsSane(s, Next(s, move));
  }

  /** In every state of every run, whatever is deleted: a pending transaction belongs to an event that
      passed the checks, and when that event is stored it was inserted in this run. */
  lemma {:induction false} RunKeepsSane(states: seq<System>, moves: seq<Move>, i: nat)
    requires IsRun(states, moves) && Sane(states[0]) && i < |states|
    ensures Sane(states[i])
  {
    hide Sane;
    hide Next;
    if i > 0 {
      RunKeepsSane(states, moves, i - 1);
      MoveKeepsSane(states[i - 1], moves[i - 1]);
    }
  }

  lemma InitialIsSane(s: System)
    requires Initial(s)
    ensures Sane(s) && Calm(s)
  {
    hide Closed;
  }

  // ---------------------------------------------------------------------------------------
  // Each effect keeps calm
  // ---------------------------------------------------------------------------------------

  lemma InsertKeepsCalm(s: System, t: nat, ev: TrackEvent, after: System)
    requires InsertedBy(s, t, ev, after) && Calm(s) && RowsSound(s)
    ensures Calm(after) && RowsSound(after)
  {
    hide PropertyBag;
    hide StoredRows;
    hide DistinctKeys;
    hide TrackLaws.CandidateKey;
    assert forall e :: RowsOf(after.db, e) == RowsOf(s.db, e);
    forall i, e | Due(after, i, e) ensures if i == t then e == ev.id else Due(s, i, e) && e != ev.id {}
  }

  /** A transaction that is not due changes nothing; one that is adds its rows. */
  lemma WriteRows(db: Database, e: string, properties: map<string, PropertyValue>)
    ensures var after := WithProperties(db, e, PropertyBag(properties));
            && (StoredRows(db.driver, properties) == multiset{} ==> after == db)
            && (forall f | f != e :: RowsOf(after, f) == RowsOf(db, f))
            && (StoredRows(db.driver, properties) != multiset{} && e in db.events ==>
                  RowsOf(after, e) == RowsOf(db, e) + PropertyBag(properties) && PropertyBag(properties) != multiset{})
  {
    hide PropertyBag;
    hide StorableRows;
    var rows := PropertyBag(properties);
    if rows == multiset{} {
      assert AddRows(db.properties, e, rows) == db.properties;
    }
  }

  lemma WriteKeepsCalm(s: System, t: nat, after: System)
    requires WrittenBy(s, t, after) && Calm(s) && RowsSound(s)
    ensures Calm(after) && RowsSound(after)
  {
    hide PropertyBag;
    hide StoredRows;
    hide DistinctKeys;
    hide WithProperties;
    hide RowsOf;
    var ev := s.threads[t].ev;
    WriteRows(s.db, ev.id, ev.properties);
    WriteKeepsEvents(s.db, ev.id, PropertyBag(ev.properties));
    forall i, e | Due(after, i, e) ensures i != t && Due(s, i, e) {}
    if Due(s, t, ev.id) {
      assert CalmAt(s, t, ev.id);
      assert RowsOf(after.db, ev.id) == PropertyBag(ev.properties);
    }
  }

  lemma LeftKeepsCalm(s: System, after: System)
    requires LeftBy(s, after) && Calm(s) && RowsSound(s)
    requires forall t, e | Due(s, t, e) && e in s.db.events :: e in after.db.events
    ensures Calm(after) && RowsSound(after)
  {
    hide PropertyBag;
    hide StoredRows;
    hide DistinctKeys;
    hide RowsOf;
    forall t, e | Due(after, t, e) ensures Due(s, t, e) && CalmAt(s, t, e) {}
  }

  lemma MoveKeepsCalm(s: System, move: Move)
    requires Enabled(s, move) && Sane(s) && Calm(s) && RowsSound(s) && SparesDue(s, move)
    ensures Calm(Next(s, move)) && RowsSound(Next(s, move))
  {
    MoveEffect(s, move);
    hide InsertedBy;
    hide WrittenBy;
    hide LeftBy;
    hide Calm;
    hide RowsSound;
    hide Due;
    hide NextDB;
    hide Closed;
    hide PendingCandidates;
    var after := Next(s, move);
    assert after.db == NextDB(s, move);
    hide Next;
    if t: nat, ev :| InsertedBy(s, t, ev, after) {
      InsertKeepsCalm(s, t, ev, after);
    } else if t: nat :| WrittenBy(s, t, after) {
      WriteKeepsCalm(s, t, after);
    } else {
      LeftKeepsCalm(s, after);
    }
  }

  ghost predicate SparingRun(states: seq<System>, moves: seq<Move>) {
    IsRun(states, moves) && forall k | 0 <= k < |moves| :: SparesDue(states[k], moves[k])
  }

  lemma {:induction false} RunKeepsCalm(states: seq<System>, moves: seq<Move>, i: nat)
    requires SparingRun(states, moves) && i < |states|
    requires Sane(states[0]) && Calm(states[0]) && RowsSound(states[0])
    ensures Calm(states[i]) && RowsSound(states[i])
  {
    hide Sane;
    hide Calm;
    hide RowsSound;
    hide Next;
    hide SparesDue;
    if i > 0 {
      RunKeepsCalm(states, moves, i - 1);
      RunKeepsSane(states, moves, i - 1);
      MoveKeepsCalm(states[i - 1], moves[i - 1]);
    }
  }

  /** Under any interleaving of retries, duplicate ids and transient failures in which nothing
      deletes an event between its insert and its property transaction, the property rows of an
      event inserted in the run are none or exactly what was built for the one accepted request
      event, and (event_id, key) stays unique although no constraint says so. */
  lemma RowsNoneOrExact(states: seq<System>, moves: seq<Move>, i: nat, e: string)
    requires SparingRun(states, moves) && Initial(states[0]) && i < |states|
    requires forall f | f in states[0].db.events :: DistinctKeys(RowsOf(states[0].db, f))
    requires e in states[i].db.events
    ensures e in states[i].sources ==> NoneOrExact(states[i].db, e, states[i].sources[e])
    ensures DistinctKeys(RowsOf(states[i].db, e))
  {
    hide Next;
    hide SparesDue;
    InitialIsSane(states[0]);
    RunKeepsCalm(states, moves, i);
    SoundIsDistinct(states[i], e);
  }

  lemma SoundIsDistinct(s: System, e: string)
    requires RowsSound(s) && e in s.db.events
    ensures DistinctKeys(RowsOf(s.db, e))
  {
    if e in s.sources {
      RowsHaveDistinctKeys(s.sources[e].properties);
    }
  }

  // ---------------------------------------------------------------------------------------
  // A request that runs alone
  // ---------------------------------------------------------------------------------------

  /** The one or two statements by which thread `t` handles the next event of its batch. */
  ghost function HandleNext(s: System, t: nat, fate: Fate, newId: int): System
    requires t < |s.threads| && newId !in s.db.users
    requires s.threads[t].Tracking? && s.threads[t].todo != []
  {
    var inserted := Next(s, Advance(t, Env(fate.now, fate.insertFails, newId)));
    if inserted.threads[t].Writing? && newId !in inserted.db.users
    then Next(inserted, Advance(t, Env(fate.now, fate.propertiesFail, newId)))
    else inserted
  }

  /** Undisturbed, a thread does to the database and to its count what the loop of `Track` does. */
  lemma AloneIsTrackOne(s: System, t: nat, fate: Fate, newId: int)
    requires t < |s.threads| && newId !in s.db.users
    requires s.threads[t].Tracking? && s.threads[t].todo != []
    ensures var after, thread := HandleNext(s, t, fate, newId), s.threads[t];
            var p := TrackOne(Progress(s.db, thread.accepted), thread.ctx, thread.todo[0], fate);
            after.db == p.db && after.threads == s.threads[t := Tracking(thread.ctx, thread.todo[1..], p.accepted)]
  {
    hide PropertyBag;
    hide Next;
    hide Accepting;
    hide TrackOne;
    var ev, insert := s.threads[t].todo[0], Env(fate.now, fate.insertFails, newId);
    AcceptingIffCounted(s, t, fate, newId);
    if !Accepting(s.db, s.threads[t], insert) {
      SkipStep(s, t, insert);
    } else if ev.properties == map[] {
      PlainStep(s, t, insert);
      NoProperties(ev.properties);
      NoRowsToWrite(s.db.(events := s.db.events[ev.id := RowFor(s.threads[t].ctx, ev, fate.now)]), ev.id);
    } else {
      AcceptStep(s, t, insert);
      AloneWrites(Next(s, Advance(t, insert)), t, Env(fate.now, fate.propertiesFail, newId));
    }
  }

  /** The statements by which thread `t` handles the next `n` events, with nothing in between. */
  ghost function HandleFirst(s: System, t: nat, fates: seq<Fate>, newId: int, n: nat): System
    requires n <= |fates|
  {
    if n == 0 then s
    else
      var before := HandleFirst(s, t, fates, newId, n - 1);
      if && t < |before.threads| && before.threads[t].Tracking? && before.threads[t].todo != []
         && newId !in before.db.users
      then HandleNext(before, t, fates[n - 1], newId) else before
  }

  lemma {:induction false} AloneIsTrackPrefix(s: System, t: nat, fates: seq<Fate>, newId: int, n: nat)
    requires t < |s.threads| && newId !in s.db.users && s.threads[t].Tracking? && s.threads[t].accepted == 0
    requires n <= |fates| == |s.threads[t].todo|
    ensures var Tracking(ctx, evs, _) := s.threads[t];
            var after, p := HandleFirst(s, t, fates, newId, n), TrackPrefix(s.db, ctx, evs, fates, n);
            && after.db == p.db && after.db.users == s.db.users
            && after.threads == s.threads[t := Tracking(ctx, evs[n..], p.accepted)]
  {
    hide HandleNext;
    hide TrackOne;
    var Tracking(ctx, evs, _) := s.threads[t];
    if n > 0 {
      AloneIsTrackPrefix(s, t, fates, newId, n - 1);
      AloneIsTrackOne(HandleFirst(s, t, fates, newId, n - 1), t, fates[n - 1], newId);
      TrackOneKeepsUsers(TrackPrefix(s.db, ctx, evs, fates, n - 1), ctx, evs[n - 1], fates[n - 1]);
      assert evs[n - 1..][0] == evs[n - 1] && evs[n - 1..][1..] == evs[n..];
    } else {
      assert evs[0..] == evs;
    }
  }

  lemma TrackOneKeepsUsers(p: Progress, ctx: Context, ev: TrackEvent, fate: Fate)
    ensures TrackOne(p, ctx, ev, fate).db.users == p.db.users
  {
    hide Accepts;
    hide Commits;
    hide WellFormed;
  }

  /** The whole request: the lookup of the user, the loop, and the answer. */
  ghost function TrackInTurn(s: System, t: nat, lookupFails: bool, fates: seq<Fate>, newId: int): System
    requires t < |s.threads| && newId !in s.db.users
  {
    var looked := Next(s, Advance(t, Env(0, lookupFails, newId)));
    var handled := HandleFirst(looked, t, fates, newId, |fates|);
    if t < |handled.threads| && newId !in handled.db.users
    then Next(handled, Advance(t, Env(0, false, newId))) else handled
  }

  /** Undisturbed, a request of a run answers and writes what the handler does. */
  lemma TrackAlone(s: System, t: nat, lookupFails: bool, fates: seq<Fate>, newId: int)
    requires t < |s.threads| && newId !in s.db.users
    requires s.threads[t].Looking? && |fates| == |s.threads[t].req.events|
    ensures var Looking(projectId, req, location) := s.threads[t];
            var after := TrackInTurn(s, t, lookupFails, fates, newId);
            var p := TrackCall(s.db, projectId, req, location, lookupFails, fates);
            after.db == p.db && after.threads == s.threads[t := Tracked(p.accepted)]
  {
    hide Next;
    hide HandleFirst;
    hide TrackPrefix;
    var Looking(projectId, req, location) := s.threads[t];
    var env := Env(0, lookupFails, newId);
    LookStep(s, t, env);
    var looked := Next(s, Advance(t, env));
    AloneIsTrackPrefix(looked, t, fates, newId, |fates|);
    var handled := HandleFirst(looked, t, fates, newId, |fates|);
    AnswerStep(handled, t, Env(0, false, newId));
  }

  lemma AnswerStep(s: System, t: nat, env: Env)
    requires t < |s.threads| && env.newId !in s.db.users && s.threads[t].Tracking? && s.threads[t].todo == []
    ensures Next(s, Advance(t, env)) == System(s.db, s.threads[t := Tracked(s.threads[t].accepted)], s.sources)
  {
  }

  lemma LookStep(s: System, t: nat, env: Env)
    requires t < |s.threads| && env.newId !in s.db.users && s.threads[t].Looking?
    ensures var Looking(projectId, req, location) := s.threads[t];
            Next(s, Advance(t, env)) ==
            System(s.db, s.threads[t := Tracking(ContextFor(s.db, projectId, req, location, env.fails), req.events, 0)],
                   s.sources)
  {
  }


  /** The thread's next statement inserts the event exactly when the loop counts it. */
  lemma AcceptingIffCounted(s: System, t: nat, fate: Fate, newId: int)
    requires t < |s.threads| && s.threads[t].Tracking? && s.threads[t].todo != []
    ensures var thread := s.threads[t];
            var ev, p := thread.todo[0], Progress(s.db, thread.accepted);
            var row := RowFor(thread.ctx, ev, fate.now);
            var inserted := s.db.(events := s.db.events[ev.id := row]);
            TrackOne(p, thread.ctx, ev, fate) ==
            if !Accepting(s.db, thread, Env(fate.now, fate.insertFails, newId)) then p
            else Progress(if fate.propertiesFail then inserted
                          else WithProperties(inserted, ev.id, PropertyBag(ev.properties)), thread.accepted + 1)
  {
    hide PropertyBag;
    hide WellFormed;
    hide Insertable;
    hide WithProperties;
  }

  lemma SkipStep(s: System, t: nat, env: Env)
    requires t < |s.threads| && env.newId !in s.db.users && s.threads[t].Tracking? && s.threads[t].todo != []
    requires !Accepting(s.db, s.threads[t], env)
    ensures var Tracking(ctx, todo, accepted) := s.threads[t];
            Next(s, Advance(t, env)) ==
            System(s.db, s.threads[t := Tracking(ctx, todo[1..], accepted)], s.sources)
  {
    hide Accepting;
  }

  lemma PlainStep(s: System, t: nat, env: Env)
    requires t < |s.threads| && env.newId !in s.db.users
    requires Accepting(s.db, s.threads[t], env) && s.threads[t].todo[0].properties == map[]
    ensures var Tracking(ctx, todo, accepted) := s.threads[t];
            && Next(s, Advance(t, env)).threads == s.threads[t := Tracking(ctx, todo[1..], accepted + 1)]
            && Next(s, Advance(t, env)).db == s.db.(events := s.db.events[todo[0].id := RowFor(ctx, todo[0], env.now)])
  {
    hide WellFormed;
    hide Insertable;
  }

  lemma NoRowsToWrite(db: Database, e: string)
    ensures WithProperties(db, e, multiset{}) == db
  {
  }

  lemma AcceptStep(s: System, t: nat, env: Env)
    requires t < |s.threads| && env.newId !in s.db.users
    requires Accepting(s.db, s.threads[t], env) && s.threads[t].todo[0].properties != map[]
    ensures var Tracking(ctx, todo, accepted) := s.threads[t];
            && Next(s, Advance(t, env)).threads == s.threads[t := Writing(ctx, todo[0], todo[1..], accepted)]
            && Next(s, Advance(t, env)).db == s.db.(events := s.db.events[todo[0].id := RowFor(ctx, todo[0], env.now)])
  {
    hide WellFormed;
  }

  lemma AloneWrites(s: System, t: nat, env: Env)
    requires t < |s.threads| && env.newId !in s.db.users && s.threads[t].Writing?
    ensures var Writing(ctx, ev, todo, accepted) := s.threads[t];
            && Next(s, Advance(t, env)).threads == s.threads[t := Tracking(ctx, todo, accepted + 1)]
            && Next(s, Advance(t, env)).db ==
               if env.fails then s.db else WithProperties(s.db, ev.id, PropertyBag(ev.properties))
  {
    hide PropertyBag;
  }
}
