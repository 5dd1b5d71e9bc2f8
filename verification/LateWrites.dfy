/** Property transactions that come too late: exactly which states lead to wrong property rows. */
module LateWrites {
  import opened Encoding
  import opened Options
  import opened Schema
  import opened Tracking
  import opened Runs
  import opened PropertyRuns
  import Retention
  import Sets
  import TrackLaws

  // ---------------------------------------------------------------------------------------
  // Runs that delete no event for which a transaction is due
  // ---------------------------------------------------------------------------------------

  ghost predicate Reaches(s: System, after: System) {
    exists states, moves :: SparingRun(states, moves) && states[0] == s && states[|moves|] == after
  }

  /** Every state that such runs reach has sound rows. */
  ghost predicate StaysSound(s: System) {
    forall after | Reaches(s, after) :: RowsSound(after)
  }

  lemma ReachesSelf(s: System)
    ensures Reaches(s, s)
  {
    assert SparingRun([s], []);
  }

  lemma ReachesNext(s: System, mid: System, move: Move)
    requires Reaches(s, mid) && Enabled(mid, move) && SparesDue(mid, move)
    ensures Reaches(s, Next(mid, move))
  {
    hide Next;
    hide SparesDue;
    var states, moves :| SparingRun(states, moves) && states[0] == s && states[|moves|] == mid;
    var longer := states + [Next(mid, move)];
    assert SparingRun(longer, moves + [move]);
  }

  lemma Deletes(cmd: Command, db: Database)
    requires !cmd.DeleteProject? && !cmd.CleanupEvents?
    ensures forall e | e in db.events :: e in Apply(db, cmd).events
  {
    forall e | e in db.events ensures e in Apply(db, cmd).events {
      EventsOnlyDeleted(db, cmd, e);
    }
  }

  /** A move that deletes nothing. */
  lemma Spares(s: System, move: Move)
    requires Enabled(s, move)
    requires !(move.Administer? && (move.cmd.DeleteProject? || move.cmd.CleanupEvents?))
    ensures SparesDue(s, move)
  {
    hide Apply;
    hide Due;
    hide Accepting;
    var cmd := MoveCommand(s, move);
    if cmd.Some? {
      Deletes(cmd.value, s.db);
    }
  }

  lemma {:induction false} Unused(ids: set<int>) returns (id: int)
    ensures forall i | i in ids :: i < id
    decreases |ids|
  {
    if ids == {} {
      id := 0;
    } else {
      var some := Sets.Inhabited(ids);
      var below := Unused(ids - {some});
      id := if some < below then below else some + 1;
      forall i | i in ids ensures i < id {
        assert i == some || i in ids - {some};
      }
    }
  }

  function Good(newId: int): Env {
    Env(0, false, newId)
  }

  // ---------------------------------------------------------------------------------------
  // A transaction that is due for an event with other rows
  // ---------------------------------------------------------------------------------------

  lemma MoreRows(rows: multiset<Property>, more: multiset<Property>)
    requires more != multiset{}
    ensures rows + more != multiset{} && rows + more != rows
  {
    var p :| p in more;
    assert (rows + more)[p] > rows[p];
  }

  /** The rows of the stored event are those of its source already, or are none and will not be those. */
  ghost predicate Foreign(s: System, t: int, e: string)
    requires Pending(s, t, e)
  {
    && e in s.db.events && e in s.sources
    && var own := PropertyBag(s.sources[e].properties);
    RowsOf(s.db, e) == own || (RowsOf(s.db, e) == multiset{} && PropertyBag(s.threads[t].ev.properties) != own)
  }

  lemma ForeignWriteBreaks(start: System, s: System, t: nat, e: string)
    requires Reaches(start, s) && Due(s, t, e) && Foreign(s, t, e)
    ensures !StaysSound(start)
  {
    hide PropertyBag;
    hide RowsOf;
    hide StoredRows;
    hide WithProperties;
    var newId := Unused(s.db.users.Keys);
    var move, rows := Advance(t, Good(newId)), PropertyBag(s.threads[t].ev.properties);
    assert newId !in s.db.users.Keys;
    var after := Next(s, move);
    Spares(s, move);
    ReachesNext(start, s, move);
    WriteEffect(s, t, Good(newId));
    WriteRows(s.db, e, s.threads[t].ev.properties);
    MoreRows(RowsOf(s.db, e), rows);
    hide Next;
    hide Reaches;
    assert RowsOf(s.db, e) == multiset{} ==> RowsOf(s.db, e) + rows == rows;
    assert !NoneOrExact(after.db, e, after.sources[e]);
  }

  // ---------------------------------------------------------------------------------------
  // A transaction that is due for an event that was deleted
  // ---------------------------------------------------------------------------------------

  /** The same event without properties. */
  function Rival(ev: TrackEvent): TrackEvent {
    ev.(properties := map[])
  }

  /** A request that sends it from a device of its own. */
  function RivalRequest(ev: TrackEvent): TrackRequest {
    TrackRequest(ev.id, None, [Rival(ev)])
  }

  const NOWHERE := Location("", "", "")

  function RivalContext(projectId: int, ev: TrackEvent): Context {
    Context(projectId, ev.id, None, NOWHERE)
  }

  /** The state after an administrative statement that creates a project or registers a device. */
  lemma AdministerStep(start: System, s: System, cmd: Command)
    requires Reaches(start, s) && Sane(s) && FreshId(s.db, cmd) && (cmd.CreateProject? || cmd.UpsertDevice?)
    ensures var after := Next(s, Administer(cmd));
            && Reaches(start, after) && Sane(after)
            && after.threads == s.threads && after.db == Apply(s.db, cmd)
  {
    hide Apply;
    hide Sane;
    Spares(s, Administer(cmd));
    ReachesNext(start, s, Administer(cmd));
    MoveKeepsSane(s, Administer(cmd));
  }

  /** A new project, and a device of it. */
  lemma RivalDevice(s: System, ev: TrackEvent) returns (projectId: int, after: System)
    requires Sane(s)
    ensures Reaches(s, after) && Sane(after)
    ensures after.threads == s.threads && after.db.driver == s.db.driver && after.db.events == s.db.events
    ensures projectId in after.db.projects && ev.id in after.db.devices
  {
    hide Sane;
    hide Next;
    ReachesSelf(s);
    projectId := Unused(s.db.projects.Keys);
    assert projectId !in s.db.projects.Keys;
    var create := Command.CreateProject(projectId, Project("", 0));
    AdministerStep(s, s, create);
    var created := Next(s, Administer(create));
    var register := Command.UpsertDevice(ev.id, projectId, "", "", "", "", 0);
    AdministerStep(s, created, register);
    after := Next(created, Administer(register));
    hide Reaches;
  }

  lemma RivalIsAccepted(db: Database, projectId: int, ev: TrackEvent, now: int)
    requires TrackLaws.CandidateKey(db.driver, ev) == Some(ev.id) && ev.id !in db.events
    requires projectId in db.projects && ev.id in db.devices
    ensures WellFormed(Rival(ev)) && ValidBatch(RivalRequest(ev))
    ensures Accepts(db, ev.id, RowFor(RivalContext(projectId, ev), Rival(ev), now), ev.storable)
  {
    assert |Rival(ev).properties| == 0;
  }

  /** The request of the rival, up to its loop; the lookup of the user fails. */
  lemma RivalLooked(start: System, s: System, projectId: int, ev: TrackEvent, newId: int) returns (after: System)
    requires Reaches(start, s) && ValidBatch(RivalRequest(ev)) && newId !in s.db.users
    ensures Reaches(start, after)
    ensures after == System(s.db, s.threads + [Tracking(RivalContext(projectId, ev), [Rival(ev)], 0)], s.sources)
  {
    hide Reaches;
    var n, looking, env := |s.threads|, Looking(projectId, RivalRequest(ev), NOWHERE), Env(0, true, newId);
    Spares(s, Spawn(looking));
    ReachesNext(start, s, Spawn(looking));
    var spawned := System(s.db, s.threads + [looking], s.sources);
    assert spawned == Next(s, Spawn(looking));
    hide Next;
    Spares(spawned, Advance(n, env));
    ReachesNext(start, spawned, Advance(n, env));
    LookStep(spawned, n, env);
    after := Next(spawned, Advance(n, env));
    assert after.threads == s.threads + [Tracking(RivalContext(projectId, ev), [Rival(ev)], 0)];
  }

  /** The request of the rival, up to its insert. */
  lemma RivalInserted(start: System, s: System, projectId: int, t: nat, e: string) returns (after: System)
    requires Reaches(start, s) && Sane(s) && Due(s, t, e) && e !in s.db.events
    requires projectId in s.db.projects && e in s.db.devices
    ensures Reaches(start, after) && Due(after, t, e) && Foreign(after, t, e)
  {
    hide StoredRows;
    hide Reaches;
    hide Next;
    hide TrackLaws.CandidateKey;
    hide ValidBatch;
    hide Accepts;
    hide InsertedBy;
    hide Due;
    hide Foreign;
    hide WellFormed;
    var ev := DueCandidate(s, t, e);
    hide Sane;
    RivalIsAccepted(s.db, projectId, ev, 0);
    var newId := Unused(s.db.users.Keys);
    assert newId !in s.db.users.Keys;
    var looked := RivalLooked(start, s, projectId, ev, newId);
    var insert := Advance(|s.threads|, Good(newId));
    Spares(looked, insert);
    ReachesNext(start, looked, insert);
    InsertEffect(looked, |s.threads|, Good(newId));
    after := Next(looked, insert);
    ForeignAfterRival(s, looked, after, t, e);
  }

  lemma DueCandidate(s: System, t: nat, e: string) returns (ev: TrackEvent)
    requires Sane(s) && Due(s, t, e)
    ensures t < |s.threads| && s.threads[t].Writing? && s.threads[t].ev == ev && ev.id == e
    ensures TrackLaws.CandidateKey(s.db.driver, ev) == Some(e)
  {
    hide Closed;
    hide StoredRows;
    hide TrackLaws.CandidateKey;
    ev := s.threads[t].ev;
  }

  lemma ForeignAfterRival(s: System, looked: System, after: System, t: nat, e: string)
    requires Due(s, t, e) && looked.db == s.db && |looked.threads| == |s.threads| + 1
    requires looked.threads[t] == s.threads[t]
    requires InsertedBy(looked, |s.threads|, Rival(s.threads[t].ev), after)
    ensures Due(after, t, e) && Foreign(after, t, e)
  {
    hide StoredRows;
    hide PropertyBag;
    hide TrackLaws.CandidateKey;
    NoProperties(Rival(s.threads[t].ev).properties);
    DueHasRows(s, t, e);
  }

  lemma DueHasRows(s: System, t: int, e: string)
    requires Due(s, t, e)
    ensures PropertyBag(s.threads[t].ev.properties) != multiset{}
  {
    hide PropertyBag;
  }

  // ---------------------------------------------------------------------------------------
  // The exact condition
  // ---------------------------------------------------------------------------------------

  lemma DeletedBreaks(s: System, t: nat, e: string)
    requires Sane(s) && Due(s, t, e) && e !in s.db.events
    ensures !StaysSound(s)
  {
    hide Sane;
    hide StaysSound;
    hide Reaches;
    hide StoredRows;
    hide Foreign;
    var projectId, ready := RivalDevice(s, s.threads[t].ev);
    var after := RivalInserted(s, ready, projectId, t, e);
    ForeignWriteBreaks(s, after, t, e);
  }

  /** Of two transactions that are due for one event, the second finds the rows of the first. */
  lemma TwiceBreaks(s: System, t: nat, u: nat, e: string)
    requires Sane(s) && RowsSound(s) && Due(s, t, e) && Due(s, u, e) && t != u
    requires CalmAt(s, t, e)
    ensures !StaysSound(s)
  {
    hide PropertyBag;
    hide RowsOf;
    hide StoredRows;
    hide WithProperties;
    hide Sane;
    var newId := Unused(s.db.users.Keys);
    assert newId !in s.db.users.Keys;
    var move := Advance(t, Good(newId));
    var after := Next(s, move);
    Spares(s, move);
    ReachesSelf(s);
    ReachesNext(s, s, move);
    WriteEffect(s, t, Good(newId));
    WriteRows(s.db, e, s.threads[t].ev.properties);
    WriteKeepsEvents(s.db, e, PropertyBag(s.threads[t].ev.properties));
    hide Next;
    hide Reaches;
    hide StaysSound;
    assert RowsOf(after.db, e) == PropertyBag(s.threads[t].ev.properties);
    ForeignWriteBreaks(s, after, u, e);
  }

  lemma NotCalmBreaks(s: System)
    requires Sane(s) && RowsSound(s) && !Calm(s)
    ensures !StaysSound(s)
  {
    hide StaysSound;
    hide PropertyBag;
    hide RowsOf;
    hide StoredRows;
    hide Closed;
    hide PendingCandidates;
    if t, e :| Due(s, t, e) && !CalmAt(s, t, e) {
      if e !in s.db.events {
        DeletedBreaks(s, t, e);
      } else {
        assert NoneOrExact(s.db, e, s.sources[e]);
        ReachesSelf(s);
        ForeignWriteBreaks(s, s, t, e);
      }
    } else {
      var t, u, e :| Due(s, t, e) && Due(s, u, e) && t != u;
      TwiceBreaks(s, t, u, e);
    }
  }

  /** In a state of any run whose rows are sound, the rows stay sound along every run that deletes no
      event for which a transaction is due, if and only if each transaction that is due already
      belongs to the event as it is stored, which has no rows yet, and is the only one due for it. */
  lemma StaysSoundIff(s: System)
    requires Sane(s) && RowsSound(s)
    ensures StaysSound(s) <==> Calm(s)
  {
    hide Sane;
    hide RowsSound;
    hide Calm;
    if Calm(s) {
      forall after | Reaches(s, after) ensures RowsSound(after) {
        var states, moves :| SparingRun(states, moves) && states[0] == s && states[|moves|] == after;
        RunKeepsCalm(states, moves, |moves|);
      }
    } else {
      NotCalmBreaks(s);
    }
  }

  // ---------------------------------------------------------------------------------------
  // A deletion between the insert and the property transaction
  // ---------------------------------------------------------------------------------------

  ghost predicate RunBetween(s: System, moves: seq<Move>, after: System) {
    exists states :: IsRun(states, moves) && states[0] == s && states[|moves|] == after
  }

  lemma OneMore(s: System, moves: seq<Move>, between: System, move: Move)
    requires RunBetween(s, moves, between) && Enabled(between, move)
    ensures RunBetween(s, moves + [move], Next(between, move))
  {
    hide Next;
    var states :| IsRun(states, moves) && states[0] == s && states[|moves|] == between;
    var longer := states + [Next(between, move)];
    assert IsRun(longer, moves + [move]);
  }

  lemma NoMove(s: System)
    ensures RunBetween(s, [], s)
  {
    assert IsRun([s], []);
  }

  /** The request, sent and run up to its property transaction. */
  lemma UpToWriting(start: System, moves: seq<Move>, s: System, projectId: int, req: TrackRequest,
                    location: Location, now: int, newId: int) returns (more: seq<Move>, after: System)
    requires RunBetween(start, moves, s) && newId !in s.db.users && ValidBatch(req) && |req.events| == 1
    requires var ev := req.events[0];
             && WellFormed(ev) && ev.properties != map[]
             && Accepts(s.db, ev.id, RowFor(ContextFor(s.db, projectId, req, location, false), ev, now), ev.storable)
    ensures RunBetween(start, more, after)
    ensures var ctx, ev := ContextFor(s.db, projectId, req, location, false), req.events[0];
            && after.db == s.db.(events := s.db.events[ev.id := RowFor(ctx, ev, now)])
            && after.threads == s.threads + [Writing(ctx, ev, [], 0)]
  {
    hide WellFormed;
    hide RunBetween;
    var t, ok := |s.threads|, Env(now, false, newId);
    var looking, ctx := Looking(projectId, req, location), ContextFor(s.db, projectId, req, location, false);
    OneMore(start, moves, s, Spawn(looking));
    var spawned := System(s.db, s.threads + [looking], s.sources);
    assert spawned == Next(s, Spawn(looking));
    hide Next;
    LookStep(spawned, t, ok);
    OneMore(start, moves + [Spawn(looking)], spawned, Advance(t, ok));
    var looked := System(s.db, s.threads + [Tracking(ctx, req.events, 0)], s.sources);
    assert looked.threads == spawned.threads[t := Tracking(ctx, req.events, 0)];
    AcceptStep(looked, t, ok);
    after := Next(looked, Advance(t, ok));
    more := moves + [Spawn(looking)] + [Advance(t, ok)] + [Advance(t, ok)];
    OneMore(start, moves + [Spawn(looking)] + [Advance(t, ok)], looked, Advance(t, ok));
    assert req.events[1..] == [];
    assert looked.threads[t := Writing(ctx, req.events[0], [], 0)] == s.threads + [Writing(ctx, req.events[0], [], 0)];
  }

  /** The first request is still to write its rows and its event is gone: a retry inserts the event again,
      and the two late transactions write its rows twice. */
  lemma RetryDuplicates(start: System, moves: seq<Move>, s: System, first: Context, projectId: int, req: TrackRequest,
                        location: Location, now: int, newId: int) returns (more: seq<Move>, after: System)
    requires RunBetween(start, moves, s) && newId !in s.db.users && ValidBatch(req) && |req.events| == 1
    requires var ev := req.events[0];
             && s.threads == [Writing(first, ev, [], 0)] && ev.id !in s.db.properties
             && WellFormed(ev) && ev.properties != map[]
             && Accepts(s.db, ev.id, RowFor(ContextFor(s.db, projectId, req, location, false), ev, now), ev.storable)
             && StoredRows(s.db.driver, ev.properties) != multiset{}
    ensures RunBetween(start, more, after) && WrittenTwiceIn(after, req.events[0])
  {
    hide PropertyBag;
    hide WellFormed;
    hide Next;
    hide RunBetween;
    hide StoredRows;
    var ev, env := req.events[0], Env(now, false, newId);
    var second := ContextFor(s.db, projectId, req, location, false);
    var moves1, s1 := UpToWriting(start, moves, s, projectId, req, location, now, newId);
    assert s1.threads == [Writing(first, ev, [], 0), Writing(second, ev, [], 0)];
    WritesTwice(start, moves1, s1, first, second, ev, env);
    more := moves1 + [Advance(1, env)] + [Advance(0, env)];
    after := Next(Next(s1, Advance(1, env)), Advance(0, env));
  }

  /** Every property row of the event is stored twice. */
  ghost predicate WrittenTwiceIn(s: System, ev: TrackEvent) {
    var rows := PropertyBag(ev.properties);
    RowsOf(s.db, ev.id) == rows + rows && !DistinctKeys(RowsOf(s.db, ev.id))
  }

  /** The request of a client of project `projectId`, on a device that project `owner` registered. */
  ghost predicate Foreigner(db: Database, projectId: int, owner: int, req: TrackRequest, location: Location, now: int) {
    && ValidBatch(req) && |req.events| == 1 && projectId != owner
    && req.deviceId in db.devices && db.devices[req.deviceId].projectId == owner
    && (req.userId.Some? && req.userId.value in db.users ==> db.users[req.userId.value].projectId != owner)
    && var ev := req.events[0];
    && WellFormed(ev) && ev.properties != map[] && StoredRows(db.driver, ev.properties) != multiset{}
    && Accepts(db, ev.id, RowFor(ContextFor(db, projectId, req, location, false), ev, now), ev.storable)
  }

  lemma CascadeRemoves(db: Database, q: int, d: string, e: string)
    requires d in db.devices && db.devices[d].projectId == q && e in db.events && db.events[e].deviceId == d
    ensures var after := CascadeProject(db, q);
            && d !in after.devices && e !in after.events && e !in after.properties
            && after.driver == db.driver && after.projects == db.projects - {q}
            && after.users == db.users - UsersOf(db, q)
  {
    assert d in DevicesOf(db, q) && e in EventsOf(db, q);
  }

  /** A device that is not stored is registered under a stored project, without a user. */
  lemma Registered(db: Database, d: string, projectId: int, platform: string, osVersion: string, appVersion: string,
                   locale: string, now: int)
    requires d !in db.devices && projectId in db.projects
    ensures var after := WithDevice(db, d, projectId, platform, osVersion, appVersion, locale, now);
            && d in after.devices && after.devices[d].userId == None
            && after == db.(devices := after.devices)
  {
  }

  /** The state after the owner of the device is deleted and the device registers again. */
  lemma OwnerDeleted(s: System, projectId: int, owner: int, d: string, e: string, device: DeviceRequest, later: int)
    returns (after: System)
    requires projectId in s.db.projects && projectId != owner && e in s.db.events && s.db.events[e].deviceId == d
    requires d in s.db.devices && s.db.devices[d].projectId == owner
    ensures after == Next(Next(s, Administer(DeleteProject(owner))),
                          Administer(Registration(projectId, d, device, later)))
    ensures after.threads == s.threads && after.db.driver == s.db.driver
    ensures after.db.users == s.db.users - UsersOf(s.db, owner) && projectId in after.db.projects
    ensures e !in after.db.events && e !in after.db.properties
    ensures d in after.db.devices && after.db.devices[d].userId == None
  {
    CascadeRemoves(s.db, owner, d, e);
    hide CascadeProject;
    hide WithDevice;
    var deleted := Next(s, Administer(DeleteProject(owner)));
    Registered(deleted.db, d, projectId, device.platform, device.osVersion, device.appVersion, device.locale, later);
    after := Next(deleted, Administer(Registration(projectId, d, device, later)));
  }

  function Registration(projectId: int, d: string, device: DeviceRequest, now: int): Command {
    Command.UpsertDevice(d, projectId, device.platform, device.osVersion, device.appVersion, device.locale, now)
  }

  /** Then the retry is accepted. */
  lemma RetryAccepted(db: Database, after: Database, projectId: int, owner: int, req: TrackRequest, location: Location,
                      now: int, later: int)
    requires Foreigner(db, projectId, owner, req, location, now)
    requires after.driver == db.driver && after.users == db.users - UsersOf(db, owner) && projectId in after.projects
    requires req.events[0].id !in after.events
    requires req.deviceId in after.devices && after.devices[req.deviceId].userId == None
    ensures var ev := req.events[0];
            Accepts(after, ev.id, RowFor(ContextFor(after, projectId, req, location, false), ev, later), ev.storable)
  {
    hide WellFormed;
    hide StoredRows;
    hide StorableText;
  }

  /** Such states arise: a client of one project tracks an event on a device that another project
      registered; before its property transaction that project is deleted, and its device and the event
      with it; the device registers again, the client retries, and both late transactions write. */
  lemma DeletionInBetweenDuplicates(db: Database, projectId: int, owner: int, req: TrackRequest, location: Location,
                                    device: DeviceRequest, now: int, later: int, newId: int)
    returns (moves: seq<Move>, after: System)
    requires Consistent(db) && newId !in db.users && now <= later
    requires Foreigner(db, projectId, owner, req, location, now)
    requires device.deviceId == req.deviceId && device.platform != ""
    ensures Initial(System(db, [], map[])) && RunBetween(System(db, [], map[]), moves, after)
    ensures WrittenTwiceIn(after, req.events[0])
  {
    hide WellFormed;
    hide StoredRows;
    hide RunBetween;
    var start, ctx, ev := System(db, [], map[]), ContextFor(db, projectId, req, location, false), req.events[0];
    NoMove(start);
    var moves1, s1 := UpToWriting(start, [], start, projectId, req, location, now, newId);
    hide Next;
    var s3 := OwnerDeleted(s1, projectId, owner, req.deviceId, ev.id, device, later);
    RetryAccepted(db, s3.db, projectId, owner, req, location, now, later);
    hide Accepts;
    var delete := Administer(DeleteProject(owner));
    var register := Administer(Registration(projectId, req.deviceId, device, later));
    OneMore(start, moves1, s1, delete);
    OneMore(start, moves1 + [delete], Next(s1, delete), register);
    moves, after := RetryDuplicates(start, moves1 + [delete] + [register], s3, ctx, projectId, req, location, later,
                                    newId);
  }

  /** The retention job can come in between as well, with a cutoff before its reading by a positive number
      of days, if the transaction is still due when its event is that old. */
  lemma CleanupInBetweenDuplicates(db: Database, projectId: int, req: TrackRequest, location: Location, days: int,
                                   now: int, reading: int, later: int, newId: int)
    returns (moves: seq<Move>, after: System)
    requires Consistent(db) && newId !in db.users && ValidBatch(req) && |req.events| == 1
    requires days > 0 && now < Retention.Cutoff(days, reading) && reading <= later
    requires var ev, ctx := req.events[0], ContextFor(db, projectId, req, location, false);
             && WellFormed(ev) && ev.properties != map[] && StoredRows(db.driver, ev.properties) != multiset{}
             && Accepts(db, ev.id, RowFor(ctx, ev, now), ev.storable)
    ensures Initial(System(db, [], map[])) && RunBetween(System(db, [], map[]), moves, after)
    ensures WrittenTwiceIn(after, req.events[0])
  {
    hide WellFormed;
    hide StoredRows;
    var start, ctx, ev := System(db, [], map[]), ContextFor(db, projectId, req, location, false), req.events[0];
    NoMove(start);
    var moves1, s1 := UpToWriting(start, [], start, projectId, req, location, now, newId);
    var before := Retention.Cutoff(days, reading);
    var s2 := CleanupStep(s1, projectId, before, ev.id);
    var cleanup := Administer(CleanupEvents(projectId, before));
    hide Next;
    OneMore(start, moves1, s1, cleanup);
    AcceptsLater(db, s2.db, ctx, ev, now, later);
    moves, after := RetryDuplicates(start, moves1 + [cleanup], s2, ctx, projectId, req, location, later, newId);
  }

  /** A cleanup whose cutoff is later than an event removes it. */
  lemma CleanupStep(s: System, projectId: int, before: int, e: string) returns (after: System)
    requires e in s.db.events && s.db.events[e].projectId == projectId && s.db.events[e].createdAt < before
    ensures after == Next(s, Administer(CleanupEvents(projectId, before))) && after.threads == s.threads
    ensures e !in after.db.events && e !in after.db.properties
    ensures after.db == s.db.(events := after.db.events, properties := after.db.properties)
  {
    after := Next(s, Administer(CleanupEvents(projectId, before)));
    assert e in Expired(s.db, projectId, before);
  }

  /** What a driver accepts does not depend on the time. */
  lemma AcceptsLater(db: Database, after: Database, ctx: Context, ev: TrackEvent, now: int, later: int)
    requires Accepts(db, ev.id, RowFor(ctx, ev, now), ev.storable) && ev.id !in after.events
    requires after == db.(events := after.events, properties := after.properties)
    ensures Accepts(after, ev.id, RowFor(ctx, ev, later), ev.storable)
  {
    hide StorableText;
  }

  lemma WritesTwice(start: System, moves: seq<Move>, s: System, first: Context, second: Context, ev: TrackEvent,
                    env: Env)
    requires RunBetween(start, moves, s) && env.newId !in s.db.users && !env.fails
    requires s.threads == [Writing(first, ev, [], 0), Writing(second, ev, [], 0)]
    requires ev.id in s.db.events && ev.id !in s.db.properties && StoredRows(s.db.driver, ev.properties) != multiset{}
    ensures var s4 := Next(s, Advance(1, env));
            && Enabled(s4, Advance(0, env))
            && RunBetween(start, moves + [Advance(1, env)] + [Advance(0, env)], Next(s4, Advance(0, env)))
            && WrittenTwiceIn(Next(s4, Advance(0, env)), ev)
  {
    hide PropertyBag;
    hide Next;
    hide RunBetween;
    hide WithProperties;
    var rows, s4 := PropertyBag(ev.properties), Next(s, Advance(1, env));
    OneMore(start, moves, s, Advance(1, env));
    AloneWrites(s, 1, env);
    WrittenTwice(s.db, ev.id, rows);
    OneMore(start, moves + [Advance(1, env)], s4, Advance(0, env));
    AloneWrites(s4, 0, env);
    var p :| p in rows;
    assert (rows + rows)[p] >= 2;
  }

  lemma WrittenTwice(db: Database, e: string, rows: multiset<Property>)
    requires e in db.events && e !in db.properties && StorableRows(db.driver, rows)
    ensures var once := WithProperties(db, e, rows);
            once.users == db.users && RowsOf(WithProperties(once, e, rows), e) == rows + rows
  {
  }
}
