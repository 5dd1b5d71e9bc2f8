/** The store object: tables that its methods change in place.

    Each method is proved against the function of `Schema` for its statement.  A flag such as `fails`
    says that the call met a transient database error, which commits nothing. */
module Storage {
  import opened Encoding
  import opened Options
  import opened Schema
  import OriginCodec
  import Sets

  datatype Outcome = Inserted | Ignored | Failed

  /** A token row as the handlers see it: with its id, and with the origins column decoded. */
  datatype ProjectToken = ProjectToken(id: int, projectId: int, token: string, labelText: string, active: bool,
                                       allowedOrigins: seq<string>, createdAt: int, disabledAt: Option<int>)

  function ViewOf(id: int, row: Token): (v: ProjectToken)
    ensures v.id == id
  {
    ProjectToken(id, row.projectId, row.token, row.labelText, row.active, OriginCodec.Decode(row.allowedOrigins),
                 row.createdAt, row.disabledAt)
  }

  ghost predicate IsToken(db: Database, id: int, token: string) {
    id in db.tokens && db.tokens[id].token == token
  }

  class Store {
    const driver: Driver
    var projects: map<int, Project>
    var tokens: map<int, Token>
    var users: map<int, AppUser>
    var devices: map<string, Device>
    var events: map<string, Event>
    var properties: map<string, multiset<Property>>

    function DB(): Database
      reads this
    {
      Database(driver, projects, tokens, users, devices, events, properties)
    }

    constructor (driver: Driver)
      ensures DB() == Database(driver, map[], map[], map[], map[], map[], map[])
      ensures Consistent(DB())
    {
      this.driver := driver;
      projects, tokens, users := map[], map[], map[];
      devices, events, properties := map[], map[], map[];
    }

    /** The engine runs the ON DELETE actions of the referencing tables, then theirs. */
    method DeleteProject(id: int)
      modifies this
      ensures DB() == CascadeProject(old(DB()), id)
    {
      var goneUsers, goneDevices, goneEvents := UsersOf(DB(), id), DevicesOf(DB(), id), EventsOf(DB(), id);
      tokens := tokens - TokensOf(DB(), id);
      users := users - goneUsers;
      devices := DetachDevices(devices - goneDevices, goneUsers);
      events := DetachEvents(events - goneEvents, goneUsers);
      properties := properties - goneEvents;
      projects := projects - {id};
    }

    /** `now` is the database's clock. */
    method CreateProjectToken(newId: int, token: ProjectToken, now: int, fails: bool) returns (ok: bool)
      requires newId !in tokens
      modifies this`tokens
      ensures ok == (!fails && token.projectId in projects && !TokenTaken(old(DB()), token.token))
      ensures DB() == if fails then old(DB()) else
                WithToken(old(DB()), newId, Token(token.projectId, token.token, token.labelText, token.active,
                                                  OriginCodec.Encode(token.allowedOrigins), now, None))
    {
      var column := OriginCodec.EncodeOrigins(token.allowedOrigins);
      if fails || token.projectId !in projects {
        return false;
      }
      if t :| t in tokens && tokens[t].token == token.token {
        assert TokenTaken(DB(), token.token);
        return false;
      }
      tokens := tokens[newId := Token(token.projectId, token.token, token.labelText, token.active, column, now, None)];
      return true;
    }

    method GetProjectTokenByToken(token: string, fails: bool) returns (found: Option<ProjectToken>)
      ensures found.None? <==> fails || !TokenTaken(DB(), token)
      ensures found.Some? ==> IsToken(DB(), found.value.id, token)
                              && found.value == ViewOf(found.value.id, tokens[found.value.id])
    {
      hide OriginCodec.Decode;
      if fails {
        return None;
      }
      if t :| t in tokens && tokens[t].token == token {
        var row := tokens[t];
        var origins := OriginCodec.DecodeOrigins(row.allowedOrigins);
        return Some(ProjectToken(t, row.projectId, row.token, row.labelText, row.active, origins, row.createdAt,
                                 row.disabledAt));
      }
      return None;
    }

    /** The rows of the query: the ids of the project's tokens, each once, in the order of their creation. */
    method SelectTokens(projectId: int) returns (ids: seq<int>)
      ensures forall t :: t in ids <==> t in tokens && tokens[t].projectId == projectId
      ensures InOrder(tokens, ids)
    {
      hide InOrder;
      EmptyInOrder(tokens);
      var todo := set t | t in tokens && tokens[t].projectId == projectId;
      ids := [];
      while todo != {}
        invariant forall t :: t in todo || t in ids <==> t in tokens && tokens[t].projectId == projectId
        invariant forall u | u in todo :: ComesAfter(tokens, ids, u)
        invariant InOrder(tokens, ids)
        decreases |todo|
      {
        ghost var _ := Earliest(tokens, todo);
        var t :| t in todo && forall u | u in todo :: tokens[t].createdAt <= tokens[u].createdAt;
        todo := todo - {t};
        AddInOrder(tokens, ids, t);
        forall u | u in todo ensures ComesAfter(tokens, ids + [t], u) {}
        ids := ids + [t];
      }
    }

    method ListProjectTokens(projectId: int, fails: bool) returns (found: Option<seq<ProjectToken>>)
      ensures found.None? <==> fails
      ensures found.Some? ==> forall i, j | 0 <= i < j < |found.value| ::
                found.value[i].id != found.value[j].id && found.value[i].createdAt <= found.value[j].createdAt
      ensures found.Some? ==> forall v | v in found.value ::
                v.id in tokens && tokens[v.id].projectId == projectId && v == ViewOf(v.id, tokens[v.id])
      ensures found.Some? ==> forall t | t in tokens && tokens[t].projectId == projectId ::
                ViewOf(t, tokens[t]) in found.value
    {
      hide OriginCodec.Decode;
      if fails {
        return None;
      }
      var ids := SelectTokens(projectId);
      var views: seq<ProjectToken> := [];
      for n := 0 to |ids|
        invariant |views| == n
        invariant forall i | 0 <= i < n :: ids[i] in tokens && views[i] == ViewOf(ids[i], tokens[ids[i]])
      {
        assert ids[n] in ids;
        var row := tokens[ids[n]];
        var origins := OriginCodec.DecodeOrigins(row.allowedOrigins);
        views := views + [ProjectToken(ids[n], row.projectId, row.token, row.labelText, row.active, origins,
                                       row.createdAt, row.disabledAt)];
      }
      forall t | t in tokens && tokens[t].projectId == projectId ensures ViewOf(t, tokens[t]) in views {
        assert t in ids;
        var i :| 0 <= i < |ids| && ids[i] == t;
        assert views[i] in views;
      }
      return Some(views);
    }

    method UpdateProjectToken(token: ProjectToken, fails: bool) returns (ok: bool)
      modifies this`tokens
      ensures ok == !fails
      ensures DB() == if fails then old(DB()) else
                WithTokenUpdate(old(DB()), token.id, token.labelText, token.active,
                                OriginCodec.Encode(token.allowedOrigins), token.disabledAt)
    {
      var column := OriginCodec.EncodeOrigins(token.allowedOrigins);
      if fails {
        return false;
      }
      if token.id in tokens {
        tokens := tokens[token.id := tokens[token.id].(labelText := token.labelText, active := token.active,
                                                       allowedOrigins := column, disabledAt := token.disabledAt)];
      }
      return true;
    }

    method DeleteProjectToken(id: int, fails: bool) returns (ok: bool)
      modifies this`tokens
      ensures ok == !fails
      ensures DB() == if fails then old(DB()) else old(DB()).(tokens := old(tokens) - {id})
    {
      if fails {
        return false;
      }
      tokens := tokens - {id};
      return true;
    }

    method UpsertDevice(deviceId: string, projectId: int, platform: string, osVersion: string,
                        appVersion: string, locale: string, now: int, fails: bool) returns (ok: bool)
      modifies this`devices
      ensures ok == (!fails && (deviceId in old(devices) || projectId in projects))
      ensures DB() == if fails then old(DB()) else WithDevice(old(DB()), deviceId, projectId, platform,
                                                                osVersion, appVersion, locale, now)
    {
      if fails {
        return false;
      }
      if deviceId in devices {
        devices := devices[deviceId := devices[deviceId].(osVersion := osVersion, appVersion := appVersion,
                                                          locale := locale, lastSeenAt := now)];
        return true;
      }
      if projectId !in projects {
        return false;
      }
      devices := devices[deviceId := Device(projectId, None, platform, osVersion, appVersion, locale, now, now)];
      return true;
    }

    /** Updating an unknown device matches no row and still succeeds. */
    method LinkDeviceToUser(deviceId: string, userId: int, fails: bool) returns (ok: bool)
      modifies this`devices
      ensures ok == (!fails && (deviceId in old(devices) ==> userId in users))
      ensures DB() == if fails then old(DB()) else WithLink(old(DB()), deviceId, userId)
      ensures devices.Keys == old(devices).Keys
      ensures forall d | d in devices ::
                devices[d] == if ok && d == deviceId then old(devices)[d].(userId := Some(userId)) else old(devices)[d]
    {
      if fails {
        return false;
      }
      if deviceId in devices {
        if userId !in users {
          return false;
        }
        devices := devices[deviceId := devices[deviceId].(userId := Some(userId))];
      }
      return true;
    }

    /** `newId` is the id that the database gives a row inserted by this call. */
    method GetOrCreateAppUser(projectId: int, anonymousId: string, newId: int, fails: bool)
      returns (id: Option<int>)
      requires newId !in users
      modifies this`users
      ensures id.Some? ==> IsUser(DB(), id.value, projectId, anonymousId)
      ensures id.None? <==> fails || (!UserTaken(old(DB()), projectId, anonymousId) && projectId !in projects)
      ensures DB() == if id.None? then old(DB()) else WithUser(old(DB()), newId, projectId, anonymousId)
    {
      if fails {
        return None;
      }
      if u :| u in users && users[u] == AppUser(projectId, anonymousId) {
        assert IsUser(DB(), u, projectId, anonymousId);
        return Some(u);
      }
      assert !UserTaken(DB(), projectId, anonymousId);
      if projectId !in projects {
        return None;
      }
      users := users[newId := AppUser(projectId, anonymousId)];
      return Some(newId);
    }

    /** The driver refuses a text before it looks for a conflict. */
    predicate TextsStorable(eventId: string, event: Event, storable: bool) {
      storable && StorableText(driver, eventId) && EventTexts(driver, event)
    }

    method InsertEvent(eventId: string, event: Event, storable: bool, fails: bool) returns (outcome: Outcome)
      modifies this`events
      ensures outcome == Inserted <==> !fails && Accepts(old(DB()), eventId, event, storable)
      ensures outcome == Ignored <==> !fails && TextsStorable(eventId, event, storable) && eventId in old(events)
      ensures DB() == if fails then old(DB()) else WithEvent(old(DB()), eventId, event, storable)
    {
      if fails || !TextsStorable(eventId, event, storable) {
        return Failed;
      }
      if eventId in events {
        return Ignored;
      }
      if event.projectId !in projects || event.deviceId !in devices {
        return Failed;
      }
      if event.userId.Some? && event.userId.value !in users {
        return Failed;
      }
      events := events[eventId := event];
      return Inserted;
    }

    /** One transaction: every row is written or none is. */
    method InsertEventProperties(eventId: string, rows: seq<Property>, fails: bool) returns (ok: bool)
      modifies this`properties
      ensures DB() == if fails then old(DB())
                      else WithProperties(old(DB()), eventId, multiset(rows))
      ensures ok == (!fails && (rows == [] || Commits(old(DB()), eventId, multiset(rows))))
    {
      var table := properties;
      var i := 0;
      while i < |rows|
        invariant 0 <= i <= |rows| && DB() == old(DB())
        invariant table == AddRows(properties, eventId, multiset(rows[..i]))
        invariant i > 0 ==> eventId in events
        invariant forall j | 0 <= j < i :: StorableRow(driver, rows[j])
      {
        if fails || eventId !in events || !StorableRow(driver, rows[i]) {
          assert rows[i] in multiset(rows);
          assert fails || !Commits(DB(), eventId, multiset(rows));
          return false;
        }
        AddOneRow(properties, eventId, rows, i);
        table := AddRows(table, eventId, multiset{rows[i]});
        i := i + 1;
      }
      assert rows[..i] == rows;
      if fails {
        return false;
      }
      EmptyOrCommits(DB(), eventId, rows);
      properties := table;
      return true;
    }

    method GetDeviceUserID(deviceId: string, fails: bool) returns (userId: Option<int>)
      ensures userId == if !fails && deviceId in devices then devices[deviceId].userId else None
    {
      if fails || deviceId !in devices {
        return None;
      }
      return devices[deviceId].userId;
    }

    /** The number of deleted rows, or None when the call fails. */
    method CleanupEvents(projectId: int, before: int, fails: bool) returns (deleted: Option<int>)
      modifies this`events, this`properties
      ensures deleted == if fails then None else Some(|Expired(old(DB()), projectId, before)|)
      ensures DB() == if fails then old(DB()) else WithoutExpired(old(DB()), projectId, before)
    {
      if fails {
        return None;
      }
      var gone := set e | e in events && events[e].projectId == projectId && events[e].createdAt < before;
      assert gone == Expired(DB(), projectId, before);
      events := events - gone;
      properties := properties - gone;
      return Some(|gone|);
    }

    /** Some listing, without repetition, of the projects whose retention is positive. */
    method GetProjectsWithRetention() returns (ids: seq<int>)
      ensures forall p :: p in ids <==> p in projects && projects[p].retentionDays > 0
      ensures forall i, j | 0 <= i < j < |ids| :: ids[i] != ids[j]
    {
      var table := projects;
      var todo := set p | p in table && table[p].retentionDays > 0;
      ids := [];
      while todo != {}
        invariant todo <= table.Keys
        invariant forall p :: p in todo || p in ids <==> p in table && table[p].retentionDays > 0
        invariant forall p | p in ids :: p !in todo
        invariant forall i, j | 0 <= i < j < |ids| :: ids[i] != ids[j]
        decreases |todo|
      {
        ghost var _ := Sets.Inhabited(todo);
        var p :| p in todo;
        todo := todo - {p};
        ids := ids + [p];
      }
    }
  }

  /** Distinct ids of rows, in the order of their creation. */
  ghost predicate InOrder(tokens: map<int, Token>, ids: seq<int>) {
    && (forall i | 0 <= i < |ids| :: ids[i] in tokens)
    && (forall i, j | 0 <= i < j < |ids| :: ids[i] != ids[j] && tokens[ids[i]].createdAt <= tokens[ids[j]].createdAt)
  }

  /** The row is none of these and was created no earlier than any of them. */
  ghost predicate ComesAfter(tokens: map<int, Token>, ids: seq<int>, u: int) {
    u in tokens && forall t | t in ids :: t != u && t in tokens && tokens[t].createdAt <= tokens[u].createdAt
  }

  lemma EmptyInOrder(tokens: map<int, Token>)
    ensures InOrder(tokens, [])
  {
  }

  lemma AddInOrder(tokens: map<int, Token>, ids: seq<int>, t: int)
    requires InOrder(tokens, ids) && ComesAfter(tokens, ids, t)
    ensures InOrder(tokens, ids + [t])
  {
    forall i | 0 <= i < |ids| ensures ids[i] in ids {}
  }

  lemma {:induction false} Earliest(tokens: map<int, Token>, ids: set<int>) returns (first: int)
    requires ids != {} && forall t | t in ids :: t in tokens
    ensures first in ids && forall t | t in ids :: tokens[first].createdAt <= tokens[t].createdAt
    decreases |ids|
  {
    var one := Sets.Inhabited(ids);
    first := one;
    if ids != {one} {
      var other := Earliest(tokens, ids - {one});
      first := if tokens[other].createdAt < tokens[one].createdAt then other else one;
      forall t | t in ids ensures tokens[first].createdAt <= tokens[t].createdAt {
        assert t == one || t in ids - {one};
      }
    }
  }

  lemma AddRowsTwice(table: map<string, multiset<Property>>, eventId: string,
                     first: multiset<Property>, second: multiset<Property>)
    ensures AddRows(AddRows(table, eventId, first), eventId, second) == AddRows(table, eventId, first + second)
  {
    if first == multiset{} {
      assert first + second == second;
    } else if second == multiset{} {
      assert first + second == first;
    } else {
      var p :| p in first;
      assert p in first + second;
      assert eventId in table ==> table[eventId] + first + second == table[eventId] + (first + second);
    }
  }

  lemma AddOneRow(table: map<string, multiset<Property>>, eventId: string, rows: seq<Property>, i: nat)
    requires i < |rows|
    ensures AddRows(AddRows(table, eventId, multiset(rows[..i])), eventId, multiset{rows[i]})
            == AddRows(table, eventId, multiset(rows[..i + 1]))
  {
    assert rows[..i + 1] == rows[..i] + [rows[i]];
    AddRowsTwice(table, eventId, multiset(rows[..i]), multiset{rows[i]});
  }

  lemma EmptyOrCommits(db: Database, eventId: string, rows: seq<Property>)
    requires |rows| > 0 ==> eventId in db.events
    requires forall j | 0 <= j < |rows| :: StorableRow(db.driver, rows[j])
    ensures rows == [] || Commits(db, eventId, multiset(rows))
    ensures WithProperties(db, eventId, multiset(rows))
            == db.(properties := AddRows(db.properties, eventId, multiset(rows)))
  {
    forall p | p in multiset(rows) ensures StorableRow(db.driver, p) {
      assert p in rows;
    }
  }
}
