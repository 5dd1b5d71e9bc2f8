/** Which statements the database refuses: exactly those that would break a constraint or bring a text that
    the driver cannot store. */
module Refusals {
  import opened Encoding
  import opened Options
  import opened Schema

  /** The statements that can be refused. */
  predicate CanBeRefused(cmd: Command) {
    cmd.CreateToken? || cmd.UpsertDevice? || cmd.LinkDevice? || cmd.InsertUser? || cmd.InsertEvent?
    || cmd.InsertProperties?
  }

  /** The rows that a statement asks for, whether or not they meet the constraints. */
  function Asked(db: Database, cmd: Command): Database
    requires CanBeRefused(cmd)
  {
    match cmd
    case CreateToken(id, Token(projectId, token, labelText, active, origins, createdAt, _)) =>
      db.(tokens := db.tokens[id := Token(projectId, token, labelText, active, origins, createdAt, None)])
    case UpsertDevice(deviceId, projectId, platform, osVersion, appVersion, locale, now) =>
      var device :=
        if deviceId in db.devices then
          var Device(owner, userId, known, _, _, _, firstSeenAt, _) := db.devices[deviceId];
          Device(owner, userId, known, osVersion, appVersion, locale, firstSeenAt, now)
        else Device(projectId, None, platform, osVersion, appVersion, locale, now, now);
      db.(devices := db.devices[deviceId := device])
    case LinkDevice(deviceId, userId) =>
      if deviceId in db.devices
      then db.(devices := db.devices[deviceId := db.devices[deviceId].(userId := Some(userId))]) else db
    case InsertUser(id, projectId, anonymousId) => db.(users := db.users[id := AppUser(projectId, anonymousId)])
    case InsertEvent(eventId, event, _) =>
      if eventId in db.events then db else db.(events := db.events[eventId := event])
    case InsertProperties(eventId, rows) =>
      if rows == multiset{} then db
      else db.(properties := db.properties[eventId := RowsOf(db, eventId) + rows])
  }

  /** The driver can store the texts of the statement. */
  predicate StorableTexts(driver: Driver, cmd: Command) {
    match cmd
    case InsertEvent(eventId, event, storable) => storable && StorableText(driver, eventId) && EventTexts(driver, event)
    case InsertProperties(_, rows) =>
      forall p | p in rows :: StorableText(driver, p.key) && StorableOption(driver, p.valueString)
    case _ => true
  }

  lemma TokenRefusedIff(db: Database, id: int, token: Token)
    requires Consistent(db) && id !in db.tokens
    ensures Consistent(Asked(db, CreateToken(id, token)))
            <==> token.projectId in db.projects && !TokenTaken(db, token.token)
  {
    var asked := Asked(db, CreateToken(id, token));
    assert id in asked.tokens && forall t | t in db.tokens :: t in asked.tokens && asked.tokens[t] == db.tokens[t];
    if token.projectId in db.projects && !TokenTaken(db, token.token) {
      ApplyKeepsConsistent(db, CreateToken(id, token));
    }
  }

  lemma UserRefusedIff(db: Database, id: int, projectId: int, anonymousId: string)
    requires Consistent(db) && id !in db.users
    ensures Consistent(Asked(db, InsertUser(id, projectId, anonymousId)))
            <==> projectId in db.projects && !UserTaken(db, projectId, anonymousId)
  {
    var asked := Asked(db, InsertUser(id, projectId, anonymousId));
    assert id in asked.users && forall u | u in db.users :: u in asked.users && asked.users[u] == db.users[u];
    if projectId in db.projects && !UserTaken(db, projectId, anonymousId) {
      ApplyKeepsConsistent(db, InsertUser(id, projectId, anonymousId));
    }
  }

  lemma DeviceRefusedIff(db: Database, deviceId: string, device: Device)
    requires Consistent(db)
    ensures Consistent(db.(devices := db.devices[deviceId := device]))
            <==> device.projectId in db.projects && UserResolves(db, device.userId)
  {
    var asked := db.(devices := db.devices[deviceId := device]);
    assert deviceId in asked.devices && asked.devices[deviceId] == device;
    assert UserResolves(asked, device.userId) == UserResolves(db, device.userId);
  }

  lemma EventRefusedIff(db: Database, eventId: string, event: Event)
    requires Consistent(db) && eventId !in db.events
    ensures Consistent(db.(events := db.events[eventId := event]))
            <==> event.projectId in db.projects && event.deviceId in db.devices && UserResolves(db, event.userId)
  {
    var asked := db.(events := db.events[eventId := event]);
    assert eventId in asked.events && asked.events[eventId] == event;
    assert UserResolves(asked, event.userId) == UserResolves(db, event.userId);
  }

  lemma RowsClosedIff(db: Database, eventId: string, table: map<string, multiset<Property>>)
    requires Closed(db) && table.Keys == db.properties.Keys + {eventId}
    ensures Closed(db.(properties := table)) <==> eventId in db.events
  {
    assert eventId in table;
  }

  lemma RowsTypedIff(db: Database, eventId: string, rows: multiset<Property>)
    requires TypedProperties(db) && NoEmptyBags(db) && rows != multiset{}
    ensures var after := db.(properties := db.properties[eventId := RowsOf(db, eventId) + rows]);
            && (TypedProperties(after) <==> forall p | p in rows :: ValidType(p.valueType))
            && NoEmptyBags(after)
  {
    hide ValidType;
    var after := db.(properties := db.properties[eventId := RowsOf(db, eventId) + rows]);
    var p :| p in rows;
    assert p in after.properties[eventId];
    assert forall q | q in rows :: q in after.properties[eventId];
  }

  lemma RowsRefusedIff(db: Database, eventId: string, rows: multiset<Property>)
    requires Consistent(db) && rows != multiset{}
    ensures Consistent(Asked(db, InsertProperties(eventId, rows)))
            <==> eventId in db.events && forall p | p in rows :: ValidType(p.valueType)
  {
    RowsClosedIff(db, eventId, db.properties[eventId := RowsOf(db, eventId) + rows]);
    RowsTypedIff(db, eventId, rows);
    hide Closed;
    hide TypedProperties;
    hide NoEmptyBags;
    hide ValidType;
    hide RowsOf;
  }

  /** On a consistent database a statement does what it asks, or nothing at all; and it does nothing exactly
      when the rows it asks for would break a foreign key, a UNIQUE key or a CHECK, or the driver cannot store
      its texts. */
  lemma RefusedIff(db: Database, cmd: Command)
    requires Consistent(db) && FreshId(db, cmd) && CanBeRefused(cmd)
    ensures Apply(db, cmd)
            == if Consistent(Asked(db, cmd)) && StorableTexts(db.driver, cmd) then Asked(db, cmd) else db
  {
    hide Consistent;
    match cmd
    case CreateToken(id, token) => TokenRefusedIff(db, id, token);
    case UpsertDevice(deviceId, projectId, platform, osVersion, appVersion, locale, now) =>
      KnownDevice(db, deviceId);
      DeviceRefusedIff(db, deviceId, Asked(db, cmd).devices[deviceId]);
    case LinkDevice(deviceId, userId) =>
      if deviceId in db.devices {
        KnownDevice(db, deviceId);
        DeviceRefusedIff(db, deviceId, Asked(db, cmd).devices[deviceId]);
      }
    case InsertUser(id, projectId, anonymousId) => UserRefusedIff(db, id, projectId, anonymousId);
    case InsertEvent(eventId, event, _) =>
      if eventId !in db.events {
        EventRefusedIff(db, eventId, event);
      }
    case InsertProperties(eventId, rows) =>
      if rows != multiset{} {
        RowsRefusedIff(db, eventId, rows);
        CommitsIff(db, eventId, rows);
      }
  }

  lemma CommitsIff(db: Database, eventId: string, rows: multiset<Property>)
    requires rows != multiset{}
    ensures Commits(db, eventId, rows)
            <==> && eventId in db.events && (forall p | p in rows :: ValidType(p.valueType))
                 && StorableTexts(db.driver, InsertProperties(eventId, rows))
    ensures Asked(db, InsertProperties(eventId, rows)).properties == AddRows(db.properties, eventId, rows)
  {
    hide StorableText;
    hide ValidType;
    assert RowsOf(db, eventId) + rows == if eventId in db.properties then db.properties[eventId] + rows else rows;
  }

  lemma KnownDevice(db: Database, deviceId: string)
    requires Consistent(db)
    ensures deviceId in db.devices ==>
              db.devices[deviceId].projectId in db.projects && UserResolves(db, db.devices[deviceId].userId)
  {
  }
}
