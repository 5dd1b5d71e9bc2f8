/** The six tables behind the ingestion store, as values, and the relational meaning of every
    statement that the two drivers run on them.

    A table is a map from its primary key to the rest of the row.  Rows of `event_properties`
    are grouped by event as a bag, because nothing reads their surrogate id. */
module Schema {
  import opened Encoding
  import opened Options

  datatype Project = Project(name: string, retentionDays: int)

  datatype Token = Token(projectId: int, token: string, labelText: string, active: bool,
                         allowedOrigins: string, createdAt: int, disabledAt: Option<int>)

  datatype AppUser = AppUser(projectId: int, anonymousId: string)

  datatype Device = Device(projectId: int, userId: Option<int>, platform: string,
                           osVersion: string, appVersion: string, locale: string,
                           firstSeenAt: int, lastSeenAt: int)

  datatype Event = Event(projectId: int, deviceId: string, userId: Option<int>, name: string,
                         timestamp: string, ipAddress: Option<string>, country: Option<string>,
                         city: Option<string>, createdAt: int)

  /** The text of `value_type`: one of the five names the schema allows, or any other text. */
  datatype ValueType = StringType | IntType | FloatType | BoolType | DatetimeType | OtherType(name: string)

  datatype Property = Property(key: string, valueType: ValueType, valueString: Option<string>,
                               valueInt: Option<int>, valueFloat: Option<real>,
                               valueBool: Option<bool>, valueDatetime: Option<int>)

  datatype Database = Database(driver: Driver, projects: map<int, Project>, tokens: map<int, Token>,
                               users: map<int, AppUser>, devices: map<string, Device>,
                               events: map<string, Event>,
                               properties: map<string, multiset<Property>>)

  /** The property rows stored for one event. */
  function RowsOf(db: Database, eventId: string): multiset<Property> {
    if eventId in db.properties then db.properties[eventId] else multiset{}
  }

  // ---------------------------------------------------------------------------------------
  // Constraints of the schema
  // ---------------------------------------------------------------------------------------

  predicate UserResolves(db: Database, userId: Option<int>) {
    userId.Some? ==> userId.value in db.users
  }

  /** Every foreign key names a stored row. */
  ghost predicate Closed(db: Database) {
    && (forall t | t in db.tokens :: db.tokens[t].projectId in db.projects)
    && (forall u | u in db.users :: db.users[u].projectId in db.projects)
    && (forall d | d in db.devices ::
          db.devices[d].projectId in db.projects && UserResolves(db, db.devices[d].userId))
    && (forall e | e in db.events ::
          && db.events[e].projectId in db.projects
          && db.events[e].deviceId in db.devices
          && UserResolves(db, db.events[e].userId))
    && (forall e | e in db.properties :: e in db.events)
  }

  /** UNIQUE (token) */
  ghost predicate UniqueTokens(db: Database) {
    forall s, t | s in db.tokens && t in db.tokens && db.tokens[s].token == db.tokens[t].token ::
      s == t
  }

  /** UNIQUE (project_id, anonymous_id) */
  ghost predicate UniqueUsers(db: Database) {
    forall u, v | u in db.users && v in db.users && db.users[u] == db.users[v] :: u == v
  }

  /** CHECK (value_type IN (...)) */
  predicate ValidType(valueType: ValueType) {
    !valueType.OtherType?
  }

  ghost predicate TypedProperties(db: Database) {
    forall e, p | e in db.properties && p in db.properties[e] :: ValidType(p.valueType)
  }

  /** The grouped representation keeps no empty bag, so equal tables are equal maps. */
  ghost predicate NoEmptyBags(db: Database) {
    forall e | e in db.properties :: db.properties[e] != multiset{}
  }

  ghost predicate Consistent(db: Database) {
    && Closed(db)
    && UniqueTokens(db)
    && UniqueUsers(db)
    && TypedProperties(db)
    && NoEmptyBags(db)
  }

  // ---------------------------------------------------------------------------------------
  // Statements
  // ---------------------------------------------------------------------------------------

  /** Ids of new integer-keyed rows are chosen by the database and passed in as `id`. */
  datatype Command =
    | CreateProject(id: int, project: Project)
    | UpdateProject(id: int, project: Project)
    | DeleteProject(id: int)
    | CreateToken(id: int, token: Token)
    | UpdateToken(id: int, labelText: string, active: bool, allowedOrigins: string, disabledAt: Option<int>)
    | DeleteToken(id: int)
    | UpsertDevice(deviceId: string, projectId: int, platform: string, osVersion: string,
                   appVersion: string, locale: string, now: int)
    | LinkDevice(deviceId: string, userId: int)
    | InsertUser(id: int, projectId: int, anonymousId: string)
    | InsertEvent(eventId: string, event: Event, storable: bool)
    | InsertProperties(eventId: string, rows: multiset<Property>)
    | CleanupEvents(projectId: int, before: int)

  /** New integer ids are fresh among the live rows, and among nothing else. */
  predicate FreshId(db: Database, cmd: Command) {
    match cmd
    case CreateProject(id, _) => id !in db.projects
    case CreateToken(id, _) => id !in db.tokens
    case InsertUser(id, _, _) => id !in db.users
    case _ => true
  }

  ghost predicate TokenTaken(db: Database, token: string) {
    exists t :: t in db.tokens && db.tokens[t].token == token
  }

  ghost predicate IsUser(db: Database, id: int, projectId: int, anonymousId: string) {
    id in db.users && db.users[id] == AppUser(projectId, anonymousId)
  }

  ghost predicate UserTaken(db: Database, projectId: int, anonymousId: string) {
    exists u :: IsUser(db, u, projectId, anonymousId)
  }

  predicate StorableOption(driver: Driver, s: Option<string>) {
    s.Some? ==> StorableText(driver, s.value)
  }

  /** The driver can store the texts of the row. */
  predicate EventTexts(driver: Driver, event: Event) {
    && StorableText(driver, event.name)
    && StorableText(driver, event.deviceId)
    && StorableOption(driver, event.ipAddress)
    && StorableOption(driver, event.country)
    && StorableOption(driver, event.city)
  }

  /** Whether an `INSERT` into `events` meets its foreign keys and the driver can store its texts.
      `storable` says so of the timestamp, which Postgres also parses; SQLite stores any text. */
  predicate Insertable(db: Database, event: Event, storable: bool) {
    && storable
    && EventTexts(db.driver, event)
    && event.projectId in db.projects
    && event.deviceId in db.devices
    && UserResolves(db, event.userId)
  }

  /** A row of `events` inserted by `INSERT OR IGNORE` / `ON CONFLICT DO NOTHING`. */
  predicate Accepts(db: Database, eventId: string, event: Event, storable: bool) {
    eventId !in db.events && StorableText(db.driver, eventId) && Insertable(db, event, storable)
  }

  /** The row passes the check, and the driver can store its texts. */
  predicate StorableRow(driver: Driver, p: Property) {
    ValidType(p.valueType) && StorableText(driver, p.key) && StorableOption(driver, p.valueString)
  }

  predicate StorableRows(driver: Driver, rows: multiset<Property>) {
    forall p | p in rows :: StorableRow(driver, p)
  }

  /** The property transaction commits when the event row exists and every row can be stored. */
  predicate Commits(db: Database, eventId: string, rows: multiset<Property>) {
    eventId in db.events && StorableRows(db.driver, rows)
  }

  function AddRows(table: map<string, multiset<Property>>, eventId: string,
                   rows: multiset<Property>): map<string, multiset<Property>> {
    if rows == multiset{} then table
    else if eventId in table then table[eventId := table[eventId] + rows]
    else table[eventId := rows]
  }

  // ON DELETE actions, table by table.

  function WithoutUser(userId: Option<int>, gone: set<int>): Option<int> {
    if userId.Some? && userId.value in gone then None else userId
  }

  function UsersOf(db: Database, q: int): set<int> {
    set u | u in db.users && db.users[u].projectId == q
  }

  function DevicesOf(db: Database, q: int): set<string> {
    set d | d in db.devices && db.devices[d].projectId == q
  }

  /** The events that a project delete removes: those of the project, and those of its devices. */
  function EventsOf(db: Database, q: int): set<string> {
    set e | e in db.events && (db.events[e].projectId == q || db.events[e].deviceId in DevicesOf(db, q))
  }

  /** ON DELETE SET NULL */
  function DetachDevices(devices: map<string, Device>, users: set<int>): map<string, Device> {
    map d | d in devices :: devices[d].(userId := WithoutUser(devices[d].userId, users))
  }

  function DetachEvents(events: map<string, Event>, users: set<int>): map<string, Event> {
    map e | e in events :: events[e].(userId := WithoutUser(events[e].userId, users))
  }

  /** ON DELETE CASCADE */
  function TokensOf(db: Database, q: int): set<int> {
    set t | t in db.tokens && db.tokens[t].projectId == q
  }

  function CascadeProject(db: Database, q: int): Database {
    var users := UsersOf(db, q);
    Database(db.driver, db.projects - {q}, db.tokens - TokensOf(db, q), db.users - users,
             DetachDevices(db.devices - DevicesOf(db, q), users),
             DetachEvents(db.events - EventsOf(db, q), users),
             db.properties - EventsOf(db, q))
  }

  /** The events that `CleanupEvents` deletes. */
  function Expired(db: Database, projectId: int, before: int): set<string> {
    set e | e in db.events && db.events[e].projectId == projectId && db.events[e].createdAt < before
  }

  function DropEvents(db: Database, gone: set<string>): Database {
    db.(events := db.events - gone, properties := db.properties - gone)
  }

  // One function for each statement.  A statement that breaks a constraint changes nothing.

  function WithProject(db: Database, id: int, project: Project): Database {
    db.(projects := db.projects[id := project])
  }

  ghost function WithToken(db: Database, id: int, token: Token): Database {
    if token.projectId in db.projects && !TokenTaken(db, token.token)
    then db.(tokens := db.tokens[id := token.(disabledAt := None)]) else db
  }

  function WithTokenUpdate(db: Database, id: int, labelText: string, active: bool, allowedOrigins: string,
                           disabledAt: Option<int>): Database {
    if id in db.tokens
    then db.(tokens := db.tokens[id := db.tokens[id].(labelText := labelText, active := active,
                                                      allowedOrigins := allowedOrigins, disabledAt := disabledAt)])
    else db
  }

  /** ON CONFLICT (id) DO UPDATE */
  function Updated(device: Device, osVersion: string, appVersion: string, locale: string, now: int): (d: Device)
    ensures d.projectId == device.projectId && d.userId == device.userId && d.platform == device.platform
    ensures d.firstSeenAt == device.firstSeenAt
  {
    device.(osVersion := osVersion, appVersion := appVersion, locale := locale, lastSeenAt := now)
  }

  function WithDevice(db: Database, deviceId: string, projectId: int, platform: string, osVersion: string,
                      appVersion: string, locale: string, now: int): Database {
    if deviceId in db.devices
    then db.(devices := db.devices[deviceId := Updated(db.devices[deviceId], osVersion, appVersion, locale, now)])
    else if projectId in db.projects
    then db.(devices := db.devices[deviceId := Device(projectId, None, platform, osVersion, appVersion,
                                                      locale, now, now)])
    else db
  }

  function WithLink(db: Database, deviceId: string, userId: int): Database {
    if deviceId in db.devices && userId in db.users
    then db.(devices := db.devices[deviceId := db.devices[deviceId].(userId := Some(userId))])
    else db
  }

  ghost function WithUser(db: Database, id: int, projectId: int, anonymousId: string): Database {
    if projectId in db.projects && !UserTaken(db, projectId, anonymousId)
    then db.(users := db.users[id := AppUser(projectId, anonymousId)]) else db
  }

  function WithEvent(db: Database, eventId: string, event: Event, storable: bool): Database {
    if Accepts(db, eventId, event, storable) then db.(events := db.events[eventId := event]) else db
  }

  function WithProperties(db: Database, eventId: string, rows: multiset<Property>): Database {
    if Commits(db, eventId, rows) then db.(properties := AddRows(db.properties, eventId, rows)) else db
  }

  function WithoutExpired(db: Database, projectId: int, before: int): Database {
    DropEvents(db, Expired(db, projectId, before))
  }

  /** The database after one statement. */
  ghost function Apply(db: Database, cmd: Command): Database {
    match cmd
    case CreateProject(id, project) => WithProject(db, id, project)
    case UpdateProject(id, project) => if id in db.projects then WithProject(db, id, project) else db
    case DeleteProject(id) => CascadeProject(db, id)
    case CreateToken(id, token) => WithToken(db, id, token)
    case UpdateToken(id, labelText, active, origins, disabledAt) =>
      WithTokenUpdate(db, id, labelText, active, origins, disabledAt)
    case DeleteToken(id) => db.(tokens := db.tokens - {id})
    case UpsertDevice(deviceId, projectId, platform, osVersion, appVersion, locale, now) =>
      WithDevice(db, deviceId, projectId, platform, osVersion, appVersion, locale, now)
    case LinkDevice(deviceId, userId) => WithLink(db, deviceId, userId)
    case InsertUser(id, projectId, anonymousId) => WithUser(db, id, projectId, anonymousId)
    case InsertEvent(eventId, event, storable) => WithEvent(db, eventId, event, storable)
    case InsertProperties(eventId, rows) => WithProperties(db, eventId, rows)
    case CleanupEvents(projectId, before) => WithoutExpired(db, projectId, before)
  }

  // ---------------------------------------------------------------------------------------
  // Every statement keeps the constraints
  // ---------------------------------------------------------------------------------------

  lemma CascadeKeepsClosed(db: Database, q: int)
    requires Closed(db)
    ensures Closed(CascadeProject(db, q))
  {
    hide EventsOf;
    var after := CascadeProject(db, q);
    forall d | d in after.devices
      ensures after.devices[d].projectId in after.projects && UserResolves(after, after.devices[d].userId)
    {
      assert UserResolves(db, db.devices[d].userId);
    }
    forall e | e in after.events
      ensures && after.events[e].projectId in after.projects && after.events[e].deviceId in after.devices
              && UserResolves(after, after.events[e].userId)
    {
      SurvivingEvent(db, q, e);
      assert UserResolves(db, db.events[e].userId);
    }
  }

  lemma SurvivingEvent(db: Database, q: int, e: string)
    requires Closed(db) && e in db.events && e !in EventsOf(db, q)
    ensures db.events[e].projectId in db.projects - {q} && db.events[e].deviceId in db.devices - DevicesOf(db, q)
  {
  }

  lemma ProjectCommandKeepsClosed(db: Database, cmd: Command)
    requires cmd.CreateProject? || cmd.UpdateProject? || cmd.DeleteProject?
    requires Closed(db)
    ensures Closed(Apply(db, cmd))
  {
    if cmd.DeleteProject? {
      CascadeKeepsClosed(db, cmd.id);
    }
  }

  lemma TokenCommandKeepsClosed(db: Database, cmd: Command)
    requires cmd.CreateToken? || cmd.UpdateToken? || cmd.DeleteToken?
    requires Closed(db)
    ensures Closed(Apply(db, cmd))
  {
  }

  lemma DeviceKeepsClosed(db: Database, deviceId: string, device: Device)
    requires Closed(db) && device.projectId in db.projects && UserResolves(db, device.userId)
    ensures Closed(db.(devices := db.devices[deviceId := device]))
  {
  }

  lemma DeviceResolves(db: Database, deviceId: string)
    requires Closed(db) && deviceId in db.devices
    ensures db.devices[deviceId].projectId in db.projects && UserResolves(db, db.devices[deviceId].userId)
  {
  }

  lemma WithDeviceKeepsClosed(db: Database, deviceId: string, projectId: int, platform: string, osVersion: string,
                              appVersion: string, locale: string, now: int)
    requires Closed(db)
    ensures Closed(WithDevice(db, deviceId, projectId, platform, osVersion, appVersion, locale, now))
  {
    hide Closed;
    if deviceId in db.devices {
      DeviceResolves(db, deviceId);
      DeviceKeepsClosed(db, deviceId, Updated(db.devices[deviceId], osVersion, appVersion, locale, now));
    } else if projectId in db.projects {
      DeviceKeepsClosed(db, deviceId, Device(projectId, None, platform, osVersion, appVersion, locale, now, now));
    }
  }

  lemma WithLinkKeepsClosed(db: Database, deviceId: string, userId: int)
    requires Closed(db)
    ensures Closed(WithLink(db, deviceId, userId))
  {
    hide Closed;
    if deviceId in db.devices && userId in db.users {
      DeviceResolves(db, deviceId);
      DeviceKeepsClosed(db, deviceId, db.devices[deviceId].(userId := Some(userId)));
    }
  }

  lemma WithUserKeepsClosed(db: Database, id: int, projectId: int, anonymousId: string)
    requires Closed(db)
    ensures Closed(WithUser(db, id, projectId, anonymousId))
  {
    hide UserTaken;
  }

  lemma DeviceCommandKeepsClosed(db: Database, cmd: Command)
    requires cmd.UpsertDevice? || cmd.LinkDevice? || cmd.InsertUser?
    requires Closed(db)
    ensures Closed(Apply(db, cmd))
  {
    hide Closed;
    hide WithDevice;
    hide WithLink;
    hide WithUser;
    match cmd
    case UpsertDevice(deviceId, projectId, platform, osVersion, appVersion, locale, now) =>
      WithDeviceKeepsClosed(db, deviceId, projectId, platform, osVersion, appVersion, locale, now);
    case LinkDevice(deviceId, userId) => WithLinkKeepsClosed(db, deviceId, userId);
    case InsertUser(id, projectId, anonymousId) => WithUserKeepsClosed(db, id, projectId, anonymousId);
  }

  lemma WithEventKeepsClosed(db: Database, eventId: string, event: Event, storable: bool)
    requires Closed(db)
    ensures Closed(WithEvent(db, eventId, event, storable))
  {
  }

  lemma WithPropertiesKeepsClosed(db: Database, eventId: string, rows: multiset<Property>)
    requires Closed(db)
    ensures Closed(WithProperties(db, eventId, rows))
  {
  }

  lemma WithoutExpiredKeepsClosed(db: Database, projectId: int, before: int)
    requires Closed(db)
    ensures Closed(WithoutExpired(db, projectId, before))
  {
    hide Expired;
  }

  lemma EventCommandKeepsClosed(db: Database, cmd: Command)
    requires cmd.InsertEvent? || cmd.InsertProperties? || cmd.CleanupEvents?
    requires Closed(db)
    ensures Closed(Apply(db, cmd))
  {
    hide Closed;
    hide WithEvent;
    hide WithProperties;
    hide WithoutExpired;
    match cmd
    case InsertEvent(eventId, event, storable) => WithEventKeepsClosed(db, eventId, event, storable);
    case InsertProperties(eventId, rows) => WithPropertiesKeepsClosed(db, eventId, rows);
    case CleanupEvents(projectId, before) => WithoutExpiredKeepsClosed(db, projectId, before);
  }

  ghost predicate SubMap<K, V>(less: map<K, V>, more: map<K, V>) {
    forall k | k in less :: k in more && less[k] == more[k]
  }

  lemma CascadeShrinks(db: Database, q: int)
    ensures SubMap(CascadeProject(db, q).tokens, db.tokens) && SubMap(CascadeProject(db, q).users, db.users)
  {
  }

  /** Only two statements write token rows. */
  lemma TokensShrink(db: Database, cmd: Command)
    requires !cmd.CreateToken? && !cmd.UpdateToken?
    ensures SubMap(Apply(db, cmd).tokens, db.tokens)
  {
    hide CascadeProject;
    if cmd.DeleteProject? {
      CascadeShrinks(db, cmd.id);
    }
  }

  /** Only one statement writes user rows. */
  lemma UsersShrink(db: Database, cmd: Command)
    requires !cmd.InsertUser?
    ensures SubMap(Apply(db, cmd).users, db.users)
  {
    hide CascadeProject;
    if cmd.DeleteProject? {
      CascadeShrinks(db, cmd.id);
    }
  }

  lemma FewerTokens(db: Database, after: Database)
    requires UniqueTokens(db) && SubMap(after.tokens, db.tokens)
    ensures UniqueTokens(after)
  {
  }

  lemma FewerUsers(db: Database, after: Database)
    requires UniqueUsers(db) && SubMap(after.users, db.users)
    ensures UniqueUsers(after)
  {
  }

  lemma WithTokenKeepsUnique(db: Database, id: int, token: Token)
    requires UniqueTokens(db) && id !in db.tokens
    ensures UniqueTokens(WithToken(db, id, token))
  {
    if !TokenTaken(db, token.token) {
      assert forall t | t in db.tokens :: db.tokens[t].token != token.token;
    }
  }

  lemma WithTokenUpdateKeepsUnique(db: Database, id: int, labelText: string, active: bool, allowedOrigins: string,
                                   disabledAt: Option<int>)
    requires UniqueTokens(db)
    ensures UniqueTokens(WithTokenUpdate(db, id, labelText, active, allowedOrigins, disabledAt))
  {
    var after := WithTokenUpdate(db, id, labelText, active, allowedOrigins, disabledAt);
    assert forall t | t in after.tokens :: t in db.tokens && after.tokens[t].token == db.tokens[t].token;
  }

  lemma WithUserKeepsUnique(db: Database, id: int, projectId: int, anonymousId: string)
    requires UniqueUsers(db) && id !in db.users
    ensures UniqueUsers(WithUser(db, id, projectId, anonymousId))
  {
    if !UserTaken(db, projectId, anonymousId) {
      assert forall u | u in db.users :: !IsUser(db, u, projectId, anonymousId);
    }
  }

  lemma ApplyKeepsUniqueTokens(db: Database, cmd: Command)
    requires UniqueTokens(db) && FreshId(db, cmd)
    ensures UniqueTokens(Apply(db, cmd))
  {
    hide UniqueTokens;
    hide SubMap;
    hide WithToken;
    hide WithTokenUpdate;
    match cmd
    case CreateToken(id, token) => WithTokenKeepsUnique(db, id, token);
    case UpdateToken(id, labelText, active, origins, disabledAt) =>
      WithTokenUpdateKeepsUnique(db, id, labelText, active, origins, disabledAt);
    case _ =>
      TokensShrink(db, cmd);
      hide Apply;
      FewerTokens(db, Apply(db, cmd));
  }

  lemma ApplyKeepsUniqueUsers(db: Database, cmd: Command)
    requires UniqueUsers(db) && FreshId(db, cmd)
    ensures UniqueUsers(Apply(db, cmd))
  {
    hide UniqueUsers;
    hide SubMap;
    hide WithUser;
    if cmd.InsertUser? {
      WithUserKeepsUnique(db, cmd.id, cmd.projectId, cmd.anonymousId);
    } else {
      UsersShrink(db, cmd);
      hide Apply;
      FewerUsers(db, Apply(db, cmd));
    }
  }

  lemma ApplyKeepsUnique(db: Database, cmd: Command)
    requires UniqueTokens(db) && UniqueUsers(db) && FreshId(db, cmd)
    ensures UniqueTokens(Apply(db, cmd)) && UniqueUsers(Apply(db, cmd))
  {
    hide Apply;
    hide UniqueTokens;
    hide UniqueUsers;
    ApplyKeepsUniqueTokens(db, cmd);
    ApplyKeepsUniqueUsers(db, cmd);
  }

  lemma AddRowsKeepsBags(db: Database, eventId: string, rows: multiset<Property>)
    requires TypedProperties(db) && NoEmptyBags(db) && forall p | p in rows :: ValidType(p.valueType)
    ensures var after := db.(properties := AddRows(db.properties, eventId, rows));
            TypedProperties(after) && NoEmptyBags(after)
  {
    hide ValidType;
    var after := db.(properties := AddRows(db.properties, eventId, rows));
    assert eventId in after.properties ==> after.properties[eventId] == RowsOf(db, eventId) + rows;
  }

  lemma FewerBags(db: Database, after: Database)
    requires TypedProperties(db) && NoEmptyBags(db) && SubMap(after.properties, db.properties)
    ensures TypedProperties(after) && NoEmptyBags(after)
  {
    hide ValidType;
  }

  /** Only one statement writes property rows. */
  lemma BagsShrink(db: Database, cmd: Command)
    requires !cmd.InsertProperties?
    ensures SubMap(Apply(db, cmd).properties, db.properties)
  {
  }

  lemma ApplyKeepsBags(db: Database, cmd: Command)
    requires TypedProperties(db) && NoEmptyBags(db)
    ensures TypedProperties(Apply(db, cmd)) && NoEmptyBags(Apply(db, cmd))
  {
    hide TypedProperties;
    hide NoEmptyBags;
    hide SubMap;
    if !cmd.InsertProperties? {
      BagsShrink(db, cmd);
      hide Apply;
      FewerBags(db, Apply(db, cmd));
    } else if Commits(db, cmd.eventId, cmd.rows) {
      AddRowsKeepsBags(db, cmd.eventId, cmd.rows);
      hide AddRows;
    }
  }

  /** No statement, whatever its arguments, breaks a foreign key, a UNIQUE key or a CHECK. */
  lemma ApplyKeepsConsistent(db: Database, cmd: Command)
    requires Consistent(db) && FreshId(db, cmd)
    ensures Consistent(Apply(db, cmd))
  {
    ApplyKeepsUnique(db, cmd);
    ApplyKeepsBags(db, cmd);
    if cmd.CreateProject? || cmd.UpdateProject? || cmd.DeleteProject? {
      ProjectCommandKeepsClosed(db, cmd);
    } else if cmd.CreateToken? || cmd.UpdateToken? || cmd.DeleteToken? {
      TokenCommandKeepsClosed(db, cmd);
    } else if cmd.UpsertDevice? || cmd.LinkDevice? || cmd.InsertUser? {
      DeviceCommandKeepsClosed(db, cmd);
    } else {
      EventCommandKeepsClosed(db, cmd);
    }
  }

  // ---------------------------------------------------------------------------------------
  // Deleting a project keeps the largest closed part of the database without it
  // ---------------------------------------------------------------------------------------

  /** `less` is `more` with rows missing, property rows missing, and user links nulled. */
  ghost predicate LessLinked(less: Option<int>, more: Option<int>) {
    less == None || less == more
  }

  ghost predicate DeviceBelow(less: Device, more: Device) {
    LessLinked(less.userId, more.userId) && less == more.(userId := less.userId)
  }

  ghost predicate EventBelow(less: Event, more: Event) {
    LessLinked(less.userId, more.userId) && less == more.(userId := less.userId)
  }

  ghost predicate Below(less: Database, more: Database) {
    && less.driver == more.driver
    && SubMap(less.projects, more.projects)
    && SubMap(less.tokens, more.tokens)
    && SubMap(less.users, more.users)
    && (forall d | d in less.devices :: d in more.devices && DeviceBelow(less.devices[d], more.devices[d]))
    && (forall e | e in less.events :: e in more.events && EventBelow(less.events[e], more.events[e]))
    && (forall e | e in less.properties :: e in more.properties && less.properties[e] <= more.properties[e])
  }

  ghost predicate ClosedPartWithout(part: Database, db: Database, q: int) {
    Closed(part) && Below(part, db) && q !in part.projects
  }

  lemma SameMap<K, V>(m: map<K, V>, n: map<K, V>)
    requires SubMap(m, n) && SubMap(n, m)
    ensures m == n
  {
    assert m.Keys == n.Keys by {
      forall k | k in m ensures k in n {}
      forall k | k in n ensures k in m {}
    }
  }

  lemma BelowAntisymmetric(a: Database, b: Database)
    requires Below(a, b) && Below(b, a)
    ensures a == b
  {
    SameMap(a.projects, b.projects);
    SameMap(a.tokens, b.tokens);
    SameMap(a.users, b.users);
    SameMap(a.devices, b.devices);
    SameMap(a.events, b.events);
    forall e | e in a.properties ensures a.properties[e] == b.properties[e] {
      assert a.properties[e] <= b.properties[e] && b.properties[e] <= a.properties[e];
    }
    SameMap(a.properties, b.properties);
  }

  lemma CascadeIsClosedPart(db: Database, q: int)
    requires Closed(db)
    ensures ClosedPartWithout(CascadeProject(db, q), db, q)
  {
    CascadeKeepsClosed(db, q);
    CascadeIsBelow(db, q);
    hide Closed;
    hide Below;
  }

  lemma DetachedDevicesBelow(devices: map<string, Device>, users: set<int>, d: string)
    requires d in devices
    ensures d in DetachDevices(devices, users) && DeviceBelow(DetachDevices(devices, users)[d], devices[d])
  {
  }

  lemma DetachedEventsBelow(events: map<string, Event>, users: set<int>, e: string)
    requires e in events
    ensures e in DetachEvents(events, users) && EventBelow(DetachEvents(events, users)[e], events[e])
  {
  }

  lemma CascadeIsBelow(db: Database, q: int)
    ensures Below(CascadeProject(db, q), db)
  {
    hide DeviceBelow;
    hide EventBelow;
    hide UsersOf;
    hide DevicesOf;
    hide EventsOf;
    hide TokensOf;
    var after, users := CascadeProject(db, q), UsersOf(db, q);
    var devices, events := db.devices - DevicesOf(db, q), db.events - EventsOf(db, q);
    forall d | d in after.devices ensures d in db.devices && DeviceBelow(after.devices[d], db.devices[d]) {
      DetachedDevicesBelow(devices, users, d);
    }
    forall e | e in after.events ensures e in db.events && EventBelow(after.events[e], db.events[e]) {
      DetachedEventsBelow(events, users, e);
    }
  }

  lemma CascadeIsLargest(db: Database, q: int, part: Database)
    requires ClosedPartWithout(part, db, q)
    ensures Below(part, CascadeProject(db, q))
  {
    var after := CascadeProject(db, q);
    forall u | u in part.users ensures u in after.users && u !in UsersOf(db, q) {
      assert part.users[u].projectId in part.projects;
    }
    forall d | d in part.devices
      ensures d in after.devices && DeviceBelow(part.devices[d], after.devices[d])
    {
      assert DeviceBelow(part.devices[d], db.devices[d]);
      assert UserResolves(part, part.devices[d].userId);
    }
    forall e | e in part.events
      ensures e in after.events && EventBelow(part.events[e], after.events[e])
    {
      assert EventBelow(part.events[e], db.events[e]);
      assert UserResolves(part, part.events[e].userId);
      assert part.events[e].deviceId in after.devices;
    }
  }

  /** A database is what `DeleteProject(q)` leaves exactly when it is a referentially closed part
      of the old one without `q` and every other such part lies below it. */
  lemma DeleteProjectIsGreatest(db: Database, q: int, result: Database)
    requires Closed(db)
    ensures result == Apply(db, DeleteProject(q)) <==>
            && ClosedPartWithout(result, db, q)
            && (forall part | ClosedPartWithout(part, db, q) :: Below(part, result))
  {
    hide Below;
    hide Closed;
    hide CascadeProject;
    var after := CascadeProject(db, q);
    CascadeIsClosedPart(db, q);
    forall part | ClosedPartWithout(part, db, q) ensures Below(part, after) {
      CascadeIsLargest(db, q, part);
    }
    if ClosedPartWithout(result, db, q) && forall part | ClosedPartWithout(part, db, q) :: Below(part, result) {
      BelowAntisymmetric(after, result);
    }
  }
}
