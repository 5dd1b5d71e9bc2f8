/** The ingestion handlers.  A Go string is modelled here as the sequence of its bytes. */
module Tracking {
  import opened Encoding
  import opened Options
  import opened Schema
  import opened Storage
  import Sets

  const MAX_EVENTS_PER_BATCH := 100
  const MAX_PROPERTIES_PER_EVENT := 50
  const MAX_EVENT_NAME_LEN := 256
  const MAX_KEY_LEN := 128
  const MAX_STRING_VALUE_LEN := 4096

  /** A decoded JSON value.  `instant` is what the RFC 3339 parser makes of the string. */
  datatype Json = JString(text: string, instant: Option<int>) | JNumber(number: real) | JBool(flag: bool) | JOther

  datatype PropertyValue = PropertyValue(valueType: ValueType, value: Json)

  /** `storable` says whether the driver can store the timestamp text. */
  datatype TrackEvent = TrackEvent(id: string, name: string, timestamp: string, storable: bool,
                                   properties: map<string, PropertyValue>)

  datatype TrackRequest = TrackRequest(deviceId: string, userId: Option<int>, events: seq<TrackEvent>)

  datatype DeviceRequest = DeviceRequest(deviceId: string, platform: string, osVersion: string,
                                         appVersion: string, locale: string)

  datatype IdentifyRequest = IdentifyRequest(deviceId: string, anonymousId: string)

  datatype Location = Location(ipAddress: string, country: string, city: string)

  /** What every event of one request shares. */
  datatype Context = Context(projectId: int, deviceId: string, userId: Option<int>, location: Location)

  /** What the database does to one event: its clock reading and its transient errors. */
  datatype Fate = Fate(now: int, insertFails: bool, propertiesFail: bool)

  datatype Response = Accepted(count: nat) | Rejected | Succeeded | UserId(id: int) | ServerError

  // ---------------------------------------------------------------------------------------
  // Property rows
  // ---------------------------------------------------------------------------------------

  function Truncate(x: real): int {
    if x >= 0.0 then x.Floor else -((-x).Floor)
  }

  function Clip(s: string): string {
    if |s| > MAX_STRING_VALUE_LEN then s[..MAX_STRING_VALUE_LEN] else s
  }

  function PropertyRow(key: string, pv: PropertyValue): (row: Property)
    ensures row.key == key && row.valueType == pv.valueType
  {
    var row := Property(key, pv.valueType, None, None, None, None, None);
    if pv.valueType == StringType && pv.value.JString? then row.(valueString := Some(Clip(pv.value.text)))
    else if pv.valueType == IntType && pv.value.JNumber? then row.(valueInt := Some(Truncate(pv.value.number)))
    else if pv.valueType == FloatType && pv.value.JNumber? then row.(valueFloat := Some(pv.value.number))
    else if pv.valueType == BoolType && pv.value.JBool? then row.(valueBool := Some(pv.value.flag))
    else if pv.valueType == DatetimeType && pv.value.JString? then row.(valueDatetime := pv.value.instant)
    else row
  }

  /** Toward zero: the integer part, with the number's sign. */
  lemma TruncateIsClose(x: real)
    ensures var n := Truncate(x) as real;
            if x >= 0.0 then 0.0 <= n <= x < n + 1.0 else n - 1.0 < x <= n <= 0.0
  {
  }

  /** The value columns of a row that are not null. */
  function Columns(row: Property): set<ValueType> {
    (if row.valueString.Some? then {StringType} else {}) + (if row.valueInt.Some? then {IntType} else {}) +
    (if row.valueFloat.Some? then {FloatType} else {}) + (if row.valueBool.Some? then {BoolType} else {}) +
    (if row.valueDatetime.Some? then {DatetimeType} else {})
  }

  /** Whether a JSON value can be stored as the declared type. */
  predicate Fits(pv: PropertyValue) {
    match pv.valueType
    case StringType => pv.value.JString?
    case IntType => pv.value.JNumber?
    case FloatType => pv.value.JNumber?
    case BoolType => pv.value.JBool?
    case DatetimeType => pv.value.JString? && pv.value.instant.Some?
    case OtherType(_) => false
  }

  /** A row has a value in the column of its declared type when the JSON value fits it, and no other
      value; a text is cut to its first bytes and a number loses only its fraction. */
  lemma RowHasItsColumn(key: string, pv: PropertyValue)
    ensures var row := PropertyRow(key, pv);
            && Columns(row) == (if Fits(pv) then {pv.valueType} else {})
            && (row.valueString.Some? ==> row.valueString.value <= pv.value.text
                                          && |row.valueString.value| <= 4096
                                          && (|row.valueString.value| == 4096
                                              || row.valueString.value == pv.value.text))
            && (row.valueInt.Some? ==> -1.0 < pv.value.number - row.valueInt.value as real < 1.0)
            && (row.valueFloat.Some? ==> row.valueFloat.value == pv.value.number)
            && (row.valueBool.Some? ==> row.valueBool.value == pv.value.flag)
            && (row.valueDatetime.Some? ==> row.valueDatetime == pv.value.instant)
  {
    if pv.value.JNumber? {
      TruncateIsClose(pv.value.number);
    }
  }

  /** The switch on the declared type. */
  method BuildProperty(key: string, pv: PropertyValue) returns (row: Property)
    ensures row == PropertyRow(key, pv)
  {
    row := Property(key, pv.valueType, None, None, None, None, None);
    match pv.valueType {
      case StringType =>
        if pv.value.JString? {
          var s := pv.value.text;
          if |s| > MAX_STRING_VALUE_LEN {
            s := s[..MAX_STRING_VALUE_LEN];
          }
          row := row.(valueString := Some(s));
        }
      case IntType =>
        if pv.value.JNumber? {
          row := row.(valueInt := Some(Truncate(pv.value.number)));
        }
      case FloatType =>
        if pv.value.JNumber? {
          row := row.(valueFloat := Some(pv.value.number));
        }
      case BoolType =>
        if pv.value.JBool? {
          row := row.(valueBool := Some(pv.value.flag));
        }
      case DatetimeType =>
        if pv.value.JString? {
          row := row.(valueDatetime := pv.value.instant);
        }
      case _ =>
    }
  }

  /** The rows made for a property map: one for each key that is short enough. */
  function PropertyRows(properties: map<string, PropertyValue>): set<Property> {
    set k | k in properties && |k| <= MAX_KEY_LEN :: PropertyRow(k, properties[k])
  }

  /** The same rows as a bag, in which each occurs once. */
  function PropertyBag(properties: map<string, PropertyValue>): multiset<Property> {
    multiset(PropertyRows(properties))
  }

  /** No two rows of the bag have the same key. */
  ghost predicate DistinctKeys(rows: multiset<Property>) {
    && (forall p | p in rows :: rows[p] == 1)
    && (forall p, q | p in rows && q in rows && p.key == q.key :: p == q)
  }

  lemma RowsHaveDistinctKeys(properties: map<string, PropertyValue>)
    ensures DistinctKeys(PropertyBag(properties))
  {
    var rows := PropertyRows(properties);
    forall p, q | p in rows && q in rows && p.key == q.key ensures p == q {
      var k :| k in properties && p == PropertyRow(k, properties[k]);
      var l :| l in properties && q == PropertyRow(l, properties[l]);
    }
  }

  lemma BagOfAddedProperty(properties: map<string, PropertyValue>, key: string, pv: PropertyValue)
    requires key !in properties
    ensures PropertyBag(properties[key := pv]) ==
            PropertyBag(properties) + (if |key| <= MAX_KEY_LEN then multiset{PropertyRow(key, pv)} else multiset{})
  {
    var rows, row, more := PropertyRows(properties), PropertyRow(key, pv), properties[key := pv];
    forall k | k in properties && |k| <= MAX_KEY_LEN ensures PropertyRow(k, properties[k]) in PropertyRows(more) {
      assert more[k] == properties[k];
    }
    if |key| <= MAX_KEY_LEN {
      assert PropertyRow(key, more[key]) in PropertyRows(more);
      assert PropertyRows(more) == rows + {row};
      Sets.BagOfAdded(rows, row);
    } else {
      assert PropertyRows(more) == rows;
    }
  }

  lemma NoProperties(properties: map<string, PropertyValue>)
    requires properties == map[]
    ensures PropertyBag(properties) == multiset{}
  {
    hide PropertyRow;
    assert PropertyRows(properties) == {};
  }

  /** The rows that the property transaction leaves for a newly inserted event. */
  function StoredRows(driver: Driver, properties: map<string, PropertyValue>): multiset<Property> {
    var rows := PropertyBag(properties);
    if StorableRows(driver, rows) then rows else multiset{}
  }

  /** The map is visited in an arbitrary order. */
  method BuildProperties(properties: map<string, PropertyValue>) returns (rows: seq<Property>)
    ensures multiset(rows) == PropertyBag(properties)
  {
    hide PropertyRow;
    hide PropertyRows;
    NoProperties(map[]);
    rows := [];
    var todo := properties.Keys;
    ghost var done: map<string, PropertyValue> := map[];
    while todo != {}
      invariant todo <= properties.Keys && done == properties - todo
      invariant multiset(rows) == PropertyBag(done)
      decreases todo
    {
      var key :| key in todo;
      BagOfAddedProperty(done, key, properties[key]);
      todo, done := todo - {key}, done[key := properties[key]];
      if |key| <= MAX_KEY_LEN {
        var row := BuildProperty(key, properties[key]);
        rows := rows + [row];
      }
    }
    assert done == properties;
  }

  // ---------------------------------------------------------------------------------------
  // The loop of Track
  // ---------------------------------------------------------------------------------------

  /** The checks that skip an event before it reaches the database. */
  predicate WellFormed(ev: TrackEvent) {
    && ev.id != ""
    && ev.name != ""
    && |ev.name| <= MAX_EVENT_NAME_LEN
    && |ev.properties| <= MAX_PROPERTIES_PER_EVENT
  }

  function NullStr(s: string): Option<string> {
    if s == "" then None else Some(s)
  }

  function RowFor(ctx: Context, ev: TrackEvent, now: int): Event {
    Event(ctx.projectId, ctx.deviceId, ctx.userId, ev.name, ev.timestamp, NullStr(ctx.location.ipAddress),
          NullStr(ctx.location.country), NullStr(ctx.location.city), now)
  }

  /** The database and the count of accepted events. */
  datatype Progress = Progress(db: Database, accepted: nat)

  /** One iteration of the loop. */
  ghost function TrackOne(p: Progress, ctx: Context, ev: TrackEvent, fate: Fate): Progress {
    var row := RowFor(ctx, ev, fate.now);
    if !WellFormed(ev) || fate.insertFails || !Accepts(p.db, ev.id, row, ev.storable) then p
    else
      var inserted := WithEvent(p.db, ev.id, row, ev.storable);
      Progress(if fate.propertiesFail then inserted
               else WithProperties(inserted, ev.id, PropertyBag(ev.properties)), p.accepted + 1)
  }

  /** The loop after its first `n` events. */
  ghost function TrackPrefix(db: Database, ctx: Context, evs: seq<TrackEvent>, fates: seq<Fate>, n: nat): Progress
    requires n <= |evs| == |fates|
  {
    if n == 0 then Progress(db, 0)
    else TrackOne(TrackPrefix(db, ctx, evs, fates, n - 1), ctx, evs[n - 1], fates[n - 1])
  }

  ghost function TrackAll(db: Database, ctx: Context, evs: seq<TrackEvent>, fates: seq<Fate>): Progress
    requires |evs| == |fates|
  {
    TrackPrefix(db, ctx, evs, fates, |evs|)
  }

  predicate ValidBatch(req: TrackRequest) {
    req.deviceId != "" && 0 < |req.events| <= MAX_EVENTS_PER_BATCH
  }

  /** The request's user id, or else the one linked to the device; a failed lookup reads as none. */
  function UserFor(db: Database, req: TrackRequest, lookupFails: bool): Option<int> {
    if req.userId.Some? then req.userId
    else if !lookupFails && req.deviceId in db.devices then db.devices[req.deviceId].userId
    else None
  }

  function ContextFor(db: Database, projectId: int, req: TrackRequest, location: Location, lookupFails: bool): Context {
    Context(projectId, req.deviceId, UserFor(db, req, lookupFails), location)
  }

  /** The whole call on a batch that passes validation. */
  ghost function TrackCall(db: Database, projectId: int, req: TrackRequest, location: Location,
                           lookupFails: bool, fates: seq<Fate>): Progress
    requires |fates| == |req.events|
  {
    TrackAll(db, ContextFor(db, projectId, req, location, lookupFails), req.events, fates)
  }

  // ---------------------------------------------------------------------------------------
  // What a stored event contains
  // ---------------------------------------------------------------------------------------

  /** The column has the text, or null exactly for the empty one. */
  predicate HasText(column: Option<string>, text: string) {
    if text == "" then column.None? else column.Some? && column.value == text
  }

  /** The row of an event, column by column. */
  ghost predicate FromContext(row: Event, ctx: Context, ev: TrackEvent, now: int) {
    && row.projectId == ctx.projectId && row.deviceId == ctx.deviceId && row.userId == ctx.userId
    && row.name == ev.name && row.timestamp == ev.timestamp && row.createdAt == now
    && HasText(row.ipAddress, ctx.location.ipAddress) && HasText(row.country, ctx.location.country)
    && HasText(row.city, ctx.location.city)
  }

  lemma RowIsFrom(ctx: Context, ev: TrackEvent, now: int)
    ensures FromContext(RowFor(ctx, ev, now), ctx, ev, now)
  {
  }

  /** The request's user or else the device's, when that is known. */
  predicate TakenUser(db: Database, userId: Option<int>, req: TrackRequest, lookupFails: bool) {
    if req.userId.Some? then userId == req.userId
    else if lookupFails || req.deviceId !in db.devices then userId == None
    else userId == db.devices[req.deviceId].userId
  }

  /** The rows of a property map: one for each key of at most 128 bytes, of the declared type. */
  ghost predicate Carries(rows: multiset<Property>, properties: map<string, PropertyValue>) {
    && (forall p | p in rows :: rows[p] == 1 && p.key in properties && |p.key| <= 128
                                && p.valueType == properties[p.key].valueType
                                && Columns(p) == if Fits(properties[p.key]) then {p.valueType} else {})
    && (forall k | k in properties && |k| <= 128 :: exists p :: p in rows && p.key == k)
  }

  /** Every event that the call added is an entry of the batch that passes the checks, with the columns of that
      entry and of the request; its property rows are those of the entry, or none. */
  ghost predicate AddedFrom(db: Database, after: Database, projectId: int, req: TrackRequest, location: Location,
                            lookupFails: bool, fates: seq<Fate>)
    requires |fates| == |req.events|
  {
    forall e | e in after.events && e !in db.events ::
      && TakenUser(db, after.events[e].userId, req, lookupFails)
      && exists i | 0 <= i < |req.events| :: FromEntry(db, after, projectId, req, location, fates, e, i)
  }

  ghost predicate FromEntry(db: Database, after: Database, projectId: int, req: TrackRequest, location: Location,
                            fates: seq<Fate>, e: string, i: int)
    requires |fates| == |req.events| && 0 <= i < |req.events| && e in after.events
  {
    var ev := req.events[i];
    && ev.id == e && e != "" && ev.name != "" && |ev.name| <= 256 && |ev.properties| <= 50
    && FromContext(after.events[e], Context(projectId, req.deviceId, after.events[e].userId, location), ev,
                   fates[i].now)
    && (e !in db.properties ==> RowsOf(after, e) == multiset{} || Carries(RowsOf(after, e), ev.properties))
  }

  /** The row and the property rows that the entry at `i` gave the event. */
  ghost predicate GivenBy(db: Database, after: Database, ctx: Context, evs: seq<TrackEvent>, fates: seq<Fate>,
                          e: string, i: int)
    requires 0 <= i < |evs| == |fates| && e in after.events
  {
    && evs[i].id == e && WellFormed(evs[i]) && after.events[e] == RowFor(ctx, evs[i], fates[i].now)
    && (e !in db.properties ==>
          RowsOf(after, e) == multiset{} || RowsOf(after, e) == PropertyBag(evs[i].properties))
  }

  /** The property transaction adds its rows to those of its event, or none. */
  lemma PropertiesGive(db: Database, eventId: string, rows: multiset<Property>, e: string)
    ensures var after := WithProperties(db, eventId, rows);
            && after.events == db.events
            && (RowsOf(after, e) == RowsOf(db, e)
                || (e == eventId && e in db.events && RowsOf(after, e) == RowsOf(db, e) + rows))
  {
    hide StorableRows;
  }

  /** A round adds the row of its event, or leaves the event as it was. */
  lemma TrackOneGives(p: Progress, ctx: Context, ev: TrackEvent, fate: Fate, e: string)
    ensures var after := TrackOne(p, ctx, ev, fate).db;
            && (e in p.db.events ==> e in after.events && after.events[e] == p.db.events[e]
                                     && RowsOf(after, e) == RowsOf(p.db, e))
            && (e in after.events && e !in p.db.events ==>
                  && ev.id == e && WellFormed(ev) && after.events[e] == RowFor(ctx, ev, fate.now)
                  && (RowsOf(after, e) == RowsOf(p.db, e)
                      || RowsOf(after, e) == RowsOf(p.db, e) + PropertyBag(ev.properties)))
            && (e !in after.events ==> RowsOf(after, e) == RowsOf(p.db, e))
  {
    hide WellFormed;
    hide RowFor;
    hide Insertable;
    hide StorableText;
    hide PropertyBag;
    hide WithProperties;
    var inserted := WithEvent(p.db, ev.id, RowFor(ctx, ev, fate.now), ev.storable);
    PropertiesGive(inserted, ev.id, PropertyBag(ev.properties), e);
  }

  lemma {:induction false} PrefixGives(db: Database, ctx: Context, evs: seq<TrackEvent>, fates: seq<Fate>, n: nat,
                                       e: string)
    requires n <= |evs| == |fates| && e !in db.events
    ensures var after := TrackPrefix(db, ctx, evs, fates, n).db;
            && (e in after.events ==> exists i | 0 <= i < n :: GivenBy(db, after, ctx, evs, fates, e, i))
            && (e !in after.events ==> RowsOf(after, e) == RowsOf(db, e))
  {
    hide TrackOne;
    hide WellFormed;
    hide RowFor;
    hide PropertyBag;
    if n > 0 {
      PrefixGives(db, ctx, evs, fates, n - 1, e);
      var earlier, after := TrackPrefix(db, ctx, evs, fates, n - 1), TrackPrefix(db, ctx, evs, fates, n);
      TrackOneGives(earlier, ctx, evs[n - 1], fates[n - 1], e);
      if e in after.db.events {
        if e in earlier.db.events {
          var i :| 0 <= i < n - 1 && GivenBy(db, earlier.db, ctx, evs, fates, e, i);
          assert GivenBy(db, after.db, ctx, evs, fates, e, i);
        } else {
          assert GivenBy(db, after.db, ctx, evs, fates, e, n - 1);
        }
      }
    }
  }

  lemma BagCarries(properties: map<string, PropertyValue>)
    ensures Carries(PropertyBag(properties), properties)
  {
    var rows := PropertyRows(properties);
    forall p | p in rows
      ensures p.key in properties && |p.key| <= 128 && p.valueType == properties[p.key].valueType
              && Columns(p) == if Fits(properties[p.key]) then {p.valueType} else {}
    {
      var k :| k in properties && |k| <= MAX_KEY_LEN && p == PropertyRow(k, properties[k]);
      RowHasItsColumn(k, properties[k]);
    }
    forall k | k in properties && |k| <= 128 ensures exists p :: p in rows && p.key == k {
      assert PropertyRow(k, properties[k]) in rows;
    }
  }

  lemma RowIsTaken(db: Database, projectId: int, req: TrackRequest, location: Location, lookupFails: bool,
                   ev: TrackEvent, now: int)
    ensures var row := RowFor(ContextFor(db, projectId, req, location, lookupFails), ev, now);
            && FromContext(row, Context(projectId, req.deviceId, row.userId, location), ev, now)
            && TakenUser(db, row.userId, req, lookupFails)
  {
  }

  lemma EntryIsTaken(db: Database, after: Database, projectId: int, req: TrackRequest, location: Location,
                     lookupFails: bool, fates: seq<Fate>, e: string, i: nat)
    requires i < |req.events| == |fates| && e in after.events
    requires GivenBy(db, after, ContextFor(db, projectId, req, location, lookupFails), req.events, fates, e, i)
    ensures TakenUser(db, after.events[e].userId, req, lookupFails)
    ensures FromEntry(db, after, projectId, req, location, fates, e, i)
  {
    hide RowFor;
    hide FromContext;
    hide TakenUser;
    hide Carries;
    hide PropertyBag;
    hide ContextFor;
    RowIsTaken(db, projectId, req, location, lookupFails, req.events[i], fates[i].now);
    BagCarries(req.events[i].properties);
  }

  /** Whatever fails. */
  lemma TrackAdds(db: Database, projectId: int, req: TrackRequest, location: Location, lookupFails: bool,
                  fates: seq<Fate>)
    requires |fates| == |req.events|
    ensures AddedFrom(db, TrackCall(db, projectId, req, location, lookupFails, fates).db, projectId, req, location,
                      lookupFails, fates)
  {
    hide TakenUser;
    hide FromEntry;
    hide GivenBy;
    hide TrackPrefix;
    hide ContextFor;
    var after, ctx := TrackCall(db, projectId, req, location, lookupFails, fates).db,
                      ContextFor(db, projectId, req, location, lookupFails);
    forall e | e in after.events && e !in db.events
      ensures TakenUser(db, after.events[e].userId, req, lookupFails)
      ensures exists i | 0 <= i < |req.events| :: FromEntry(db, after, projectId, req, location, fates, e, i)
    {
      PrefixGives(db, ctx, req.events, fates, |req.events|, e);
      var i :| 0 <= i < |req.events| && GivenBy(db, after, ctx, req.events, fates, e, i);
      EntryIsTaken(db, after, projectId, req, location, lookupFails, fates, e, i);
    }
  }

  ghost function DeviceSpec(db: Database, projectId: int, req: DeviceRequest, now: int): Database {
    WithDevice(db, req.deviceId, projectId, req.platform, req.osVersion, req.appVersion, req.locale, now)
  }

  /** The answer to a request with both ids, and the database after it: an error when there is neither a
      user row nor a project for one, or when a call fails, after which the user row stays; otherwise
      the id of the row for the anonymous id, linked to the device if that is known. */
  ghost predicate Identifies(db: Database, projectId: int, req: IdentifyRequest, newId: int, createFails: bool,
                             linkFails: bool, after: Database, response: Response)
  {
    var created := WithUser(db, newId, projectId, req.anonymousId);
    if createFails || (projectId !in db.projects && !UserTaken(db, projectId, req.anonymousId)) then
      response == ServerError && after == db
    else if linkFails then response == ServerError && after == created
    else
      && response.UserId? && IsUser(created, response.id, projectId, req.anonymousId)
      && after == WithLink(created, req.deviceId, response.id)
  }

  /** The device has what the request says, and keeps its project, user, platform and first sighting if it was
      known; nothing else changes. */
  ghost predicate Registers(db: Database, after: Database, projectId: int, req: DeviceRequest, now: int) {
    && after == db.(devices := after.devices) && after.devices.Keys == db.devices.Keys + {req.deviceId}
    && (forall d | d in db.devices && d != req.deviceId :: after.devices[d] == db.devices[d])
    && var b := after.devices[req.deviceId];
       && b.osVersion == req.osVersion && b.appVersion == req.appVersion && b.locale == req.locale
       && b.lastSeenAt == now
       && if req.deviceId in db.devices then
            var a := db.devices[req.deviceId];
            b.projectId == a.projectId && b.userId == a.userId && b.platform == a.platform
            && b.firstSeenAt == a.firstSeenAt
          else b.projectId == projectId && b.userId == None && b.platform == req.platform && b.firstSeenAt == now
  }

  /** The device, if it is stored, has user `u` and is otherwise as before; `u` is a row for the pair, and
      nothing else changes. */
  ghost predicate Links(db: Database, after: Database, projectId: int, req: IdentifyRequest, newId: int, u: int) {
    && after == db.(users := after.users, devices := after.devices) && after.devices.Keys == db.devices.Keys
    && (forall d | d in db.devices && d != req.deviceId :: after.devices[d] == db.devices[d])
    && (req.deviceId in db.devices ==>
          var a, b := db.devices[req.deviceId], after.devices[req.deviceId];
          && b.userId == Some(u) && b.projectId == a.projectId && b.platform == a.platform
          && b.osVersion == a.osVersion && b.appVersion == a.appVersion && b.locale == a.locale
          && b.firstSeenAt == a.firstSeenAt && b.lastSeenAt == a.lastSeenAt)
    && AddsUser(db, after, newId, projectId, req.anonymousId) && u in after.users
    && after.users[u].projectId == projectId && after.users[u].anonymousId == req.anonymousId
  }

  /** Users stay, and a row for the pair is added only when there was none. */
  ghost predicate AddsUser(db: Database, after: Database, newId: int, projectId: int, anonymousId: string) {
    && (forall v | v in db.users :: v in after.users && after.users[v] == db.users[v])
    && (after.users == db.users
        || (!UserTaken(db, projectId, anonymousId)
            && after.users == db.users[newId := AppUser(projectId, anonymousId)]))
  }

  lemma CreateAdds(db: Database, newId: int, projectId: int, anonymousId: string)
    requires newId !in db.users
    ensures var after := WithUser(db, newId, projectId, anonymousId);
            AddsUser(db, after, newId, projectId, anonymousId) && after == db.(users := after.users)
  {
    hide UserTaken;
  }

  lemma IdentifiesLinks(db: Database, projectId: int, req: IdentifyRequest, newId: int, createFails: bool,
                        linkFails: bool, after: Database, u: int)
    requires newId !in db.users
    requires Identifies(db, projectId, req, newId, createFails, linkFails, after, UserId(u))
    ensures Links(db, after, projectId, req, newId, u)
  {
    CreateAdds(db, newId, projectId, req.anonymousId);
    hide WithUser;
    hide UserTaken;
    hide AddsUser;
    var created := WithUser(db, newId, projectId, req.anonymousId);
    assert after.users == created.users;
    SameAdds(db, created, after, newId, projectId, req.anonymousId);
  }

  lemma SameAdds(db: Database, created: Database, after: Database, newId: int, projectId: int, anonymousId: string)
    requires AddsUser(db, created, newId, projectId, anonymousId) && after.users == created.users
    ensures AddsUser(db, after, newId, projectId, anonymousId)
  {
  }

  class TrackingHandler {
    const store: Store

    constructor (store: Store)
      ensures this.store == store
    {
      this.store := store;
    }

    method Track(projectId: int, req: TrackRequest, location: Location, lookupFails: bool, fates: seq<Fate>)
      returns (response: Response)
      requires |fates| == |req.events|
      modifies store
      ensures response == Rejected <==> req.deviceId == "" || |req.events| == 0 || |req.events| > 100
      ensures response == Rejected ==> store.DB() == old(store.DB())
      ensures response != Rejected ==>
                && response.Accepted?
                && AddedFrom(old(store.DB()), store.DB(), projectId, req, location, lookupFails, fates)
                && Progress(store.DB(), response.count) ==
                   TrackCall(old(store.DB()), projectId, req, location, lookupFails, fates)
    {
      hide AddedFrom;
      hide TrackOne;
      if req.deviceId == "" {
        return Rejected;
      }
      if |req.events| == 0 {
        return Rejected;
      }
      if |req.events| > MAX_EVENTS_PER_BATCH {
        return Rejected;
      }
      var userId := req.userId;
      if userId.None? {
        userId := store.GetDeviceUserID(req.deviceId, lookupFails);
      }
      var ctx := Context(projectId, req.deviceId, userId, location);
      var accepted: nat := 0;
      var i := 0;
      while i < |req.events|
        invariant 0 <= i <= |req.events|
        invariant Progress(store.DB(), accepted) == TrackPrefix(old(store.DB()), ctx, req.events, fates, i)
      {
        var counted := IngestEvent(ctx, req.events[i], fates[i]);
        if counted {
          accepted := accepted + 1;
        }
        i := i + 1;
      }
      TrackAdds(old(store.DB()), projectId, req, location, lookupFails, fates);
      return Accepted(accepted);
    }

    /** The body of the loop. */
    method IngestEvent(ctx: Context, ev: TrackEvent, fate: Fate) returns (counted: bool)
      modifies store
      ensures forall n: nat :: Progress(store.DB(), if counted then n + 1 else n) ==
                               TrackOne(Progress(old(store.DB()), n), ctx, ev, fate)
      ensures counted ==>
                && ev.id in store.events && ev.id !in old(store.events)
                && FromContext(store.events[ev.id], ctx, ev, fate.now)
      ensures !counted ==> store.DB() == old(store.DB())
    {
      if ev.id == "" || ev.name == "" {
        return false;
      }
      if |ev.name| > MAX_EVENT_NAME_LEN {
        return false;
      }
      if |ev.properties| > MAX_PROPERTIES_PER_EVENT {
        return false;
      }
      var event := RowFor(ctx, ev, fate.now);
      RowIsFrom(ctx, ev, fate.now);
      hide RowFor;
      hide FromContext;
      var outcome := store.InsertEvent(ev.id, event, ev.storable, fate.insertFails);
      if outcome != Inserted {
        return false;
      }
      if |ev.properties| > 0 {
        var rows := BuildProperties(ev.properties);
        var _ := store.InsertEventProperties(ev.id, rows, fate.propertiesFail);
      } else {
        assert PropertyBag(ev.properties) == multiset{};
      }
      return true;
    }

    method Device(projectId: int, req: DeviceRequest, now: int, fails: bool) returns (response: Response)
      modifies store
      ensures response == Rejected <==> req.deviceId == "" || req.platform == ""
      ensures response == Succeeded ==> req.deviceId in store.devices
      ensures response == Succeeded <==>
                && req.deviceId != "" && req.platform != "" && !fails
                && (req.deviceId in old(store.devices) || projectId in store.projects)
      ensures response == Succeeded ==> Registers(old(store.DB()), store.DB(), projectId, req, now)
      ensures store.DB() == if response == Succeeded then DeviceSpec(old(store.DB()), projectId, req, now)
                            else old(store.DB())
    {
      if req.deviceId == "" || req.platform == "" {
        return Rejected;
      }
      var ok := store.UpsertDevice(req.deviceId, projectId, req.platform, req.osVersion, req.appVersion,
                                   req.locale, now, fails);
      return if ok then Succeeded else ServerError;
    }

    method Identify(projectId: int, req: IdentifyRequest, newId: int, createFails: bool, linkFails: bool)
      returns (response: Response)
      requires newId !in store.users
      modifies store
      ensures response == Rejected <==> req.deviceId == "" || req.anonymousId == ""
      ensures response == Rejected ==> store.DB() == old(store.DB())
      ensures response != Rejected ==>
                Identifies(old(store.DB()), projectId, req, newId, createFails, linkFails, store.DB(), response)
      ensures response.UserId? ==> Links(old(store.DB()), store.DB(), projectId, req, newId, response.id)
      ensures response == ServerError ==>
                && (createFails || linkFails || projectId !in old(store.projects))
                && store.devices == old(store.devices)
    {
      if req.deviceId == "" || req.anonymousId == "" {
        return Rejected;
      }
      var user := store.GetOrCreateAppUser(projectId, req.anonymousId, newId, createFails);
      if user.None? {
        return ServerError;
      }
      var linked := store.LinkDeviceToUser(req.deviceId, user.value, linkFails);
      if !linked {
        return ServerError;
      }
      IdentifiesLinks(old(store.DB()), projectId, req, newId, createFails, linkFails, store.DB(), user.value);
      hide Links;
      return UserId(user.value);
    }
  }
}
