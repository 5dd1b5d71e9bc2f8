/** What a whole `Track` call computes: growth, the closed form without transient failures, retries
    and batching. */
module TrackLaws {
  import opened Encoding
  import opened Options
  import opened Schema
  import opened Tracking
  import opened Firsts
  import Sets

  /** The driver can store the texts of its own that the event brings. */
  predicate StorableEvent(driver: Driver, ev: TrackEvent) {
    ev.storable && StorableText(driver, ev.id) && StorableText(driver, ev.name)
  }

  /** The id under which an event can be stored: none when a check skips it or the driver cannot
      store its texts. */
  function CandidateKey(driver: Driver, ev: TrackEvent): Option<string> {
    if WellFormed(ev) && StorableEvent(driver, ev) then Some(ev.id) else None
  }

  function Keys(driver: Driver, evs: seq<TrackEvent>): (keys: seq<Option<string>>)
    ensures |keys| == |evs|
  {
    seq(|evs|, i requires 0 <= i < |evs| => CandidateKey(driver, evs[i]))
  }

  /** The distinct ids that a batch could store. */
  function CandidateIds(driver: Driver, evs: seq<TrackEvent>): set<string> {
    Present(Keys(driver, evs), |evs|)
  }

  /** The texts that all events of a request share. */
  predicate StorableContext(driver: Driver, ctx: Context) {
    && StorableText(driver, ctx.deviceId)
    && StorableOption(driver, NullStr(ctx.location.ipAddress))
    && StorableOption(driver, NullStr(ctx.location.country))
    && StorableOption(driver, NullStr(ctx.location.city))
  }

  /** The foreign keys and the texts that all events of a request share. */
  predicate Resolves(db: Database, ctx: Context) {
    && StorableContext(db.driver, ctx)
    && ctx.projectId in db.projects && ctx.deviceId in db.devices && UserResolves(db, ctx.userId)
  }

  predicate Quiet(fates: seq<Fate>) {
    forall i | 0 <= i < |fates| :: !fates[i].insertFails && !fates[i].propertiesFail
  }

  // ---------------------------------------------------------------------------------------
  // One event
  // ---------------------------------------------------------------------------------------

  /** Equal in every table but `events` and `event_properties`. */
  predicate SameEntities(a: Database, b: Database) {
    && a.driver == b.driver
    && a.projects == b.projects && a.tokens == b.tokens && a.users == b.users && a.devices == b.devices
  }

  /** `after` is `before` with events added; no stored row of any other table is rewritten. */
  ghost predicate Grown(before: Database, after: Database) {
    SameEntities(before, after) && SubMap(before.events, after.events)
  }

  /** An inserted event adds one row, and its property rows touch no other table. */
  lemma InsertGrows(db: Database, eventId: string, event: Event, rows: multiset<Property>)
    requires eventId !in db.events
    ensures var after := db.(events := db.events[eventId := event]);
            && Grown(db, after) && |after.events| == |db.events| + 1
            && after.events.Keys == db.events.Keys + {eventId}
            && SameEntities(after, WithProperties(after, eventId, rows))
            && WithProperties(after, eventId, rows).events == after.events
  {
    hide Commits;
    hide AddRows;
  }

  /** What is accepted is a candidate. */
  lemma AcceptedIsCandidate(db: Database, ctx: Context, ev: TrackEvent, now: int)
    requires WellFormed(ev) && Accepts(db, ev.id, RowFor(ctx, ev, now), ev.storable)
    ensures CandidateKey(db.driver, ev) == Some(ev.id)
  {
    hide WellFormed;
    hide StorableText;
  }

  lemma TrackOneGrows(p: Progress, ctx: Context, ev: TrackEvent, fate: Fate)
    ensures var after := TrackOne(p, ctx, ev, fate);
            && Grown(p.db, after.db)
            && |after.db.events| - |p.db.events| == after.accepted - p.accepted
            && (after == p || (CandidateKey(p.db.driver, ev) == Some(ev.id) &&
                               after.db.events.Keys == p.db.events.Keys + {ev.id}))
  {
    hide WellFormed;
    hide Insertable;
    hide StorableText;
    hide PropertyBag;
    hide WithProperties;
    hide CandidateKey;
    var row := RowFor(ctx, ev, fate.now);
    if WellFormed(ev) && !fate.insertFails && Accepts(p.db, ev.id, row, ev.storable) {
      InsertGrows(p.db, ev.id, row, PropertyBag(ev.properties));
      AcceptedIsCandidate(p.db, ctx, ev, fate.now);
    }
  }

  lemma TrackOneNew(p: Progress, ctx: Context, ev: TrackEvent, fate: Fate, after: Progress)
    requires !fate.insertFails && !fate.propertiesFail
    requires CandidateKey(p.db.driver, ev) == Some(ev.id) && Resolves(p.db, ctx)
    requires ev.id !in p.db.properties && ev.id !in p.db.events
    requires SameEntities(p.db, after.db)
    requires after.db.events == p.db.events[ev.id := RowFor(ctx, ev, fate.now)]
    requires after.db.properties == AddRows(p.db.properties, ev.id, StoredRows(p.db.driver, ev.properties))
    requires after.accepted == p.accepted + 1
    ensures TrackOne(p, ctx, ev, fate) == after
  {
  }

  lemma TrackOneOld(p: Progress, ctx: Context, ev: TrackEvent, fate: Fate)
    requires CandidateKey(p.db.driver, ev) == None || !Resolves(p.db, ctx) || ev.id in p.db.events
    ensures TrackOne(p, ctx, ev, fate) == p
  {
  }

  lemma TrackOneKeepsClosed(p: Progress, ctx: Context, ev: TrackEvent, fate: Fate)
    requires Closed(p.db)
    ensures Closed(TrackOne(p, ctx, ev, fate).db)
  {
    var row := RowFor(ctx, ev, fate.now);
    WithEventKeepsClosed(p.db, ev.id, row, ev.storable);
    WithPropertiesKeepsClosed(WithEvent(p.db, ev.id, row, ev.storable), ev.id, PropertyBag(ev.properties));
  }

  // ---------------------------------------------------------------------------------------
  // Growth, whatever fails
  // ---------------------------------------------------------------------------------------

  lemma GrownAgain(a: Database, b: Database, c: Database)
    requires Grown(a, b) && Grown(b, c)
    ensures Grown(a, c)
  {
    forall e | e in a.events ensures e in c.events && a.events[e] == c.events[e] {
      assert e in b.events && a.events[e] == b.events[e];
    }
  }

  /** Each counted event added one row, and no stored row was rewritten, whatever failed. */
  lemma {:induction false} TrackGrows(db: Database, ctx: Context, evs: seq<TrackEvent>, fates: seq<Fate>, n: nat)
    requires n <= |evs| == |fates|
    ensures var after := TrackPrefix(db, ctx, evs, fates, n);
            Grown(db, after.db) && |after.db.events| == |db.events| + after.accepted
  {
    if n != 0 {
      TrackGrows(db, ctx, evs, fates, n - 1);
      var earlier := TrackPrefix(db, ctx, evs, fates, n - 1);
      TrackOneGrows(earlier, ctx, evs[n - 1], fates[n - 1]);
      GrownAgain(db, earlier.db, TrackOne(earlier, ctx, evs[n - 1], fates[n - 1]).db);
    }
  }

  lemma {:induction false} TrackKeys(db: Database, ctx: Context, evs: seq<TrackEvent>, fates: seq<Fate>,
                                     keys: seq<Option<string>>, n: nat)
    requires n <= |evs| == |fates| && keys == Keys(db.driver, evs)
    ensures TrackPrefix(db, ctx, evs, fates, n).db.driver == db.driver
    ensures TrackPrefix(db, ctx, evs, fates, n).db.events.Keys <= db.events.Keys + Present(keys, n)
  {
    hide CandidateKey;
    hide Present;
    hide TrackOne;
    hide Keys;
    if n != 0 {
      TrackKeys(db, ctx, evs, fates, keys, n - 1);
      var earlier := TrackPrefix(db, ctx, evs, fates, n - 1);
      var after := TrackOne(earlier, ctx, evs[n - 1], fates[n - 1]);
      KeyAt(db.driver, evs, n - 1);
      TrackOneKeys(earlier, ctx, evs[n - 1], fates[n - 1]);
      PresentBounds(keys, n, db.events.Keys, earlier.db.events.Keys, after.db.events.Keys);
    }
  }

  lemma KeyAt(driver: Driver, evs: seq<TrackEvent>, i: nat)
    requires i < |evs|
    ensures Keys(driver, evs)[i] == CandidateKey(driver, evs[i])
  {
  }

  lemma TrackOneKeys(p: Progress, ctx: Context, ev: TrackEvent, fate: Fate)
    ensures var after, key := TrackOne(p, ctx, ev, fate), CandidateKey(p.db.driver, ev);
            && after.db.driver == p.db.driver
            && (after.db.events.Keys == p.db.events.Keys
                || (key.Some? && after.db.events.Keys == p.db.events.Keys + {key.value}))
  {
    TrackOneGrows(p, ctx, ev, fate);
    hide TrackOne;
    hide CandidateKey;
  }

  lemma {:induction false} TrackKeepsClosed(db: Database, ctx: Context, evs: seq<TrackEvent>, fates: seq<Fate>, n: nat)
    requires n <= |evs| == |fates| && Closed(db)
    ensures Closed(TrackPrefix(db, ctx, evs, fates, n).db)
  {
    if n != 0 {
      TrackKeepsClosed(db, ctx, evs, fates, n - 1);
      TrackOneKeepsClosed(TrackPrefix(db, ctx, evs, fates, n - 1), ctx, evs[n - 1], fates[n - 1]);
    }
  }

  lemma {:induction false} TrackUnresolved(db: Database, ctx: Context, evs: seq<TrackEvent>, fates: seq<Fate>, n: nat)
    requires n <= |evs| == |fates| && !Resolves(db, ctx)
    ensures TrackPrefix(db, ctx, evs, fates, n) == Progress(db, 0)
  {
    if n != 0 {
      TrackUnresolved(db, ctx, evs, fates, n - 1);
      TrackOneOld(Progress(db, 0), ctx, evs[n - 1], fates[n - 1]);
    }
  }

  // ---------------------------------------------------------------------------------------
  // The closed form
  // ---------------------------------------------------------------------------------------

  /** What the batch offers to the database: for each event its candidate key, its row and the
      property rows that a quiet transaction leaves. */
  datatype Offer = Offer(keys: seq<Option<string>>, rows: seq<Event>, bags: seq<multiset<Property>>) {
    predicate Valid() {
      |keys| == |rows| == |bags|
    }

    /** Each id that the database does not store is stored once, from its first candidate among the
        first `n` events, with that candidate's property rows. */
    function Stored(db: Database, n: nat): Progress
      requires Valid() && n <= |keys|
    {
      var ids := Unseen(keys, db.events.Keys, n);
      Progress(db.(events := db.events + Gather(keys, rows, ids),
                   properties := db.properties + Nonempty(Gather(keys, bags, ids))), |ids|)
    }
  }

  function OfferOf(driver: Driver, ctx: Context, evs: seq<TrackEvent>, fates: seq<Fate>): (offer: Offer)
    requires |evs| == |fates|
    ensures offer.Valid() && |offer.keys| == |evs|
  {
    Offer(Keys(driver, evs), seq(|evs|, i requires 0 <= i < |evs| => RowFor(ctx, evs[i], fates[i].now)),
          seq(|evs|, i requires 0 <= i < |evs| => StoredRows(driver, evs[i].properties)))
  }

  /** The closed form of the loop after `n` events. */
  function ClosedForm(db: Database, ctx: Context, evs: seq<TrackEvent>, fates: seq<Fate>, n: nat): Progress
    requires n <= |evs| == |fates|
  {
    if Resolves(db, ctx) then OfferOf(db.driver, ctx, evs, fates).Stored(db, n) else Progress(db, 0)
  }

  function Nonempty(bags: map<string, multiset<Property>>): map<string, multiset<Property>> {
    map id | id in bags && bags[id] != multiset{} :: bags[id]
  }

  lemma NonemptyWith(bags: map<string, multiset<Property>>, id: string, rows: multiset<Property>)
    requires id !in bags
    ensures Nonempty(bags[id := rows]) == AddRows(Nonempty(bags), id, rows)
  {
  }

  lemma AddRowsRight(left: map<string, multiset<Property>>, right: map<string, multiset<Property>>,
                     id: string, rows: multiset<Property>)
    requires id !in left && id !in right
    ensures AddRows(left + right, id, rows) == left + AddRows(right, id, rows)
  {
  }

  lemma UpdateRight<K, V>(left: map<K, V>, right: map<K, V>, key: K, value: V)
    ensures (left + right)[key := value] == left + right[key := value]
  {
  }

  lemma StoredNew(o: Offer, db: Database, n: nat)
    requires o.Valid() && 0 < n <= |o.keys| && AddsAt(o.keys, db.events.Keys, n)
    requires forall e | e in db.properties :: e in db.events
    ensures var id, earlier, after := o.keys[n - 1].value, o.Stored(db, n - 1), o.Stored(db, n);
            && id !in earlier.db.events && id !in earlier.db.properties
            && SameEntities(earlier.db, after.db)
            && after.db.events == earlier.db.events[id := o.rows[n - 1]]
            && after.db.properties == AddRows(earlier.db.properties, id, o.bags[n - 1])
            && after.accepted == earlier.accepted + 1
  {
    var id, ids := o.keys[n - 1].value, Unseen(o.keys, db.events.Keys, n - 1);
    var rows, bags := Gather(o.keys, o.rows, ids), Gather(o.keys, o.bags, ids);
    UnseenNew(o.keys, db.events.Keys, n);
    GatherNew(o.keys, o.rows, db.events.Keys, n);
    GatherNew(o.keys, o.bags, db.events.Keys, n);
    NonemptyWith(bags, id, o.bags[n - 1]);
    AddRowsRight(db.properties, Nonempty(bags), id, o.bags[n - 1]);
    UpdateRight(db.events, rows, id, o.rows[n - 1]);
  }

  lemma StoredOld(o: Offer, db: Database, n: nat)
    requires o.Valid() && 0 < n <= |o.keys| && !AddsAt(o.keys, db.events.Keys, n)
    ensures o.Stored(db, n) == o.Stored(db, n - 1)
    ensures o.keys[n - 1].Some? ==> o.keys[n - 1].value in o.Stored(db, n - 1).db.events
  {
    UnseenOld(o.keys, db.events.Keys, n);
  }

  lemma StoredNone(o: Offer, db: Database)
    requires o.Valid()
    ensures o.Stored(db, 0) == Progress(db, 0)
  {
    assert Unseen(o.keys, db.events.Keys, 0) == {};
    assert db.events + Gather(o.keys, o.rows, {}) == db.events;
    assert db.properties + Nonempty(Gather(o.keys, o.bags, {})) == db.properties;
  }

  lemma StoredStepMatching(o: Offer, db: Database, ctx: Context, evs: seq<TrackEvent>, fates: seq<Fate>, n: nat)
    requires 0 < n <= |evs| == |fates| && Quiet(fates) && o.Valid() && |o.keys| == |evs|
    requires o.keys[n - 1] == CandidateKey(db.driver, evs[n - 1])
    requires o.rows[n - 1] == RowFor(ctx, evs[n - 1], fates[n - 1].now)
    requires o.bags[n - 1] == StoredRows(db.driver, evs[n - 1].properties)
    requires forall e | e in db.properties :: e in db.events
    requires Resolves(db, ctx)
    ensures TrackOne(o.Stored(db, n - 1), ctx, evs[n - 1], fates[n - 1]) == o.Stored(db, n)
  {
    var earlier := o.Stored(db, n - 1);
    if AddsAt(o.keys, db.events.Keys, n) {
      StoredNew(o, db, n);
      TrackOneNew(earlier, ctx, evs[n - 1], fates[n - 1], o.Stored(db, n));
    } else {
      StoredOld(o, db, n);
      TrackOneOld(earlier, ctx, evs[n - 1], fates[n - 1]);
    }
  }

  lemma StoredStep(o: Offer, db: Database, ctx: Context, evs: seq<TrackEvent>, fates: seq<Fate>, n: nat)
    requires 0 < n <= |evs| == |fates| && Quiet(fates) && o == OfferOf(db.driver, ctx, evs, fates)
    requires forall e | e in db.properties :: e in db.events
    requires Resolves(db, ctx)
    ensures TrackOne(o.Stored(db, n - 1), ctx, evs[n - 1], fates[n - 1]) == o.Stored(db, n)
  {
    StoredStepMatching(o, db, ctx, evs, fates, n);
  }

  lemma {:induction false} TrackStores(o: Offer, db: Database, ctx: Context, evs: seq<TrackEvent>, fates: seq<Fate>,
                                       n: nat)
    requires n <= |evs| == |fates| && Quiet(fates) && o == OfferOf(db.driver, ctx, evs, fates)
    requires forall e | e in db.properties :: e in db.events
    requires Resolves(db, ctx)
    ensures TrackPrefix(db, ctx, evs, fates, n) == o.Stored(db, n)
  {
    hide Offer.Stored;
    if n == 0 {
      StoredNone(o, db);
    } else {
      TrackStores(o, db, ctx, evs, fates, n - 1);
      StoredStep(o, db, ctx, evs, fates, n);
    }
  }

  /** Without transient failures the loop equals its closed form, and `accepted` is the number of
      distinct insertable ids of the batch that were not stored before. */
  lemma TrackClosedForm(db: Database, ctx: Context, evs: seq<TrackEvent>, fates: seq<Fate>)
    requires |evs| == |fates| && Quiet(fates)
    requires forall e | e in db.properties :: e in db.events
    ensures TrackAll(db, ctx, evs, fates) == ClosedForm(db, ctx, evs, fates, |evs|)
    ensures TrackAll(db, ctx, evs, fates).accepted ==
            if Resolves(db, ctx) then |CandidateIds(db.driver, evs) - db.events.Keys| else 0
  {
    if Resolves(db, ctx) {
      TrackStores(OfferOf(db.driver, ctx, evs, fates), db, ctx, evs, fates, |evs|);
    } else {
      TrackUnresolved(db, ctx, evs, fates, |evs|);
    }
  }

  // ---------------------------------------------------------------------------------------
  // Retries and batching
  // ---------------------------------------------------------------------------------------

  lemma CandidateIn(driver: Driver, evs: seq<TrackEvent>, i: nat)
    requires i < |evs| && CandidateKey(driver, evs[i]).Some?
    ensures evs[i].id in CandidateIds(driver, evs)
  {
    PresentAt(Keys(driver, evs), |evs|, i);
  }

  /** A batch whose insertable ids are all stored is a no-op, in any context and whatever fails. */
  lemma {:induction false} StoredBatchIsNoop(db: Database, ctx: Context, evs: seq<TrackEvent>, fates: seq<Fate>, n: nat)
    requires n <= |evs| == |fates|
    requires CandidateIds(db.driver, evs) <= db.events.Keys
    ensures TrackPrefix(db, ctx, evs, fates, n) == Progress(db, 0)
  {
    if n != 0 {
      StoredBatchIsNoop(db, ctx, evs, fates, n - 1);
      if CandidateKey(db.driver, evs[n - 1]).Some? {
        CandidateIn(db.driver, evs, n - 1);
      }
      TrackOneOld(Progress(db, 0), ctx, evs[n - 1], fates[n - 1]);
    }
  }

  lemma QuietStoresCandidates(db: Database, ctx: Context, evs: seq<TrackEvent>, fates: seq<Fate>)
    requires |evs| == |fates| && Quiet(fates) && Closed(db) && Resolves(db, ctx)
    ensures TrackAll(db, ctx, evs, fates).db.events.Keys == db.events.Keys + CandidateIds(db.driver, evs)
    ensures TrackAll(db, ctx, evs, fates).db.driver == db.driver
  {
    var o := OfferOf(db.driver, ctx, evs, fates);
    TrackStores(o, db, ctx, evs, fates, |evs|);
    StoredKeys(o, db, |evs|);
  }

  lemma StoredKeys(o: Offer, db: Database, n: nat)
    requires o.Valid() && n <= |o.keys|
    ensures o.Stored(db, n).db.events.Keys == db.events.Keys + Present(o.keys, n)
  {
  }

  /** The checks of the handler and the texts of the driver, for one entry. */
  ghost predicate Passes(driver: Driver, ev: TrackEvent, e: string) {
    && ev.id == e && e != "" && ev.name != "" && |ev.name| <= 256 && |ev.properties| <= 50
    && ev.storable && StorableText(driver, e) && StorableText(driver, ev.name)
  }

  lemma CandidateIff(driver: Driver, evs: seq<TrackEvent>, e: string)
    ensures e in CandidateIds(driver, evs) <==> exists i | 0 <= i < |evs| :: Passes(driver, evs[i], e)
  {
    hide StorableText;
    var keys := Keys(driver, evs);
    forall i | 0 <= i < |evs| ensures keys[i] == Some(e) <==> Passes(driver, evs[i], e) {}
    hide Passes;
    hide Keys;
    if e in Present(keys, |evs|) {
      var i := FirstOf(keys, e, |evs|);
      assert keys[i] == Some(e);
    }
    if i :| 0 <= i < |evs| && Passes(driver, evs[i], e) {
      PresentAt(keys, |evs|, i);
    }
  }

  /** The keys and the texts that all events of the request share. */
  ghost predicate CanTrack(db: Database, projectId: int, req: TrackRequest, location: Location) {
    && projectId in db.projects && req.deviceId in db.devices && (req.userId.Some? ==> req.userId.value in db.users)
    && StorableText(db.driver, req.deviceId) && StorableText(db.driver, location.ipAddress)
    && StorableText(db.driver, location.country) && StorableText(db.driver, location.city)
  }

  lemma CanTrackIff(db: Database, projectId: int, req: TrackRequest, location: Location, lookupFails: bool)
    requires Closed(db)
    ensures CanTrack(db, projectId, req, location)
            <==> Resolves(db, ContextFor(db, projectId, req, location, lookupFails))
  {
    if req.deviceId in db.devices {
      DeviceResolves(db, req.deviceId);
    }
    assert StorableText(db.driver, "");
    hide StorableText;
    hide Closed;
  }

  /** Without transient failures an id that is new is stored after the call exactly when the request can be
      tracked and some entry with this id passes. */
  lemma StoredIff(db: Database, projectId: int, req: TrackRequest, location: Location, lookupFails: bool,
                  fates: seq<Fate>, e: string)
    requires Closed(db) && |fates| == |req.events| && Quiet(fates) && e !in db.events
    ensures e in TrackCall(db, projectId, req, location, lookupFails, fates).db.events
            <==> && CanTrack(db, projectId, req, location)
                 && exists i | 0 <= i < |req.events| :: Passes(db.driver, req.events[i], e)
  {
    var ctx := ContextFor(db, projectId, req, location, lookupFails);
    CanTrackIff(db, projectId, req, location, lookupFails);
    CandidateIff(db.driver, req.events, e);
    if Resolves(db, ctx) {
      QuietStoresCandidates(db, ctx, req.events, fates);
    } else {
      TrackUnresolved(db, ctx, req.events, fates, |req.events|);
    }
    hide TrackPrefix;
    hide Passes;
    hide CandidateIds;
    hide CanTrack;
    hide Resolves;
    hide Closed;
  }

  /** Sending a request again after a call without transient errors returns 0 and changes nothing,
      whatever fails the second time, and for a request whose keys resolved even when it is sent
      by another project, with another user or from another address. */
  lemma RetryIsNoop(db: Database, projectId: int, projectId': int, req: TrackRequest, req': TrackRequest,
                    location: Location, location': Location, lookup: bool, lookup': bool,
                    fates: seq<Fate>, fates': seq<Fate>)
    requires Closed(db) && |fates| == |fates'| == |req.events| && Quiet(fates)
    requires req'.events == req.events
    requires Resolves(db, ContextFor(db, projectId, req, location, lookup))
             || (req' == req && projectId' == projectId && location' == location && lookup' == lookup)
    ensures var first := TrackCall(db, projectId, req, location, lookup, fates);
            TrackCall(first.db, projectId', req', location', lookup', fates') == Progress(first.db, 0)
  {
    var ctx := ContextFor(db, projectId, req, location, lookup);
    var first := TrackCall(db, projectId, req, location, lookup, fates);
    if Resolves(db, ctx) {
      QuietStoresCandidates(db, ctx, req.events, fates);
      var again := ContextFor(first.db, projectId', req', location', lookup');
      StoredBatchIsNoop(first.db, again, req.events, fates', |req.events|);
    } else {
      TrackUnresolved(db, ctx, req.events, fates, |req.events|);
      TrackUnresolved(db, ctx, req.events, fates', |req.events|);
    }
  }

  /** At-least-once delivery: a call during which anything fails, followed by one without transient
      errors, accepts each new event exactly once and stores the same ids as one good call. */
  lemma FailedThenRetried(db: Database, ctx: Context, evs: seq<TrackEvent>, bad: seq<Fate>, good: seq<Fate>)
    requires Closed(db) && |evs| == |bad| == |good| && Quiet(good)
    ensures var added := if Resolves(db, ctx) then CandidateIds(db.driver, evs) - db.events.Keys else {};
            var first := TrackAll(db, ctx, evs, bad);
            var second := TrackAll(first.db, ctx, evs, good);
            && first.accepted + second.accepted == |added|
            && second.db.events.Keys == db.events.Keys + added
  {
    if Resolves(db, ctx) {
      FailedThenRetriedResolved(db, ctx, evs, bad, good);
    } else {
      TrackUnresolved(db, ctx, evs, bad, |evs|);
      TrackUnresolved(db, ctx, evs, good, |evs|);
    }
  }

  lemma FailedThenRetriedResolved(db: Database, ctx: Context, evs: seq<TrackEvent>, bad: seq<Fate>, good: seq<Fate>)
    requires Closed(db) && |evs| == |bad| == |good| && Quiet(good) && Resolves(db, ctx)
    ensures var added := CandidateIds(db.driver, evs) - db.events.Keys;
            var first := TrackAll(db, ctx, evs, bad);
            var second := TrackAll(first.db, ctx, evs, good);
            && first.accepted + second.accepted == |added|
            && second.db.events.Keys == db.events.Keys + added
  {
    hide TrackPrefix;
    hide Closed;
    hide Resolves;
    hide Grown;
    var n := |evs|;
    var first := TrackAll(db, ctx, evs, bad);
    var second := TrackAll(first.db, ctx, evs, good);
    TrackGrows(db, ctx, evs, bad, n);
    TrackKeys(db, ctx, evs, bad, Keys(db.driver, evs), n);
    TrackKeepsClosed(db, ctx, evs, bad, n);
    GrownResolves(db, first.db, ctx);
    QuietStoresCandidates(first.db, ctx, evs, good);
    TrackGrows(first.db, ctx, evs, good, n);
    MapSize(db.events);
    MapSize(second.db.events);
    hide TrackAll;
    Topped(db.events.Keys, first.db.events.Keys, second.db.events.Keys, CandidateIds(db.driver, evs));
  }

  lemma MapSize<K, V>(m: map<K, V>)
    ensures |m.Keys| == |m|
  {
  }

  /** Adding some of the candidates and then all of them adds the new ones. */
  lemma Topped<T>(start: set<T>, mid: set<T>, end: set<T>, candidates: set<T>)
    requires start <= mid <= start + candidates && end == mid + candidates
    ensures end == start + (candidates - start) && |end| == |start| + |candidates - start|
  {
    assert end == start + (candidates - start);
    Sets.DisjointUnionSize(start, candidates - start);
  }

  lemma GrownResolves(db: Database, after: Database, ctx: Context)
    requires Grown(db, after) && Resolves(db, ctx)
    ensures Resolves(after, ctx) && after.driver == db.driver && db.events.Keys <= after.events.Keys
  {
    hide StorableContext;
    forall e | e in db.events ensures e in after.events {}
  }

  lemma {:induction false} PrefixOfConcatenation(db: Database, ctx: Context, a: seq<TrackEvent>, b: seq<TrackEvent>,
                                                 fa: seq<Fate>, fb: seq<Fate>, n: nat)
    requires |a| == |fa| && |b| == |fb| && n <= |a|
    ensures TrackPrefix(db, ctx, a + b, fa + fb, n) == TrackPrefix(db, ctx, a, fa, n)
  {
    if n != 0 {
      PrefixOfConcatenation(db, ctx, a, b, fa, fb, n - 1);
    }
  }

  function Plus(p: Progress, n: nat): Progress {
    p.(accepted := p.accepted + n)
  }

  lemma TrackOnePlus(p: Progress, n: nat, ctx: Context, ev: TrackEvent, fate: Fate)
    ensures TrackOne(Plus(p, n), ctx, ev, fate) == Plus(TrackOne(p, ctx, ev, fate), n)
  {
  }

  lemma {:induction false} SuffixOfConcatenation(db: Database, ctx: Context, a: seq<TrackEvent>, b: seq<TrackEvent>,
                                                 fa: seq<Fate>, fb: seq<Fate>, n: nat)
    requires |a| == |fa| && |b| == |fb| && n <= |b|
    ensures var first := TrackAll(db, ctx, a, fa);
            TrackPrefix(db, ctx, a + b, fa + fb, |a| + n) == Plus(TrackPrefix(first.db, ctx, b, fb, n), first.accepted)
  {
    hide TrackOne;
    var first := TrackAll(db, ctx, a, fa);
    if n == 0 {
      PrefixOfConcatenation(db, ctx, a, b, fa, fb, |a|);
    } else {
      SuffixOfConcatenation(db, ctx, a, b, fa, fb, n - 1);
      assert (a + b)[|a| + n - 1] == b[n - 1] && (fa + fb)[|a| + n - 1] == fb[n - 1];
      TrackOnePlus(TrackPrefix(first.db, ctx, b, fb, n - 1), first.accepted, ctx, b[n - 1], fb[n - 1]);
    }
  }

  /** A batch a ++ b equals a then b when the client's address is the same and the device's user
      link does not change in between, which `Track` itself never does. */
  lemma SplitBatch(db: Database, projectId: int, deviceId: string, userId: Option<int>, location: Location,
                   lookupFails: bool, a: seq<TrackEvent>, b: seq<TrackEvent>, fa: seq<Fate>, fb: seq<Fate>)
    requires |a| == |fa| && |b| == |fb|
    ensures var first := TrackCall(db, projectId, TrackRequest(deviceId, userId, a), location, lookupFails, fa);
            TrackCall(db, projectId, TrackRequest(deviceId, userId, a + b), location, lookupFails, fa + fb) ==
            Plus(TrackCall(first.db, projectId, TrackRequest(deviceId, userId, b), location, lookupFails, fb),
                 first.accepted)
  {
    var ctx := ContextFor(db, projectId, TrackRequest(deviceId, userId, a), location, lookupFails);
    SuffixOfConcatenation(db, ctx, a, b, fa, fb, |b|);
    TrackGrows(db, ctx, a, fa, |a|);
  }
}
