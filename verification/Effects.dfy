/** What a single statement can do to the stored events, property rows and users. */
module Effects {
  import opened Options
  import opened Schema
  import Sets

  /** The number of event rows a statement adds and removes. */
  function Inserted(db: Database, cmd: Command): nat {
    if cmd.InsertEvent? && Accepts(db, cmd.eventId, cmd.event, cmd.storable) then 1 else 0
  }

  function Removed(db: Database, cmd: Command): nat {
    match cmd
    case CleanupEvents(projectId, before) => |Expired(db, projectId, before)|
    case DeleteProject(id) => |EventsOf(db, id)|
    case _ => 0
  }

  lemma SizeWithout<K, V>(m: map<K, V>, gone: set<K>)
    requires gone <= m.Keys
    ensures |m - gone| == |m| - |gone|
  {
    assert (m - gone).Keys == m.Keys - gone;
    assert m.Keys == (m.Keys - gone) + gone;
    Sets.DisjointUnionSize(m.Keys - gone, gone);
  }

  lemma DetachKeepsSize(events: map<string, Event>, users: set<int>)
    ensures |DetachEvents(events, users)| == |events|
  {
    assert DetachEvents(events, users).Keys == events.Keys;
  }

  lemma EventCount(db: Database, cmd: Command)
    ensures |Apply(db, cmd).events| == |db.events| + Inserted(db, cmd) - Removed(db, cmd)
  {
    if cmd.DeleteProject? {
      hide Expired;
      var gone := EventsOf(db, cmd.id);
      SizeWithout(db.events, gone);
      DetachKeepsSize(db.events - gone, UsersOf(db, cmd.id));
    } else if cmd.CleanupEvents? {
      hide EventsOf;
      SizeWithout(db.events, Expired(db, cmd.projectId, cmd.before));
    } else if cmd.InsertEvent? {
      InsertCount(db, cmd.eventId, cmd.event, cmd.storable);
      hide WithEvent;
      hide Accepts;
    } else {
      OtherCount(db, cmd);
      hide Apply;
    }
  }

  lemma InsertCount(db: Database, eventId: string, event: Event, storable: bool)
    ensures |WithEvent(db, eventId, event, storable).events|
            == |db.events| + (if Accepts(db, eventId, event, storable) then 1 else 0)
  {
  }

  lemma OtherCount(db: Database, cmd: Command)
    requires !cmd.DeleteProject? && !cmd.CleanupEvents? && !cmd.InsertEvent?
    ensures Apply(db, cmd).events == db.events
  {
  }

  /** The event is as it was, or has lost its user because the user row is gone. */
  ghost predicate SameEvent(before: Database, after: Database, e: string)
    requires e in before.events && e in after.events
  {
    || after.events[e] == before.events[e]
    || (&& before.events[e].userId.Some?
        && before.events[e].userId.value !in after.users
        && after.events[e] == before.events[e].(userId := None))
  }

  lemma EventsAreNotRewritten(db: Database, cmd: Command, e: string)
    requires e in db.events && e in Apply(db, cmd).events
    ensures SameEvent(db, Apply(db, cmd), e)
  {
  }

  /** Property rows of a surviving event change only by an insert for that event. */
  lemma RowsAreNotRewritten(db: Database, cmd: Command, e: string)
    requires e in Apply(db, cmd).events
    requires cmd.InsertProperties? ==> cmd.eventId != e
    requires cmd.InsertEvent? ==> cmd.eventId != e
    ensures e in db.events && RowsOf(Apply(db, cmd), e) == RowsOf(db, e)
  {
  }

  /** What a stored device never changes. */
  ghost predicate SameDevice(before: Database, after: Database, d: string)
    requires d in before.devices && d in after.devices
  {
    var a, b := before.devices[d], after.devices[d];
    b.projectId == a.projectId && b.platform == a.platform && b.firstSeenAt == a.firstSeenAt
  }

  lemma DevicesAreNotMoved(db: Database, cmd: Command, d: string)
    requires d in db.devices && d in Apply(db, cmd).devices
    ensures SameDevice(db, Apply(db, cmd), d)
  {
    hide CascadeProject;
    hide WithDevice;
    hide WithLink;
    match cmd
    case DeleteProject(id) => CascadeKeepsDevice(db, id, d);
    case UpsertDevice(deviceId, projectId, platform, osVersion, appVersion, locale, now) =>
      UpsertKeepsDevice(db, deviceId, projectId, platform, osVersion, appVersion, locale, now, d);
    case LinkDevice(deviceId, userId) => LinkKeepsDevice(db, deviceId, userId, d);
    case _ =>
      OtherDevices(db, cmd);
      hide Apply;
  }

  lemma UpsertKeepsDevice(db: Database, deviceId: string, projectId: int, platform: string, osVersion: string,
                          appVersion: string, locale: string, now: int, d: string)
    requires d in db.devices
    ensures var after := WithDevice(db, deviceId, projectId, platform, osVersion, appVersion, locale, now);
            && d in after.devices && SameDevice(db, after, d)
            && after.devices[d].userId == db.devices[d].userId
  {
    hide Updated;
    if deviceId in db.devices {
      UpdateElsewhere(db.devices, deviceId, Updated(db.devices[deviceId], osVersion, appVersion, locale, now), d);
    }
  }

  lemma UpdateElsewhere<V>(m: map<string, V>, k: string, v: V, d: string)
    requires d in m
    ensures d in m[k := v] && m[k := v][d] == if d == k then v else m[d]
  {
  }

  lemma LinkKeepsDevice(db: Database, deviceId: string, userId: int, d: string)
    requires d in db.devices
    ensures var after := WithLink(db, deviceId, userId);
            && d in after.devices && SameDevice(db, after, d)
            && (d != deviceId ==> after.devices[d] == db.devices[d])
  {
  }

  lemma CascadeKeepsDevice(db: Database, q: int, d: string)
    requires d in CascadeProject(db, q).devices
    ensures d in db.devices && SameDevice(db, CascadeProject(db, q), d)
  {
    hide EventsOf;
  }

  lemma OtherDevices(db: Database, cmd: Command)
    requires !cmd.DeleteProject? && !cmd.UpsertDevice? && !cmd.LinkDevice?
    ensures Apply(db, cmd).devices == db.devices
  {
    hide Expired;
  }

  /** The device's user link is as it was, or was cleared because the user row is gone. */
  ghost predicate SameLink(before: Database, after: Database, d: string)
    requires d in before.devices && d in after.devices
  {
    var a, b := before.devices[d], after.devices[d];
    b.userId == a.userId || (a.userId.Some? && b.userId == None && a.userId.value !in after.users)
  }

  lemma CascadeKeepsLink(db: Database, q: int, d: string)
    requires d in CascadeProject(db, q).devices
    ensures d in db.devices && SameLink(db, CascadeProject(db, q), d)
  {
    hide EventsOf;
  }

  /** The user link of a device is set by a link of that device, and cleared with the user's row. */
  lemma LinksStay(db: Database, cmd: Command, d: string)
    requires d in db.devices && d in Apply(db, cmd).devices
    requires !(cmd.LinkDevice? && cmd.deviceId == d)
    ensures SameLink(db, Apply(db, cmd), d)
  {
    hide CascadeProject;
    hide WithDevice;
    hide WithLink;
    match cmd
    case DeleteProject(id) => CascadeKeepsLink(db, id, d);
    case UpsertDevice(deviceId, projectId, platform, osVersion, appVersion, locale, now) =>
      UpsertKeepsDevice(db, deviceId, projectId, platform, osVersion, appVersion, locale, now, d);
    case LinkDevice(deviceId, userId) => LinkKeepsDevice(db, deviceId, userId, d);
    case _ =>
      OtherDevices(db, cmd);
      hide Apply;
  }

  /** A user row lives until its project is deleted. */
  lemma UsersStay(db: Database, cmd: Command, u: int)
    requires FreshId(db, cmd) && u in db.users
    requires cmd.DeleteProject? ==> cmd.id != db.users[u].projectId
    ensures u in Apply(db, cmd).users && Apply(db, cmd).users[u] == db.users[u]
  {
  }
}
