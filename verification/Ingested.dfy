/** What ingestion and retention do to the numbers that the console shows. */
module Ingested {
  import opened Options
  import opened Schema
  import opened Tracking
  import opened Analytics
  import TrackLaws
  import Retention
  import Sets

  ghost function Added(db: Database, after: Database): set<string> {
    after.events.Keys - db.events.Keys
  }

  lemma AddedSize(db: Database, after: Database, n: nat)
    requires TrackLaws.Grown(db, after) && |after.events| == |db.events| + n
    ensures |Added(db, after)| == n
    ensures forall e | e in db.events :: e in after.events && after.events[e] == db.events[e]
  {
    TrackLaws.MapSize(db.events);
    TrackLaws.MapSize(after.events);
    assert after.events.Keys == db.events.Keys + Added(db, after);
    Sets.DisjointUnionSize(db.events.Keys, Added(db, after));
  }

  /** Whatever fails, a call adds as many events as it counts, and leaves the others. */
  lemma CallAdds(db: Database, projectId: int, req: TrackRequest, location: Location, lookupFails: bool,
                 fates: seq<Fate>)
    requires |fates| == |req.events|
    ensures var p := TrackCall(db, projectId, req, location, lookupFails, fates);
            && |Added(db, p.db)| == p.accepted
            && (forall e | e in db.events :: e in p.db.events && p.db.events[e] == db.events[e])
  {
    hide TrackPrefix;
    hide ContextFor;
    hide TrackLaws.Grown;
    var ctx := ContextFor(db, projectId, req, location, lookupFails);
    TrackLaws.TrackGrows(db, ctx, req.events, fates, |req.events|);
    var p := TrackCall(db, projectId, req, location, lookupFails, fates);
    AddedSize(db, p.db, p.accepted);
  }

  /** The columns by which the console counts. */
  lemma AddedColumns(db: Database, projectId: int, req: TrackRequest, location: Location, lookupFails: bool,
                     fates: seq<Fate>, first: int, last: int, e: string)
    requires |fates| == |req.events| && forall i | 0 <= i < |fates| :: first <= fates[i].now <= last
    requires e in Added(db, TrackCall(db, projectId, req, location, lookupFails, fates).db)
    ensures var row := TrackCall(db, projectId, req, location, lookupFails, fates).db.events[e];
            row.projectId == projectId && first <= row.createdAt <= last && HasText(row.country, location.country)
  {
    TrackAdds(db, projectId, req, location, lookupFails, fates);
    hide TakenUser;
    hide Carries;
    hide TrackAll;
    var after := TrackCall(db, projectId, req, location, lookupFails, fates).db;
    var i :| 0 <= i < |req.events| && FromEntry(db, after, projectId, req, location, fates, e, i);
  }

  /** The added events belong to the project, the interval and the country. */
  ghost predicate AddedTo(db: Database, after: Database, projectId: int, first: int, last: int, country: string) {
    && (forall e | e in db.events :: e in after.events && after.events[e] == db.events[e])
    && (forall e | e in Added(db, after) ::
          && after.events[e].projectId == projectId && first <= after.events[e].createdAt <= last
          && HasText(after.events[e].country, country))
  }

  lemma RowsGrow(db: Database, after: Database, projectId: int, first: int, last: int, here: string)
    requires AddedTo(db, after, projectId, first, last, here)
    ensures EventsIn(after, projectId, first, last) == EventsIn(db, projectId, first, last) + Added(db, after)
    ensures EventsIn(db, projectId, first, last) !! Added(db, after)
  {
    hide HasText;
  }

  lemma CountryRowsGrow(db: Database, after: Database, projectId: int, first: int, last: int, here: string,
                        country: Option<string>)
    requires AddedTo(db, after, projectId, first, last, here)
    ensures EventsFrom(after, projectId, first, last, country)
            == EventsFrom(db, projectId, first, last, country)
               + (if HasText(country, here) then Added(db, after) else {})
    ensures EventsFrom(db, projectId, first, last, country) !! Added(db, after)
  {
    RowsGrow(db, after, projectId, first, last, here);
    hide EventsIn;
    forall e | e in Added(db, after) ensures after.events[e].country == country <==> HasText(country, here) {}
    hide HasText;
    forall e | e in EventsIn(db, projectId, first, last) ensures e in db.events {
      InIsStored(db, projectId, first, last, e);
    }
  }

  lemma InIsStored(db: Database, projectId: int, first: int, last: int, e: string)
    requires e in EventsIn(db, projectId, first, last)
    ensures e in db.events
  {
  }

  lemma CountsGrow(db: Database, after: Database, projectId: int, first: int, last: int, here: string,
                   country: Option<string>)
    requires AddedTo(db, after, projectId, first, last, here)
    ensures |EventsIn(after, projectId, first, last)|
            == |EventsIn(db, projectId, first, last)| + |Added(db, after)|
    ensures |EventsFrom(after, projectId, first, last, country)|
            == |EventsFrom(db, projectId, first, last, country)|
               + (if HasText(country, here) then |Added(db, after)| else 0)
  {
    RowsGrow(db, after, projectId, first, last, here);
    CountryRowsGrow(db, after, projectId, first, last, here, country);
    hide EventsIn;
    hide EventsFrom;
    hide Added;
    hide AddedTo;
    Sets.DisjointUnionSize(EventsIn(db, projectId, first, last), Added(db, after));
    Sets.DisjointUnionSize(EventsFrom(db, projectId, first, last, country), Added(db, after));
  }

  lemma OthersAreKept(db: Database, after: Database, projectId: int, first: int, last: int, here: string, q: int)
    requires AddedTo(db, after, projectId, first, last, here) && q != projectId
    ensures EventsIn(after, q, first, last) == EventsIn(db, q, first, last)
  {
  }

  /** After a call whose inserts fall into the interval of an overview, the total of its project has grown by the
      count that the call answered, and so has the count of the caller's country, and of no other; the events
      of other projects are as they were. */
  lemma TrackedAreCounted(db: Database, projectId: int, req: TrackRequest, location: Location, lookupFails: bool,
                          fates: seq<Fate>, first: int, last: int, q: int, country: Option<string>)
    requires |fates| == |req.events| && forall i | 0 <= i < |fates| :: first <= fates[i].now <= last
    ensures var p := TrackCall(db, projectId, req, location, lookupFails, fates);
            && |EventsIn(p.db, projectId, first, last)| == |EventsIn(db, projectId, first, last)| + p.accepted
            && |EventsFrom(p.db, projectId, first, last, country)|
               == |EventsFrom(db, projectId, first, last, country)|
                  + (if HasText(country, location.country) then p.accepted else 0)
            && (q != projectId ==> EventsIn(p.db, q, first, last) == EventsIn(db, q, first, last))
  {
    CallAdds(db, projectId, req, location, lookupFails, fates);
    var after := TrackCall(db, projectId, req, location, lookupFails, fates).db;
    forall e | e in Added(db, after)
      ensures after.events[e].projectId == projectId && first <= after.events[e].createdAt <= last
              && HasText(after.events[e].country, location.country)
    {
      AddedColumns(db, projectId, req, location, lookupFails, fates, first, last, e);
    }
    hide TrackCall;
    hide HasText;
    hide EventsIn;
    hide EventsFrom;
    CountsGrow(db, after, projectId, first, last, location.country, country);
    if q != projectId {
      OthersAreKept(db, after, projectId, first, last, location.country, q);
    }
  }

  /** The retention job changes no overview that begins within the project's retention. */
  lemma CleanupSparesRecent(db: Database, now: int, projectId: int, first: int, last: int)
    requires projectId in db.projects
    requires db.projects[projectId].retentionDays > 0 ==>
               now <= first + db.projects[projectId].retentionDays * (24 * 60 * 60 * 1_000_000_000)
    ensures EventsIn(Retention.PurgedAt(db, now), projectId, first, last) == EventsIn(db, projectId, first, last)
  {
  }
}
