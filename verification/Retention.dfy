/** The retention job. */
module Retention {
  import opened Schema
  import opened Storage

  const DAY := 86_400 * 1_000_000_000

  /** The clock reading and the transient error that one `CleanupEvents` call meets. */
  datatype Fate = Fate(now: int, fails: bool)

  function Cutoff(retentionDays: int, now: int): int {
    now - retentionDays * DAY
  }

  /** For each project of the listing whose call succeeded, the instant before which its events go. */
  function Cutoffs(db: Database, ids: seq<int>, fates: seq<Fate>, n: nat): map<int, int>
    requires n <= |ids| <= |fates|
    requires forall p | p in ids :: p in db.projects
  {
    if n == 0 then map[]
    else
      var earlier := Cutoffs(db, ids, fates, n - 1);
      if fates[n - 1].fails then earlier
      else earlier[ids[n - 1] := Cutoff(db.projects[ids[n - 1]].retentionDays, fates[n - 1].now)]
  }

  predicate Overdue(event: Event, cutoffs: map<int, int>) {
    event.projectId in cutoffs && event.createdAt < cutoffs[event.projectId]
  }

  function OverdueEvents(db: Database, cutoffs: map<int, int>): set<string> {
    set e | e in db.events && Overdue(db.events[e], cutoffs)
  }

  /** The database without the events that are older than their project's cutoff, and without
      their property rows. */
  function Purged(db: Database, cutoffs: map<int, int>): Database {
    DropEvents(db, OverdueEvents(db, cutoffs))
  }

  lemma PurgeOneMore(db: Database, cutoffs: map<int, int>, projectId: int, before: int)
    requires projectId !in cutoffs
    ensures WithoutExpired(Purged(db, cutoffs), projectId, before) == Purged(db, cutoffs[projectId := before])
  {
    var more, first := cutoffs[projectId := before], Purged(db, cutoffs);
    var gone, both := OverdueEvents(db, cutoffs), OverdueEvents(db, more);
    assert both == gone + Expired(first, projectId, before);
    DropTwice(db, gone, Expired(first, projectId, before));
  }

  lemma DropTwice(db: Database, first: set<string>, second: set<string>)
    ensures DropEvents(DropEvents(db, first), second) == DropEvents(db, first + second)
  {
    MinusTwice(db.events, first, second);
    MinusTwice(db.properties, first, second);
  }

  lemma MinusTwice<K, V>(m: map<K, V>, first: set<K>, second: set<K>)
    ensures m - first - second == m - (first + second)
  {
  }

  /** The job deletes, project by project, in the order of the listing, and does nothing when the
      listing fails. */
  method RunRetentionCleanup(store: Store, fates: seq<Fate>, listFails: bool) returns (ids: seq<int>)
    requires |store.projects| <= |fates|
    modifies store
    ensures |ids| <= |fates|
    ensures listFails ==> ids == []
    ensures !listFails ==>
              forall p :: p in ids <==> p in old(store.projects) && old(store.projects)[p].retentionDays > 0
    ensures forall p | p in ids :: p in old(store.projects)
    ensures store.DB() == Purged(old(store.DB()), Cutoffs(old(store.DB()), ids, fates, |ids|))
    ensures forall e | e in old(store.events) ::
              e !in store.events <==>
              exists i | 0 <= i < |ids| :: RemovedBy(old(store.DB()), ids, fates, old(store.events)[e], i)
  {
    ghost var before := store.DB();
    assert Purged(before, map[]) == before;
    if listFails {
      RemovedIff(before, [], fates);
      return [];
    }
    ids := store.GetProjectsWithRetention();
    forall p | p in ids ensures p in store.projects.Keys {}
    DistinctFit(ids, store.projects.Keys);
    var i := 0;
    while i < |ids|
      invariant 0 <= i <= |ids| && store.projects == before.projects
      invariant store.DB() == Purged(before, Cutoffs(before, ids, fates, i))
      invariant forall p | p in Cutoffs(before, ids, fates, i) :: p in ids[..i]
    {
      var cutoff := Cutoff(store.projects[ids[i]].retentionDays, fates[i].now);
      PurgeOneMore(before, Cutoffs(before, ids, fates, i), ids[i], cutoff);
      var _ := store.CleanupEvents(ids[i], cutoff, fates[i].fails);
      i := i + 1;
    }
    RemovedIff(before, ids, fates);
  }

  lemma DistinctFit<T>(s: seq<T>, within: set<T>)
    requires forall x | x in s :: x in within
    requires forall i, j | 0 <= i < j < |s| :: s[i] != s[j]
    ensures |s| <= |within|
  {
    if s != [] {
      var last := |s| - 1;
      forall x | x in s[..last] ensures x in within - {s[last]} {
        var i :| 0 <= i < last && s[i] == x;
      }
      DistinctFit(s[..last], within - {s[last]});
    }
  }

  ghost predicate Distinct(ids: seq<int>) {
    forall i, j | 0 <= i < j < |ids| :: ids[i] != ids[j]
  }

  /** The call for the event's project is the one at `i`, it succeeds, and the event is older than the project's
      days of 24 hours at its reading of the clock. */
  ghost predicate RemovedBy(db: Database, ids: seq<int>, fates: seq<Fate>, event: Event, i: int) {
    && 0 <= i < |ids| <= |fates| && ids[i] == event.projectId && ids[i] in db.projects && !fates[i].fails
    && event.createdAt + db.projects[ids[i]].retentionDays * (24 * 60 * 60 * 1_000_000_000) < fates[i].now
  }

  lemma CutoffAgain(retentionDays: int, now: int, createdAt: int)
    ensures createdAt < Cutoff(retentionDays, now)
            <==> createdAt + retentionDays * (24 * 60 * 60 * 1_000_000_000) < now
  {
  }

  lemma {:induction false} OverdueIff(db: Database, ids: seq<int>, fates: seq<Fate>, event: Event, n: nat)
    requires n <= |ids| <= |fates| && Distinct(ids) && forall p | p in ids :: p in db.projects
    ensures Overdue(event, Cutoffs(db, ids, fates, n))
            <==> exists i | 0 <= i < n :: RemovedBy(db, ids, fates, event, i)
    ensures event.projectId in Cutoffs(db, ids, fates, n) ==> event.projectId in ids[..n]
  {
    if n > 0 {
      OverdueIff(db, ids, fates, event, n - 1);
      assert ids[..n] == ids[..n - 1] + [ids[n - 1]];
      if ids[n - 1] == event.projectId {
        forall i | 0 <= i < n - 1 ensures ids[i] != event.projectId {}
        assert event.projectId !in Cutoffs(db, ids, fates, n - 1);
        CutoffAgain(db.projects[ids[n - 1]].retentionDays, fates[n - 1].now, event.createdAt);
        assert Overdue(event, Cutoffs(db, ids, fates, n)) <==> RemovedBy(db, ids, fates, event, n - 1);
      }
    }
  }

  /** Exactly these events go, with their property rows; everything else stays. */
  lemma RemovedIff(db: Database, ids: seq<int>, fates: seq<Fate>)
    requires |ids| <= |fates| && Distinct(ids) && forall p | p in ids :: p in db.projects
    ensures var after := Purged(db, Cutoffs(db, ids, fates, |ids|));
            && after == db.(events := after.events, properties := after.properties)
            && after.events.Keys <= db.events.Keys
            && (forall e | e in db.events ::
                  e !in after.events <==> exists i | 0 <= i < |ids| :: RemovedBy(db, ids, fates, db.events[e], i))
            && (forall e | e in after.events :: after.events[e] == db.events[e] && RowsOf(after, e) == RowsOf(db, e))
            && (forall e | e in db.events && e !in after.events :: RowsOf(after, e) == multiset{})
  {
    hide Cutoffs;
    hide RemovedBy;
    hide Overdue;
    forall e | e in db.events
      ensures Overdue(db.events[e], Cutoffs(db, ids, fates, |ids|))
              <==> exists i | 0 <= i < |ids| :: RemovedBy(db, ids, fates, db.events[e], i)
    {
      OverdueIff(db, ids, fates, db.events[e], |ids|);
    }
  }

  // ---------------------------------------------------------------------------------------
  // Every call succeeds and the clock stands still
  // ---------------------------------------------------------------------------------------

  predicate OlderThanRetention(db: Database, event: Event, now: int) {
    && event.projectId in db.projects
    && db.projects[event.projectId].retentionDays > 0
    && event.createdAt < Cutoff(db.projects[event.projectId].retentionDays, now)
  }

  function OldEvents(db: Database, now: int): set<string> {
    set e | e in db.events && OlderThanRetention(db, db.events[e], now)
  }

  /** The result of the job when every call succeeds at `now`. */
  function PurgedAt(db: Database, now: int): Database {
    DropEvents(db, OldEvents(db, now))
  }

  /** A listing of exactly the projects whose retention is positive. */
  ghost predicate IsListing(db: Database, ids: seq<int>) {
    && (forall p :: p in ids <==> p in db.projects && db.projects[p].retentionDays > 0)
  }

  lemma {:induction false} CutoffsAt(db: Database, ids: seq<int>, fates: seq<Fate>, now: int, n: nat)
    requires n <= |ids| <= |fates| && IsListing(db, ids)
    requires forall i | 0 <= i < |ids| :: fates[i] == Fate(now, false)
    ensures forall p :: p in Cutoffs(db, ids, fates, n) <==> p in ids[..n]
    ensures forall p | p in Cutoffs(db, ids, fates, n) ::
              Cutoffs(db, ids, fates, n)[p] == Cutoff(db.projects[p].retentionDays, now)
  {
    if n != 0 {
      CutoffsAt(db, ids, fates, now, n - 1);
      assert ids[..n] == ids[..n - 1] + [ids[n - 1]];
    }
  }

  /** When every call succeeds, whatever the order of the listing, the job removes exactly the
      events older than their project's positive retention; it touches no other project. */
  lemma CleanupIsExact(db: Database, ids: seq<int>, fates: seq<Fate>, now: int)
    requires |ids| <= |fates| && IsListing(db, ids)
    requires forall i | 0 <= i < |ids| :: fates[i] == Fate(now, false)
    ensures Purged(db, Cutoffs(db, ids, fates, |ids|)) == PurgedAt(db, now)
    ensures forall e | e in db.events && (db.events[e].projectId in db.projects ==>
                                          db.projects[db.events[e].projectId].retentionDays <= 0) ::
              e in PurgedAt(db, now).events && PurgedAt(db, now).events[e] == db.events[e]
  {
    CutoffsAt(db, ids, fates, now, |ids|);
    assert ids[..|ids|] == ids;
    var cutoffs := Cutoffs(db, ids, fates, |ids|);
    assert OverdueEvents(db, cutoffs) == OldEvents(db, now);
  }

  /** Running the job again at the same time removes nothing, and running it later removes at least
      what it would have removed earlier: the two runs compose to the later one alone. */
  lemma CleanupComposes(db: Database, now: int, later: int)
    requires now <= later
    ensures PurgedAt(PurgedAt(db, now), later) == PurgedAt(db, later)
    ensures PurgedAt(db, later).events.Keys <= PurgedAt(db, now).events.Keys
  {
    var first := PurgedAt(db, now);
    assert OldEvents(db, now) <= OldEvents(db, later);
    assert OldEvents(db, now) + OldEvents(first, later) == OldEvents(db, later);
    DropTwice(db, OldEvents(db, now), OldEvents(first, later));
  }

  /** A failed call leaves its project alone: the job removes an event only when the call for its
      project succeeded. */
  lemma {:induction false} FailedProjectsAreKept(db: Database, ids: seq<int>, fates: seq<Fate>, n: nat, projectId: int)
    requires n <= |ids| <= |fates| && (forall p | p in ids :: p in db.projects)
    requires forall i | 0 <= i < n && ids[i] == projectId :: fates[i].fails
    ensures projectId !in Cutoffs(db, ids, fates, n)
  {
    if n != 0 {
      FailedProjectsAreKept(db, ids, fates, n - 1, projectId);
    }
  }
}
