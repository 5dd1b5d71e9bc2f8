/** What the aggregate queries say about the events of a project between two instants. */
module Analytics {
  import opened Options
  import opened Schema
  import opened Calendar
  import opened Labels
  import opened Series

  const HOUR_LENGTH := 3_600 * 1_000_000_000
  const TOP := 10

  /** Hours since day 0 of the calendar, of an instant counted from the epoch. */
  function HourOf(t: int): int {
    t / HOUR_LENGTH + EPOCH_DAY * 24
  }

  /** WHERE project_id = ? AND created_at BETWEEN ? AND ? */
  function Window(db: Database, projectId: int, first: int, last: int): set<string> {
    set e | e in db.events && db.events[e].projectId == projectId && first <= db.events[e].createdAt <= last
  }

  function NamesIn(db: Database, projectId: int, first: int, last: int): map<string, string> {
    map e | e in Window(db, projectId, first, last) :: db.events[e].name
  }

  /** Events without a country form one group. */
  function CountriesIn(db: Database, projectId: int, first: int, last: int): map<string, Option<string>> {
    map e | e in Window(db, projectId, first, last) :: db.events[e].country
  }

  function DevicesIn(db: Database, projectId: int, first: int, last: int): map<string, string> {
    map e | e in Window(db, projectId, first, last) :: db.events[e].deviceId
  }

  /** The events of the window were stored in years of four digits. */
  ghost predicate Dated(db: Database, projectId: int, first: int, last: int) {
    forall e | e in Window(db, projectId, first, last) ::
      HourOf(db.events[e].createdAt) >= 0 && InRange(HourOf(db.events[e].createdAt))
  }

  ghost function SqlitePeriods(db: Database, projectId: int, first: int, last: int, interval: Interval)
    : map<string, string>
    requires Dated(db, projectId, first, last)
  {
    map e | e in Window(db, projectId, first, last) :: SqliteLabel(interval, HourOf(db.events[e].createdAt))
  }

  ghost function PgPeriods(db: Database, projectId: int, first: int, last: int, interval: Interval)
    : map<string, string>
    requires Dated(db, projectId, first, last)
  {
    map e | e in Window(db, projectId, first, last) :: PgLabel(interval, HourOf(db.events[e].createdAt))
  }

  // ---------------------------------------------------------------------------------------
  // The overview
  // ---------------------------------------------------------------------------------------

  datatype Overview = Overview(activeDevices: nat, totalEvents: nat, topEvents: seq<Point<string>>,
                               topCountries: seq<Point<Option<string>>>)

  ghost predicate IsOverview(db: Database, projectId: int, first: int, last: int, o: Overview) {
    && o.activeDevices == |DevicesIn(db, projectId, first, last).Values|
    && o.totalEvents == |Window(db, projectId, first, last)|
    && IsTop(o.topEvents, NamesIn(db, projectId, first, last), TOP)
    && IsTop(o.topCountries, CountriesIn(db, projectId, first, last), TOP)
  }

  ghost predicate Injective<T(!new), K>(m: map<T, K>) {
    forall r, s | r in m && s in m && m[r] == m[s] :: r == s
  }

  lemma {:induction false} ValuesSize<T(!new), K>(m: map<T, K>)
    ensures |m.Values| <= |m|
    ensures |m.Values| == |m| <==> Injective(m)
    decreases |m|
  {
    if m == map[] {
      assert m.Values == {};
    } else {
      var t :| t in m;
      var rest := m - {t};
      assert m.Keys == rest.Keys + {t};
      ValuesSize(rest);
      assert m.Values == rest.Values + {m[t]} by {
        forall k | k in m.Values ensures k in rest.Values + {m[t]} {
          var r :| r in m && m[r] == k;
          assert r != t ==> rest[r] == k;
        }
      }
      if Injective(m) {
        assert m[t] !in rest.Values;
      }
      if m[t] in rest.Values {
        var r :| r in rest && rest[r] == m[t];
        assert m[r] == m[t] && r != t;
      }
    }
  }

  /** Devices are at most the events, and as many only if no device sent two; each top list adds up to at
      most the events, and to all of them exactly when the list leaves out no group. */
  lemma OverviewAdds(db: Database, projectId: int, first: int, last: int, o: Overview)
    requires IsOverview(db, projectId, first, last, o)
    ensures o.activeDevices <= o.totalEvents
    ensures o.activeDevices == o.totalEvents <==> Injective(DevicesIn(db, projectId, first, last))
    ensures Sum(o.topEvents) <= o.totalEvents
    ensures Sum(o.topEvents) == o.totalEvents <==> |NamesIn(db, projectId, first, last).Values| <= TOP
    ensures Sum(o.topCountries) <= o.totalEvents
    ensures Sum(o.topCountries) == o.totalEvents <==> |CountriesIn(db, projectId, first, last).Values| <= TOP
  {
    hide Sum;
    hide IsTop;
    hide Injective;
    var devices, names, countries := DevicesIn(db, projectId, first, last), NamesIn(db, projectId, first, last),
                                     CountriesIn(db, projectId, first, last);
    ValuesSize(devices);
    TopSum(o.topEvents, names, TOP);
    TopSum(o.topCountries, countries, TOP);
    assert devices.Keys == names.Keys == countries.Keys == Window(db, projectId, first, last);
  }

  /** The stored events of the project between the two instants, both included. */
  ghost function EventsIn(db: Database, projectId: int, first: int, last: int): set<string> {
    set e | e in db.events && db.events[e].projectId == projectId
            && !(db.events[e].createdAt < first) && !(last < db.events[e].createdAt)
  }

  ghost function EventsNamed(db: Database, projectId: int, first: int, last: int, name: string): set<string> {
    set e | e in EventsIn(db, projectId, first, last) && db.events[e].name == name
  }

  ghost function EventsFrom(db: Database, projectId: int, first: int, last: int, country: Option<string>): set<string> {
    set e | e in EventsIn(db, projectId, first, last) && db.events[e].country == country
  }

  /** The points are largest first and at most `limit`, and those left out count no more. */
  ghost predicate Leads<K(!new)>(points: seq<Point<K>>, limit: nat, count: K -> nat) {
    && |points| <= limit
    && (forall i | 0 <= i < |points| :: points[i].count == count(points[i].key) > 0)
    && (forall i, j | 0 <= i < j < |points| :: points[i].key != points[j].key && points[i].count >= points[j].count)
    && (forall key, i | 0 <= i < |points| && !Lists(points, key) :: count(key) <= points[i].count)
    && (|points| < limit ==> forall key :: count(key) > 0 ==> Lists(points, key))
  }

  lemma TopLeads<T(!new), K(!new)>(points: seq<Point<K>>, keys: map<T, K>, limit: nat, count: K -> nat)
    requires IsTop(points, keys, limit) && forall key :: count(key) == |Group(keys, key)|
    ensures Leads(points, limit, count)
  {
    forall key ensures key in keys.Values <==> count(key) > 0 {
      if r :| r in keys && keys[r] == key {
        assert r in Group(keys, key);
      } else {
        assert Group(keys, key) == {};
      }
    }
    forall key, i | 0 <= i < |points| && !Lists(points, key) ensures count(key) <= points[i].count {
      if r :| r in keys && keys[r] == key {
        assert !Lists(points, keys[r]);
      }
    }
    if |points| < limit {
      forall key | count(key) > 0 ensures Lists(points, key) {
        AllListed(points, keys, limit, key);
      }
    }
  }

  lemma AllListed<T, K>(points: seq<Point<K>>, keys: map<T, K>, limit: nat, key: K)
    requires IsTop(points, keys, limit) && |points| < limit && key in keys.Values
    ensures Lists(points, key)
  {
    TopSum(points, keys, limit);
    SumOfGroups(points, keys);
    hide Sum;
    hide IsTop;
    var r :| r in keys && keys[r] == key;
  }

  lemma DeviceValues(db: Database, projectId: int, first: int, last: int)
    ensures DevicesIn(db, projectId, first, last).Values
            == set e | e in EventsIn(db, projectId, first, last) :: db.events[e].deviceId
  {
    var devices, ids := DevicesIn(db, projectId, first, last),
                        set e | e in EventsIn(db, projectId, first, last) :: db.events[e].deviceId;
    assert devices.Keys == EventsIn(db, projectId, first, last);
    forall d | d in ids ensures d in devices.Values {
      var e :| e in EventsIn(db, projectId, first, last) && db.events[e].deviceId == d;
      assert devices[e] == d;
    }
  }

  /** Each number of the overview counts stored events of the project between the two instants: all of them,
      their devices, those with the name or the country of a point.  At most ten groups are listed, largest
      first, and none that is left out is larger than one listed. */
  lemma OverviewCounts(db: Database, projectId: int, first: int, last: int, o: Overview)
    requires IsOverview(db, projectId, first, last, o)
    ensures o.totalEvents == |EventsIn(db, projectId, first, last)|
    ensures o.activeDevices == |set e | e in EventsIn(db, projectId, first, last) :: db.events[e].deviceId|
    ensures Leads(o.topEvents, 10, name => |EventsNamed(db, projectId, first, last, name)|)
    ensures Leads(o.topCountries, 10, country => |EventsFrom(db, projectId, first, last, country)|)
  {
    hide Leads;
    hide IsTop;
    var rows := Window(db, projectId, first, last);
    var names, countries := NamesIn(db, projectId, first, last), CountriesIn(db, projectId, first, last);
    assert rows == EventsIn(db, projectId, first, last);
    DeviceValues(db, projectId, first, last);
    forall key ensures Group(names, key) == EventsNamed(db, projectId, first, last, key) {}
    forall key ensures Group(countries, key) == EventsFrom(db, projectId, first, last, key) {}
    TopLeads(o.topEvents, names, TOP, name => |EventsNamed(db, projectId, first, last, name)|);
    TopLeads(o.topCountries, countries, TOP, country => |EventsFrom(db, projectId, first, last, country)|);
  }

  /** Every database has an overview for every project and interval. */
  lemma OverviewExists(db: Database, projectId: int, first: int, last: int) returns (o: Overview)
    ensures IsOverview(db, projectId, first, last, o)
  {
    hide IsTop;
    var names := TopExists(NamesIn(db, projectId, first, last), TOP);
    var countries := TopExists(CountriesIn(db, projectId, first, last), TOP);
    o := Overview(|DevicesIn(db, projectId, first, last).Values|, |Window(db, projectId, first, last)|, names,
                  countries);
  }

  /** Before LIMIT, the counts of all names, and of all countries, add up to the events. */
  lemma GroupsAdd(db: Database, projectId: int, first: int, last: int, names: seq<Point<string>>,
                  countries: seq<Point<Option<string>>>)
    requires CountsGroups(names, NamesIn(db, projectId, first, last))
    requires forall e | e in Window(db, projectId, first, last) :: Lists(names, db.events[e].name)
    requires CountsGroups(countries, CountriesIn(db, projectId, first, last))
    requires forall e | e in Window(db, projectId, first, last) :: Lists(countries, db.events[e].country)
    ensures Sum(names) == Sum(countries) == |Window(db, projectId, first, last)|
  {
    hide Sum;
    hide CountsGroups;
    hide Lists;
    SumOfGroups(names, NamesIn(db, projectId, first, last));
    SumOfGroups(countries, CountriesIn(db, projectId, first, last));
    assert NamesIn(db, projectId, first, last).Keys == CountriesIn(db, projectId, first, last).Keys
        == Window(db, projectId, first, last);
  }

  // ---------------------------------------------------------------------------------------
  // Time series
  // ---------------------------------------------------------------------------------------

  /** The counts of a time series add up to the events, for every interval and on both drivers. */
  lemma TimeSeriesAdds(db: Database, projectId: int, first: int, last: int, interval: Interval,
                       sqlite: seq<Point<string>>, pg: seq<Point<string>>)
    requires Dated(db, projectId, first, last)
    requires IsSeries(sqlite, SqlitePeriods(db, projectId, first, last, interval))
    requires IsSeries(pg, PgPeriods(db, projectId, first, last, interval))
    ensures Sum(sqlite) == Sum(pg) == |Window(db, projectId, first, last)|
  {
    hide Sum;
    hide IsSeries;
    hide SqliteLabel;
    hide PgLabel;
    SeriesTotal(sqlite, SqlitePeriods(db, projectId, first, last, interval));
    SeriesTotal(pg, PgPeriods(db, projectId, first, last, interval));
    assert SqlitePeriods(db, projectId, first, last, interval).Keys == Window(db, projectId, first, last)
        == PgPeriods(db, projectId, first, last, interval).Keys;
  }

  ghost function SqliteEvents(db: Database, projectId: int, first: int, last: int, interval: Interval, period: string)
    : set<string>
  {
    set e | e in EventsIn(db, projectId, first, last) && HourOf(db.events[e].createdAt) >= 0
            && SqliteLabel(interval, HourOf(db.events[e].createdAt)) == period
  }

  ghost function PgEvents(db: Database, projectId: int, first: int, last: int, interval: Interval, period: string)
    : set<string>
  {
    set e | e in EventsIn(db, projectId, first, last) && HourOf(db.events[e].createdAt) >= 0
            && InRange(HourOf(db.events[e].createdAt)) && PgLabel(interval, HourOf(db.events[e].createdAt)) == period
  }

  /** Each point of a time series counts the stored events of the project between the two instants that have
      its label; the labels are those of some event and, the counts being all the events, of every event. */
  lemma SqlitePointsCount(db: Database, projectId: int, first: int, last: int, interval: Interval,
                          points: seq<Point<string>>)
    requires Dated(db, projectId, first, last)
    requires IsSeries(points, SqlitePeriods(db, projectId, first, last, interval))
    ensures forall p | p in points :: p.count == |SqliteEvents(db, projectId, first, last, interval, p.key)| > 0
  {
    hide SqliteLabel;
    hide HourOf;
    hide IsSeries;
    var labels := SqlitePeriods(db, projectId, first, last, interval);
    PositiveCounts(points, labels);
    assert Window(db, projectId, first, last) == EventsIn(db, projectId, first, last);
    forall p | p in points ensures Group(labels, p.key) == SqliteEvents(db, projectId, first, last, interval, p.key) {}
  }

  lemma PgPointsCount(db: Database, projectId: int, first: int, last: int, interval: Interval,
                      points: seq<Point<string>>)
    requires Dated(db, projectId, first, last)
    requires IsSeries(points, PgPeriods(db, projectId, first, last, interval))
    ensures forall p | p in points :: p.count == |PgEvents(db, projectId, first, last, interval, p.key)| > 0
  {
    hide PgLabel;
    hide HourOf;
    hide IsSeries;
    hide InRange;
    var labels := PgPeriods(db, projectId, first, last, interval);
    PositiveCounts(points, labels);
    assert Window(db, projectId, first, last) == EventsIn(db, projectId, first, last);
    forall p | p in points ensures Group(labels, p.key) == PgEvents(db, projectId, first, last, interval, p.key) {}
  }

  lemma PositiveCounts<T>(points: seq<Point<string>>, labels: map<T, string>)
    requires IsSeries(points, labels)
    ensures forall p | p in points :: p.count == |Group(labels, p.key)| > 0
  {
    hide LexLess;
    forall p | p in points ensures p.count == |Group(labels, p.key)| > 0 {
      var i :| 0 <= i < |points| && points[i] == p;
      var r :| r in labels && labels[r] == p.key;
      assert r in Group(labels, p.key);
    }
  }

  /** An instant is a day since 1 January 1970, an hour of it, and nanoseconds within the hour: the day and the
      hour of which its labels are. */
  lemma HourOfInstant(day: int, hour: nat, rest: nat)
    requires hour < 24 && rest < 60 * 60 * 1_000_000_000
    ensures IsDate(Date(1970, 1, 1))
    ensures var h := HourOf((day * 24 + hour) * (60 * 60 * 1_000_000_000) + rest);
            h / 24 == day + DayNumber(Date(1970, 1, 1)) && h % 24 == hour
  {
    EpochIsThursday();
    hide IsDate;
    hide DayNumber;
    HourParts(day + EPOCH_DAY, hour);
    HoursOf(day * 24 + hour, rest);
    hide HourOf;
  }

  lemma HoursOf(hours: int, rest: nat)
    requires rest < 60 * 60 * 1_000_000_000
    ensures HourOf(hours * (60 * 60 * 1_000_000_000) + rest) == hours + EPOCH_DAY * 24
  {
  }

  lemma HourParts(day: int, hour: nat)
    requires hour < 24
    ensures (day * 24 + hour) / 24 == day && (day * 24 + hour) % 24 == hour
  {
  }

  /** For hours, days and months the two drivers return equal counts in equal order. */
  lemma DriversAgree(db: Database, projectId: int, first: int, last: int, interval: Interval,
                     sqlite: seq<Point<string>>, pg: seq<Point<string>>)
    requires Dated(db, projectId, first, last) && interval != Week
    requires IsSeries(sqlite, SqlitePeriods(db, projectId, first, last, interval))
    requires IsSeries(pg, PgPeriods(db, projectId, first, last, interval))
    ensures |sqlite| == |pg| && forall i | 0 <= i < |pg| :: sqlite[i].count == pg[i].count
  {
    hide IsSeries;
    hide SqliteLabel;
    hide PgLabel;
    hide LexLess;
    hide InRange;
    hide HourOf;
    var f, g := SqlitePeriods(db, projectId, first, last, interval), PgPeriods(db, projectId, first, last, interval);
    forall r, s | r in f && s in f ensures LexLess(f[r], f[s]) <==> LexLess(g[r], g[s]) {
      DriversOrderAlike(interval, HourOf(db.events[r].createdAt), HourOf(db.events[s].createdAt));
    }
    assert f.Keys == g.Keys;
    SeriesAgree(sqlite, f, pg, g);
  }

  /** The events of an earlier point were stored before those of a later one: SQLite. */
  lemma SqliteIsChronological(db: Database, projectId: int, first: int, last: int, interval: Interval,
                              points: seq<Point<string>>, i: nat, j: nat, r: string, s: string)
    requires Dated(db, projectId, first, last)
    requires IsSeries(points, SqlitePeriods(db, projectId, first, last, interval)) && i < j < |points|
    requires r in Group(SqlitePeriods(db, projectId, first, last, interval), points[i].key)
    requires s in Group(SqlitePeriods(db, projectId, first, last, interval), points[j].key)
    ensures db.events[r].createdAt < db.events[s].createdAt
  {
    hide SqliteLabel;
    hide LexLess;
    hide InRange;
    var a, b := db.events[r].createdAt, db.events[s].createdAt;
    if b <= a {
      SqliteAscends(interval, HourOf(b), HourOf(a));
    }
  }

  /** The same for Postgres. */
  lemma PgIsChronological(db: Database, projectId: int, first: int, last: int, interval: Interval,
                          points: seq<Point<string>>, i: nat, j: nat, r: string, s: string)
    requires Dated(db, projectId, first, last)
    requires IsSeries(points, PgPeriods(db, projectId, first, last, interval)) && i < j < |points|
    requires r in Group(PgPeriods(db, projectId, first, last, interval), points[i].key)
    requires s in Group(PgPeriods(db, projectId, first, last, interval), points[j].key)
    ensures db.events[r].createdAt < db.events[s].createdAt
  {
    hide PgLabel;
    hide LexLess;
    hide InRange;
    var a, b := db.events[r].createdAt, db.events[s].createdAt;
    if b <= a {
      PgAscends(interval, HourOf(b), HourOf(a));
    }
  }

  /** Whether a label of a finer period belongs to a coarser one is seen from its beginning. */
  predicate Begins(key: string, period: string) {
    |period| <= |key| && key[..|period|] == period
  }

  function SumBeginning(points: seq<Point<string>>, period: string): nat {
    if points == [] then 0
    else
      var last := points[|points| - 1];
      SumBeginning(points[..|points| - 1], period) + (if Begins(last.key, period) then last.count else 0)
  }

  lemma {:induction false} SameSum(points: seq<Point<string>>, keys: set<string>, period: string)
    requires forall i | 0 <= i < |points| :: points[i].key in keys <==> Begins(points[i].key, period)
    ensures SumOver(points, keys) == SumBeginning(points, period)
  {
    hide Begins;
    if points != [] {
      SameSum(points[..|points| - 1], keys, period);
    }
  }

  /** A labelling whose labels begin with those of the coarser one. */
  ghost predicate Nested(fine: map<string, string>, coarse: map<string, string>, width: nat) {
    fine.Keys == coarse.Keys && forall e | e in fine :: |fine[e]| >= width && coarse[e] == fine[e][..width]
  }

  lemma NestedSum(points: seq<Point<string>>, fine: map<string, string>, coarse: map<string, string>, width: nat,
                  period: string)
    requires IsSeries(points, fine) && Nested(fine, coarse, width) && |period| == width
    ensures |Group(coarse, period)| == SumBeginning(points, period)
  {
    hide LexLess;
    Resummation(points, fine, coarse, period);
    var keys := Inside(fine, coarse, period);
    forall i | 0 <= i < |points| ensures points[i].key in keys <==> Begins(points[i].key, period) {
      var e :| e in fine && fine[e] == points[i].key;
    }
    SameSum(points, keys, period);
  }

  /** Hours refine days and days refine months: the count of a day is the sum of the counts of the hours
      whose label begins with it, and the count of a month that of its days. */
  lemma FinerSeriesAdd(db: Database, projectId: int, first: int, last: int, hours: seq<Point<string>>,
                       days: seq<Point<string>>, day: string, month: string)
    requires Dated(db, projectId, first, last) && |day| == 10 && |month| == 7
    requires IsSeries(hours, SqlitePeriods(db, projectId, first, last, Hour))
    requires IsSeries(days, SqlitePeriods(db, projectId, first, last, Day))
    ensures |Group(SqlitePeriods(db, projectId, first, last, Day), day)| == SumBeginning(hours, day)
    ensures |Group(SqlitePeriods(db, projectId, first, last, Month), month)| == SumBeginning(days, month)
  {
    hide IsSeries;
    hide SumBeginning;
    hide Group;
    NestedPeriods(db, projectId, first, last);
    hide SqlitePeriods;
    hide Nested;
    hide Dated;
    var byDay := SqlitePeriods(db, projectId, first, last, Day);
    NestedSum(hours, SqlitePeriods(db, projectId, first, last, Hour), byDay, 10, day);
    NestedSum(days, byDay, SqlitePeriods(db, projectId, first, last, Month), 7, month);
  }

  /** On Postgres too: the label of a day, which ends in the time of its first hour, counts the hours whose
      labels begin with the date, and that of a month the days whose labels begin with the month. */
  lemma PgFinerSeriesAdd(db: Database, projectId: int, first: int, last: int, hours: seq<Point<string>>,
                         days: seq<Point<string>>, day: string, month: string)
    requires Dated(db, projectId, first, last) && |day| == 10 && |month| == 7
    requires IsSeries(hours, PgPeriods(db, projectId, first, last, Hour))
    requires IsSeries(days, PgPeriods(db, projectId, first, last, Day))
    ensures |Group(PgPeriods(db, projectId, first, last, Day), day + PgSuffix(Day))| == SumBeginning(hours, day)
    ensures |Group(PgPeriods(db, projectId, first, last, Month), month + PgSuffix(Month))| == SumBeginning(days, month)
  {
    hide IsSeries;
    hide SumBeginning;
    hide Group;
    PgNestedPeriods(db, projectId, first, last);
    PgGroup(db, projectId, first, last, Day, day);
    PgGroup(db, projectId, first, last, Month, month);
    hide SqlitePeriods;
    hide PgPeriods;
    hide Nested;
    hide Dated;
    var byHour, byDay := PgPeriods(db, projectId, first, last, Hour), PgPeriods(db, projectId, first, last, Day);
    NestedSum(hours, byHour, SqlitePeriods(db, projectId, first, last, Day), 10, day);
    NestedSum(days, byDay, SqlitePeriods(db, projectId, first, last, Month), 7, month);
  }

  /** Both drivers put the same events under corresponding labels. */
  lemma PgGroup(db: Database, projectId: int, first: int, last: int, interval: Interval, period: string)
    requires Dated(db, projectId, first, last) && interval != Week
    requires |period| == (match interval case Hour => 16 case Day => 10 case Week => 8 case Month => 7)
    ensures Group(PgPeriods(db, projectId, first, last, interval), period + PgSuffix(interval))
            == Group(SqlitePeriods(db, projectId, first, last, interval), period)
  {
    hide HourOf;
    hide InRange;
    hide PgLabel;
    hide SqliteLabel;
    hide PgSuffix;
    forall e | e in Window(db, projectId, first, last)
      ensures PgPeriods(db, projectId, first, last, interval)[e] == period + PgSuffix(interval)
              <==> SqlitePeriods(db, projectId, first, last, interval)[e] == period
    {
      var h := HourOf(db.events[e].createdAt);
      PgLabelIsLonger(interval, h);
      SqliteWidth(interval, h);
      SameSuffix(SqliteLabel(interval, h), period, PgSuffix(interval));
    }
  }

  lemma SqliteWidth(interval: Interval, h: nat)
    ensures |SqliteLabel(interval, h)| == (match interval case Hour => 16 case Day => 10 case Week => 8 case Month => 7)
  {
    hide HourText;
    hide DayText;
    hide MonthText;
    hide WeekText;
    hide DateOf;
    hide WeekOfYear;
  }

  lemma PgNestedPeriods(db: Database, projectId: int, first: int, last: int)
    requires Dated(db, projectId, first, last)
    ensures Nested(PgPeriods(db, projectId, first, last, Hour), SqlitePeriods(db, projectId, first, last, Day), 10)
    ensures Nested(PgPeriods(db, projectId, first, last, Day), SqlitePeriods(db, projectId, first, last, Month), 7)
  {
    hide HourOf;
    hide InRange;
    hide SqliteLabel;
    hide PgLabel;
    forall e | e in Window(db, projectId, first, last)
      ensures var h := HourOf(db.events[e].createdAt);
              h >= 0 && InRange(h)
              && |PgLabel(Hour, h)| >= 10 && SqliteLabel(Day, h) == PgLabel(Hour, h)[..10]
              && |PgLabel(Day, h)| >= 7 && SqliteLabel(Month, h) == PgLabel(Day, h)[..7]
    {
      PgLabelsNest(HourOf(db.events[e].createdAt));
    }
  }

  lemma PgLabelsNest(h: nat)
    requires InRange(h)
    ensures |PgLabel(Hour, h)| >= 10 && SqliteLabel(Day, h) == PgLabel(Hour, h)[..10]
    ensures |PgLabel(Day, h)| >= 7 && SqliteLabel(Month, h) == PgLabel(Day, h)[..7]
  {
    hide InRange;
    hide SqliteLabel;
    hide PgLabel;
    hide PgSuffix;
    LabelsNest(h);
    PgLabelIsLonger(Hour, h);
    PgLabelIsLonger(Day, h);
    SqliteWidth(Hour, h);
    SqliteWidth(Day, h);
  }

  lemma NestedPeriods(db: Database, projectId: int, first: int, last: int)
    requires Dated(db, projectId, first, last)
    ensures Nested(SqlitePeriods(db, projectId, first, last, Hour), SqlitePeriods(db, projectId, first, last, Day), 10)
    ensures Nested(SqlitePeriods(db, projectId, first, last, Day), SqlitePeriods(db, projectId, first, last, Month), 7)
  {
    hide HourOf;
    hide InRange;
    hide HourText;
    hide DayText;
    hide MonthText;
    hide DateOf;
    forall e | e in Window(db, projectId, first, last)
      ensures var h := HourOf(db.events[e].createdAt);
              h >= 0 && SqliteLabel(Day, h) == SqliteLabel(Hour, h)[..10]
              && SqliteLabel(Month, h) == SqliteLabel(Day, h)[..7]
    {
      LabelsNest(HourOf(db.events[e].createdAt));
    }
  }

  lemma AtMostTwo<T>(s: set<T>)
    requires forall a, b, c | a in s && b in s && c in s :: a == b || b == c || a == c
    ensures |s| <= 2
  {
    if a :| a in s {
      if b :| b in s && b != a {
        assert s == {a, b};
      } else {
        assert s == {a};
      }
    }
  }

  /** The count of a Postgres week is the sum of the counts of the SQLite weeks inside it, of which there
      are at most two. */
  lemma WeeksAdd(db: Database, projectId: int, first: int, last: int, weeks: seq<Point<string>>, week: string)
    requires Dated(db, projectId, first, last)
    requires IsSeries(weeks, SqlitePeriods(db, projectId, first, last, Week))
    ensures var fine := SqlitePeriods(db, projectId, first, last, Week);
            var coarse := PgPeriods(db, projectId, first, last, Week);
            && |Group(coarse, week)| == SumOver(weeks, Inside(fine, coarse, week))
            && |Inside(fine, coarse, week)| <= 2
  {
    hide IsSeries;
    hide SqliteLabel;
    hide PgLabel;
    hide InRange;
    hide HourOf;
    var fine, coarse := SqlitePeriods(db, projectId, first, last, Week), PgPeriods(db, projectId, first, last, Week);
    forall r, s | r in fine && s in fine && fine[r] == fine[s] ensures coarse[r] == coarse[s] {
      WeekLabelsNest(HourOf(db.events[r].createdAt), HourOf(db.events[s].createdAt));
    }
    assert fine.Keys == coarse.Keys;
    Resummation(weeks, fine, coarse, week);
    var keys := Inside(fine, coarse, week);
    forall a, b, c | a in keys && b in keys && c in keys ensures a == b || b == c || a == c {
      var p :| p in fine && coarse[p] == week && fine[p] == a;
      var q :| q in fine && coarse[q] == week && fine[q] == b;
      var r :| r in fine && coarse[r] == week && fine[r] == c;
      AtMostTwoWeekLabels(HourOf(db.events[p].createdAt), HourOf(db.events[q].createdAt),
                          HourOf(db.events[r].createdAt));
    }
    AtMostTwo(keys);
  }
}
