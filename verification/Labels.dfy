/** The text that each driver gives a period, and its order. */
module Labels {
  import opened Calendar

  // ---------------------------------------------------------------------------------------
  // Order of texts
  // ---------------------------------------------------------------------------------------

  predicate LexLess(a: string, b: string) {
    if a == "" then b != ""
    else if b == "" then false
    else a[0] < b[0] || (a[0] == b[0] && LexLess(a[1..], b[1..]))
  }

  /** The order is total. */
  lemma {:induction false} LexTrichotomy(a: string, b: string)
    ensures LexLess(a, b) ==> !LexLess(b, a) && a != b
    ensures !LexLess(a, b) && !LexLess(b, a) ==> a == b
  {
    if a != "" && b != "" {
      LexTrichotomy(a[1..], b[1..]);
      assert a == [a[0]] + a[1..] && b == [b[0]] + b[1..];
    }
  }

  /** Texts whose first fields are equally long are ordered field by field. */
  lemma {:induction false} LexFields(a: string, b: string, c: string, d: string)
    requires |a| == |b|
    ensures LexLess(a + c, b + d) <==> LexLess(a, b) || (a == b && LexLess(c, d))
    ensures a + c == b + d <==> a == b && c == d
  {
    if a == "" {
      assert a + c == c && b + d == d;
    } else {
      assert (a + c)[1..] == a[1..] + c && (b + d)[1..] == b[1..] + d;
      LexFields(a[1..], b[1..], c, d);
      assert a == [a[0]] + a[1..] && b == [b[0]] + b[1..];
      assert a + c == [a[0]] + (a[1..] + c) && b + d == [b[0]] + (b[1..] + d);
    }
  }

  function Power10(w: nat): nat {
    if w == 0 then 1 else 10 * Power10(w - 1)
  }

  /** The last `w` decimal digits. */
  function Digits(n: nat, w: nat): (s: string)
    ensures |s| == w
  {
    if w == 0 then "" else Digits(n / 10, w - 1) + ['0' + (n % 10) as char]
  }

  lemma {:induction false} DigitsAscend(m: nat, n: nat, w: nat)
    requires m < Power10(w) && n < Power10(w)
    ensures LexLess(Digits(m, w), Digits(n, w)) <==> m < n
    ensures Digits(m, w) == Digits(n, w) <==> m == n
  {
    if w > 0 {
      DigitsAscend(m / 10, n / 10, w - 1);
      var c, d := ['0' + (m % 10) as char], ['0' + (n % 10) as char];
      LexFields(Digits(m / 10, w - 1), Digits(n / 10, w - 1), c, d);
      assert c[1..] == "" && d[1..] == "";
      assert LexLess(c, d) <==> m % 10 < n % 10;
    }
  }

  /** A separator and a field of two digits. */
  function Field(c: char, n: nat): (s: string)
    ensures |s| == 3
  {
    [c] + Digits(n, 2)
  }

  lemma FieldAscends(c: char, m: nat, n: nat)
    requires m < 100 && n < 100
    ensures LexLess(Field(c, m), Field(c, n)) <==> m < n
    ensures Field(c, m) == Field(c, n) <==> m == n
  {
    assert Power10(2) == 100;
    DigitsAscend(m, n, 2);
    LexFields([c], [c], Digits(m, 2), Digits(n, 2));
    LexTrichotomy([c], [c]);
  }

  // ---------------------------------------------------------------------------------------
  // Periods
  // ---------------------------------------------------------------------------------------

  /** `hour`, `week`, `month`, and for both drivers every other text is a day. */
  datatype Interval = Hour | Day | Week | Month

  const END_YEAR := 10_000

  /** 1 January of year 1.  The year before it is year 0 for SQLite and 1 BC for Postgres. */
  const FIRST_DAY := 366

  lemma FirstDayIsMonday()
    ensures IsDate(Date(1, 1, 1)) && DayNumber(Date(1, 1, 1)) == FIRST_DAY && Weekday(FIRST_DAY) == 0
  {
  }

  /** Hours of the years 1 to 9999, counted from day 0. */
  predicate InRange(h: nat) {
    h >= FIRST_DAY * 24 && YearOf(h / 24) < END_YEAR
  }

  function MonthText(d: Date): (s: string)
    ensures |s| == 7
  {
    Digits(d.year, 4) + Field('-', d.month)
  }

  function DayText(d: Date): (s: string)
    ensures |s| == 10
  {
    MonthText(d) + Field('-', d.day)
  }

  function HourText(h: nat): (s: string)
    ensures |s| == 13
  {
    DayText(DateOf(h / 24)) + Field(' ', h % 24)
  }

  function WeekText(w: YearWeek): (s: string)
    ensures |s| == 8
  {
    Digits(w.year, 4) + ("-" + Field('W', w.week))
  }

  /** strftime with the format that `sqliteDateFormat` chooses. */
  function SqliteLabel(interval: Interval, h: nat): string {
    match interval
    case Hour => HourText(h) + ":00"
    case Day => DayText(DateOf(h / 24))
    case Week => WeekText(WeekOfYear(h / 24))
    case Month => MonthText(DateOf(h / 24))
  }

  /** date_trunc with the unit that `pgDateTrunc` chooses. */
  function PgTrunc(interval: Interval, h: nat): nat
    requires InRange(h)
  {
    hide YearOf;
    hide DateOf;
    hide MonthStart;
    hide Leap;
    match interval
    case Hour => h
    case Day => h / 24 * 24
    case Week =>
      MondayNotEarlier(h / 24);
      Monday(h / 24) * 24
    case Month =>
      var d := DateOf(h / 24);
      DayNumber(Date(d.year, d.month, 1)) * 24
  }

  /** A timestamp on the full hour, as text. */
  function PgText(h: nat): string {
    HourText(h) + ":00:00"
  }

  function PgLabel(interval: Interval, h: nat): string
    requires InRange(h)
  {
    PgText(PgTrunc(interval, h))
  }

  // ---------------------------------------------------------------------------------------
  // Text order is chronological
  // ---------------------------------------------------------------------------------------

  predicate EarlierMonth(a: Date, b: Date) {
    a.year < b.year || (a.year == b.year && a.month < b.month)
  }

  ghost predicate FourDigits(d: Date) {
    IsDate(d) && d.year < END_YEAR
  }

  lemma ShortFields(d: Date)
    requires IsDate(d)
    ensures d.month < 100 && d.day < 100
  {
    MonthsAscend(Leap(d.year), d.month, d.month + 1);
  }

  lemma YearDigits(a: nat, b: nat)
    requires a < END_YEAR && b < END_YEAR
    ensures LexLess(Digits(a, 4), Digits(b, 4)) <==> a < b
    ensures Digits(a, 4) == Digits(b, 4) <==> a == b
  {
    assert Power10(3) == 1000 && Power10(4) == 10_000;
    DigitsAscend(a, b, 4);
  }

  lemma MonthTextAscends(a: Date, b: Date)
    requires FourDigits(a) && FourDigits(b)
    ensures LexLess(MonthText(a), MonthText(b)) <==> EarlierMonth(a, b)
    ensures MonthText(a) == MonthText(b) <==> a.year == b.year && a.month == b.month
  {
    hide Digits;
    hide Field;
    hide LexLess;
    YearDigits(a.year, b.year);
    ShortFields(a);
    ShortFields(b);
    FieldAscends('-', a.month, b.month);
    LexFields(Digits(a.year, 4), Digits(b.year, 4), Field('-', a.month), Field('-', b.month));
  }

  lemma DayTextAscends(a: Date, b: Date)
    requires FourDigits(a) && FourDigits(b)
    ensures LexLess(DayText(a), DayText(b)) <==> Earlier(a, b)
    ensures DayText(a) == DayText(b) <==> a == b
  {
    hide MonthText;
    hide Field;
    hide LexLess;
    MonthTextAscends(a, b);
    ShortFields(a);
    ShortFields(b);
    FieldAscends('-', a.day, b.day);
    LexFields(MonthText(a), MonthText(b), Field('-', a.day), Field('-', b.day));
  }

  lemma DatesIff(m: nat, n: nat)
    ensures Earlier(DateOf(m), DateOf(n)) <==> m < n
    ensures DateOf(m) == DateOf(n) <==> m == n
  {
    hide DateOf;
    if m < n {
      DatesAscend(m, n);
    } else if n < m {
      DatesAscend(n, m);
    }
  }

  lemma HourTextAscends(g: nat, h: nat)
    requires YearOf(g / 24) < END_YEAR && YearOf(h / 24) < END_YEAR
    ensures LexLess(HourText(g), HourText(h)) <==> g < h
    ensures HourText(g) == HourText(h) <==> g == h
  {
    hide DayText;
    hide Field;
    hide LexLess;
    YearOfDate(g / 24);
    YearOfDate(h / 24);
    hide DateOf;
    var a, b := DateOf(g / 24), DateOf(h / 24);
    DayTextAscends(a, b);
    DatesIff(g / 24, h / 24);
    FieldAscends(' ', g % 24, h % 24);
    LexFields(DayText(a), DayText(b), Field(' ', g % 24), Field(' ', h % 24));
  }

  lemma WeekTextAscends(a: YearWeek, b: YearWeek)
    requires a.year < END_YEAR && b.year < END_YEAR && a.week < 100 && b.week < 100
    ensures LexLess(WeekText(a), WeekText(b)) <==> a.year < b.year || (a.year == b.year && a.week < b.week)
    ensures WeekText(a) == WeekText(b) <==> a == b
  {
    hide Digits;
    hide Field;
    YearDigits(a.year, b.year);
    FieldAscends('W', a.week, b.week);
    LexFields("-", "-", Field('W', a.week), Field('W', b.week));
    LexTrichotomy("-", "-");
    LexFields(Digits(a.year, 4), Digits(b.year, 4), "-" + Field('W', a.week), "-" + Field('W', b.week));
  }

  lemma SameSuffix(a: string, b: string, c: string)
    requires |a| == |b|
    ensures LexLess(a + c, b + c) <==> LexLess(a, b)
    ensures a + c == b + c <==> a == b
  {
    LexFields(a, b, c, c);
    LexTrichotomy(c, c);
  }

  /** SQLite orders the periods by their text: for years of four digits that is their order in time. */
  lemma SqliteAscends(interval: Interval, g: nat, h: nat)
    requires InRange(g) && InRange(h) && g <= h
    ensures !LexLess(SqliteLabel(interval, h), SqliteLabel(interval, g))
  {
    hide LexLess;
    hide HourText;
    hide DayText;
    hide MonthText;
    hide WeekText;
    YearOfDate(g / 24);
    YearOfDate(h / 24);
    DatesIff(g / 24, h / 24);
    hide DateOf;
    hide YearOf;
    var a, b := DateOf(g / 24), DateOf(h / 24);
    match interval
    case Hour =>
      HourTextAscends(h, g);
      SameSuffix(HourText(h), HourText(g), ":00");
    case Day => DayTextAscends(b, a);
    case Month => MonthTextAscends(b, a);
    case Week =>
      WeeksAscend(g / 24, h / 24);
      WeeksAscend(g / 24, g / 24);
      WeekTextAscends(WeekOfYear(h / 24), WeekOfYear(g / 24));
  }

  lemma WeekYear(n: nat)
    ensures WeekOfYear(n).year == YearOf(n)
  {
  }

  // ---------------------------------------------------------------------------------------
  // The two drivers
  // ---------------------------------------------------------------------------------------

  /** What Postgres adds to the label of SQLite. */
  function PgSuffix(interval: Interval): string {
    match interval
    case Hour => ":00"
    case Day => " 00:00:00"
    case Week => ""
    case Month => "-01 00:00:00"
  }

  lemma ZeroHour(n: nat)
    ensures PgText(n * 24) == DayText(DateOf(n)) + " 00:00:00"
  {
    hide DateOf;
    hide DayText;
    assert n * 24 / 24 == n && n * 24 % 24 == 0;
    assert Digits(0, 0) == "" && Digits(0, 1) == "0" && Digits(0, 2) == "00";
    assert Field(' ', 0) == " 00";
    assert DayText(DateOf(n)) + " 00" + ":00:00" == DayText(DateOf(n)) + " 00:00:00";
  }

  lemma FirstOfMonth(d: Date)
    requires IsDate(d)
    ensures IsDate(Date(d.year, d.month, 1))
    ensures DayText(Date(d.year, d.month, 1)) == MonthText(d) + "-01"
  {
    assert Digits(0, 0) == "" && Digits(0, 1) == "0" && Digits(1, 2) == "01";
    assert Field('-', 1) == "-01";
    hide Digits;
    hide Field;
  }

  lemma FirstOfMonthText(n: nat)
    ensures var d := DateOf(n);
            IsDate(Date(d.year, d.month, 1))
            && PgText(DayNumber(Date(d.year, d.month, 1)) * 24) == MonthText(d) + "-01 00:00:00"
  {
    hide PgText;
    hide MonthText;
    hide DayText;
    hide DayNumber;
    hide MonthStart;
    hide Leap;
    var d := DateOf(n);
    hide DateOf;
    FirstOfMonth(d);
    var first := Date(d.year, d.month, 1);
    DateOfDayNumber(first);
    ZeroHour(DayNumber(first));
    Ends(MonthText(d), "-01", " 00:00:00");
    assert "-01" + " 00:00:00" == "-01 00:00:00";
  }

  /** For hours, days and months the label of Postgres, the text of the truncated instant, is the label
      of SQLite with a fixed ending. */
  lemma PgLabelIsLonger(interval: Interval, h: nat)
    requires InRange(h) && interval != Week
    ensures PgLabel(interval, h) == SqliteLabel(interval, h) + PgSuffix(interval)
  {
    hide PgText;
    hide HourText;
    hide DayText;
    hide MonthText;
    hide DateOf;
    hide DayNumber;
    hide MonthStart;
    hide Leap;
    hide YearOf;
    hide Monday;
    match interval
    case Hour => HourSuffix(h);
    case Day => ZeroHour(h / 24);
    case Month => FirstOfMonthText(h / 24);
  }

  lemma HourSuffix(h: nat)
    ensures PgText(h) == HourText(h) + ":00" + ":00"
  {
    hide HourText;
    Ends(HourText(h), ":00", ":00");
    assert ":00" + ":00" == ":00:00";
  }

  lemma Ends(a: string, b: string, c: string)
    ensures a + b + c == a + (b + c)
  {
  }

  lemma SqliteLabelsEqualLength(interval: Interval, g: nat, h: nat)
    ensures |SqliteLabel(interval, g)| == |SqliteLabel(interval, h)|
  {
  }

  /** Two instants fall into the same period of one driver, or into ordered ones, exactly as they do for
      the other. */
  lemma DriversOrderAlike(interval: Interval, g: nat, h: nat)
    requires InRange(g) && InRange(h) && interval != Week
    ensures LexLess(PgLabel(interval, g), PgLabel(interval, h))
            <==> LexLess(SqliteLabel(interval, g), SqliteLabel(interval, h))
  {
    PgLabelIsLonger(interval, g);
    PgLabelIsLonger(interval, h);
    SqliteLabelsEqualLength(interval, g, h);
    SameSuffix(SqliteLabel(interval, g), SqliteLabel(interval, h), PgSuffix(interval));
  }

  /** A day's label is the beginning of the labels of its hours, and a month's of those of its days. */
  lemma LabelsNest(h: nat)
    ensures SqliteLabel(Day, h) == SqliteLabel(Hour, h)[..10]
    ensures SqliteLabel(Month, h) == SqliteLabel(Day, h)[..7]
  {
    hide DateOf;
    hide Field;
    hide MonthText;
    NestedTexts(h);
    hide HourText;
    hide DayText;
  }

  lemma NestedTexts(h: nat)
    ensures DayText(DateOf(h / 24)) == HourText(h)[..10]
    ensures MonthText(DateOf(h / 24)) == DayText(DateOf(h / 24))[..7]
  {
    hide DateOf;
    hide Field;
    hide MonthText;
    var d := DateOf(h / 24);
    Start(DayText(d), Field(' ', h % 24));
    Start(MonthText(d), Field('-', d.day));
    hide DayText;
  }

  lemma Start(a: string, b: string)
    ensures (a + b)[..|a|] == a
  {
  }

  // ---------------------------------------------------------------------------------------
  // What a label says
  // ---------------------------------------------------------------------------------------

  /** The number that a numeral denotes. */
  function Number(s: string): int {
    if s == "" then 0 else 10 * Number(s[..|s| - 1]) + (s[|s| - 1] as int - '0' as int)
  }

  /** The text is the numeral of `n` with `w` digits. */
  ghost predicate Spells(s: string, n: nat, w: nat) {
    |s| == w && (forall i | 0 <= i < w :: '0' <= s[i] <= '9') && Number(s) == n
  }

  lemma {:induction false} DigitsSpell(n: nat, w: nat)
    requires n < Power10(w)
    ensures Spells(Digits(n, w), n, w)
  {
    if w > 0 {
      DigitsSpell(n / 10, w - 1);
      var s := Digits(n, w);
      assert s[..w - 1] == Digits(n / 10, w - 1);
      assert s[w - 1] as int - '0' as int == n % 10;
    }
  }

  /** A date as year, month and day. */
  ghost predicate SpellsDate(s: string, d: Date) {
    && |s| == 10 && s[4] == '-' && s[7] == '-'
    && Spells(s[..4], d.year, 4) && Spells(s[5..7], d.month, 2) && Spells(s[8..], d.day, 2)
  }

  lemma DayTextSpells(d: Date)
    requires FourDigits(d)
    ensures SpellsDate(DayText(d), d)
  {
    assert Power10(3) == 1000 && Power10(4) == 10_000 && Power10(2) == 100;
    ShortFields(d);
    DigitsSpell(d.year, 4);
    DigitsSpell(d.month, 2);
    DigitsSpell(d.day, 2);
    hide Digits;
    hide Spells;
    var s := DayText(d);
    assert s[..4] == Digits(d.year, 4) && s[5..7] == Digits(d.month, 2) && s[8..] == Digits(d.day, 2);
  }

  lemma HourFieldSpells(day: string, n: nat)
    requires |day| == 10 && n < 100
    ensures var t := day + Field(' ', n) + ":00";
            && |t| == 16 && t[..10] == day && t[10] == ' ' && Spells(t[11..13], n, 2) && t[13..] == ":00"
  {
    assert Power10(2) == 100;
    DigitsSpell(n, 2);
    hide Digits;
    hide Spells;
    var t := day + Field(' ', n) + ":00";
    assert t[11..13] == Digits(n, 2);
  }

  lemma WeekTextSpells(w: YearWeek)
    requires w.year < END_YEAR && w.week < 100
    ensures var t := WeekText(w); |t| == 8 && Spells(t[..4], w.year, 4) && t[4..6] == "-W" && Spells(t[6..], w.week, 2)
  {
    assert Power10(3) == 1000 && Power10(4) == 10_000 && Power10(2) == 100;
    DigitsSpell(w.year, 4);
    DigitsSpell(w.week, 2);
    hide Digits;
    hide Spells;
    var t := WeekText(w);
    assert t[..4] == Digits(w.year, 4) && t[6..] == Digits(w.week, 2);
  }

  /** The labels of SQLite, read as text: the date, the full hour, the month, and the year with the number
      of its Mondays so far. */
  lemma LabelsSpell(h: nat)
    requires InRange(h)
    ensures SpellsDate(SqliteLabel(Day, h), DateOf(h / 24))
    ensures var t := SqliteLabel(Hour, h);
            && |t| == 16 && t[..10] == SqliteLabel(Day, h) && t[10] == ' ' && Spells(t[11..13], h % 24, 2)
            && t[13..] == ":00"
    ensures SqliteLabel(Month, h) == SqliteLabel(Day, h)[..7]
    ensures var t := SqliteLabel(Week, h);
            && |t| == 8 && Spells(t[..4], DateOf(h / 24).year, 4) && t[4..6] == "-W"
            && Spells(t[6..], |MondaysUpTo(h / 24)|, 2)
  {
    YearOfDate(h / 24);
    WeekCountsMondays(h / 24);
    WeeksAscend(h / 24, h / 24);
    hide DateOf;
    hide YearOf;
    hide WeekOfYear;
    hide MondaysUpTo;
    DayTextSpells(DateOf(h / 24));
    HourFieldSpells(DayText(DateOf(h / 24)), h % 24);
    WeekTextSpells(WeekOfYear(h / 24));
    LabelsNest(h);
    hide SpellsDate;
    hide Spells;
    hide DayText;
    hide MonthText;
    hide WeekText;
    hide Field;
  }

  /** The labels of Postgres: those of SQLite with the rest of a time stamp, and for a week the first second
      of the Monday that begins it. */
  lemma PgLabelsSpell(h: nat)
    requires InRange(h)
    ensures PgLabel(Hour, h) == SqliteLabel(Hour, h) + ":00"
    ensures PgLabel(Day, h) == SqliteLabel(Day, h) + " 00:00:00"
    ensures PgLabel(Month, h) == SqliteLabel(Month, h) + "-01 00:00:00"
    ensures exists m: nat :: m <= h / 24 < m + 7 && Weekday(m) == 0
                             && PgLabel(Week, h) == SqliteLabel(Day, m * 24) + " 00:00:00"
  {
    PgLabelIsLonger(Hour, h);
    PgLabelIsLonger(Day, h);
    PgLabelIsLonger(Month, h);
    hide PgText;
    hide SqliteLabel;
    PgWeekLabel(h);
  }

  /** The first hour of a day not later than that of an hour. */
  lemma FirstHour(m: nat, h: nat)
    requires m <= h / 24
    ensures m * 24 / 24 == m && m * 24 <= h
  {
  }

  lemma WeekLabelIs(h: nat)
    requires InRange(h)
    ensures Monday(h / 24) >= 0 && PgLabel(Week, h) == PgText(Monday(h / 24) * 24)
  {
    MondayNotEarlier(h / 24);
    hide PgText;
    hide DateOf;
    hide DayNumber;
    hide YearOf;
    hide Monday;
  }

  lemma DayLabelIs(m: nat)
    ensures SqliteLabel(Day, m * 24) == DayText(DateOf(m))
  {
    FirstHour(m, m * 24);
    hide DayText;
    hide DateOf;
  }

  lemma PgWeekLabel(h: nat)
    requires InRange(h)
    ensures exists m: nat :: m <= h / 24 < m + 7 && Weekday(m) == 0
                             && PgLabel(Week, h) == SqliteLabel(Day, m * 24) + " 00:00:00"
  {
    WeekLabelIs(h);
    MondayIsFirst(h / 24);
    hide *;
    var m: nat := Monday(h / 24);
    ZeroHour(m);
    DayLabelIs(m);
  }

  lemma MondayIsFirst(n: nat)
    requires Monday(n) >= 0
    ensures Monday(n) <= n < Monday(n) + 7 && Weekday(Monday(n)) == 0
  {
    var q := SevenTimes(n);
  }

  /** Instants with one SQLite week label have one Postgres week label. */
  lemma WeekLabelsNest(g: nat, h: nat)
    requires InRange(g) && InRange(h)
    requires SqliteLabel(Week, g) == SqliteLabel(Week, h)
    ensures PgLabel(Week, g) == PgLabel(Week, h)
  {
    hide PgText;
    WeekYear(g / 24);
    WeekYear(h / 24);
    WeeksAscend(g / 24, g / 24);
    WeeksAscend(h / 24, h / 24);
    WeekTextAscends(WeekOfYear(g / 24), WeekOfYear(h / 24));
    SameWeekIff(g / 24, h / 24);
    hide WeekOfYear;
    hide WeekText;
    hide YearOf;
  }

  /** Among any three instants with one Postgres week label, two have one SQLite week label. */
  lemma AtMostTwoWeekLabels(f: nat, g: nat, h: nat)
    requires InRange(f) && InRange(g) && InRange(h)
    requires PgLabel(Week, f) == PgLabel(Week, g) == PgLabel(Week, h)
    ensures SqliteLabel(Week, f) == SqliteLabel(Week, g) || SqliteLabel(Week, g) == SqliteLabel(Week, h)
            || SqliteLabel(Week, f) == SqliteLabel(Week, h)
  {
    hide WeekOfYear;
    hide WeekText;
    PgWeekIff(f, g);
    PgWeekIff(g, h);
    AtMostTwoWeeks(f / 24, g / 24, h / 24);
  }

  lemma PgWeekIff(g: nat, h: nat)
    requires InRange(g) && InRange(h)
    ensures LexLess(PgLabel(Week, g), PgLabel(Week, h)) <==> Monday(g / 24) < Monday(h / 24)
    ensures PgLabel(Week, g) == PgLabel(Week, h) <==> Monday(g / 24) == Monday(h / 24)
  {
    hide InRange;
    hide YearOf;
    hide Monday;
    hide PgText;
    hide PgLabel;
    hide LexLess;
    var m := PgWeekStart(g);
    var n := PgWeekStart(h);
    HoursOfDays(m, n);
  }

  lemma PgWeekStart(h: nat) returns (m: nat)
    requires InRange(h)
    ensures m == Monday(h / 24) && YearOf(m) < END_YEAR && PgLabel(Week, h) == PgText(m * 24)
  {
    hide YearOf;
    hide PgText;
    hide DateOf;
    hide DayNumber;
    hide MonthStart;
    hide Leap;
    MondayNotEarlier(h / 24);
    m := Monday(h / 24);
    MondayInRange(h / 24);
    hide Monday;
  }

  lemma MondayNotEarlier(n: nat)
    requires n >= FIRST_DAY
    ensures Monday(n) >= FIRST_DAY
  {
  }

  lemma HoursOfDays(m: nat, n: nat)
    requires YearOf(m) < END_YEAR && YearOf(n) < END_YEAR
    ensures LexLess(PgText(m * 24), PgText(n * 24)) <==> m < n
    ensures PgText(m * 24) == PgText(n * 24) <==> m == n
  {
    hide HourText;
    hide YearOf;
    hide LexLess;
    assert m * 24 / 24 == m && n * 24 / 24 == n;
    SameSuffix(HourText(m * 24), HourText(n * 24), ":00:00");
    HourTextAscends(m * 24, n * 24);
  }

  lemma MondayInRange(n: nat)
    requires YearOf(n) < END_YEAR && Monday(n) >= 0
    ensures YearOf(Monday(n)) < END_YEAR
  {
    hide YearOf;
    hide YearStart;
    var m: nat := Monday(n);
    if YearOf(n) < YearOf(m) {
      YearsAscend(YearOf(n), YearOf(m));
    }
  }

  lemma YearStartsLater(y: nat)
    requires y >= 1
    ensures YearStart(y) >= FIRST_DAY
  {
    FirstYear();
    hide YearStart;
    hide YearLength;
    YearsAscend(0, y);
  }

  lemma FirstYear()
    ensures YearStart(0) == 0 && YearLength(0) == FIRST_DAY
  {
  }

  lemma YearInRange(n: nat)
    requires n >= FIRST_DAY
    ensures YearOf(n) >= 1
  {
    hide YearOf;
    hide YearLength;
    hide YearStart;
    FirstYear();
  }

  lemma FirstNotLater(d: Date)
    requires IsDate(d)
    ensures var first := Date(d.year, d.month, 1);
            IsDate(first) && YearStart(d.year) <= DayNumber(first) <= DayNumber(d)
  {
    hide YearStart;
    hide MonthStart;
    hide Leap;
  }

  lemma FirstOfMonthInRange(n: nat)
    requires n >= FIRST_DAY
    ensures var d := DateOf(n);
            var first := Date(d.year, d.month, 1);
            IsDate(first) && FIRST_DAY <= DayNumber(first) <= n
  {
    YearOfDate(n);
    hide DateOf;
    hide DayNumber;
    hide YearOf;
    hide YearStart;
    hide IsDate;
    YearInRange(n);
    YearStartsLater(DateOf(n).year);
    DayNumberOfDate(n);
    FirstNotLater(DateOf(n));
  }

  /** The day on which the period begins. */
  lemma TruncDay(interval: Interval, h: nat) returns (m: nat)
    requires InRange(h) && interval != Hour
    ensures FIRST_DAY <= m <= h / 24 && PgTrunc(interval, h) == m * 24
  {
    var n := h / 24;
    MondayNotEarlier(n);
    FirstOfMonthInRange(n);
    hide Monday;
    hide DateOf;
    hide DayNumber;
    hide YearOf;
    hide MonthStart;
    hide Leap;
    match interval
    case Day => m := n;
    case Week => m := Monday(n);
    case Month => m := DayNumber(Date(DateOf(n).year, DateOf(n).month, 1));
  }

  /** Truncating stays in range, so that the text of a truncated instant has no era. */
  lemma TruncInRange(interval: Interval, h: nat)
    requires InRange(h)
    ensures InRange(PgTrunc(interval, h)) && PgTrunc(interval, h) <= h
  {
    if interval != Hour {
      var m := TruncDay(interval, h);
      hide PgTrunc;
      hide YearOf;
      FirstHour(m, h);
      YearNotLater(m, h / 24);
    }
  }

  lemma YearNotLater(m: nat, n: nat)
    requires m <= n
    ensures YearOf(m) <= YearOf(n)
  {
    hide YearOf;
    hide YearStart;
    if YearOf(n) < YearOf(m) {
      YearsAscend(YearOf(n), YearOf(m));
    }
  }

  /** Postgres orders the periods by their text too, and to the same effect. */
  lemma PgAscends(interval: Interval, g: nat, h: nat)
    requires InRange(g) && InRange(h) && g <= h
    ensures !LexLess(PgLabel(interval, h), PgLabel(interval, g))
  {
    if interval == Week {
      PgWeekIff(h, g);
      MondaysAscend(g / 24, h / 24);
    } else {
      hide LexLess;
      hide SqliteLabel;
      hide PgLabel;
      SqliteAscends(interval, g, h);
      DriversOrderAlike(interval, h, g);
    }
  }

  lemma MondaysAscend(m: nat, n: nat)
    requires m <= n
    ensures Monday(m) <= Monday(n)
  {
    var p := SevenTimes(m);
    var q := SevenTimes(n);
  }
}
