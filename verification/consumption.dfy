/** The consumption screen (`src/screens/application/ConsumptionScreen.js`):
    records sorted newest first and grouped by day, week and month, the
    calorie total of the shown period, and the arrows that page through periods. */
module Consumption {
  import opened Wrappers
  import opened Seqs
  import opened Dates
  import opened Grouping
  import opened Folds
  import Utils
  import ProgressBar

  /** The product summary copied into a consumption record. */
  datatype Product = Product(name: string, calories: int, productQuantity: real)

  /** One consumed product: `{ _id, product, date, quantity, unit }`. */
  datatype Record = Record(id: string, product: Product, quantity: real, unit: string, date: Instant)

  /** Calories of one record, as the screen computes them. */
  function Calories(r: Record): (c: int)
  {
    Utils.ConsumedCalories(r.quantity, r.unit, r.product.calories, r.product.productQuantity)
  }

  /* ------------------------------------------------------------------ */
  /*  Newest first                                                      */
  /* ------------------------------------------------------------------ */

  predicate NewestFirst(s: seq<Record>)
  {
    forall i, j :: 0 <= i < j < |s| ==> s[i].date >= s[j].date
  }

  function DateOf(r: Record): (d: Instant)
  {
    r.date
  }

  /** Place `x` before the first record that is not newer than it. */
  function InsertNewest(x: Record, s: seq<Record>): (r: seq<Record>)
    ensures multiset(r) == multiset(s) + multiset{x}
    ensures |r| == |s| + 1 && (r[0] == x || (|s| > 0 && r[0] == s[0]))
  {
    if |s| == 0 || x.date >= s[0].date then [x] + s
    else
      assert s == [s[0]] + s[1..];
      [s[0]] + InsertNewest(x, s[1..])
  }

  /** Inserting into a newest-first list keeps it newest first. */
  lemma {:induction false} InsertNewestSorted(x: Record, s: seq<Record>)
    requires NewestFirst(s)
    ensures NewestFirst(InsertNewest(x, s))
  {
    if |s| > 0 && x.date < s[0].date {
      var t := s[1..];
      InsertNewestSorted(x, t);
      var rest := InsertNewest(x, t);
      assert InsertNewest(x, s) == [s[0]] + rest;
      assert forall j :: 0 <= j < |rest| ==> s[0].date >= rest[0].date >= rest[j].date;
    }
  }

  /** `sort((a, b) => b.date - a.date)`: a stable sort, most recent first. */
  function SortNewestFirst(s: seq<Record>): (r: seq<Record>)
    ensures NewestFirst(r)
    ensures multiset(r) == multiset(s)
  {
    if |s| == 0 then []
    else
      assert s == [s[0]] + s[1..];
      var rest := SortNewestFirst(s[1..]);
      InsertNewestSorted(s[0], rest);
      InsertNewest(s[0], rest)
  }

  lemma SelectSingleton(x: Record, d: Instant)
    ensures Select([x], DateOf, d) == if x.date == d then [x] else []
  {
    assert [x][1..] == [];
  }

  /** Inserting `x` puts it after every record of its date and before none of them. */
  lemma {:induction false} InsertNewestStable(x: Record, s: seq<Record>, d: Instant)
    ensures Select(InsertNewest(x, s), DateOf, d) == Select([x], DateOf, d) + Select(s, DateOf, d)
  {
    if |s| == 0 || x.date >= s[0].date {
      SelectAppend([x], s, DateOf, d);
    } else {
      var t := s[1..];
      var rest := InsertNewest(x, t);
      assert InsertNewest(x, s) == [s[0]] + rest;
      InsertNewestStable(x, t, d);
      SelectAppend([s[0]], rest, DateOf, d);
      SelectAppend([s[0]], t, DateOf, d);
      assert s == [s[0]] + t;
      var a, b, c := Select([s[0]], DateOf, d), Select([x], DateOf, d), Select(t, DateOf, d);
      assert Select(InsertNewest(x, s), DateOf, d) == a + (b + c);
      assert Select([x], DateOf, d) + Select(s, DateOf, d) == b + (a + c);
      SelectSingleton(s[0], d);
      SelectSingleton(x, d);
    }
  }

  /** The sort is stable: records with the same date keep their relative order. */
  lemma {:induction false} SortNewestFirstStable(s: seq<Record>, d: Instant)
    ensures Select(SortNewestFirst(s), DateOf, d) == Select(s, DateOf, d)
  {
    if |s| > 0 {
      SortNewestFirstStable(s[1..], d);
      InsertNewestStable(s[0], SortNewestFirst(s[1..]), d);
      SelectAppend([s[0]], s[1..], DateOf, d);
      assert s == [s[0]] + s[1..];
    }
  }

  /** Filtering a newest-first list keeps it newest first. */
  lemma {:induction false} SelectNewestFirst<K(!new)>(s: seq<Record>, key: Record -> K, k: K)
    requires NewestFirst(s)
    ensures NewestFirst(Select(s, key, k))
  {
    if |s| > 0 {
      SelectNewestFirst(s[1..], key, k);
      var rest := Select(s[1..], key, k);
      forall j | 0 <= j < |rest|
        ensures s[0].date >= rest[j].date
      {
        SelectMember(s[1..], key, k, rest[j]);
      }
    }
  }

  /* ------------------------------------------------------------------ */
  /*  Period labels                                                     */
  /* ------------------------------------------------------------------ */

  /** Day label ("dddd DD/MM/YYYY" of the date). */
  function DayKey(r: Record): (k: int)
  {
    DayNumber(r.date)
  }

  /** Week label ("dddd DD/MM/YYYY" of the Monday starting its week). */
  function WeekKey(r: Record): (k: int)
  {
    DayNumber(WeekStart(r.date))
  }

  /** Month label ("MMMM YYYY" of the date). */
  function MonthKey(r: Record): (k: YearMonth)
  {
    MonthOf(DayNumber(r.date))
  }

  /** `date.startOf("week")` on the shared record object: its date moves to
      the week start, and nothing else about the record changes. */
  function Restamp(r: Record): (r': Record)
    ensures r'.date == WeekStart(r.date) && r'.date <= r.date
    ensures r'.id == r.id && r'.product == r.product && r'.quantity == r.quantity && r'.unit == r.unit
    ensures Calories(r') == Calories(r)
    ensures WeekKey(r') == WeekKey(r)
  {
    WeekStartIdempotent(r.date);
    r.(date := WeekStart(r.date))
  }

  function RestampAll(s: seq<Record>): (r: seq<Record>)
    ensures |r| == |s|
    ensures forall i :: 0 <= i < |s| ==> r[i] == Restamp(s[i])
  {
    MapSeq(s, Restamp)
  }

  function RestampBuckets<K>(bs: seq<Bucket<K, Record>>): (r: seq<Bucket<K, Record>>)
    ensures |r| == |bs|
    ensures forall i :: 0 <= i < |bs| ==> r[i] == Bucket(bs[i].title, RestampAll(bs[i].products))
  {
    seq(|bs|, i requires 0 <= i < |bs| => Bucket(bs[i].title, RestampAll(bs[i].products)))
  }

  /** Week starts are ordered like the dates they start. */
  lemma WeekStartMonotone(t: Instant, u: Instant)
    requires t <= u
    ensures WeekStart(t) <= WeekStart(u)
  {
    if WeekStart(u) < WeekStart(t) {
      WeekStartSameWeek(t, u);
    }
  }

  lemma RestampNewestFirst(s: seq<Record>)
    requires NewestFirst(s)
    ensures NewestFirst(RestampAll(s))
  {
    forall i, j | 0 <= i < j < |s|
      ensures RestampAll(s)[i].date >= RestampAll(s)[j].date
    {
      WeekStartMonotone(s[j].date, s[i].date);
    }
  }

  /* ------------------------------------------------------------------ */
  /*  Aggregation                                                       */
  /* ------------------------------------------------------------------ */

  datatype Periods = Periods(daily: seq<Bucket<int, Record>>,
                             weekly: seq<Bucket<int, Record>>,
                             monthly: seq<Bucket<YearMonth, Record>>)

  /** The screen's aggregation as written. Day and week titles and members
      are computed from the original dates; the weekly filter then calls
      `startOf("week")` on every shared record without cloning, so the
      months are labelled and filtered from week-start dates, and every
      record ends up carrying its week start. */
  function Aggregate(records: seq<Record>): (p: Periods)
    ensures multiset(Flatten(p.daily)) == multiset(RestampAll(records))
    ensures multiset(Flatten(p.weekly)) == multiset(RestampAll(records))
    ensures multiset(Flatten(p.monthly)) == multiset(RestampAll(records))
  {
    var sorted := SortNewestFirst(records);
    var stamped := RestampAll(sorted);
    RestampedPartition(sorted, records, DayKey);
    RestampedPartition(sorted, records, WeekKey);
    GroupPartition(stamped, MonthKey);
    RestampAllPermutation(sorted, records);
    Periods(RestampBuckets(Group(sorted, DayKey)),
            RestampBuckets(Group(sorted, WeekKey)),
            Group(stamped, MonthKey))
  }

  /** The aggregation the clone comment intends: no date is moved, and months
      come from the records' own dates. */
  function AggregateIntended(records: seq<Record>): (p: Periods)
    ensures multiset(Flatten(p.daily)) == multiset(records)
    ensures multiset(Flatten(p.weekly)) == multiset(records)
    ensures multiset(Flatten(p.monthly)) == multiset(records)
  {
    var sorted := SortNewestFirst(records);
    GroupPartition(sorted, DayKey);
    GroupPartition(sorted, WeekKey);
    GroupPartition(sorted, MonthKey);
    Periods(Group(sorted, DayKey), Group(sorted, WeekKey), Group(sorted, MonthKey))
  }

  /** Restamping two arrangements of the same records gives two arrangements
      of the same restamped records. */
  lemma RestampAllPermutation(a: seq<Record>, b: seq<Record>)
    requires multiset(a) == multiset(b)
    ensures multiset(RestampAll(a)) == multiset(RestampAll(b))
  {
    MapPermutation(a, b, Restamp);
  }

  /** Day and week buckets, restamped, hold exactly the restamped records. */
  lemma RestampedPartition<K(!new)>(sorted: seq<Record>, records: seq<Record>, key: Record -> K)
    requires multiset(sorted) == multiset(records)
    ensures multiset(Flatten(RestampBuckets(Group(sorted, key)))) == multiset(RestampAll(records))
  {
    var g := Group(sorted, key);
    FlattenRestamp(g);
    GroupPartition(sorted, key);
    RestampAllPermutation(Flatten(g), records);
  }

  /** No records, no periods. */
  lemma AggregateEmpty(records: seq<Record>)
    requires |records| == 0
    ensures Aggregate(records) == Periods([], [], [])
    ensures AggregateIntended(records) == Periods([], [], [])
  {
  }

  /** Sorting neither adds nor drops a record. */
  lemma SortedMembers(records: seq<Record>, r: Record)
    ensures r in SortNewestFirst(records) <==> r in records
  {
    assert r in records <==> r in multiset(records);
    assert r in SortNewestFirst(records) <==> r in multiset(SortNewestFirst(records));
  }

  /** Day titles: distinct, one per day on which something was consumed. */
  lemma AggregateDayTitles(records: seq<Record>)
    ensures var ts := Titles(Aggregate(records).daily);
      && NoDup(ts)
      && (forall r :: r in records ==> DayKey(r) in ts)
      && (forall d :: d in ts ==> exists r :: r in records && DayKey(r) == d)
  {
    var sorted := SortNewestFirst(records);
    GroupTitles(sorted, DayKey);
    assert Titles(Aggregate(records).daily) == Titles(Group(sorted, DayKey));
    forall r ensures r in records <==> r in sorted {
      SortedMembers(records, r);
    }
  }

  /** Week titles: distinct, one per week start of a record. */
  lemma AggregateWeekTitles(records: seq<Record>)
    ensures var ts := Titles(Aggregate(records).weekly);
      && NoDup(ts)
      && (forall r :: r in records ==> WeekKey(r) in ts)
      && (forall w :: w in ts ==> exists r :: r in records && WeekKey(r) == w)
  {
    var sorted := SortNewestFirst(records);
    GroupTitles(sorted, WeekKey);
    assert Titles(Aggregate(records).weekly) == Titles(Group(sorted, WeekKey));
    forall r ensures r in records <==> r in sorted {
      SortedMembers(records, r);
    }
  }

  lemma MonthTitleOfRecord(records: seq<Record>, r: Record)
    requires r in records
    ensures MonthOf(DayNumber(WeekStart(r.date))) in Titles(Aggregate(records).monthly)
  {
    var sorted := SortNewestFirst(records);
    SortedMembers(records, r);
    StampedTitle(sorted, r);
    MonthlyOf(records);
  }

  /** The monthly buckets group the restamped, sorted records. */
  lemma MonthlyOf(records: seq<Record>)
    ensures Aggregate(records).monthly == Group(RestampAll(SortNewestFirst(records)), MonthKey)
  {
  }

  /** A record's week-start month titles one of the monthly buckets. */
  lemma StampedTitle(sorted: seq<Record>, r: Record)
    requires r in sorted
    ensures MonthKey(Restamp(r)) in Titles(Group(RestampAll(sorted), MonthKey))
  {
    var stamped := RestampAll(sorted);
    var i :| 0 <= i < |sorted| && sorted[i] == r;
    assert stamped[i] == Restamp(r);
    var a := GroupHomeAt(stamped, MonthKey, stamped[i]);
    assert Titles(Group(stamped, MonthKey))[a] == MonthKey(Restamp(r));
  }

  lemma StampedWithMonthTitle(records: seq<Record>, m: YearMonth)
    requires m in Titles(Aggregate(records).monthly)
    ensures exists y :: y in RestampAll(SortNewestFirst(records)) && MonthKey(y) == m
  {
    var sorted := SortNewestFirst(records);
    var stamped := RestampAll(sorted);
    assert Aggregate(records).monthly == Group(stamped, MonthKey);
    GroupTitles(stamped, MonthKey);
  }

  lemma StampedMonthOrigin(records: seq<Record>, m: YearMonth, y: Record)
    requires y in RestampAll(SortNewestFirst(records)) && MonthKey(y) == m
    ensures exists r :: r in records && MonthOf(DayNumber(WeekStart(r.date))) == m
  {
    var sorted := SortNewestFirst(records);
    var stamped := RestampAll(sorted);
    var i :| 0 <= i < |stamped| && stamped[i] == y;
    var r := sorted[i];
    assert y == Restamp(r);
    assert r in sorted;
    SortedMembers(records, r);
    assert MonthOf(DayNumber(WeekStart(r.date))) == m;
  }

  lemma RecordOfMonthTitle(records: seq<Record>, m: YearMonth)
    requires m in Titles(Aggregate(records).monthly)
    ensures exists r :: r in records && MonthOf(DayNumber(WeekStart(r.date))) == m
  {
    StampedWithMonthTitle(records, m);
    var y :| y in RestampAll(SortNewestFirst(records)) && MonthKey(y) == m;
    StampedMonthOrigin(records, m, y);
  }

  /** Month titles: distinct, one per month of a record's WEEK START, since
      the dates were moved before the months were read. */
  lemma AggregateMonthTitles(records: seq<Record>)
    ensures var ts := Titles(Aggregate(records).monthly);
      && NoDup(ts)
      && (forall r :: r in records ==> MonthOf(DayNumber(WeekStart(r.date))) in ts)
      && (forall m :: m in ts ==> exists r :: r in records && MonthOf(DayNumber(WeekStart(r.date))) == m)
  {
    var sorted := SortNewestFirst(records);
    var stamped := RestampAll(sorted);
    assert Aggregate(records).monthly == Group(stamped, MonthKey);
    GroupTitles(stamped, MonthKey);
    forall r | r in records
      ensures MonthOf(DayNumber(WeekStart(r.date))) in Titles(Aggregate(records).monthly)
    {
      MonthTitleOfRecord(records, r);
    }
    forall m | m in Titles(Aggregate(records).monthly)
      ensures exists r :: r in records && MonthOf(DayNumber(WeekStart(r.date))) == m
    {
      RecordOfMonthTitle(records, m);
    }
  }

  /** Day and week buckets keep the sorted order, restamping included. */
  lemma RestampedNewestFirst<K(!new)>(sorted: seq<Record>, key: Record -> K)
    requires NewestFirst(sorted)
    ensures forall b :: b in RestampBuckets(Group(sorted, key)) ==> NewestFirst(b.products)
  {
    var g := Group(sorted, key);
    forall b | b in RestampBuckets(g) ensures NewestFirst(b.products) {
      var i :| 0 <= i < |g| && RestampBuckets(g)[i] == b;
      SelectNewestFirst(sorted, key, g[i].title);
      RestampNewestFirst(g[i].products);
    }
  }

  /** Every period lists its records newest first. */
  lemma AggregateNewestFirst(records: seq<Record>)
    ensures var p := Aggregate(records);
      && (forall b :: b in p.daily ==> NewestFirst(b.products))
      && (forall b :: b in p.weekly ==> NewestFirst(b.products))
      && (forall b :: b in p.monthly ==> NewestFirst(b.products))
  {
    var sorted := SortNewestFirst(records);
    var stamped := RestampAll(sorted);
    RestampNewestFirst(sorted);
    RestampedNewestFirst(sorted, DayKey);
    RestampedNewestFirst(sorted, WeekKey);
    forall b | b in Group(stamped, MonthKey) ensures NewestFirst(b.products) {
      SelectNewestFirst(stamped, MonthKey, b.title);
    }
  }


  /** Where a record lands, as written: its day and week buckets hold it
      moved to its week start, and so does the bucket of its week start's month. */
  lemma AggregateHome(records: seq<Record>, r: Record)
    requires r in records
    ensures var p := Aggregate(records);
      && (exists b :: b in p.daily && b.title == DayKey(r) && Restamp(r) in b.products)
      && (exists b :: b in p.weekly && b.title == WeekKey(r) && Restamp(r) in b.products)
      && (exists b :: b in p.monthly && b.title == MonthOf(DayNumber(WeekStart(r.date))) && Restamp(r) in b.products)
  {
    var sorted := SortNewestFirst(records);
    var stamped := RestampAll(sorted);
    SortedMembers(records, r);
    RestampedHome(sorted, DayKey, r);
    RestampedHome(sorted, WeekKey, r);
    var i :| 0 <= i < |sorted| && sorted[i] == r;
    assert stamped[i] == Restamp(r);
    GroupHome(stamped, MonthKey, Restamp(r));
  }

  lemma RestampMember(s: seq<Record>, r: Record)
    requires r in s
    ensures Restamp(r) in RestampAll(s)
  {
    var j :| 0 <= j < |s| && s[j] == r;
    assert RestampAll(s)[j] == Restamp(r);
  }

  lemma RestampedHome<K(!new)>(sorted: seq<Record>, key: Record -> K, r: Record)
    requires r in sorted
    ensures exists b :: b in RestampBuckets(Group(sorted, key)) && b.title == key(r) && Restamp(r) in b.products
  {
    var g := Group(sorted, key);
    var i := GroupHomeAt(sorted, key, r);
    var b := g[i];
    var rb := RestampBuckets(g)[i];
    RestampMember(b.products, r);
    assert rb.title == key(r) && Restamp(r) in rb.products;
    assert rb in RestampBuckets(g);
  }

  /** Where a record lands, as intended: unchanged, in the bucket of its own
      day, its own week and its own calendar month. */
  lemma AggregateIntendedHome(records: seq<Record>, r: Record)
    requires r in records
    ensures var p := AggregateIntended(records);
      && (exists b :: b in p.daily && b.title == DayKey(r) && r in b.products)
      && (exists b :: b in p.weekly && b.title == WeekKey(r) && r in b.products)
      && (exists b :: b in p.monthly && b.title == MonthKey(r) && r in b.products)
  {
    var sorted := SortNewestFirst(records);
    SortedMembers(records, r);
    GroupHome(sorted, DayKey, r);
    GroupHome(sorted, WeekKey, r);
    GroupHome(sorted, MonthKey, r);
  }

  /** As intended, a bucket holds only records of its own day, week or month. */
  lemma AggregateIntendedMembers(records: seq<Record>)
    ensures var p := AggregateIntended(records);
      && (forall b, y :: b in p.daily && y in b.products ==> y in records && DayKey(y) == b.title)
      && (forall b, y :: b in p.weekly && y in b.products ==> y in records && WeekKey(y) == b.title)
      && (forall b, y :: b in p.monthly && y in b.products ==> y in records && MonthKey(y) == b.title)
  {
    var sorted := SortNewestFirst(records);
    GroupMembers(sorted, DayKey);
    GroupMembers(sorted, WeekKey);
    GroupMembers(sorted, MonthKey);
    forall y | y in sorted ensures y in records {
      SortedMembers(records, y);
    }
  }

  /** As written, a day or week bucket holds only records of its day or week,
      moved to their week start. */
  lemma RestampedMember<K(!new)>(records: seq<Record>, key: Record -> K, b: Bucket<K, Record>, y: Record)
    requires b in RestampBuckets(Group(SortNewestFirst(records), key)) && y in b.products
    ensures exists r :: r in records && y == Restamp(r) && key(r) == b.title
  {
    var sorted := SortNewestFirst(records);
    var g := Group(sorted, key);
    var i :| 0 <= i < |g| && RestampBuckets(g)[i] == b;
    var j :| 0 <= j < |b.products| && b.products[j] == y;
    var x := g[i].products[j];
    assert y == Restamp(x);
    assert x in g[i].products;
    GroupMembers(sorted, key);
    assert g[i] in g;
    SortedMembers(records, x);
  }

  /** As written, a month bucket holds only records whose week start lies in
      that month, moved to their week start. */
  lemma StampedMember(records: seq<Record>, b: Bucket<YearMonth, Record>, y: Record)
    requires b in Group(RestampAll(SortNewestFirst(records)), MonthKey) && y in b.products
    ensures exists r :: r in records && y == Restamp(r) && MonthOf(DayNumber(WeekStart(r.date))) == b.title
  {
    var sorted := SortNewestFirst(records);
    var stamped := RestampAll(sorted);
    GroupMembers(stamped, MonthKey);
    assert y in stamped && MonthKey(y) == b.title;
    var k :| 0 <= k < |stamped| && stamped[k] == y;
    var r := sorted[k];
    assert y == Restamp(r);
    SortedMembers(records, r);
  }

  /** As written, every bucket holds only records of its period, each moved to
      its week start: together with the partition, nothing is lost, duplicated
      or filed under another period. */
  lemma AggregateMembers(records: seq<Record>)
    ensures var p := Aggregate(records);
      && (forall b, y :: b in p.daily && y in b.products ==>
            exists r :: r in records && y == Restamp(r) && DayKey(r) == b.title)
      && (forall b, y :: b in p.weekly && y in b.products ==>
            exists r :: r in records && y == Restamp(r) && WeekKey(r) == b.title)
      && (forall b, y :: b in p.monthly && y in b.products ==>
            exists r :: r in records && y == Restamp(r) && MonthOf(DayNumber(WeekStart(r.date))) == b.title)
  {
    var p := Aggregate(records);
    forall b, y | b in p.daily && y in b.products
      ensures exists r :: r in records && y == Restamp(r) && DayKey(r) == b.title
    {
      RestampedMember(records, DayKey, b, y);
    }
    forall b, y | b in p.weekly && y in b.products
      ensures exists r :: r in records && y == Restamp(r) && WeekKey(r) == b.title
    {
      RestampedMember(records, WeekKey, b, y);
    }
    forall b, y | b in p.monthly && y in b.products
      ensures exists r :: r in records && y == Restamp(r) && MonthOf(DayNumber(WeekStart(r.date))) == b.title
    {
      StampedMember(records, b, y);
    }
  }

  /* Period order: index 0 is the most recent period. */

  lemma DaysDescending(records: seq<Record>)
    ensures var d := Aggregate(records).daily;
      forall a, b :: 0 <= a < b < |d| ==> d[a].title > d[b].title
  {
    var sorted := SortNewestFirst(records);
    forall i, j | 0 <= i < j < |sorted|
      ensures DayKey(sorted[i]) >= DayKey(sorted[j])
    {
      DayNumberMonotone(sorted[j].date, sorted[i].date);
    }
    GroupTitlesDescending(sorted, DayKey, (k: int) => k);
  }

  lemma WeeksDescending(records: seq<Record>)
    ensures var w := Aggregate(records).weekly;
      forall a, b :: 0 <= a < b < |w| ==> w[a].title > w[b].title
  {
    var sorted := SortNewestFirst(records);
    forall i, j | 0 <= i < j < |sorted|
      ensures WeekKey(sorted[i]) >= WeekKey(sorted[j])
    {
      WeekStartMonotone(sorted[j].date, sorted[i].date);
      DayNumberMonotone(WeekStart(sorted[j].date), WeekStart(sorted[i].date));
    }
    GroupTitlesDescending(sorted, WeekKey, (k: int) => k);
  }

  lemma MonthsDescending(records: seq<Record>)
    ensures var m := Aggregate(records).monthly;
      forall a, b :: 0 <= a < b < |m| ==> MonthIndex(m[a].title) > MonthIndex(m[b].title)
  {
    var sorted := SortNewestFirst(records);
    var stamped := RestampAll(sorted);
    RestampNewestFirst(sorted);
    forall i, j | 0 <= i < j < |stamped|
      ensures MonthIndex(MonthKey(stamped[i])) >= MonthIndex(MonthKey(stamped[j]))
    {
      DayNumberMonotone(stamped[j].date, stamped[i].date);
      MonthOfMonotone(DayNumber(stamped[j].date), DayNumber(stamped[i].date));
    }
    forall i, j | 0 <= i < |stamped| && 0 <= j < |stamped| && MonthIndex(MonthKey(stamped[i])) == MonthIndex(MonthKey(stamped[j]))
      ensures MonthKey(stamped[i]) == MonthKey(stamped[j])
    {
      MonthIndexInjective(MonthKey(stamped[i]), MonthKey(stamped[j]));
    }
    GroupTitlesDescending(stamped, MonthKey, MonthIndex);
  }

  /** Every tab lists its periods from the most recent to the oldest: index 0
      is the latest day, week or month with a record, and a larger index is
      always an earlier period. */
  lemma AggregatePeriodOrder(records: seq<Record>)
    ensures var p := Aggregate(records);
      && (forall a, b :: 0 <= a < b < |p.daily| ==> p.daily[a].title > p.daily[b].title)
      && (forall a, b :: 0 <= a < b < |p.weekly| ==> p.weekly[a].title > p.weekly[b].title)
      && (forall a, b :: 0 <= a < b < |p.monthly| ==> MonthIndex(p.monthly[a].title) > MonthIndex(p.monthly[b].title))
  {
    DaysDescending(records);
    WeeksDescending(records);
    MonthsDescending(records);
  }

  /** A record eaten at noon on Wednesday 1 April 2020: as written it is
      counted in March 2020, the month of Monday 30 March that starts its week. */
  lemma MonthOfWeekStartCounterexample(r: Record)
    requires r.date == April1st2020Noon
    ensures Aggregate([r]).monthly == [Bucket(YearMonth(2020, 3), [Restamp(r)])]
    ensures AggregateIntended([r]).monthly == [Bucket(YearMonth(2020, 4), [r])]
  {
    WeekReference();
    MonthReferenceApril(DayNumber(r.date));
    MonthReferenceMarch(DayNumber(March30th2020));
    assert SortNewestFirst([r]) == [r];
    assert RestampAll([r]) == [Restamp(r)];
    assert Restamp(r).date == March30th2020;
    assert MonthKey(Restamp(r)) == YearMonth(2020, 3);
    assert MonthKey(r) == YearMonth(2020, 4);
    assert Labels([Restamp(r)], MonthKey) == [YearMonth(2020, 3)];
    assert Labels([r], MonthKey) == [YearMonth(2020, 4)];
    assert Unique([YearMonth(2020, 3)]) == [YearMonth(2020, 3)];
    assert Unique([YearMonth(2020, 4)]) == [YearMonth(2020, 4)];
    assert Select([Restamp(r)], MonthKey, YearMonth(2020, 3)) == [Restamp(r)];
    assert Select([r], MonthKey, YearMonth(2020, 4)) == [r];
  }

  /* ------------------------------------------------------------------ */
  /*  Calorie totals                                                    */
  /* ------------------------------------------------------------------ */

  /** Total calories of a list. */
  function SumCalories(s: seq<Record>): (total: int)
  {
    SumBy(s, Calories)
  }

  /** Moving dates changes no calorie count. */
  lemma {:induction false} SumRestamp(s: seq<Record>)
    ensures SumCalories(RestampAll(s)) == SumCalories(s)
  {
    if |s| > 0 {
      assert RestampAll(s)[1..] == RestampAll(s[1..]);
      SumRestamp(s[1..]);
    }
  }

  /** The total shown for a period. */
  function BucketCalories<K>(b: Bucket<K, Record>): (total: int)
  {
    FoldBy(b.products, Calories, 0)
  }

  function SumOfBuckets<K>(bs: seq<Bucket<K, Record>>): (total: int)
  {
    if |bs| == 0 then 0 else BucketCalories(bs[0]) + SumOfBuckets(bs[1..])
  }

  lemma {:induction false} SumOfBucketsFlatten<K>(bs: seq<Bucket<K, Record>>)
    ensures SumOfBuckets(bs) == SumCalories(Flatten(bs))
  {
    if |bs| > 0 {
      SumOfBucketsFlatten(bs[1..]);
      FoldIsSum(bs[0].products, Calories, 0);
      SumAppend(bs[0].products, Flatten(bs[1..]), Calories);
    }
  }

  lemma {:induction false} FlattenRestamp<K>(bs: seq<Bucket<K, Record>>)
    ensures Flatten(RestampBuckets(bs)) == RestampAll(Flatten(bs))
  {
    if |bs| > 0 {
      assert RestampBuckets(bs)[1..] == RestampBuckets(bs[1..]);
      FlattenRestamp(bs[1..]);
      MapSeqAppend(bs[0].products, Flatten(bs[1..]), Restamp);
    }
  }

  /** Whatever the granularity, the period totals add up to the calories of
      all the records, as the partition implies. */
  lemma AggregateConservesCalories(records: seq<Record>)
    ensures var p := Aggregate(records);
      && SumOfBuckets(p.daily) == SumCalories(records)
      && SumOfBuckets(p.weekly) == SumCalories(records)
      && SumOfBuckets(p.monthly) == SumCalories(records)
  {
    var p := Aggregate(records);
    var all := RestampAll(records);
    SumRestamp(records);
    SumOfBucketsFlatten(p.daily);
    SumPermutation(Flatten(p.daily), all, Calories);
    SumOfBucketsFlatten(p.weekly);
    SumPermutation(Flatten(p.weekly), all, Calories);
    SumOfBucketsFlatten(p.monthly);
    SumPermutation(Flatten(p.monthly), all, Calories);
  }

  /* ------------------------------------------------------------------ */
  /*  The shown period                                                  */
  /* ------------------------------------------------------------------ */

  /** What a tab renders: the empty-list placeholder, or the records and
      calorie total of the period at `dateIndex`. */
  datatype TabView = EmptyList | Content(products: seq<Record>, calories: int)

  /** `TabContent`: no periods render the placeholder; an index with no
      period (the last record of a period was just deleted) throws inside the
      `try` and shows no records and 0 calories. */
  function TabContent<K>(data: seq<Bucket<K, Record>>, dateIndex: int): (v: TabView)
    ensures v.EmptyList? <==> |data| == 0
    ensures v.Content? && 0 <= dateIndex < |data| ==>
      v.products == data[dateIndex].products && v.calories == SumCalories(v.products)
    ensures v.Content? && !(0 <= dateIndex < |data|) ==> v.products == [] && v.calories == 0
  {
    if |data| == 0 then EmptyList
    else if 0 <= dateIndex < |data| then
      var products := data[dateIndex].products;
      FoldIsSum(products, Calories, 0);
      Content(products, FoldBy(products, Calories, 0))
    else Content([], 0)
  }

  datatype Period = Day | Week | Month

  /** The progress-bar maximum of a tab: one, seven or thirty daily budgets. */
  function PeriodMax(period: Period, caloriesPerDay: int): (m: int)
    ensures period == Day ==> m == caloriesPerDay
    ensures period == Week ==> m == 7 * caloriesPerDay
    ensures period == Month ==> m == 30 * caloriesPerDay
  {
    match period
    case Day => caloriesPerDay * 1
    case Week => caloriesPerDay * 7
    case Month => caloriesPerDay * 30
  }

  /** With a positive daily budget, a tab's bar turns orange or red exactly
      when the period's total reaches its budget: one day, seven days or
      thirty days of calories. */
  lemma BarWarnsOverBudget(period: Period, caloriesPerDay: int, calories: int)
    requires caloriesPerDay > 0
    ensures var max := PeriodMax(period, caloriesPerDay);
      (ProgressBar.Rank(ProgressBar.ProgressColour(Some(calories as real), Some(max as real))) >= 4 <==> calories >= max)
  {
  }

  /* ------------------------------------------------------------------ */
  /*  Paging through periods                                            */
  /* ------------------------------------------------------------------ */

  /** The left arrow shows the previous (older) period, index + 1; the right
      arrow the next (more recent) one, index - 1. */
  datatype Arrow = Previous | Next

  /** An arrow is disabled exactly at its own end of the list. */
  predicate Disabled(n: int, dateIndex: int, arrow: Arrow)
  {
    match arrow
    case Previous => dateIndex == n - 1
    case Next => dateIndex == 0
  }

  /** Pressing an arrow: nothing when it is disabled, a step otherwise. */
  function Press(n: nat, dateIndex: int, arrow: Arrow): (j: int)
    ensures 0 <= dateIndex < n ==> 0 <= j < n
    ensures Disabled(n, dateIndex, arrow) <==> j == dateIndex
    ensures !Disabled(n, dateIndex, arrow) ==> j - dateIndex == (if arrow == Previous then 1 else -1)
  {
    if Disabled(n, dateIndex, arrow) then dateIndex
    else if arrow == Previous then dateIndex + 1
    else dateIndex - 1
  }

  /** A sequence of presses, in order; however the arrows are pressed, a
      valid index stays valid. */
  function PressAll(n: nat, dateIndex: int, arrows: seq<Arrow>): (j: int)
    ensures 0 <= dateIndex < n ==> 0 <= j < n
    decreases |arrows|
  {
    if |arrows| == 0 then dateIndex else PressAll(n, Press(n, dateIndex, arrows[0]), arrows[1..])
  }

  function Repeat(arrow: Arrow, k: nat): (s: seq<Arrow>)
    ensures |s| == k
    ensures forall i :: 0 <= i < k ==> s[i] == arrow
  {
    if k == 0 then [] else [arrow] + Repeat(arrow, k - 1)
  }

  /** Pressing "previous" k times goes k periods back, stopping at the oldest:
      every period can be reached from the most recent one. */
  lemma {:induction false} PreviousReaches(n: nat, dateIndex: int, k: nat)
    requires 0 <= dateIndex < n
    ensures PressAll(n, dateIndex, Repeat(Previous, k)) == if dateIndex + k < n then dateIndex + k else n - 1
    decreases k
  {
    if k > 0 {
      PreviousReaches(n, Press(n, dateIndex, Previous), k - 1);
    }
  }

  /** The guard compares with `===`: an index already past the oldest period
      (the list just shrank) is not stopped by the left arrow. */
  lemma PastTheEndNotClamped(n: nat)
    ensures Press(n, n, Previous) == n + 1
  {
  }

  /** The effect on `dates.length`: on mount and whenever the number of
      periods changes, the index goes back to the most recent period. */
  function ResetOnLengthChange(seenLength: Option<nat>, n: nat, dateIndex: int): (j: int)
    ensures seenLength != Some(n) ==> j == 0
    ensures seenLength == Some(n) ==> j == dateIndex
    ensures n > 0 && seenLength != Some(n) ==> 0 <= j < n
  {
    if seenLength == Some(n) then dateIndex else 0
  }

  /** The tab only pages when it has a period to show: its index after the
      reset addresses a period, so its records and total are that period's. */
  lemma ShownAfterReset<K>(data: seq<Bucket<K, Record>>, seenLength: Option<nat>, dateIndex: int)
    requires seenLength != Some(|data|)
    ensures TabContent(data, ResetOnLengthChange(seenLength, |data|, dateIndex)).Content? ==>
      |data| >= 1 && TabContent(data, ResetOnLengthChange(seenLength, |data|, dateIndex)).products == data[0].products
  {
  }
}
