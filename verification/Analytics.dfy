/** Line analytics (internal/database/analytics_read_repository.go) over the revision and episode tables: the list
    form, merged by a Go loop, and the detail form, joined in SQL. */
module Analytics {
  import opened Common
  import opened Ordering
  import opened AlertContent
  import opened AlertHistory
  import opened AlertReconciliation
  import opened AlertEpisodes
  import opened AlertEpisodeTimes
  import opened Buckets

  /** The revisions of each alert, and alert_revision_lines. */
  datatype Tables = Tables(revisions: map<AlertKey, Rows>, lines: set<(AlertKey, nat, string)>)

  /** An episode associated with a line, as its first live revision there categorizes it. */
  datatype Associated = Associated(
    key: AlertKey, episode: nat, at: Time, cause: Option<string>, effect: Option<string>)

  /** The same joined with alert_episodes, as only the series do. */
  datatype Item = Item(associated: Associated, life: Episode)

  // ---- The queries' common part ----

  ghost predicate LiveOnLine(t: Tables, line: string, key: AlertKey, e: nat, n: nat) {
    && key in t.revisions && Member(t.revisions[key], e, n)
    && (key, n, line) in t.lines && !IsDeleted(t.revisions[key][n])
  }

  /** ORDER BY first_seen_at, revision_number LIMIT 1 */
  ghost predicate Categorizes(t: Tables, line: string, key: AlertKey, e: nat, n: nat) {
    && LiveOnLine(t, line, key, e, n)
    && forall m: nat :: LiveOnLine(t, line, key, e, m) ==> m == n || Precedes(t.revisions[key], n, m)
  }

  ghost function AssociatedBy(t: Tables, key: AlertKey, n: nat): Associated
    requires key in t.revisions && n in t.revisions[key]
  {
    var row := t.revisions[key][n];
    Associated(key, EpisodeNumber(t.revisions[key], n), row.firstSeen, row.body.cause, row.body.effect)
  }

  /** The rows of `categorized` in the breakdowns, which leave alert_episodes out. */
  ghost function AssociatedWith(t: Tables, line: string): set<Associated> {
    set key, n | key in t.revisions && n in t.revisions[key]
      && Categorizes(t, line, key, EpisodeNumber(t.revisions[key], n), n) :: AssociatedBy(t, key, n)
  }

  /** alert_episodes */
  ghost function EpisodeTable(t: Tables): map<(AlertKey, nat), Episode> {
    map key, e | key in t.revisions && e in EpisodeRows(t.revisions[key]) ::
      (key, e) := EpisodeRows(t.revisions[key])[e]
  }

  /** The rows of `categorized` in the series: JOIN alert_episodes USING (service_alert_id, episode_number). */
  ghost function Items(t: Tables, line: string): set<Item> {
    set a | a in AssociatedWith(t, line) && (a.key, a.episode) in EpisodeTable(t) ::
      Item(a, EpisodeTable(t)[(a.key, a.episode)])
  }

  function InWindow(items: set<Item>, from: Time, to: Time): set<Item> {
    set item | item in items && from <= item.associated.at < to
  }

  function Within(rows: set<Associated>, from: Time, to: Time): set<Associated> {
    set row | row in rows && from <= row.at < to
  }

  /** Every episode with a live revision on the line is associated with it once, and nothing else is. */
  lemma OneRowPerEpisode(t: Tables, line: string, key: AlertKey, e: nat)
    ensures (exists row <- AssociatedWith(t, line) :: row.key == key && row.episode == e)
        <==> exists n: nat :: LiveOnLine(t, line, key, e, n)
    ensures forall a <- AssociatedWith(t, line), b <- AssociatedWith(t, line) ::
      a.key == b.key == key && a.episode == b.episode == e ==> a == b
  {
    if n: nat :| LiveOnLine(t, line, key, e, n) {
      var live := set m | m in t.revisions[key] && LiveOnLine(t, line, key, e, m);
      assert n in live;
      var least := LeastExists(t.revisions[key], live);
      assert Categorizes(t, line, key, e, least);
      assert AssociatedBy(t, key, least) in AssociatedWith(t, line);
    }
  }

  /** What an associated episode is categorized by: the first of its revisions that are live on the line. */
  ghost predicate CategorizedBy(t: Tables, line: string, row: Associated, n: nat) {
    && row.key in t.revisions && n in t.revisions[row.key] && (row.key, n, line) in t.lines
    && var revisions := t.revisions[row.key];
       && EpisodeNumber(revisions, n) == row.episode && !revisions[n].hash.deleted
       && row.at == revisions[n].firstSeen && row.cause == revisions[n].body.cause
       && row.effect == revisions[n].body.effect
       && forall m: nat :: (m in revisions && EpisodeNumber(revisions, m) == row.episode
                            && (row.key, m, line) in t.lines && !revisions[m].hash.deleted) ==>
            revisions[n].firstSeen < revisions[m].firstSeen
            || (revisions[n].firstSeen == revisions[m].firstSeen && n <= m)
  }

  lemma AssociatedExactly(t: Tables, line: string, row: Associated)
    ensures row in AssociatedWith(t, line) <==> exists n: nat :: CategorizedBy(t, line, row, n)
  {
    if row in AssociatedWith(t, line) {
      var n :| row.key in t.revisions && n in t.revisions[row.key] && row == AssociatedBy(t, row.key, n)
               && Categorizes(t, line, row.key, EpisodeNumber(t.revisions[row.key], n), n);
      FirstLive(t, line, row, n);
    }
    if n: nat :| CategorizedBy(t, line, row, n) {
      forall m: nat | LiveOnLine(t, line, row.key, row.episode, m)
        ensures m == n || Precedes(t.revisions[row.key], n, m)
      {
        var member := Member(t.revisions[row.key], row.episode, m);
      }
      assert Categorizes(t, line, row.key, row.episode, n);
      assert AssociatedBy(t, row.key, n) == row;
    }
  }

  lemma FirstLive(t: Tables, line: string, row: Associated, n: nat)
    requires row.key in t.revisions && n in t.revisions[row.key] && row == AssociatedBy(t, row.key, n)
    requires Categorizes(t, line, row.key, EpisodeNumber(t.revisions[row.key], n), n)
    ensures CategorizedBy(t, line, row, n)
  {
    var revisions := t.revisions[row.key];
    assert row == AssociatedBy(t, row.key, n) && LiveOnLine(t, line, row.key, row.episode, n);
    forall m: nat | m in revisions && EpisodeNumber(revisions, m) == row.episode
                    && (row.key, m, line) in t.lines && !revisions[m].hash.deleted
      ensures revisions[n].firstSeen < revisions[m].firstSeen
           || (revisions[n].firstSeen == revisions[m].firstSeen && n <= m)
    {
      var live := LiveOnLine(t, line, row.key, row.episode, m);
      assert live;
    }
  }

  lemma AssociatedHasEpisode(t: Tables, line: string, row: Associated)
    requires row in AssociatedWith(t, line)
    ensures (row.key, row.episode) in EpisodeTable(t)
    ensures row.key in t.revisions
    ensures IsEpisode(t.revisions[row.key], row.episode, EpisodeTable(t)[(row.key, row.episode)])
  {
    var n :| row.key in t.revisions && n in t.revisions[row.key] && row == AssociatedBy(t, row.key, n);
    assert row == AssociatedBy(t, row.key, n);
    assert Member(t.revisions[row.key], row.episode, n);
    assert row.episode in EpisodeRows(t.revisions[row.key]);
  }

  /** The join adds to every associated episode the one row it has in the view, and drops none. */
  lemma JoinIsOneToOne(t: Tables, line: string, from: Time, to: Time)
    ensures forall item <- Items(t, line) ::
      && item.associated in AssociatedWith(t, line) && item.associated.key in t.revisions
      && IsEpisode(t.revisions[item.associated.key], item.associated.episode, item.life)
    ensures forall row <- AssociatedWith(t, line) :: exists item <- Items(t, line) :: item.associated == row
    ensures forall a <- Items(t, line), b <- Items(t, line) :: a.associated == b.associated ==> a == b
    ensures |InWindow(Items(t, line), from, to)| == |Within(AssociatedWith(t, line), from, to)|
  {
    forall row <- AssociatedWith(t, line)
      ensures row.key in t.revisions && (row.key, row.episode) in EpisodeTable(t)
      ensures IsEpisode(t.revisions[row.key], row.episode, EpisodeTable(t)[(row.key, row.episode)])
      ensures exists item <- Items(t, line) :: item.associated == row
    {
      AssociatedHasEpisode(t, line, row);
      assert Item(row, EpisodeTable(t)[(row.key, row.episode)]) in Items(t, line);
    }
    var items, rows := InWindow(Items(t, line), from, to), Within(AssociatedWith(t, line), from, to);
    var f := (item: Item) => item.associated;
    forall row <- rows ensures exists item <- items :: f(item) == row {
      var item :| item in Items(t, line) && item.associated == row;
      assert item in items;
    }
    SameSize(items, rows, f);
  }

  // ---- Counting groups ----

  function Fiber<I(==), G(==)>(items: set<I>, f: I -> G, g: G): set<I> {
    set item | item in items && f(item) == g
  }

  function SumOfFibers<I(==), G(==)>(items: set<I>, f: I -> G, groups: seq<G>): nat {
    if groups == [] then 0
    else SumOfFibers(items, f, groups[..|groups| - 1]) + |Fiber(items, f, groups[|groups| - 1])|
  }

  lemma {:induction false} FibersAddUp<I, G>(items: set<I>, f: I -> G, groups: seq<G>)
    requires Distinct(groups)
    ensures SumOfFibers(items, f, groups) == |set item | item in items && f(item) in groups|
  {
    if groups == [] {
      assert (set item | item in items && f(item) in groups) == {};
    } else {
      var before, last := groups[..|groups| - 1], groups[|groups| - 1];
      FibersAddUp(items, f, before);
      var part := set item | item in items && f(item) in before;
      assert groups == before + [last];
      assert part !! Fiber(items, f, last);
      assert (set item | item in items && f(item) in groups) == part + Fiber(items, f, last);
    }
  }

  /** A grouping whose groups cover all items counts every item once. */
  lemma GroupsConserve<I, G>(items: set<I>, f: I -> G, groups: seq<G>)
    requires Distinct(groups) && forall item <- items :: f(item) in groups
    ensures SumOfFibers(items, f, groups) == |items|
  {
    FibersAddUp(items, f, groups);
    assert (set item | item in items && f(item) in groups) == items;
  }

  // ---- The series ----

  datatype Point = Point(startsAt: Time, alertCount: nat, completedCount: nat, medianLifetime: Option<real>)

  /** percentile_cont over the lifetimes of the completed episodes; none for no episode. */
  type Median = f: set<Item> -> Option<real> | f({}) == None witness items => None

  function Completed(items: set<Item>): set<Item> {
    set item | item in items && item.life.closedAt.Some?
  }

  function BucketOf(interval: Interval): Item -> Time {
    (item: Item) => StartOf(interval, item.associated.at)
  }

  function Aggregate(median: Median, start: Time, group: set<Item>): Point {
    Point(start, |group|, |Completed(group)|, median(Completed(group)))
  }

  /** The detail form: every bucket, left-joined with the aggregate of its group. */
  function DetailSeries(median: Median, items: set<Item>, interval: Interval, from: Time, to: Time):
    (series: seq<Point>)
    ensures |series| == |SqlBuckets(interval, from, to)|
    ensures forall i :: 0 <= i < |series| ==>
      series[i] == Aggregate(median, SqlBuckets(interval, from, to)[i],
                             Fiber(items, BucketOf(interval), SqlBuckets(interval, from, to)[i]))
  {
    var buckets := SqlBuckets(interval, from, to);
    seq(|buckets|, i requires 0 <= i < |buckets| =>
      Aggregate(median, buckets[i], Fiber(items, BucketOf(interval), buckets[i])))
  }

  function Counted(series: seq<Point>): nat {
    if series == [] then 0 else Counted(series[..|series| - 1]) + series[|series| - 1].alertCount
  }

  lemma {:induction false} CountedIsSum(items: set<Item>, interval: Interval, series: seq<Point>, buckets: seq<Time>)
    requires |series| == |buckets|
    requires forall i :: 0 <= i < |series| ==>
      series[i].alertCount == |Fiber(items, BucketOf(interval), buckets[i])|
    ensures Counted(series) == SumOfFibers(items, BucketOf(interval), buckets)
  {
    if series != [] { CountedIsSum(items, interval, series[..|series| - 1], buckets[..|series| - 1]); }
  }

  /** The counts of the series add up to the number of episodes first seen in the window. */
  lemma SeriesConserves(median: Median, items: set<Item>, interval: Interval, from: Time, to: Time)
    requires forall item <- items :: from <= item.associated.at < to
    ensures Counted(DetailSeries(median, items, interval, from, to)) == |items|
  {
    var buckets := SqlBuckets(interval, from, to);
    BucketsPartition(interval, from, to);
    CountedIsSum(items, interval, DetailSeries(median, items, interval, from, to), buckets);
    GroupsConserve(items, BucketOf(interval), buckets);
  }

  /** What a point of the series says: how many of the items in its bucket, how many of those closed, and the median
      of the closed ones. */
  ghost predicate SaysOf(point: Point, median: Median, items: set<Item>, start: Time, width: int) {
    && point.startsAt == start
    && point.alertCount == |set item | item in items && start <= item.associated.at < start + width|
    && point.completedCount ==
         |set item | item in items && start <= item.associated.at < start + width && item.life.closedAt.Some?|
    && point.medianLifetime ==
         median(set item | item in items && start <= item.associated.at < start + width && item.life.closedAt.Some?)
  }

  ghost predicate SeriesSays(series: seq<Point>, median: Median, items: set<Item>, interval: Interval, from: Time,
                             to: Time) {
    && |series| == |SqlBuckets(interval, from, to)|
    && forall i :: 0 <= i < |series| ==>
         SaysOf(series[i], median, items, SqlBuckets(interval, from, to)[i], Width(interval))
  }

  lemma DetailSeriesSays(median: Median, items: set<Item>, interval: Interval, from: Time, to: Time)
    ensures SeriesSays(DetailSeries(median, items, interval, from, to), median, items, interval, from, to)
  {
    forall i | 0 <= i < |DetailSeries(median, items, interval, from, to)|
      ensures SaysOf(DetailSeries(median, items, interval, from, to)[i], median, items,
                     SqlBuckets(interval, from, to)[i], Width(interval))
    {
      PointSays(median, items, interval, from, to, i);
    }
  }

  lemma PointSays(median: Median, items: set<Item>, interval: Interval, from: Time, to: Time, i: nat)
    requires i < |DetailSeries(median, items, interval, from, to)|
    ensures SaysOf(DetailSeries(median, items, interval, from, to)[i], median, items,
                   SqlBuckets(interval, from, to)[i], Width(interval))
  {
    var start := SqlBuckets(interval, from, to)[i];
    BucketsPartition(interval, from, to);
    assert start in SqlBuckets(interval, from, to);
    var group := Fiber(items, BucketOf(interval), start);
    assert group == set item | item in items && start <= item.associated.at < start + Width(interval);
    assert Completed(group) ==
      set item | item in items && start <= item.associated.at < start + Width(interval) && item.life.closedAt.Some?;
  }

  // ---- The list form of the series ----

  datatype SeriesRow = SeriesRow(line: string, point: Point)

  /** GROUP BY route_id, starts_at: one row for every line and bucket with an item. */
  ghost predicate GroupedRows(median: Median, items: map<string, set<Item>>, interval: Interval, rows: seq<SeriesRow>) {
    && (forall row <- rows :: row.line in items && RowOf(median, items[row.line], interval, row.point))
    && (forall line, item :: line in items && item in items[line] ==>
          HasRow(rows, line, StartOf(interval, item.associated.at)))
    && (forall i, j :: 0 <= i < j < |rows| ==>
          rows[i].line != rows[j].line || rows[i].point.startsAt != rows[j].point.startsAt)
  }

  predicate HasRow(rows: seq<SeriesRow>, line: string, start: Time) {
    exists i :: 0 <= i < |rows| && rows[i].line == line && rows[i].point.startsAt == start
  }

  predicate RowOf(median: Median, items: set<Item>, interval: Interval, point: Point) {
    var group := Fiber(items, BucketOf(interval), point.startsAt);
    group != {} && point == Aggregate(median, point.startsAt, group)
  }

  function EmptyPoint(start: Time): Point {
    Point(start, 0, 0, None)
  }

  /** What a bucket of a line holds after the rows were merged. */
  function Merged(rows: seq<SeriesRow>, line: string, start: Time): Point {
    if rows == [] then EmptyPoint(start)
    else
      var last := rows[|rows| - 1];
      if last.line == line && last.point.startsAt == start then last.point
      else Merged(rows[..|rows| - 1], line, start)
  }

  lemma {:induction false} MergedFinds(rows: seq<SeriesRow>, line: string, start: Time, i: nat)
    requires i < |rows| && rows[i].line == line && rows[i].point.startsAt == start
    requires forall j, k :: 0 <= j < k < |rows| ==>
      rows[j].line != rows[k].line || rows[j].point.startsAt != rows[k].point.startsAt
    ensures Merged(rows, line, start) == rows[i].point
  {
    if i < |rows| - 1 { MergedFinds(rows[..|rows| - 1], line, start, i); }
  }

  lemma {:induction false} MergedNone(rows: seq<SeriesRow>, line: string, start: Time)
    requires forall row <- rows :: row.line != line || row.point.startsAt != start
    ensures Merged(rows, line, start) == EmptyPoint(start)
  {
    if rows != [] {
      assert rows[|rows| - 1] in rows;
      MergedNone(rows[..|rows| - 1], line, start);
    }
  }

  lemma MergedIsAggregate(median: Median, items: map<string, set<Item>>, interval: Interval, rows: seq<SeriesRow>,
                          line: string, start: Time)
    requires GroupedRows(median, items, interval, rows) && line in items
    ensures Merged(rows, line, start) == Aggregate(median, start, Fiber(items[line], BucketOf(interval), start))
  {
    var group := Fiber(items[line], BucketOf(interval), start);
    if item :| item in group {
      var i :| 0 <= i < |rows| && rows[i].line == line
            && rows[i].point.startsAt == StartOf(interval, item.associated.at);
      MergedFinds(rows, line, start, i);
      assert rows[i] in rows;
    } else {
      assert group == {} && Completed(group) == {};
      forall row <- rows ensures row.line != line || row.point.startsAt != start {
        assert row.line == line ==> RowOf(median, items[line], interval, row.point);
      }
      MergedNone(rows, line, start);
    }
  }

  /** Stores the point in the first bucket that starts with it. */
  method PlacePoint(series: seq<Point>, point: Point) returns (after: seq<Point>)
    ensures |after| == |series|
    ensures Increasing(Starts(series)) ==> forall i :: 0 <= i < |series| ==>
      after[i] == if series[i].startsAt == point.startsAt then point else series[i]
  {
    after := series;
    for index := 0 to |series|
      invariant after == series
      invariant forall i :: 0 <= i < index ==> series[i].startsAt != point.startsAt
    {
      if series[index].startsAt == point.startsAt {
        after := series[index := point];
        assert Starts(series)[index] == point.startsAt;
        assert forall i :: 0 <= i < |series| ==> Starts(series)[i] == series[i].startsAt;
        return;
      }
    }
  }

  function Starts(series: seq<Point>): (starts: seq<Time>)
    ensures |starts| == |series| && forall i :: 0 <= i < |series| ==> starts[i] == series[i].startsAt
  {
    seq(|series|, i requires 0 <= i < |series| => series[i].startsAt)
  }

  /** Every series holds what the rows so far say about its line. */
  ghost predicate MergedSoFar(rows: seq<SeriesRow>, lines: seq<string>, buckets: seq<Time>, results: seq<seq<Point>>) {
    && |results| == |lines|
    && forall k :: 0 <= k < |lines| ==> MergedSeries(rows, lines[k], buckets, results[k])
  }

  ghost predicate MergedSeries(rows: seq<SeriesRow>, line: string, buckets: seq<Time>, series: seq<Point>) {
    && |series| == |buckets|
    && forall i :: 0 <= i < |buckets| ==>
         series[i] == Merged(rows, line, buckets[i]) && series[i].startsAt == buckets[i]
  }

  predicate EmptySeries(series: seq<Point>, buckets: seq<Time>) {
    |series| == |buckets| && forall i :: 0 <= i < |series| ==> series[i] == EmptyPoint(buckets[i])
  }

  lemma EmptySeriesMerged(line: string, buckets: seq<Time>, series: seq<Point>)
    requires EmptySeries(series, buckets)
    ensures MergedSeries([], line, buckets, series)
  {
  }

  lemma OtherLineMerged(rows: seq<SeriesRow>, row: SeriesRow, line: string, buckets: seq<Time>, series: seq<Point>)
    requires MergedSeries(rows, line, buckets, series) && row.line != line
    ensures MergedSeries(rows + [row], line, buckets, series)
  {
    assert (rows + [row])[..|rows|] == rows;
  }

  lemma LineMerged(rows: seq<SeriesRow>, row: SeriesRow, buckets: seq<Time>, before: seq<Point>, after: seq<Point>)
    requires MergedSeries(rows, row.line, buckets, before) && |after| == |before|
    requires forall i :: 0 <= i < |before| ==>
      after[i] == if before[i].startsAt == row.point.startsAt then row.point else before[i]
    ensures MergedSeries(rows + [row], row.line, buckets, after)
  {
    assert (rows + [row])[..|rows|] == rows;
  }

  /** The Go loop over the rows of the list query: each goes to the bucket of its line that starts with it. No
      row is lost, and the series of every line is that of the detail form. */
  method QueryLineAnalyticsSeries(lines: seq<string>, rows: seq<SeriesRow>, indexes: map<string, nat>,
                                  results: array<seq<Point>>, ghost median: Median, ghost items: map<string, set<Item>>,
                                  interval: Interval, from: Time, to: Time)
    requires results.Length == |lines| && forall line :: line in indexes <==> line in lines
    requires forall line <- indexes :: indexes[line] < |lines| && lines[indexes[line]] == line
    requires forall k :: 0 <= k < |lines| ==> indexes[lines[k]] == k
    requires forall line :: line in items <==> line in lines
    requires forall line <- items, item <- items[line] :: from <= item.associated.at < to
    requires GroupedRows(median, items, interval, rows)
    requires forall k :: 0 <= k < |lines| ==> EmptySeries(results[k], SqlBuckets(interval, from, to))
    modifies results
    ensures forall k :: 0 <= k < |lines| ==> results[k] == DetailSeries(median, items[lines[k]], interval, from, to)
    ensures forall k :: 0 <= k < |lines| ==> Counted(results[k]) == |items[lines[k]]|
    ensures forall k :: 0 <= k < |lines| ==> SeriesSays(results[k], median, items[lines[k]], interval, from, to)
  {
    ghost var buckets, done := SqlBuckets(interval, from, to), [];
    BucketsPartition(interval, from, to);
    forall k | 0 <= k < |lines| ensures MergedSeries([], lines[k], buckets, results[k]) {
      EmptySeriesMerged(lines[k], buckets, results[k]);
    }
    for i := 0 to |rows|
      invariant done == rows[..i] && MergedSoFar(done, lines, buckets, results[..])
    {
      var row := rows[i];
      assert row in rows;
      var k := indexes[row.line];
      MergeRow(done, row, lines, indexes, buckets, results);
      PrefixNext(rows, i);
      done := done + [row];
    }
    assert done == rows;
    forall k | 0 <= k < |lines|
      ensures results[k] == DetailSeries(median, items[lines[k]], interval, from, to)
      ensures Counted(results[k]) == |items[lines[k]]|
      ensures SeriesSays(results[k], median, items[lines[k]], interval, from, to)
    {
      SeriesIsDetail(median, items, interval, from, to, rows, lines[k], results[..][k]);
      SeriesConserves(median, items[lines[k]], interval, from, to);
      DetailSeriesSays(median, items[lines[k]], interval, from, to);
    }
  }

  /** One row of the list query. */
  method MergeRow(ghost done: seq<SeriesRow>, row: SeriesRow, lines: seq<string>, indexes: map<string, nat>,
                  ghost buckets: seq<Time>, results: array<seq<Point>>)
    requires results.Length == |lines| && row.line in indexes && indexes[row.line] < |lines|
    requires forall k :: 0 <= k < |lines| ==> (lines[k] == row.line <==> k == indexes[row.line])
    requires Increasing(buckets) && MergedSoFar(done, lines, buckets, results[..])
    modifies results
    ensures MergedSoFar(done + [row], lines, buckets, results[..])
  {
    var k := indexes[row.line];
    ghost var before := results[..];
    assert MergedSeries(done, lines[k], buckets, before[k]);
    assert Starts(results[k]) == buckets;
    var series := PlacePoint(results[k], row.point);
    LineMerged(done, row, buckets, before[k], series);
    results[k] := series;
    forall j | 0 <= j < |lines| ensures MergedSeries(done + [row], lines[j], buckets, results[..][j]) {
      assert MergedSeries(done, lines[j], buckets, before[j]);
      if j != k { OtherLineMerged(done, row, lines[j], buckets, before[j]); }
    }
  }

  lemma SeriesIsDetail(median: Median, items: map<string, set<Item>>, interval: Interval, from: Time, to: Time,
                       rows: seq<SeriesRow>, line: string, series: seq<Point>)
    requires GroupedRows(median, items, interval, rows) && line in items
    requires MergedSeries(rows, line, SqlBuckets(interval, from, to), series)
    ensures series == DetailSeries(median, items[line], interval, from, to)
  {
    forall i | 0 <= i < |series|
      ensures series[i] == DetailSeries(median, items[line], interval, from, to)[i]
    {
      MergedIsAggregate(median, items, interval, rows, line, SqlBuckets(interval, from, to)[i]);
    }
  }

  // ---- The breakdowns ----

  datatype Category = Cause | Effect

  datatype Breakdown = Breakdown(value: string, count: nat)

  function Raw(category: Category): Associated -> Option<string> {
    (row: Associated) => match category case Cause => row.cause case Effect => row.effect
  }

  /** COALESCE(value, 'UNSPECIFIED') */
  function Label(): Option<string> -> string {
    (value: Option<string>) => if value.Some? then value.value else UNSPECIFIED
  }

  function Labelled(category: Category): Associated -> string {
    (row: Associated) => Label()(Raw(category)(row))
  }

  /** One group for every value of `f` that occurs. */
  ghost predicate GroupsBy<I, G(!new)>(items: set<I>, f: I -> G, groups: seq<G>) {
    Distinct(groups) && forall g :: g in groups <==> exists item <- items :: f(item) == g
  }

  /** The result rows of the groups: SELECT name, count(*). */
  function Tally<I(==), G(==)>(items: set<I>, f: I -> G, name: G -> string, groups: seq<G>): (rows: seq<Breakdown>)
    ensures |rows| == |groups|
    ensures forall i :: 0 <= i < |rows| ==> rows[i] == Breakdown(name(groups[i]), |Fiber(items, f, groups[i])|)
  {
    seq(|groups|, i requires 0 <= i < |groups| => Breakdown(name(groups[i]), |Fiber(items, f, groups[i])|))
  }

  /** ORDER BY count(*) DESC, value; `before` is the collation of the database. */
  function MoreFirst(before: (string, string) -> bool): (Breakdown, Breakdown) -> bool {
    (a: Breakdown, b: Breakdown) => a.count > b.count || (a.count == b.count && before(a.value, b.value))
  }

  lemma MoreFirstOrdered(before: (string, string) -> bool)
    requires StrictTotal(before)
    ensures StrictTotal(MoreFirst(before))
  {
    var less := MoreFirst(before);
    forall a: Breakdown, b: Breakdown ensures !less(a, a) && (a == b || less(a, b) || less(b, a)) {
      assert !before(a.value, a.value);
      assert a.value == b.value || before(a.value, b.value) || before(b.value, a.value);
    }
    forall a: Breakdown, b: Breakdown, c: Breakdown | less(a, b) && less(b, c) ensures less(a, c) {
      assert before(a.value, b.value) && before(b.value, c.value) ==> before(a.value, c.value);
    }
  }

  /** The breakdown of the detail form: GROUP BY COALESCE(value, 'UNSPECIFIED'). */
  ghost predicate DetailBreakdown(before: (string, string) -> bool, items: set<Associated>, category: Category,
                                  rows: seq<Breakdown>) {
    exists labels :: DetailGroups(before, items, category, labels, rows)
  }

  ghost predicate DetailGroups(before: (string, string) -> bool, items: set<Associated>, category: Category,
                               labels: seq<string>, rows: seq<Breakdown>) {
    && GroupsBy(items, Labelled(category), labels)
    && rows == Tally(items, Labelled(category), (text: string) => text, labels) && Sorted(MoreFirst(before), rows)
  }

  /** The breakdown of the list form: GROUP BY value, absence included. */
  ghost predicate ListBreakdown(before: (string, string) -> bool, items: set<Associated>, category: Category,
                                rows: seq<Breakdown>) {
    exists values :: ListGroups(before, items, category, values, rows)
  }

  ghost predicate ListGroups(before: (string, string) -> bool, items: set<Associated>, category: Category,
                             values: seq<Option<string>>, rows: seq<Breakdown>) {
    && GroupsBy(items, Raw(category), values)
    && rows == Tally(items, Raw(category), Label(), values) && Sorted(MoreFirst(before), rows)
  }

  function Total(rows: seq<Breakdown>): nat {
    if rows == [] then 0 else Total(rows[..|rows| - 1]) + rows[|rows| - 1].count
  }

  lemma {:induction false} TotalIsSum<I, G>(items: set<I>, f: I -> G, name: G -> string, groups: seq<G>)
    ensures Total(Tally(items, f, name, groups)) == SumOfFibers(items, f, groups)
  {
    if groups != [] {
      var n := |groups| - 1;
      TotalIsSum(items, f, name, groups[..n]);
      assert Tally(items, f, name, groups)[..n] == Tally(items, f, name, groups[..n]);
    }
  }

  lemma TallyConserves<I, G(!new)>(items: set<I>, f: I -> G, name: G -> string, groups: seq<G>)
    requires GroupsBy(items, f, groups)
    ensures Total(Tally(items, f, name, groups)) == |items|
  {
    forall item <- items ensures f(item) in groups {
      assert f(item) == f(item);
    }
    GroupsConserve(items, f, groups);
    TotalIsSum(items, f, name, groups);
  }

  /** In either form, and for cause as for effect, the counts add up to the number of episodes. */
  lemma BreakdownsConserve(before: (string, string) -> bool, items: set<Associated>, category: Category,
                           detail: seq<Breakdown>, list: seq<Breakdown>)
    requires DetailBreakdown(before, items, category, detail) && ListBreakdown(before, items, category, list)
    ensures Total(detail) == Total(list) == |items|
  {
    var labels :| DetailGroups(before, items, category, labels, detail);
    var values :| ListGroups(before, items, category, values, list);
    TallyConserves(items, Labelled(category), (text: string) => text, labels);
    TallyConserves(items, Raw(category), Label(), values);
  }

  /** The rows of a breakdown, in the detail form: the episodes with a label's value, or without one, and how many
      they are; more frequent labels come first. */
  lemma DetailSays(before: (string, string) -> bool, items: set<Associated>, category: Category, rows: seq<Breakdown>)
    requires DetailBreakdown(before, items, category, rows)
    ensures forall row <- rows :: row.count == |Of(items, category, row.value)| && row.count > 0
    ensures forall item <- items :: exists row <- rows :: item in Of(items, category, row.value)
    ensures forall i, j :: 0 <= i < j < |rows| ==>
      && rows[i].value != rows[j].value && rows[i].count >= rows[j].count
      && (rows[i].count == rows[j].count ==> !before(rows[j].value, rows[i].value))
  {
    var labels :| DetailGroups(before, items, category, labels, rows);
    forall row <- rows ensures row.count == |Of(items, category, row.value)| && row.count > 0 {
      var i :| 0 <= i < |rows| && rows[i] == row;
      assert labels[i] in labels;
      var item :| item in items && Labelled(category)(item) == labels[i];
      OfIsFiber(items, category, row.value);
      assert item in Of(items, category, row.value);
    }
    forall item <- items ensures exists row <- rows :: item in Of(items, category, row.value) {
      assert Labelled(category)(item) in labels;
      var i :| 0 <= i < |labels| && labels[i] == Labelled(category)(item);
      OfIsFiber(items, category, rows[i].value);
      assert rows[i] in rows;
    }
    forall i, j | 0 <= i < j < |rows|
      ensures rows[i].value != rows[j].value && rows[i].count >= rows[j].count
      ensures rows[i].count == rows[j].count ==> !before(rows[j].value, rows[i].value)
    {
      assert !MoreFirst(before)(rows[j], rows[i]);
    }
  }

  /** The episodes with a cause, or with an effect, of this text; those without one come under UNSPECIFIED. */
  function Of(items: set<Associated>, category: Category, text: string): set<Associated> {
    match category
    case Cause => set row | row in items && (row.cause == Some(text) || (row.cause.None? && text == "UNSPECIFIED"))
    case Effect => set row | row in items && (row.effect == Some(text) || (row.effect.None? && text == "UNSPECIFIED"))
  }

  lemma OfIsFiber(items: set<Associated>, category: Category, text: string)
    ensures Of(items, category, text) == Fiber(items, Labelled(category), text)
  {
    forall row <- items ensures row in Of(items, category, text) <==> Labelled(category)(row) == text {
      match category {
        case Cause =>
          assert Raw(category)(row) == row.cause;
          assert Labelled(category)(row) == Label()(row.cause);
        case Effect =>
          assert Raw(category)(row) == row.effect;
          assert Labelled(category)(row) == Label()(row.effect);
      }
    }
  }

  /** For every line, window and interval: the counts of the series, whose query joins alert_episodes, and those of
      both breakdowns in both forms, whose queries do not, all add up to the number of the line's episodes first seen
      live on it in the window. */
  lemma LineConserves(t: Tables, line: string, median: Median, interval: Interval, from: Time, to: Time,
                      before: (string, string) -> bool, category: Category,
                      detail: seq<Breakdown>, list: seq<Breakdown>)
    requires DetailBreakdown(before, Within(AssociatedWith(t, line), from, to), category, detail)
    requires ListBreakdown(before, Within(AssociatedWith(t, line), from, to), category, list)
    ensures Counted(DetailSeries(median, InWindow(Items(t, line), from, to), interval, from, to))
         == Total(detail) == Total(list) == |Within(AssociatedWith(t, line), from, to)|
  {
    SeriesConserves(median, InWindow(Items(t, line), from, to), interval, from, to);
    JoinIsOneToOne(t, line, from, to);
    BreakdownsConserve(before, Within(AssociatedWith(t, line), from, to), category, detail, list);
  }

  // ---- The two forms of a breakdown ----

  /** Some episode has no value and another has the literal label for that. */
  ghost predicate Mixed(items: set<Associated>, category: Category) {
    && (exists row <- items :: Raw(category)(row) == None)
    && (exists row <- items :: Raw(category)(row) == Some(UNSPECIFIED))
  }

  lemma SameFiber(items: set<Associated>, category: Category, row: Associated)
    requires row in items && !Mixed(items, category)
    ensures Fiber(items, Raw(category), Raw(category)(row)) == Fiber(items, Labelled(category), Labelled(category)(row))
  {
  }

  ghost predicate DistinctNames(rows: seq<Breakdown>) {
    forall i, j :: 0 <= i < j < |rows| ==> rows[i].value != rows[j].value
  }

  /** Where labels tell values apart, the list form gives every label one row. */
  lemma ListNamesDistinct(before: (string, string) -> bool, items: set<Associated>, category: Category,
                          values: seq<Option<string>>, rows: seq<Breakdown>)
    requires ListGroups(before, items, category, values, rows)
    ensures DistinctNames(rows) <==> !Mixed(items, category)
  {
    if Mixed(items, category) {
      assert None in values && Some(UNSPECIFIED) in values;
      var i :| 0 <= i < |values| && values[i] == None;
      var j :| 0 <= j < |values| && values[j] == Some(UNSPECIFIED);
      assert rows[i].value == rows[j].value;
    } else {
      forall i, j | 0 <= i < j < |rows| ensures rows[i].value != rows[j].value {
        assert values[i] in values && values[j] in values;
      }
    }
  }

  /** Both forms have a row for an occurring value. */
  lemma RowsAlike(before: (string, string) -> bool, items: set<Associated>, category: Category,
                  labels: seq<string>, detail: seq<Breakdown>, values: seq<Option<string>>, list: seq<Breakdown>,
                  row: Breakdown)
    requires DetailGroups(before, items, category, labels, detail) && ListGroups(before, items, category, values, list)
    requires !Mixed(items, category)
    ensures row in detail <==> row in list
  {
    if row in detail {
      var i :| 0 <= i < |detail| && detail[i] == row;
      assert labels[i] in labels;
      var item :| item in items && Labelled(category)(item) == labels[i];
      SameFiber(items, category, item);
      assert Raw(category)(item) in values;
      var j :| 0 <= j < |values| && values[j] == Raw(category)(item);
      assert list[j] == row;
    }
    if row in list {
      var j :| 0 <= j < |list| && list[j] == row;
      assert values[j] in values;
      var item :| item in items && Raw(category)(item) == values[j];
      SameFiber(items, category, item);
      assert Labelled(category)(item) in labels;
      var i :| 0 <= i < |labels| && labels[i] == Labelled(category)(item);
      assert detail[i] == row;
    }
  }

  /** Both forms return the same rows in the same order exactly when the window does not mix episodes without a value
      and episodes with the literal label. */
  lemma BreakdownsAgreeExactly(before: (string, string) -> bool, items: set<Associated>, category: Category,
                               detail: seq<Breakdown>, list: seq<Breakdown>)
    requires StrictTotal(before)
    requires DetailBreakdown(before, items, category, detail) && ListBreakdown(before, items, category, list)
    ensures detail == list <==> !Mixed(items, category)
  {
    var labels :| DetailGroups(before, items, category, labels, detail);
    var values :| ListGroups(before, items, category, values, list);
    ListNamesDistinct(before, items, category, values, list);
    assert DistinctNames(detail);
    if !Mixed(items, category) {
      MoreFirstOrdered(before);
      SortedOnce(MoreFirst(before), detail, detail);
      SortedOnce(MoreFirst(before), list, list);
      forall row ensures row in detail <==> row in list {
        RowsAlike(before, items, category, labels, detail, values, list, row);
      }
      ListingIsUnique(MoreFirst(before), detail, list);
    }
  }

  /** The stored revisions come from decoded alerts. */
  ghost predicate AllNamed(t: Tables) {
    forall key, n: nat :: key in t.revisions && n in t.revisions[key] ==> Named(t.revisions[key][n].body)
  }

  ghost predicate NamedFeed(feed: Applied) {
    forall entity <- feed.content :: Named(feed.content[entity].alert)
  }

  /** The revisions that decoded feeds lead to say what decoding made of cause and effect. */
  lemma RevisionsAreNamed(history: History, entity: string, n: nat)
    requires forall feed <- history :: NamedFeed(feed)
    requires n in Numbered(Replay(history, entity))
    ensures Named(Numbered(Replay(history, entity))[n].body)
  {
    ChainIsRunLengthEncoding(history, entity);
    var span := Spans(history, entity)[n - 1];
    assert Records(history, entity, span, Replay(history, entity)[n - 1]);
    assert history[span.start] in history;
  }

  /** Decoding never yields the label of an absent value, so for every line and window both forms return the same
      rows in the same order. */
  lemma BreakdownsAgree(before: (string, string) -> bool, t: Tables, line: string, from: Time, to: Time,
                        category: Category, detail: seq<Breakdown>, list: seq<Breakdown>)
    requires StrictTotal(before) && AllNamed(t)
    requires DetailBreakdown(before, Within(AssociatedWith(t, line), from, to), category, detail)
    requires ListBreakdown(before, Within(AssociatedWith(t, line), from, to), category, list)
    ensures detail == list
  {
    var items := Within(AssociatedWith(t, line), from, to);
    forall row <- items ensures Raw(category)(row) != Some(UNSPECIFIED) {
      var n :| row.key in t.revisions && n in t.revisions[row.key] && row == AssociatedBy(t, row.key, n);
      assert row == AssociatedBy(t, row.key, n);
      NeverUnspecified(t.revisions[row.key][n].body);
    }
    BreakdownsAgreeExactly(before, items, category, detail, list);
  }
}
