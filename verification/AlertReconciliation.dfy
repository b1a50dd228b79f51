/** Reconciliation of full-dataset alert feeds with the alert tables (internal/database/alerts.go).

    Every CompleteAlertRun holds one advisory lock for its whole transaction, so each call is one step and
    any sequence of calls, in any order and for any mix of sources and runs, is a run of the system. */
module AlertReconciliation {
  import opened Common
  import opened AlertContent
  import opened AlertHistory

  /** A row of ingestion_runs. */
  datatype Run = Run(
    source: string, status: RunStatus, archive: ArchiveStatus, retrievedAt: Option<Time>,
    feedTimestamp: Option<Time>, payload: Option<Digest>, applied: bool, skipCode: Option<SkipCode>)

  datatype AlertKey = AlertKey(source: string, entity: string)

  /** A row of service_alerts together with its rows of service_alert_revisions, which are unique by number. */
  datatype AlertRow = AlertRow(
    firstSeen: Time, lastSeen: Time, firstRun: int, lastRun: int, isPresent: bool, closedAt: Option<Time>,
    current: Option<nat>, revisions: map<nat, Revision>)

  datatype FeedSummary = FeedSummary(fullDataset: bool, timestamp: Option<nat>, alerts: seq<AlertSummary>)

  // ---- What a feed amounts to ----

  /** None when a timestamp does not fit the tables. */
  function ObservationTime(timestamp: Option<nat>, retrievedAt: Time): Option<Time> {
    match timestamp
    case None => Some(retrievedAt)
    case Some(seconds) => if seconds > MAX_INT64 then None else Some(seconds * MICROS_PER_SECOND)
  }

  function ContentOf(alerts: seq<AlertSummary>): map<string, Sighting> {
    if alerts == [] then map[]
    else ContentOf(alerts[..|alerts| - 1])[alerts[|alerts| - 1].entityId := Hashed(alerts[|alerts| - 1])]
  }

  ghost predicate DistinctIds(alerts: seq<AlertSummary>) {
    forall i, j :: 0 <= i < j < |alerts| ==> alerts[i].entityId != alerts[j].entityId
  }

  /** The feeds whose every alert the tables accept. */
  ghost predicate Acceptable(alerts: seq<AlertSummary>) {
    && DistinctIds(alerts)
    && forall alert <- alerts :: Storable(alert) && Hashable(alert)
  }

  lemma {:induction false} ContentOfDistinct(alerts: seq<AlertSummary>, i: nat)
    requires DistinctIds(alerts) && i < |alerts|
    ensures alerts[i].entityId in ContentOf(alerts)
    ensures ContentOf(alerts)[alerts[i].entityId] == Hashed(alerts[i])
  {
    var n := |alerts| - 1;
    if i < n { ContentOfDistinct(alerts[..n], i); }
  }

  lemma {:induction false} WhichAlert(alerts: seq<AlertSummary>, entity: string) returns (i: nat)
    requires entity in ContentOf(alerts)
    ensures i < |alerts| && alerts[i].entityId == entity
  {
    if alerts[|alerts| - 1].entityId == entity { i := |alerts| - 1; }
    else { i := WhichAlert(alerts[..|alerts| - 1], entity); }
  }

  lemma SameAlertSameContent(a: seq<AlertSummary>, b: seq<AlertSummary>, entity: string)
    requires multiset(a) == multiset(b) && DistinctIds(a) && DistinctIds(b) && entity in ContentOf(a)
    ensures entity in ContentOf(b) && ContentOf(a)[entity] == ContentOf(b)[entity]
  {
    var i := WhichAlert(a, entity);
    assert a[i] in multiset(a);
    var j :| 0 <= j < |b| && b[j] == a[i];
    ContentOfDistinct(a, i);
    ContentOfDistinct(b, j);
  }

  /** A feed's alerts may come in any order. */
  lemma ContentIgnoresOrder(a: seq<AlertSummary>, b: seq<AlertSummary>)
    requires multiset(a) == multiset(b) && DistinctIds(a) && DistinctIds(b)
    ensures ContentOf(a) == ContentOf(b)
  {
    forall entity <- ContentOf(a)
      ensures entity in ContentOf(b) && ContentOf(a)[entity] == ContentOf(b)[entity]
    {
      SameAlertSameContent(a, b, entity);
    }
    forall entity <- ContentOf(b) ensures entity in ContentOf(a) {
      SameAlertSameContent(b, a, entity);
    }
  }

  // ---- What the tables must hold ----

  /** The chain as rows keyed by revision number. */
  function Numbered(chain: seq<Revision>): (rows: map<nat, Revision>)
    ensures forall n: nat :: n in rows <==> 1 <= n <= |chain|
    ensures forall n: nat :: n in rows ==> rows[n] == chain[n - 1]
  {
    if chain == [] then map[] else Numbered(chain[..|chain| - 1])[|chain| := chain[|chain| - 1]]
  }

  /** The row agrees with its revisions, which are numbered 1, 2, ... without gaps. */
  ghost predicate Stores(row: AlertRow, chain: seq<Revision>)
    requires chain != []
  {
    var last := chain[|chain| - 1];
    && row.revisions == Numbered(chain)
    && row.current == Some(|chain|)
    && (row.isPresent <==> IsOpen(chain))
    && row.closedAt == last.closedAt
    && row.firstSeen == chain[0].firstSeen && row.firstRun == chain[0].openedRun
    && row.lastSeen == last.lastSeen
  }

  /** The alert has been seen, and its row replays the applied feeds; or it has no row. */
  ghost predicate Represents(row: Option<AlertRow>, history: History, entity: string) {
    var chain := Replay(history, entity);
    if chain == [] then row == None
    else row.Some? && Stores(row.value, chain) && LastSeenRun(history, entity) == Some(row.value.lastRun)
  }

  function RowAt(alerts: map<AlertKey, AlertRow>, key: AlertKey): Option<AlertRow> {
    if key in alerts then Some(alerts[key]) else None
  }

  function HistoryOf(histories: map<string, History>, source: string): History {
    if source in histories then histories[source] else []
  }

  /** The alert tables are the replay of what was applied, source by source. */
  ghost predicate Replayed(alerts: map<AlertKey, AlertRow>, histories: map<string, History>) {
    forall key: AlertKey :: Represents(RowAt(alerts, key), HistoryOf(histories, key.source), key.entity)
  }

  predicate IsApplied(run: Run, source: string) {
    run.source == source && run.status == Succeeded && run.applied
  }

  function RunObserved(run: Run): Option<Time> {
    if run.feedTimestamp.Some? then run.feedTimestamp else run.retrievedAt
  }

  predicate RecordsFeed(run: Run, feed: Applied) {
    && RunObserved(run) == Some(feed.observedAt)
    && run.retrievedAt == Some(feed.retrievedAt)
    && run.payload == Some(feed.payload)
  }

  ghost predicate AppliedBy(history: History, id: int) {
    exists p :: 0 <= p < |history| && history[p].run == id
  }

  /** The applied runs of a source are exactly the runs of its history, which is in order. */
  ghost predicate RunsMatch(runs: map<int, Run>, history: History, source: string) {
    && Ordered(history)
    && (forall p :: 0 <= p < |history| ==>
          && history[p].run in runs && IsApplied(runs[history[p].run], source)
          && RecordsFeed(runs[history[p].run], history[p]))
    && (forall id <- runs :: IsApplied(runs[id], source) ==> AppliedBy(history, id))
    && (forall p, q :: 0 <= p < q < |history| ==> history[p].run != history[q].run)
  }

  /** ORDER BY observation, retrieval, id. */
  predicate LatestFirst(a: Applied, b: Applied) {
    a.observedAt > b.observedAt
    || (a.observedAt == b.observedAt
        && (a.retrievedAt > b.retrievedAt || (a.retrievedAt == b.retrievedAt && a.run >= b.run)))
  }

  /** The feed that latestAppliedFeed selects. */
  ghost predicate IsLatest(history: History, p: int) {
    0 <= p < |history| && forall q :: 0 <= q < |history| ==> LatestFirst(history[p], history[q])
  }

  ghost predicate Selects(history: History, id: int) {
    exists p :: IsLatest(history, p) && history[p].run == id
  }

  /** Selection by time always finds the times of the feed applied last, whichever run it picks. */
  lemma LatestHasLastTimes(history: History, p: nat)
    requires Ordered(history) && IsLatest(history, p)
    ensures history[p].observedAt == history[|history| - 1].observedAt
    ensures history[p].retrievedAt == history[|history| - 1].retrievedAt
  {
    assert NotOlder(history[p], history[|history| - 1]);
    assert LatestFirst(history[p], history[|history| - 1]);
  }

  /** It picks the run applied last exactly when no run with the same two times has a larger id. */
  lemma LatestIsLastApplied(history: History, p: nat)
    requires Ordered(history) && IsLatest(history, p)
    requires forall i, j :: 0 <= i < j < |history| ==> history[i].run != history[j].run
    ensures p == |history| - 1 <==>
            forall q :: 0 <= q < |history|
                        && history[q].observedAt == history[|history| - 1].observedAt
                        && history[q].retrievedAt == history[|history| - 1].retrievedAt
                        ==> history[q].run <= history[|history| - 1].run
  {
    LatestHasLastTimes(history, p);
    var last := |history| - 1;
    assert LatestFirst(history[p], history[last]);
    if p == last {
      forall q | 0 <= q < |history| && history[q].observedAt == history[last].observedAt
                 && history[q].retrievedAt == history[last].retrievedAt
        ensures history[q].run <= history[last].run
      {
        assert LatestFirst(history[p], history[q]);
      }
    }
  }

  // ---- Row updates ----

  lemma NumberedSet(chain: seq<Revision>, i: nat, revision: Revision)
    requires i < |chain|
    ensures Numbered(chain[i := revision]) == Numbered(chain)[i + 1 := revision]
  {
  }

  lemma NumberedAppend(chain: seq<Revision>, revision: Revision)
    ensures Numbered(chain + [revision]) == Numbered(chain)[|chain| + 1 := revision]
  {
  }

  predicate HasCurrent(row: AlertRow) {
    row.current.Some? && row.current.value in row.revisions
  }

  function Extended(row: AlertRow, run: int, at: Time): AlertRow
    requires HasCurrent(row)
  {
    var current := row.current.value;
    row.(revisions := row.revisions[current := row.revisions[current].(lastSeen := at)],
         lastSeen := at, lastRun := run, closedAt := None)
  }

  function WithCurrentClosed(row: AlertRow, run: int, at: Time): AlertRow
    requires HasCurrent(row)
  {
    var current := row.current.value;
    row.(revisions := row.revisions[current :=
      row.revisions[current].(closedAt := Some(at), closedRun := Some(run))])
  }

  function WithRevision(row: AlertRow, next: nat, revision: Revision, run: int, at: Time): AlertRow {
    row.(revisions := row.revisions[next := revision], lastSeen := at, lastRun := run,
         isPresent := true, closedAt := None, current := Some(next))
  }

  lemma ExtendedStores(row: AlertRow, chain: seq<Revision>, run: int, at: Time)
    requires chain != [] && Stores(row, chain) && IsOpen(chain)
    ensures Stores(Extended(row, run, at), chain[|chain| - 1 := chain[|chain| - 1].(lastSeen := at)])
  {
    NumberedSet(chain, |chain| - 1, chain[|chain| - 1].(lastSeen := at));
  }

  lemma ClosedNumbers(row: AlertRow, chain: seq<Revision>, run: int, at: Time)
    requires chain != [] && Stores(row, chain) && IsOpen(chain)
    ensures WithCurrentClosed(row, run, at).revisions == Numbered(CloseLast(chain, run, at))
  {
    NumberedSet(chain, |chain| - 1, Closed(chain[|chain| - 1], run, at));
  }

  lemma RevisedStores(row: AlertRow, chain: seq<Revision>, seen: Sighting, run: int, at: Time)
    requires chain != [] && row.revisions == Numbered(chain)
    requires row.firstSeen == chain[0].firstSeen && row.firstRun == chain[0].openedRun
    ensures Stores(WithRevision(row, |chain| + 1, Opened(seen, run, at), run, at), chain + [Opened(seen, run, at)])
  {
    NumberedAppend(chain, Opened(seen, run, at));
  }

  /** COALESCE(max(revision_number), 0) + 1 */
  method NextRevisionNumber(revisions: map<nat, Revision>) returns (next: nat)
    ensures forall n <- revisions :: n < next
    ensures next == 1 || next - 1 in revisions
  {
    next := 1;
    var left := revisions.Keys;
    while left != {}
      invariant left <= revisions.Keys
      invariant forall n :: n in revisions && n !in left ==> n < next
      invariant next == 1 || next - 1 in revisions
    {
      var n: nat :| n in left;
      if n >= next { next := n + 1; }
      left := left - {n};
    }
  }

  /** The stored row of a known alert after one more sighting. */
  method ReviseRow(stored: AlertRow, run: int, observedAt: Time, seen: Sighting, ghost chain: seq<Revision>)
    returns (row: AlertRow)
    requires chain != [] && Stores(stored, chain)
    ensures Observe(chain, run, observedAt, Some(seen)) != []
    ensures Stores(row, Observe(chain, run, observedAt, Some(seen))) && row.lastRun == run
  {
    row := stored;
    if row.isPresent {
      var current := row.revisions[row.current.value];
      if current.hash == seen.hash {
        ExtendedStores(row, chain, run, observedAt);
        row := Extended(row, run, observedAt);
        return;
      }
      if current.closedAt.None? {
        ClosedNumbers(row, chain, run, observedAt);
        row := WithCurrentClosed(row, run, observedAt);
      }
    }
    var next := NextRevisionNumber(row.revisions);
    assert next == |chain| + 1 by {
      assert |chain| in row.revisions;
    }
    RevisedStores(row, CloseLast(chain, run, observedAt), seen, run, observedAt);
    row := WithRevision(row, next, Opened(seen, run, observedAt), run, observedAt);
  }

  /** The row after the alert was seen once more. */
  ghost predicate Reconciled(row: Option<AlertRow>, history: History, run: int, at: Time, alert: AlertSummary) {
    var chain := Observe(Replay(history, alert.entityId), run, at, Some(Hashed(alert)));
    row.Some? && chain != [] && Stores(row.value, chain) && row.value.lastRun == run
  }

  lemma SeenRowRepresents(row: Option<AlertRow>, history: History, feed: Applied, alert: AlertSummary)
    requires Reconciled(row, history, feed.run, feed.observedAt, alert)
    requires Observed(feed, alert.entityId) == Some(Hashed(alert))
    ensures Represents(row, history + [feed], alert.entityId)
  {
    ReplayStep(history, feed, alert.entityId);
  }

  lemma MissingRowRepresents(row: AlertRow, history: History, feed: Applied, entity: string)
    requires Represents(Some(row), history, entity) && entity !in feed.content
    ensures row.isPresent ==> HasCurrent(row)
    ensures row.isPresent ==>
      Represents(Some(WithCurrentClosed(row, feed.run, feed.observedAt).(isPresent := false,
        closedAt := Some(feed.observedAt))), history + [feed], entity)
    ensures !row.isPresent ==> Represents(Some(row), history + [feed], entity)
  {
    ReplayStep(history, feed, entity);
    var chain := Replay(history, entity);
    if row.isPresent { ClosedNumbers(row, chain, feed.run, feed.observedAt); }
  }

  lemma UnseenRepresents(history: History, feed: Applied, entity: string)
    requires Represents(None, history, entity) && entity !in feed.content
    ensures Represents(None, history + [feed], entity)
  {
    ReplayStep(history, feed, entity);
  }

  predicate Missing(row: AlertRow, key: AlertKey, source: string, present: seq<string>) {
    key.source == source && row.isPresent && key.entity !in present
  }

  predicate ClosedIfMissing(row: AlertRow, row': AlertRow, key: AlertKey, source: string, run: int, at: Time,
                            present: seq<string>) {
    if !Missing(row, key, source, present) then row' == row
    else
      && HasCurrent(row)
      && row' == WithCurrentClosed(row, run, at).(isPresent := false, closedAt := Some(at))
  }

  function Ids(list: seq<AlertSummary>): seq<string> {
    if list == [] then [] else Ids(list[..|list| - 1]) + [list[|list| - 1].entityId]
  }

  lemma {:induction false} IdsAt(list: seq<AlertSummary>)
    ensures |Ids(list)| == |list|
    ensures forall i :: 0 <= i < |list| ==> Ids(list)[i] == list[i].entityId
  {
    if list != [] { IdsAt(list[..|list| - 1]); }
  }

  lemma {:induction false} IdsAreKeys(list: seq<AlertSummary>)
    ensures forall entity :: entity in ContentOf(list) <==> entity in Ids(list)
  {
    if list != [] { IdsAreKeys(list[..|list| - 1]); }
  }

  /** Every alert of the list has been brought into the tables. */
  ghost predicate AllReconciled(rows: map<AlertKey, AlertRow>, source: string, list: seq<AlertSummary>,
                                history: History, run: int, at: Time) {
    list == [] ||
    (AllReconciled(rows, source, list[..|list| - 1], history, run, at)
     && Reconciled(RowAt(rows, AlertKey(source, list[|list| - 1].entityId)), history, run, at, list[|list| - 1]))
  }

  lemma {:induction false} ReconciledAt(rows: map<AlertKey, AlertRow>, source: string, list: seq<AlertSummary>,
                                        history: History, run: int, at: Time, j: nat)
    requires AllReconciled(rows, source, list, history, run, at) && j < |list|
    ensures Reconciled(RowAt(rows, AlertKey(source, list[j].entityId)), history, run, at, list[j])
  {
    if j < |list| - 1 { ReconciledAt(rows, source, list[..|list| - 1], history, run, at, j); }
  }

  lemma {:induction false} AllReconciledKept(before: map<AlertKey, AlertRow>, after: map<AlertKey, AlertRow>,
                                             source: string, list: seq<AlertSummary>, history: History, run: int,
                                             at: Time)
    requires AllReconciled(before, source, list, history, run, at)
    requires forall entity <- Ids(list) ::
      RowAt(after, AlertKey(source, entity)) == RowAt(before, AlertKey(source, entity))
    ensures AllReconciled(after, source, list, history, run, at)
  {
    if list != [] {
      assert list[|list| - 1].entityId in Ids(list);
      AllReconciledKept(before, after, source, list[..|list| - 1], history, run, at);
    }
  }

  lemma AllReconciledNext(before: map<AlertKey, AlertRow>, after: map<AlertKey, AlertRow>, source: string,
                          done: seq<AlertSummary>, next: AlertSummary, history: History, run: int, at: Time)
    requires AllReconciled(before, source, done, history, run, at)
    requires next.entityId !in Ids(done)
    requires Reconciled(RowAt(after, AlertKey(source, next.entityId)), history, run, at, next)
    requires forall key: AlertKey :: key != AlertKey(source, next.entityId) ==> RowAt(after, key) == RowAt(before, key)
    ensures AllReconciled(after, source, done + [next], history, run, at)
  {
    AllReconciledKept(before, after, source, done, history, run, at);
    assert (done + [next])[..|done|] == done;
  }

  lemma RefusedAlert(list: seq<AlertSummary>, i: nat)
    requires i < |list|
    requires list[i].entityId in Ids(list[..i]) || !Storable(list[i]) || !Hashable(list[i])
    ensures !Acceptable(list)
  {
    IdsAt(list[..i]);
    assert list[i] in list;
    if list[i].entityId in Ids(list[..i]) {
      var j :| 0 <= j < i && Ids(list[..i])[j] == list[i].entityId;
      assert list[j].entityId == list[i].entityId;
    }
  }

  /** Rows of other sources, and of entities the feed does not list, are as before. */
  ghost predicate Untouched(before: map<AlertKey, AlertRow>, after: map<AlertKey, AlertRow>, source: string,
                            present: seq<string>) {
    forall key: AlertKey :: key.source != source || key.entity !in present ==> RowAt(after, key) == RowAt(before, key)
  }

  lemma AcceptableNext(done: seq<AlertSummary>, next: AlertSummary)
    requires Acceptable(done)
    requires Storable(next) && Hashable(next) && next.entityId !in Ids(done)
    ensures Acceptable(done + [next]) && Ids(done + [next]) == Ids(done) + [next.entityId]
  {
    IdsAt(done);
    assert (done + [next])[..|done|] == done;
    forall j | 0 <= j < |done| ensures done[j].entityId != next.entityId {
      assert Ids(done)[j] == done[j].entityId;
    }
  }

  ghost predicate Between(before: map<AlertKey, AlertRow>, reconciled: map<AlertKey, AlertRow>, history: History,
                          source: string, feed: Applied, list: seq<AlertSummary>, entity: string) {
    var key := AlertKey(source, entity);
    && Acceptable(list) && feed.content == ContentOf(list)
    && Represents(RowAt(before, key), history, entity)
    && AllReconciled(reconciled, source, list, history, feed.run, feed.observedAt)
    && (entity !in Ids(list) ==> RowAt(reconciled, key) == RowAt(before, key))
  }

  lemma FeedRepresented(before: map<AlertKey, AlertRow>, reconciled: map<AlertKey, AlertRow>,
                        after: map<AlertKey, AlertRow>, history: History,
                        source: string, feed: Applied, list: seq<AlertSummary>, entity: string)
    requires Between(before, reconciled, history, source, feed, list, entity)
    requires reconciled.Keys == after.Keys
    requires AlertKey(source, entity) in reconciled ==>
      ClosedIfMissing(reconciled[AlertKey(source, entity)], after[AlertKey(source, entity)],
                      AlertKey(source, entity), source, feed.run, feed.observedAt, Ids(list))
    ensures Represents(RowAt(after, AlertKey(source, entity)), history + [feed], entity)
  {
    IdsAt(list);
    if entity in Ids(list) {
      var j :| 0 <= j < |list| && Ids(list)[j] == entity;
      ContentOfDistinct(list, j);
      ReconciledAt(reconciled, source, list, history, feed.run, feed.observedAt, j);
      SeenRowRepresents(RowAt(reconciled, AlertKey(source, entity)), history, feed, list[j]);
    } else {
      IdsAreKeys(list);
      if AlertKey(source, entity) in before {
        MissingRowRepresents(before[AlertKey(source, entity)], history, feed, entity);
      } else {
        UnseenRepresents(history, feed, entity);
      }
    }
  }

  lemma PresentHasCurrent(before: map<AlertKey, AlertRow>, reconciled: map<AlertKey, AlertRow>, history: History,
                          source: string, feed: Applied, list: seq<AlertSummary>, key: AlertKey)
    requires key in reconciled && reconciled[key].isPresent
    requires key.source == source ==> Between(before, reconciled, history, source, feed, list, key.entity)
    requires key.source != source ==> RowAt(before, key) == RowAt(reconciled, key)
    requires key.source != source ==> exists other :: Represents(RowAt(before, key), other, key.entity)
    ensures HasCurrent(reconciled[key])
  {
    if key.source == source && key.entity in Ids(list) {
      IdsAt(list);
      var j :| 0 <= j < |list| && Ids(list)[j] == key.entity;
      ReconciledAt(reconciled, source, list, history, feed.run, feed.observedAt, j);
    }
  }

  lemma AllHaveCurrent(before: map<AlertKey, AlertRow>, reconciled: map<AlertKey, AlertRow>,
                       histories: map<string, History>, source: string, feed: Applied, list: seq<AlertSummary>)
    requires Replayed(before, histories) && Acceptable(list) && feed.content == ContentOf(list)
    requires AllReconciled(reconciled, source, list, HistoryOf(histories, source), feed.run, feed.observedAt)
    requires Untouched(before, reconciled, source, Ids(list))
    ensures forall key <- reconciled :: reconciled[key].isPresent ==> HasCurrent(reconciled[key])
  {
    forall key <- reconciled | reconciled[key].isPresent ensures HasCurrent(reconciled[key]) {
      assert Represents(RowAt(before, key), HistoryOf(histories, key.source), key.entity);
      PresentHasCurrent(before, reconciled, HistoryOf(histories, source), source, feed, list, key);
    }
  }

  /** The tables between the statements of a reconciliation and after the last of them. */
  ghost predicate Reconciling(before: map<AlertKey, AlertRow>, reconciled: map<AlertKey, AlertRow>,
                              after: map<AlertKey, AlertRow>, history: History, source: string, feed: Applied,
                              list: seq<AlertSummary>) {
    && Acceptable(list) && feed.content == ContentOf(list)
    && AllReconciled(reconciled, source, list, history, feed.run, feed.observedAt)
    && Untouched(before, reconciled, source, Ids(list))
    && after.Keys == reconciled.Keys
    && forall key <- after ::
         ClosedIfMissing(reconciled[key], after[key], key, source, feed.run, feed.observedAt, Ids(list))
  }

  lemma OtherRowKept(before: map<AlertKey, AlertRow>, reconciled: map<AlertKey, AlertRow>,
                     after: map<AlertKey, AlertRow>, history: History, source: string, feed: Applied,
                     list: seq<AlertSummary>, key: AlertKey)
    requires Reconciling(before, reconciled, after, history, source, feed, list) && key.source != source
    ensures RowAt(after, key) == RowAt(before, key)
  {
    assert RowAt(reconciled, key) == RowAt(before, key);
  }

  lemma SourceRowRepresented(before: map<AlertKey, AlertRow>, reconciled: map<AlertKey, AlertRow>,
                             after: map<AlertKey, AlertRow>, history: History, source: string, feed: Applied,
                             list: seq<AlertSummary>, entity: string)
    requires Reconciling(before, reconciled, after, history, source, feed, list)
    requires Represents(RowAt(before, AlertKey(source, entity)), history, entity)
    ensures Represents(RowAt(after, AlertKey(source, entity)), history + [feed], entity)
  {
    FeedRepresented(before, reconciled, after, history, source, feed, list, entity);
  }

  /** Reconciling every listed alert and closing the missing ones is what one more feed does to the replay. */
  lemma FeedReplayed(before: map<AlertKey, AlertRow>, reconciled: map<AlertKey, AlertRow>,
                     after: map<AlertKey, AlertRow>, histories: map<string, History>,
                     source: string, feed: Applied, list: seq<AlertSummary>)
    requires Replayed(before, histories)
    requires Reconciling(before, reconciled, after, HistoryOf(histories, source), source, feed, list)
    ensures Replayed(after, histories[source := HistoryOf(histories, source) + [feed]])
  {
    var history := HistoryOf(histories, source);
    var histories' := histories[source := history + [feed]];
    forall key: AlertKey ensures Represents(RowAt(after, key), HistoryOf(histories', key.source), key.entity) {
      var represented := Represents(RowAt(before, key), HistoryOf(histories, key.source), key.entity);
      assert represented;
      if key.source == source {
        SourceRowRepresented(before, reconciled, after, history, source, feed, list, key.entity);
        assert HistoryOf(histories', key.source) == history + [feed] && key == AlertKey(source, key.entity);
      } else {
        OtherRowKept(before, reconciled, after, history, source, feed, list, key);
        assert HistoryOf(histories', key.source) == HistoryOf(histories, key.source);
      }
    }
  }

  // ---- Transactions ----

  /** What a transaction sent to commit writes: its run, the alert tables, and the feed it applies, if any. */
  datatype Transaction = Transaction(
    id: int, row: Run, alerts: map<AlertKey, AlertRow>, snapshots: set<(int, string)>, feed: Option<Applied>)

  function WithFeed(histories: map<string, History>, source: string, feed: Option<Applied>): map<string, History> {
    if feed.None? then histories else histories[source := HistoryOf(histories, source) + [feed.value]]
  }

  /** The run is still to be completed by the transaction, which either skips it or applies a feed. */
  ghost predicate Completes(runs: map<int, Run>, histories: map<string, History>, tx: Transaction) {
    && tx.id in runs && runs[tx.id].status == Running && runs[tx.id].source == tx.row.source
    && match tx.feed
       case None => tx.row.status == Skipped
       case Some(feed) =>
         && feed.run == tx.id && IsApplied(tx.row, tx.row.source) && RecordsFeed(tx.row, feed)
         && !IsStale(HistoryOf(histories, tx.row.source), feed.observedAt, feed.retrievedAt)
  }

  /** The alert tables it leaves are the replay of the feeds applied by then. */
  ghost predicate Leaves(runs: map<int, Run>, histories: map<string, History>, tx: Transaction) {
    && Replayed(tx.alerts, WithFeed(histories, tx.row.source, tx.feed))
    && (forall key <- tx.alerts :: key.entity != "")
    && (forall pair <- tx.snapshots ::
          (tx.feed.Some? && pair.0 == tx.id) || (pair.0 in runs && runs[pair.0].status == Succeeded))
  }

  class AlertRepository {
    var runs: map<int, Run>
    var alerts: map<AlertKey, AlertRow>
    var snapshots: set<(int, string)>
    var nextRun: int
    /** A commit was sent and is not decided yet; it holds the advisory lock and the lock of its run. */
    var doubt: Option<Transaction>
    ghost var histories: map<string, History>

    ghost predicate Valid()
      reads this
    {
      && (forall source: string :: RunsMatch(runs, HistoryOf(histories, source), source))
      && Replayed(alerts, histories)
      && (forall key <- alerts :: key.entity != "")
      && (forall pair <- snapshots :: pair.0 in runs && runs[pair.0].status == Succeeded)
      && (forall id <- runs :: id < nextRun)
      && (doubt.Some? ==> Completes(runs, histories, doubt.value) && Leaves(runs, histories, doubt.value))
    }

    constructor ()
      ensures Valid() && runs == map[] && alerts == map[] && histories == map[] && doubt.None? && nextRun == 1
    {
      runs, alerts, snapshots, nextRun, doubt, histories := map[], map[], {}, 1, None, map[];
    }

    /** No table has changed. */
    twostate predicate TablesKept()
      reads this
    {
      runs == old(runs) && alerts == old(alerts) && snapshots == old(snapshots) && histories == old(histories)
    }

    /** Everything the transaction writes is there. */
    twostate predicate Written(tx: Transaction)
      reads this
    {
      && runs == old(runs)[tx.id := tx.row] && alerts == tx.alerts && snapshots == tx.snapshots
      && histories == WithFeed(old(histories), tx.row.source, tx.feed)
    }

    /** Brings one alert of the feed into the tables; refused without a usable hash or identifier. */
    method ReconcileAlert(run: int, source: string, observedAt: Time, alert: AlertSummary, ghost history: History)
      returns (ok: bool)
      requires Represents(RowAt(alerts, AlertKey(source, alert.entityId)), history, alert.entityId)
      requires AlertKey(source, "") !in alerts
      modifies this`alerts
      ensures ok <==> Hashable(alert) && alert.entityId != ""
      ensures !ok ==> alerts == old(alerts)
      ensures ok ==> Reconciled(RowAt(alerts, AlertKey(source, alert.entityId)), history, run, observedAt, alert)
      ensures ok ==> alerts.Keys == old(alerts.Keys) + {AlertKey(source, alert.entityId)}
      ensures forall key: AlertKey :: key != AlertKey(source, alert.entityId) ==>
                RowAt(alerts, key) == old(RowAt(alerts, key))
    {
      if !Hashable(alert) { return false; }
      var key, seen := AlertKey(source, alert.entityId), Hashed(alert);
      if key !in alerts {
        if alert.entityId == "" { return false; }
        alerts := alerts[key := AlertRow(observedAt, observedAt, run, run, true, None, None, map[])];
        var row := alerts[key].(revisions := map[1 := Opened(seen, run, observedAt)], current := Some(1));
        assert row.revisions == Numbered([Opened(seen, run, observedAt)]);
        alerts := alerts[key := row];
        return true;
      }
      if alerts[key].current.None? { return false; }
      var row := ReviseRow(alerts[key], run, observedAt, seen, Replay(history, alert.entityId));
      alerts := alerts[key := row];
      return true;
    }

    /** Two set-based updates close what the feed no longer lists. */
    method CloseMissingAlerts(run: int, source: string, observedAt: Time, present: seq<string>)
      requires forall key <- alerts :: alerts[key].isPresent ==> HasCurrent(alerts[key])
      modifies this`alerts
      ensures alerts.Keys == old(alerts.Keys)
      ensures forall key <- alerts ::
        ClosedIfMissing(old(alerts)[key], alerts[key], key, source, run, observedAt, present)
    {
      alerts := map key | key in alerts ::
        var row := alerts[key];
        if !Missing(row, key, source, present) then row
        else WithCurrentClosed(row, run, observedAt);
      alerts := map key | key in alerts ::
        var row := alerts[key];
        if !Missing(row, key, source, present) then row
        else row.(isPresent := false, closedAt := Some(observedAt));
    }

    /** One alert of the feed, after those in `done`: its snapshot and its reconciliation. */
    method TakeAlert(run: int, source: string, observedAt: Time, alert: AlertSummary,
                     ghost done: seq<AlertSummary>, ghost history: History)
      returns (ok: bool)
      requires Represents(RowAt(alerts, AlertKey(source, alert.entityId)), history, alert.entityId)
        || alert.entityId in Ids(done)
      requires AlertKey(source, "") !in alerts && AllReconciled(alerts, source, done, history, run, observedAt)
      requires forall entity :: (run, entity) in snapshots <==> entity in Ids(done)
      modifies this`alerts, this`snapshots
      ensures ok <==> alert.entityId !in Ids(done) && Storable(alert) && Hashable(alert)
      ensures ok ==> snapshots == old(snapshots) + {(run, alert.entityId)}
      ensures ok ==> alerts.Keys == old(alerts.Keys) + {AlertKey(source, alert.entityId)}
      ensures ok ==> AllReconciled(alerts, source, done + [alert], history, run, observedAt)
      ensures forall key: AlertKey :: key != AlertKey(source, alert.entityId) ==>
                RowAt(alerts, key) == old(RowAt(alerts, key))
      ensures !ok ==> alerts == old(alerts)
      ensures forall pair <- snapshots :: pair in old(snapshots) || pair.0 == run
    {
      if (run, alert.entityId) in snapshots || !StorablePeriods(alert) { return false; }
      snapshots := snapshots + {(run, alert.entityId)};
      ok := ReconcileAlert(run, source, observedAt, alert, history);
      if ok { AllReconciledNext(old(alerts), alerts, source, done, alert, history, run, observedAt); }
    }

    /** Every alert of the feed, in the feed's order, up to the first that is refused. */
    method ReconcileAlerts(run: int, source: string, observedAt: Time, list: seq<AlertSummary>, ghost history: History)
      returns (ok: bool, present: seq<string>)
      requires forall entity :: Represents(RowAt(alerts, AlertKey(source, entity)), history, entity)
      requires forall key <- alerts :: key.entity != ""
      requires forall pair <- snapshots :: pair.0 != run
      modifies this`alerts, this`snapshots
      ensures ok <==> Acceptable(list)
      ensures forall pair <- snapshots :: pair in old(snapshots) || pair.0 == run
      ensures ok ==> Ids(list) == present
      ensures ok ==> forall key <- alerts :: key.entity != ""
      ensures ok ==> AllReconciled(alerts, source, list, history, run, observedAt)
      ensures ok ==> Untouched(old(alerts), alerts, source, present)
    {
      present := [];
      ghost var done := [];
      for i := 0 to |list|
        invariant done == list[..i]
        invariant present == Ids(done)
        invariant Acceptable(done)
        invariant forall key <- alerts :: key.entity != ""
        invariant forall entity :: (run, entity) in snapshots <==> entity in Ids(done)
        invariant forall pair <- snapshots :: pair in old(snapshots) || pair.0 == run
        invariant AllReconciled(alerts, source, done, history, run, observedAt)
        invariant Untouched(old(alerts), alerts, source, Ids(done))
      {
        var alert := list[i];
        assert alert.entityId !in Ids(done) ==>
          RowAt(alerts, AlertKey(source, alert.entityId)) == old(RowAt(alerts, AlertKey(source, alert.entityId)));
        ok := TakeAlert(run, source, observedAt, alert, done, history);
        if !ok {
          RefusedAlert(list, i);
          return;
        }
        AcceptableNext(done, alert);
        PrefixNext(list, i);
        present, done := present + [alert.entityId], done + [alert];
      }
      assert done == list;
      ok := true;
    }

    /** The statements of one reconciliation, inside the transaction. */
    method ApplyFeed(run: int, source: string, observedAt: Time, list: seq<AlertSummary>, ghost feed: Applied)
      returns (ok: bool)
      requires Valid()
      requires feed.run == run && feed.observedAt == observedAt && feed.content == ContentOf(list)
      requires forall pair <- snapshots :: pair.0 != run
      modifies this`alerts, this`snapshots
      ensures ok <==> Acceptable(list)
      ensures ok ==> Replayed(alerts, histories[source := HistoryOf(histories, source) + [feed]])
      ensures ok ==> forall key <- alerts :: key.entity != ""
      ensures forall pair <- snapshots :: pair in old(snapshots) || pair.0 == run
    {
      ghost var history := HistoryOf(histories, source);
      forall entity ensures Represents(RowAt(alerts, AlertKey(source, entity)), history, entity) {
        assert Represents(RowAt(alerts, AlertKey(source, entity)), HistoryOf(histories, source), entity);
      }
      var present;
      ok, present := ReconcileAlerts(run, source, observedAt, list, history);
      if !ok { return; }
      ghost var reconciled := alerts;
      AllHaveCurrent(old(alerts), reconciled, histories, source, feed, list);
      CloseMissingAlerts(run, source, observedAt, present);
      FeedReplayed(old(alerts), reconciled, alerts, histories, source, feed, list);
    }

    method StartAlertRun(source: string) returns (id: int)
      requires Valid()
      modifies this`runs, this`nextRun
      ensures Valid() && id !in old(runs) && id == old(nextRun) && nextRun == id + 1
      ensures runs == old(runs)[id := Run(source, Running, ArchivePending, None, None, None, false, None)]
    {
      id := nextRun;
      runs, nextRun := runs[id := Run(source, Running, ArchivePending, None, None, None, false, None)], id + 1;
      forall s: string ensures RunsMatch(runs, HistoryOf(histories, s), s) {
        RunsMatchKept(old(runs), runs, HistoryOf(histories, s), s, id);
      }
    }

    /** A running attempt is linked to its archived payload once. */
    method LinkArchive(id: int) returns (ok: bool)
      requires Valid()
      modifies this`runs
      ensures Valid()
      ensures ok <==> id in old(runs) && old(runs)[id].status == Running && old(runs)[id].archive == ArchivePending
      ensures runs == if ok then old(runs)[id := old(runs)[id].(archive := Archived)] else old(runs)
    {
      ok := id in runs && runs[id].status == Running && runs[id].archive == ArchivePending;
      if ok {
        runs := runs[id := runs[id].(archive := Archived)];
        forall s: string ensures RunsMatch(runs, HistoryOf(histories, s), s) {
          RunsMatchKept(old(runs), runs, HistoryOf(histories, s), s, id);
        }
      }
    }

    /** Only a running attempt can be marked failed; what was fetched, if anything, is recorded with it. The
        update waits for the lock of the run. */
    method FailAlertRun(id: int, fetch: Option<(Time, seq<Byte>)>) returns (ok: bool)
      requires Valid() && (doubt.Some? ==> doubt.value.id != id)
      modifies this`runs
      ensures Valid()
      ensures ok <==> id in old(runs) && old(runs)[id].status == Running
      ensures runs == if ok then old(runs)[id := MarkedFailed(old(runs)[id], fetch)] else old(runs)
      ensures ok ==>
        && runs[id].status == Failed && runs[id].source == old(runs)[id].source
        && runs[id].applied == old(runs)[id].applied
        && runs[id].archive == (if old(runs)[id].archive == Archived then Archived else ArchiveFailed)
        && runs[id].retrievedAt == (if fetch.Some? then Some(fetch.value.0) else None)
        && runs[id].payload == if fetch.Some? then Some(Sha256(fetch.value.1)) else None
    {
      ok := id in runs && runs[id].status == Running;
      if ok {
        runs := runs[id := MarkedFailed(runs[id], fetch)];
        forall s: string ensures RunsMatch(runs, HistoryOf(histories, s), s) {
          RunsMatchKept(old(runs), runs, HistoryOf(histories, s), s, id);
        }
      }
    }

    /** The applied run of the source that comes first by observation, retrieval and id. */
    method LatestAppliedFeed(id: int, source: string) returns (latest: Option<int>)
      requires Valid()
      requires id in runs && !IsApplied(runs[id], source)
      ensures latest.None? <==> HistoryOf(histories, source) == []
      ensures latest.Some? ==> latest.value in runs
      ensures latest.Some? ==> Selects(HistoryOf(histories, source), latest.value)
    {
      ghost var history := HistoryOf(histories, source);
      assert RunsMatch(runs, history, source);
      latest := None;
      var left := runs.Keys;
      while left != {}
        invariant left <= runs.Keys
        invariant latest.None? ==> forall q :: 0 <= q < |history| ==> history[q].run in left
        invariant latest.None? ==> history == [] || history[0].run in left
        invariant latest.Some? ==> latest.value in runs && IsApplied(runs[latest.value], source)
        invariant latest.Some? ==> forall p, q ::
          (0 <= p < |history| && 0 <= q < |history| && history[p].run == latest.value && history[q].run !in left) ==>
            LatestFirst(history[p], history[q])
      {
        HasMember(left);
        var next: int :| next in left;
        if next != id && IsApplied(runs[next], source) {
          assert AppliedBy(history, next);
          if latest.None? || Sooner(runs[next], next, runs[latest.value], latest.value) { latest := Some(next); }
        }
        left := left - {next};
      }
      if latest.Some? {
        assert AppliedBy(history, latest.value);
        ghost var p :| 0 <= p < |history| && history[p].run == latest.value;
        assert IsLatest(history, p);
      }
    }

    /** One attempt to bring a fetched feed into the tables, made once the advisory lock is free. The tables change
        exactly if the feed is not refused and its commit takes effect; the caller learns of the commit what the
        report, or else the status read, tells. */
    method CompleteAlertRun(id: int, payload: seq<Byte>, retrievedAt: Time, summary: FeedSummary, answers: Answers)
      returns (r: Outcome, skipped: bool)
      requires Valid() && doubt.None?
      modifies this
      ensures Valid() && nextRun == old(nextRun)
      ensures var verdict := Judge(old(runs), old(histories), id, payload, retrievedAt, summary);
        && r == (if verdict.Refused? || !answers.statements then Rejected else Learned(answers))
        && (skipped <==> r == Done && verdict.SkipAs?)
        && if verdict.Refused? || !TakesEffect(answers) then
             TablesKept() && (doubt.Some? <==> !verdict.Refused? && answers.statements && answers.commit == Undecided)
           else
             doubt.None? && Effected(id, payload, retrievedAt, summary, verdict)
      ensures !Judge(old(runs), old(histories), id, payload, retrievedAt, summary).Refused? && TakesEffect(answers) ==>
        RecordsRun(runs[id], old(runs)[id], Judge(old(runs), old(histories), id, payload, retrievedAt, summary),
                   payload, retrievedAt, summary.timestamp)
      ensures doubt.Some? ==> doubt.value.id == id
      ensures doubt.Some? ==>
        doubt.value.feed == FeedOf(Judge(old(runs), old(histories), id, payload, retrievedAt, summary))
    {
      if !summary.fullDataset { return Rejected, false; }
      var observation := ObservationTime(summary.timestamp, retrievedAt);
      if observation.None? { return Rejected, false; }
      if !(id in runs && runs[id].status == Running && runs[id].archive == Archived) { return Rejected, false; }
      var skip := SkipReason(id, payload, observation.value, retrievedAt, summary.timestamp.Some?);
      var row := FinishedRow(runs[id], payload, retrievedAt, summary);
      if skip.Some? {
        if !answers.statements { return Rejected, false; }
        var tx := Transaction(id, row.(status := Skipped, skipCode := skip), alerts, snapshots, None);
        r := Commit(tx, answers);
        skipped := r == Done;
        return;
      }
      ghost var feed := Applied(id, observation.value, retrievedAt, Sha256(payload), ContentOf(summary.alerts));
      var tx := PrepareFeed(id, payload, retrievedAt, summary, feed);
      if tx.None? || !answers.statements { return Rejected, false; }
      r := Commit(tx.value, answers);
      skipped := false;
    }

    /** What the tables are after the verdict took effect. */
    twostate predicate Effected(id: int, payload: seq<Byte>, retrievedAt: Time, summary: FeedSummary, verdict: Verdict)
      requires old(id in runs) && !verdict.Refused?
      reads this
    {
      var row := FinishedRow(old(runs)[id], payload, retrievedAt, summary);
      match verdict
      case SkipAs(code) =>
        && runs == old(runs)[id := row.(status := Skipped, skipCode := Some(code))]
        && alerts == old(alerts) && snapshots == old(snapshots) && histories == old(histories)
      case Apply(feed) =>
        && runs == old(runs)[id := row.(status := Succeeded, applied := true)]
        && histories == old(histories)[row.source := HistoryOf(old(histories), row.source) + [feed]]
    }

    /** The commit of a transaction, and the status read of commitRun where it goes unreported. */
    method Commit(tx: Transaction, answers: Answers) returns (r: Outcome)
      requires Valid() && doubt.None? && answers.statements
      requires Completes(runs, histories, tx) && Leaves(runs, histories, tx)
      modifies this
      ensures Valid() && nextRun == old(nextRun)
      ensures r == Learned(answers)
      ensures TakesEffect(answers) ==> Written(tx) && doubt.None?
      ensures !TakesEffect(answers) ==> TablesKept() && doubt == if answers.commit == Undecided then Some(tx) else None
    {
      match answers.commit {
        case Confirmed | AppliedUnreported => Write(tx);
        case Undecided => doubt := Some(tx);
        case RolledBack =>
      }
      if answers.commit == Confirmed { return Done; }
      if !answers.status { return Unknown; }
      r := if runs[tx.id].status == tx.row.status then Done else Rejected;
    }

    /** The server applies a transaction. */
    method Write(tx: Transaction)
      requires Valid() && (doubt.Some? ==> doubt.value == tx)
      requires Completes(runs, histories, tx) && Leaves(runs, histories, tx)
      modifies this
      ensures Valid() && Written(tx) && nextRun == old(nextRun) && doubt.None?
    {
      AllRunsMatchWritten(runs, histories, tx);
      WriteRows(tx);
    }

    method WriteRows(tx: Transaction)
      modifies this`runs, this`alerts, this`snapshots, this`doubt, this`histories
      ensures Written(tx) && doubt.None?
    {
      runs, alerts, snapshots, doubt := runs[tx.id := tx.row], tx.alerts, tx.snapshots, None;
      histories := WithFeed(histories, tx.row.source, tx.feed);
    }

    /** An undecided commit is decided. */
    method Decide(applies: bool)
      requires Valid()
      modifies this
      ensures Valid() && nextRun == old(nextRun) && doubt.None?
      ensures if applies && old(doubt).Some? then Written(old(doubt).value) else TablesKept()
    {
      if doubt.Some? && applies { Write(doubt.value); }
      doubt := None;
    }

    /** Compares the feed with the latest applied one of its source. */
    method SkipReason(id: int, payload: seq<Byte>, observedAt: Time, retrievedAt: Time, timestamped: bool)
      returns (skip: Option<SkipCode>)
      requires Valid() && id in runs && runs[id].status == Running
      ensures var history := HistoryOf(histories, runs[id].source);
        skip == if IsStale(history, observedAt, retrievedAt) then Some(Stale)
                else if timestamped && RepeatsLatest(history, payload) then Some(Duplicate) else None
    {
      ghost var history := HistoryOf(histories, runs[id].source);
      assert RunsMatch(runs, history, runs[id].source);
      var latest := LatestAppliedFeed(id, runs[id].source);
      if latest.None? { return None; }
      ghost var p :| IsLatest(history, p) && history[p].run == latest.value;
      LatestHasLastTimes(history, p);
      LatestIsUnique(history, payload, p);
      var row := runs[latest.value];
      if RunObserved(row).value > observedAt
        || (RunObserved(row).value == observedAt && row.retrievedAt.value > retrievedAt) {
        return Some(Stale);
      }
      skip := if timestamped && row.payload == Some(Sha256(payload)) then Some(Duplicate) else None;
    }

    /** The statements of a reconciliation and of the completion of its run, on a copy of the tables; None if the
        feed is refused. */
    method PrepareFeed(id: int, payload: seq<Byte>, retrievedAt: Time, summary: FeedSummary, ghost feed: Applied)
      returns (tx: Option<Transaction>)
      requires Valid() && doubt.None? && id in runs && runs[id].status == Running
      requires ObservationTime(summary.timestamp, retrievedAt) == Some(feed.observedAt)
      requires feed == Applied(id, feed.observedAt, retrievedAt, Sha256(payload), ContentOf(summary.alerts))
      requires !IsStale(HistoryOf(histories, runs[id].source), feed.observedAt, retrievedAt)
      modifies this`alerts, this`snapshots
      ensures Valid() && alerts == old(alerts) && snapshots == old(snapshots)
      ensures tx.Some? <==> Acceptable(summary.alerts)
      ensures tx.Some? ==>
        && Completes(runs, histories, tx.value) && Leaves(runs, histories, tx.value)
        && tx.value.id == id && tx.value.feed == Some(feed)
        && tx.value.row == FinishedRow(runs[id], payload, retrievedAt, summary).(status := Succeeded, applied := true)
    {
      var source, observedAt := runs[id].source, ObservationTime(summary.timestamp, retrievedAt).value;
      var alertsBefore, snapshotsBefore := alerts, snapshots;
      var ok := ApplyFeed(id, source, observedAt, summary.alerts, feed);
      var row := FinishedRow(runs[id], payload, retrievedAt, summary).(status := Succeeded, applied := true);
      var content := ContentOf(summary.alerts);
      tx := None;
      if ok {
        tx := Some(Transaction(id, row, alerts, snapshots,
                               Some(Applied(id, observedAt, retrievedAt, Sha256(payload), content))));
      }
      alerts, snapshots := alertsBefore, snapshotsBefore;
    }
  }

  function MarkedFailed(run: Run, fetch: Option<(Time, seq<Byte>)>): Run {
    run.(status := Failed, archive := if run.archive == Archived then Archived else ArchiveFailed,
         retrievedAt := if fetch.Some? then Some(fetch.value.0) else None,
         payload := if fetch.Some? then Some(Sha256(fetch.value.1)) else None)
  }

  /** The row with the columns every finished attempt records. */
  function FinishedRow(run: Run, payload: seq<Byte>, retrievedAt: Time, summary: FeedSummary): Run {
    run.(retrievedAt := Some(retrievedAt), payload := Some(Sha256(payload)),
         feedTimestamp := if summary.timestamp.None? then None else ObservationTime(summary.timestamp, retrievedAt))
  }

  /** What a completed run's row says of the attempt. */
  predicate RecordsRun(row: Run, before: Run, verdict: Verdict, payload: seq<Byte>, retrievedAt: Time,
                       timestamp: Option<nat>) {
    && row.source == before.source && row.archive == before.archive
    && row.retrievedAt == Some(retrievedAt) && row.payload == Some(Sha256(payload))
    && row.feedTimestamp == (if timestamp.Some? then Some(timestamp.value * 1_000_000) else None)
    && match verdict
       case Refused => false
       case SkipAs(code) => row.status == Skipped && row.skipCode == Some(code) && row.applied == before.applied
       case Apply(_) => row.status == Succeeded && row.skipCode == before.skipCode && row.applied
  }

  datatype Verdict = Refused | SkipAs(code: SkipCode) | Apply(feed: Applied)

  function FeedOf(verdict: Verdict): Option<Applied> {
    if verdict.Apply? then Some(verdict.feed) else None
  }

  ghost predicate IsStale(history: History, observedAt: Time, retrievedAt: Time) {
    && history != []
    && var last := history[|history| - 1];
       last.observedAt > observedAt || (last.observedAt == observedAt && last.retrievedAt > retrievedAt)
  }

  ghost predicate RepeatsLatest(history: History, payload: seq<Byte>) {
    exists p :: IsLatest(history, p) && history[p].payload == Sha256(payload)
  }

  /** What becomes of a feed, in terms of the feeds applied before it. */
  ghost function Judge(runs: map<int, Run>, histories: map<string, History>, id: int, payload: seq<Byte>,
                       retrievedAt: Time, summary: FeedSummary): Verdict {
    var observation := ObservationTime(summary.timestamp, retrievedAt);
    if !summary.fullDataset || observation.None? then Refused
    else if !(id in runs && runs[id].status == Running && runs[id].archive == Archived) then Refused
    else
      var history := HistoryOf(histories, runs[id].source);
      if IsStale(history, observation.value, retrievedAt) then SkipAs(Stale)
      else if summary.timestamp.Some? && RepeatsLatest(history, payload) then SkipAs(Duplicate)
      else if Acceptable(summary.alerts)
      then Apply(Applied(id, observation.value, retrievedAt, Sha256(payload), ContentOf(summary.alerts)))
      else Refused
  }

  lemma LatestIsUnique(history: History, payload: seq<Byte>, p: nat)
    requires IsLatest(history, p)
    requires forall i, j :: 0 <= i < j < |history| ==> history[i].run != history[j].run
    ensures RepeatsLatest(history, payload) <==> history[p].payload == Sha256(payload)
  {
    if RepeatsLatest(history, payload) {
      var q :| IsLatest(history, q) && history[q].payload == Sha256(payload);
      assert LatestFirst(history[p], history[q]) && LatestFirst(history[q], history[p]);
    }
  }

  lemma AllRunsMatchApplied(before: map<int, Run>, after: map<int, Run>, histories: map<string, History>,
                            source: string, feed: Applied)
    requires forall s: string :: RunsMatch(before, HistoryOf(histories, s), s)
    requires !IsStale(HistoryOf(histories, source), feed.observedAt, feed.retrievedAt)
    requires feed.run in before && before[feed.run].status == Running
    requires feed.run in after && after == before[feed.run := after[feed.run]]
    requires IsApplied(after[feed.run], source) && RecordsFeed(after[feed.run], feed)
    ensures var histories' := histories[source := HistoryOf(histories, source) + [feed]];
      forall s: string :: RunsMatch(after, HistoryOf(histories', s), s)
  {
    var histories' := histories[source := HistoryOf(histories, source) + [feed]];
    forall s: string ensures RunsMatch(after, HistoryOf(histories', s), s) {
      assert RunsMatch(before, HistoryOf(histories, s), s);
      if s == source { RunsMatchApplied(before, after, HistoryOf(histories, s), source, feed); }
      else { RunsMatchKept(before, after, HistoryOf(histories, s), s, feed.run); }
    }
  }

  lemma AllRunsMatchWritten(runs: map<int, Run>, histories: map<string, History>, tx: Transaction)
    requires forall s: string :: RunsMatch(runs, HistoryOf(histories, s), s)
    requires Completes(runs, histories, tx)
    ensures forall s: string ::
      RunsMatch(runs[tx.id := tx.row], HistoryOf(WithFeed(histories, tx.row.source, tx.feed), s), s)
  {
    var after := runs[tx.id := tx.row];
    if tx.feed.Some? {
      AllRunsMatchApplied(runs, after, histories, tx.row.source, tx.feed.value);
    } else {
      forall s: string ensures RunsMatch(after, HistoryOf(histories, s), s) {
        RunsMatchKept(runs, after, HistoryOf(histories, s), s, tx.id);
      }
    }
  }

  lemma RunsMatchApplied(before: map<int, Run>, after: map<int, Run>, history: History, source: string, feed: Applied)
    requires RunsMatch(before, history, source) && !IsStale(history, feed.observedAt, feed.retrievedAt)
    requires feed.run in before && !IsApplied(before[feed.run], source)
    requires feed.run in after && after == before[feed.run := after[feed.run]]
    requires IsApplied(after[feed.run], source) && RecordsFeed(after[feed.run], feed)
    ensures RunsMatch(after, history + [feed], source)
  {
    var history' := history + [feed];
    forall i, j | 0 <= i <= j < |history'| ensures NotOlder(history'[i], history'[j]) {
      if i < |history| { assert NotOlder(history[i], history[|history| - 1]); }
    }
    forall id <- after | IsApplied(after[id], source) ensures AppliedBy(history', id) {
      if id == feed.run {
        assert history'[|history|].run == id;
      } else {
        assert AppliedBy(history, id);
        var p :| 0 <= p < |history| && history[p].run == id;
        assert history'[p].run == id;
      }
    }
  }

  /** Row `a` precedes row `b` in the descending order of the query. */
  predicate Sooner(a: Run, idA: int, b: Run, idB: int) {
    var observedA, observedB := RunObserved(a), RunObserved(b);
    && observedA.Some? && observedB.Some? && a.retrievedAt.Some? && b.retrievedAt.Some?
    && (observedA.value > observedB.value
        || (observedA.value == observedB.value
            && (a.retrievedAt.value > b.retrievedAt.value
                || (a.retrievedAt.value == b.retrievedAt.value && idA > idB))))
  }

  /** Changing a run that is not applied, before and after, leaves the histories in step with the runs. */
  lemma RunsMatchKept(before: map<int, Run>, after: map<int, Run>, history: History, source: string, id: int)
    requires RunsMatch(before, history, source)
    requires forall other :: other != id ==>
      ((other in before <==> other in after) && (other in before ==> before[other] == after[other]))
    requires id in before ==> !IsApplied(before[id], source)
    requires id in after ==> !IsApplied(after[id], source)
    ensures RunsMatch(after, history, source)
  {
  }
}
