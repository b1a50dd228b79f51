/** How the read side classifies alerts: the list predicates and historical list of
    internal/database/read_repository.go, the line and station counts of network_read_repository.go, and the
    status counts of status.go. */
module ReadModel {
  import opened Common
  import opened AlertContent
  import opened AlertHistory
  import opened AlertReconciliation
  import opened AlertEpisodes
  import opened AlertTables

  type Alerts = map<AlertKey, AlertRow>

  // ---- One alert ----

  function Current(row: AlertRow): Revision
    requires HasCurrent(row)
  {
    row.revisions[row.current.value]
  }

  predicate Began(period: ActivePeriod, now: Time) {
    period.start.Some? ==> period.start.value * MICROS_PER_SECOND <= now
  }

  predicate NotEnded(period: ActivePeriod, now: Time) {
    period.end.Some? ==> now < period.end.value * MICROS_PER_SECOND
  }

  /** No active period at all, or one that covers `now`. */
  predicate Active(revision: Revision, now: Time) {
    revision.body.periods == [] || exists period <- revision.body.periods :: Began(period, now) && NotEnded(period, now)
  }

  predicate StartsLater(revision: Revision, now: Time) {
    exists period <- revision.body.periods :: !Began(period, now)
  }

  datatype AlertStatus = Present | InForce | Upcoming | Historical

  /** The conditions of ListAlerts on an alert joined with its current revision. */
  predicate HasStatus(row: AlertRow, status: AlertStatus, now: Time)
    requires HasCurrent(row)
  {
    var revision := Current(row);
    var present := row.isPresent && !IsDeleted(revision);
    match status
    case Present => present
    case InForce => present && Active(revision, now)
    case Upcoming => present && !Active(revision, now) && StartsLater(revision, now)
    case Historical => !row.isPresent || IsDeleted(revision)
  }

  // ---- The lists ----

  /** service_alerts JOIN service_alert_revisions ON id = current_revision_id */
  function WithCurrent(alerts: Alerts): set<AlertKey> {
    set key | key in alerts && HasCurrent(alerts[key])
  }

  function Listed(alerts: Alerts, status: AlertStatus, now: Time): set<AlertKey> {
    set key | key in WithCurrent(alerts) && HasStatus(alerts[key], status, now)
  }

  /** The instant lies in the period; a missing end is open. */
  predicate Covers(period: ActivePeriod, now: Time) {
    && (period.start.Some? ==> period.start.value * 1_000_000 <= now)
    && (period.end.Some? ==> now < period.end.value * 1_000_000)
  }

  /** Which alerts the lists have: a present alert is in force without any period, or with one that covers now, and
      upcoming with periods that do not and one that starts later. */
  lemma ListedExactly(alerts: Alerts, key: AlertKey, now: Time)
    requires key in WithCurrent(alerts)
    ensures var row := alerts[key];
      var revision := row.revisions[row.current.value];
      var periods := revision.body.periods;
      var present := row.isPresent && !revision.hash.deleted;
      && (key in Listed(alerts, Present, now) <==> present)
      && (key in Listed(alerts, Historical, now) <==> !present)
      && (key in Listed(alerts, InForce, now) <==>
            present && (|periods| == 0 || exists period <- periods :: Covers(period, now)))
      && (key in Listed(alerts, Upcoming, now) <==>
            && present && (forall period <- periods :: !Covers(period, now))
            && exists period <- periods :: period.start.Some? && now < period.start.value * 1_000_000)
  {
    var revision := Current(alerts[key]);
    forall period <- revision.body.periods
      ensures Began(period, now) && NotEnded(period, now) <==> Covers(period, now)
    {
    }
    if Active(revision, now) && revision.body.periods != [] {
      var period :| period in revision.body.periods && Began(period, now) && NotEnded(period, now);
      assert Covers(period, now);
    }
    if StartsLater(revision, now) {
      var period :| period in revision.body.periods && !Began(period, now);
      assert period.start.Some? && now < period.start.value * 1_000_000;
    }
  }

  /** Present and historical alerts partition all alerts; alerts in force and upcoming alerts are disjoint parts of
      the present ones. */
  lemma StatusesPartition(alerts: Alerts, now: Time)
    ensures Listed(alerts, Present, now) + Listed(alerts, Historical, now) == WithCurrent(alerts)
    ensures Listed(alerts, Present, now) !! Listed(alerts, Historical, now)
    ensures |Listed(alerts, Present, now)| + |Listed(alerts, Historical, now)| == |WithCurrent(alerts)|
    ensures Listed(alerts, InForce, now) <= Listed(alerts, Present, now)
    ensures Listed(alerts, Upcoming, now) <= Listed(alerts, Present, now)
    ensures Listed(alerts, InForce, now) !! Listed(alerts, Upcoming, now)
  {
    assert Listed(alerts, Present, now) + Listed(alerts, Historical, now) == WithCurrent(alerts);
  }

  /** In the states the reconciliation reaches, the present alerts of a source are those its last applied feed
      lists and does not mark deleted. */
  lemma PresentIsLastFeed(alerts: Alerts, histories: map<string, History>, key: AlertKey, now: Time)
    requires Replayed(alerts, histories)
    ensures var history := HistoryOf(histories, key.source);
      key in Listed(alerts, Present, now) <==>
        (history != [] && key.entity in history[|history| - 1].content
         && !history[|history| - 1].content[key.entity].hash.deleted)
  {
    var history := HistoryOf(histories, key.source);
    var chain := Replay(history, key.entity);
    assert Represents(RowAt(alerts, key), history, key.entity);
    ChainIsRunLengthEncoding(history, key.entity);
    OpenShowsLast(history, key.entity, Spans(history, key.entity), chain);
    if chain != [] { assert |chain| in alerts[key].revisions; }
  }

  lemma OpenShowsLast(history: History, entity: string, spans: seq<Span>, chain: seq<Revision>)
    requires Encodes(history, entity, spans, chain)
    ensures IsOpen(chain) <==> history != [] && entity in history[|history| - 1].content
    ensures IsOpen(chain) ==> history[|history| - 1].content[entity].hash == chain[|chain| - 1].hash
  {
    EncodingPresence(history, entity, spans, chain);
    if IsOpen(chain) {
      RevisionTimes(history, entity, spans, chain, |chain| - 1);
      RevisionHash(history, entity, spans, chain, |chain| - 1, |history| - 1);
    }
  }

  // ---- Status counts ----

  /** A row of current_revisions in the status query. */
  datatype Flags = Flags(key: AlertKey, isPresent: bool, isDeleted: bool, active: bool, future: bool)

  function CurrentRevisions(alerts: Alerts, now: Time): set<Flags> {
    set key | key in WithCurrent(alerts) :: FlagsOf(key, alerts[key], now)
  }

  function FlagsOf(key: AlertKey, row: AlertRow, now: Time): Flags
    requires HasCurrent(row)
  {
    Flags(key, row.isPresent, IsDeleted(Current(row)), Active(Current(row), now), StartsLater(Current(row), now))
  }

  predicate CountedAs(f: Flags, status: AlertStatus) {
    match status
    case Present => f.isPresent && !f.isDeleted
    case InForce => f.isPresent && !f.isDeleted && f.active
    case Upcoming => f.isPresent && !f.isDeleted && !f.active && f.future
    case Historical => !f.isPresent || f.isDeleted
  }

  /** count(*) FILTER (WHERE ...) */
  function StatusCount(alerts: Alerts, status: AlertStatus, now: Time): nat {
    |set f | f in CurrentRevisions(alerts, now) && CountedAs(f, status)|
  }

  /** Every status count is the length of the list of that status. */
  lemma CountsAreListSizes(alerts: Alerts, status: AlertStatus, now: Time)
    ensures StatusCount(alerts, status, now) == |Listed(alerts, status, now)|
  {
    var counted := set f | f in CurrentRevisions(alerts, now) && CountedAs(f, status);
    var f := (flags: Flags) => flags.key;
    forall key <- Listed(alerts, status, now) ensures exists flags <- counted :: f(flags) == key {
      assert FlagsOf(key, alerts[key], now) in counted;
    }
    SameSize(counted, Listed(alerts, status, now), f);
  }

  // ---- The historical list ----

  predicate EverLive(row: AlertRow) {
    exists n <- row.revisions :: !IsDeleted(row.revisions[n])
  }

  /** The unfiltered rows of listHistoricalAlerts: the lateral join drops alerts that were never live. */
  function HistoricalRows(alerts: Alerts): set<AlertKey> {
    set key | key in WithCurrent(alerts) && EverLive(alerts[key])
      && (!alerts[key].isPresent || IsDeleted(Current(alerts[key])))
  }

  /** Alerts whose every revision is deleted. */
  function NeverLive(alerts: Alerts): set<AlertKey> {
    set key | key in WithCurrent(alerts) && !EverLive(alerts[key])
  }

  /** The unfiltered historical total is the historical status count less the alerts with only deleted revisions. */
  lemma HistoricalTotal(alerts: Alerts, now: Time)
    ensures NeverLive(alerts) <= Listed(alerts, Historical, now)
    ensures |HistoricalRows(alerts)| == StatusCount(alerts, Historical, now) - |NeverLive(alerts)|
  {
    CountsAreListSizes(alerts, Historical, now);
    assert Listed(alerts, Historical, now) == HistoricalRows(alerts) + NeverLive(alerts);
    assert HistoricalRows(alerts) !! NeverLive(alerts);
  }

  // ---- Counts per line and station ----

  /** alert_revision_lines, or alert_revision_impacted_stations, by alert and revision number. */
  type Impacts = set<(AlertKey, nat, string)>

  /** queryImpactAlerts: the present alerts whose current revision impacts the line or station. */
  function ImpactAlerts(alerts: Alerts, impacts: Impacts, id: string, now: Time): set<AlertKey> {
    set key | key in Listed(alerts, Present, now) && (key, alerts[key].current.value, id) in impacts
  }

  /** One row of the joined query: a related station, and an impact, where there is one. */
  datatype JoinRow = JoinRow(station: Option<string>, alert: Option<AlertKey>)

  /** LEFT JOIN keeps a row without a match. */
  function OrNone<T>(list: seq<T>): seq<Option<T>> {
    if list == [] then [None] else seq(|list|, i requires 0 <= i < |list| => Some(list[i]))
  }

  function PairedWith(station: Option<string>, impacted: seq<Option<AlertKey>>): seq<JoinRow> {
    seq(|impacted|, i requires 0 <= i < |impacted| => JoinRow(station, impacted[i]))
  }

  function Product(stations: seq<Option<string>>, impacted: seq<Option<AlertKey>>): seq<JoinRow> {
    if stations == [] then [] else PairedWith(stations[0], impacted) + Product(stations[1..], impacted)
  }

  /** The rows that a line contributes before grouping: its stations times its impacts. */
  function JoinRows(stations: seq<string>, impacted: seq<AlertKey>): seq<JoinRow> {
    Product(OrNone(stations), OrNone(impacted))
  }

  /** count(DISTINCT alert.id) FILTER (WHERE ...) */
  function DistinctAlerts(rows: seq<JoinRow>, alerts: Alerts, status: AlertStatus, now: Time): nat {
    |set row | row in rows && row.alert.Some? && row.alert.value in WithCurrent(alerts)
              && HasStatus(alerts[row.alert.value], status, now) :: row.alert.value|
  }

  lemma {:induction false} ProductPairs(stations: seq<Option<string>>, impacted: seq<Option<AlertKey>>, row: JoinRow)
    ensures row in Product(stations, impacted) <==> row.station in stations && row.alert in impacted
  {
    if stations != [] {
      ProductPairs(stations[1..], impacted, row);
      assert stations == [stations[0]] + stations[1..];
      if row.alert in impacted {
        var i :| 0 <= i < |impacted| && impacted[i] == row.alert;
        assert PairedWith(row.station, impacted)[i] == row;
      }
    }
  }

  lemma OrNoneHolds<T>(list: seq<T>, x: T)
    ensures Some(x) in OrNone(list) <==> x in list
    ensures OrNone(list) != []
  {
    if x in list {
      var i :| 0 <= i < |list| && list[i] == x;
      assert OrNone(list)[i] == Some(x);
    }
  }

  /** Counting distinct alerts over the cross product gives the length of the line's alert list, however many
      stations multiply its rows; the same holds within every status. */
  lemma DistinctIsListLength(alerts: Alerts, impacts: Impacts, id: string, stations: seq<string>,
                             impacted: seq<AlertKey>, status: AlertStatus, now: Time)
    requires forall key :: key in impacted <==> key in ImpactAlerts(alerts, impacts, id, now)
    ensures DistinctAlerts(JoinRows(stations, impacted), alerts, status, now)
         == |ImpactAlerts(alerts, impacts, id, now) * Listed(alerts, status, now)|
    ensures DistinctAlerts(JoinRows(stations, impacted), alerts, Present, now)
         == |ImpactAlerts(alerts, impacts, id, now)|
  {
    JoinedAlerts(alerts, impacts, id, stations, impacted, status, now);
    JoinedAlerts(alerts, impacts, id, stations, impacted, Present, now);
    var listed := ImpactAlerts(alerts, impacts, id, now);
    assert listed * Listed(alerts, Present, now) == listed;
  }

  lemma JoinedAlerts(alerts: Alerts, impacts: Impacts, id: string, stations: seq<string>, impacted: seq<AlertKey>,
                     status: AlertStatus, now: Time)
    requires forall key :: key in impacted <==> key in ImpactAlerts(alerts, impacts, id, now)
    ensures (set row | row in JoinRows(stations, impacted) && row.alert.Some? && row.alert.value in WithCurrent(alerts)
                      && HasStatus(alerts[row.alert.value], status, now) :: row.alert.value)
         == ImpactAlerts(alerts, impacts, id, now) * Listed(alerts, status, now)
  {
    var rows := JoinRows(stations, impacted);
    forall key ensures (exists row <- rows :: row.alert == Some(key)) <==> key in impacted {
      OrNoneHolds(impacted, key);
      if row :| row in rows && row.alert == Some(key) { ProductPairs(OrNone(stations), OrNone(impacted), row); }
      if key in impacted {
        var station := OrNone(stations)[0];
        ProductPairs(OrNone(stations), OrNone(impacted), JoinRow(station, Some(key)));
        assert JoinRow(station, Some(key)) in rows;
      }
    }
  }
}
