/** What the alert tables mean in every state AlertRepository can reach: the consequences of `Valid`. */
module AlertTables {
  import opened Common
  import opened AlertContent
  import opened AlertHistory
  import opened AlertReconciliation

  // ---- As-of reading ----

  ghost predicate Shows(alerts: map<AlertKey, AlertRow>, source: string, entity: string, hash: Fingerprint, t: Time) {
    var key := AlertKey(source, entity);
    key in alerts && exists n <- alerts[key].revisions ::
      VisibleAt(alerts[key].revisions[n], t) && alerts[key].revisions[n].hash == hash
  }

  predicate Says(history: History, entity: string, hash: Fingerprint, t: Time) {
    var seen := SeenAt(history, entity, t);
    seen.Some? && seen.value.hash == hash
  }

  /** At every instant the tables of a source hold exactly the (entity, hash) pairs of the last applied feed
      observed at or before it. */
  lemma TablesAsOf(alerts: map<AlertKey, AlertRow>, histories: map<string, History>, source: string, t: Time)
    requires Replayed(alerts, histories) && Ordered(HistoryOf(histories, source))
    ensures forall entity, hash ::
      Shows(alerts, source, entity, hash, t) <==> Says(HistoryOf(histories, source), entity, hash, t)
  {
    forall entity, hash
      ensures Shows(alerts, source, entity, hash, t) <==> Says(HistoryOf(histories, source), entity, hash, t)
    {
      var key := AlertKey(source, entity);
      assert Represents(RowAt(alerts, key), HistoryOf(histories, key.source), key.entity);
      RowAsOf(alerts, HistoryOf(histories, source), source, entity, hash, t);
    }
  }

  lemma RowAsOf(alerts: map<AlertKey, AlertRow>, history: History, source: string, entity: string, hash: Fingerprint,
                t: Time)
    requires Represents(RowAt(alerts, AlertKey(source, entity)), history, entity) && Ordered(history)
    ensures Shows(alerts, source, entity, hash, t) <==> Says(history, entity, hash, t)
  {
    AsOf(history, entity, t);
    ChainReads(RowAt(alerts, AlertKey(source, entity)), Replay(history, entity), SeenAt(history, entity, t), hash, t);
  }

  lemma ChainReads(row: Option<AlertRow>, chain: seq<Revision>, seen: Option<Sighting>, hash: Fingerprint, t: Time)
    requires ReadsAs(chain, seen, t)
    requires if chain == [] then row.None? else row.Some? && row.value.revisions == Numbered(chain)
    ensures (row.Some? && exists n <- row.value.revisions ::
               VisibleAt(row.value.revisions[n], t) && row.value.revisions[n].hash == hash)
        <==> (seen.Some? && seen.value.hash == hash)
  {
    if row.Some? && seen.Some? && seen.value.hash == hash {
      var i :| 0 <= i < |chain| && VisibleAt(chain[i], t);
      assert row.value.revisions[i + 1] == chain[i];
    }
  }

  /** Never two revisions of one alert at one instant. */
  lemma OneRevisionAtATime(alerts: map<AlertKey, AlertRow>, histories: map<string, History>, key: AlertKey, t: Time)
    requires Replayed(alerts, histories) && Ordered(HistoryOf(histories, key.source)) && key in alerts
    ensures forall m <- alerts[key].revisions, n <- alerts[key].revisions ::
      (VisibleAt(alerts[key].revisions[m], t) && VisibleAt(alerts[key].revisions[n], t)) ==> m == n
  {
    var history := HistoryOf(histories, key.source);
    assert Represents(RowAt(alerts, key), history, key.entity);
    AsOf(history, key.entity, t);
    var chain := Replay(history, key.entity);
    forall m, n | m in alerts[key].revisions && n in alerts[key].revisions
      && VisibleAt(alerts[key].revisions[m], t) && VisibleAt(alerts[key].revisions[n], t)
      ensures m == n
    {
      assert VisibleAt(chain[m - 1], t) && VisibleAt(chain[n - 1], t);
    }
  }

  // ---- The revision chain ----

  /** Numbers 1..n without gaps, the last one current, all others closed, times in order, and the alert row
      in step with both ends of its chain. */
  ghost predicate ChainInvariant(row: AlertRow) {
    && row.current.Some?
    && var last := row.current.value;
    && last >= 1
    && (forall n: nat :: n in row.revisions <==> 1 <= n <= last)
    && (forall n <- row.revisions :: Lived(row.revisions[n]))
    && (forall m, n :: m in row.revisions && n in row.revisions && m < n ==>
          row.revisions[m].closedAt.Some? && row.revisions[m].closedAt.value <= row.revisions[n].firstSeen)
    && (row.isPresent <==> row.revisions[last].closedAt.None?)
    && (row.isPresent <==> row.closedAt.None?)
    && row.closedAt == row.revisions[last].closedAt
    && row.firstSeen == row.revisions[1].firstSeen
    && row.lastSeen == row.revisions[last].lastSeen
  }

  lemma EveryChainHolds(alerts: map<AlertKey, AlertRow>, histories: map<string, History>, key: AlertKey)
    requires Replayed(alerts, histories) && Ordered(HistoryOf(histories, key.source)) && key in alerts
    ensures ChainInvariant(alerts[key])
  {
    var history := HistoryOf(histories, key.source);
    assert Represents(RowAt(alerts, key), history, key.entity);
    ChainShape(history, key.entity);
  }

  /** An alert has a row exactly when some applied feed of its source listed it, and is present exactly when
      the last one did. */
  lemma PresentMeansInLastFeed(alerts: map<AlertKey, AlertRow>, histories: map<string, History>, key: AlertKey)
    requires Replayed(alerts, histories)
    ensures var history := HistoryOf(histories, key.source);
      && (key in alerts <==> exists p :: 0 <= p < |history| && key.entity in history[p].content)
      && (key in alerts && alerts[key].isPresent <==>
            history != [] && key.entity in history[|history| - 1].content)
  {
    var history := HistoryOf(histories, key.source);
    assert Represents(RowAt(alerts, key), history, key.entity);
    ChainIsRunLengthEncoding(history, key.entity);
    EncodingPresence(history, key.entity, Spans(history, key.entity), Replay(history, key.entity));
  }

  lemma EncodingPresence(history: History, entity: string, spans: seq<Span>, chain: seq<Revision>)
    requires Encodes(history, entity, spans, chain)
    ensures chain != [] <==> exists p :: 0 <= p < |history| && entity in history[p].content
    ensures IsOpen(chain) <==> history != [] && entity in history[|history| - 1].content
  {
    var last := |chain| - 1;
    if chain != [] {
      RevisionTimes(history, entity, spans, chain, last);
      RevisionHash(history, entity, spans, chain, last, spans[last].end - 1);
    }
    if p :| 0 <= p < |history| && entity in history[p].content {
      var i := RevisionCovering(history, entity, spans, chain, p);
    }
    if history != [] && entity in history[|history| - 1].content {
      var i := RevisionCovering(history, entity, spans, chain, |history| - 1);
    }
  }

  // ---- Skipping a byte-identical payload ----

  /** The feed is what its payload decodes to. */
  ghost predicate DecodedBy(decode: seq<Byte> -> FeedSummary, feed: Applied) {
    && feed.content == ContentOf(decode(feed.payload.preimage).alerts)
    && Some(feed.observedAt) == ObservationTime(decode(feed.payload.preimage).timestamp, feed.retrievedAt)
  }

  ghost predicate AllDecoded(decode: seq<Byte> -> FeedSummary, history: History) {
    forall feed <- history :: DecodedBy(decode, feed)
  }

  /** A feed is stale exactly if it is older than the one applied last: by timestamp where both have one, else by
      timestamp against the retrieval of the one that has none, and by retrieval where that leaves them level. */
  lemma StaleExactly(decode: seq<Byte> -> FeedSummary, runs: map<int, Run>, histories: map<string, History>, id: int,
                     payload: seq<Byte>, retrievedAt: Time, summary: FeedSummary, last: Applied)
    requires id in runs && runs[id].status == Running && runs[id].archive == Archived && summary.fullDataset
    requires var history := HistoryOf(histories, runs[id].source); history != [] && history[|history| - 1] == last
    requires DecodedBy(decode, last)
    requires summary.timestamp.Some? ==> summary.timestamp.value <= 0x7FFF_FFFF_FFFF_FFFF
    ensures Judge(runs, histories, id, payload, retrievedAt, summary) == SkipAs(Stale) <==>
      match (decode(last.payload.preimage).timestamp, summary.timestamp)
      case (Some(s), Some(s')) => s' < s || (s' == s && retrievedAt < last.retrievedAt)
      case (Some(s), None) =>
        retrievedAt < s * 1_000_000 || (retrievedAt == s * 1_000_000 && retrievedAt < last.retrievedAt)
      case (None, Some(s')) =>
        s' * 1_000_000 < last.retrievedAt || (s' * 1_000_000 == last.retrievedAt && retrievedAt < last.retrievedAt)
      case (None, None) => retrievedAt < last.retrievedAt
  {
  }

  /** The alerts that the tables accept. */
  lemma AcceptableExactly(alerts: seq<AlertSummary>)
    ensures Acceptable(alerts) <==>
      && (forall i, j :: 0 <= i < j < |alerts| ==> alerts[i].entityId != alerts[j].entityId)
      && (forall alert <- alerts :: alert.entityId != "" && alert.unknownBytes == 0)
      && (forall alert <- alerts, period <- alert.periods ::
            && (period.start.Some? ==> period.start.value <= 9_223_372_036_854_775_807)
            && (period.end.Some? ==> period.end.value <= 9_223_372_036_854_775_807))
  {
    forall alert <- alerts
      ensures StorablePeriods(alert) <==> forall period <- alert.periods ::
          && (period.start.Some? ==> period.start.value <= 9_223_372_036_854_775_807)
          && (period.end.Some? ==> period.end.value <= 9_223_372_036_854_775_807)
    {
      forall period <- alert.periods
        ensures StorableTime(period.start) && StorableTime(period.end) <==>
          && (period.start.Some? ==> period.start.value <= 9_223_372_036_854_775_807)
          && (period.end.Some? ==> period.end.value <= 9_223_372_036_854_775_807)
      {
      }
    }
  }

  /** What a feed that is applied looks like, and that it comes from a complete feed of an archived attempt that is
      still running. Anything else is refused or skipped. */
  lemma AppliedExactly(runs: map<int, Run>, histories: map<string, History>, id: int, payload: seq<Byte>,
                       retrievedAt: Time, summary: FeedSummary)
    ensures summary.timestamp.Some? && summary.timestamp.value > 0x7FFF_FFFF_FFFF_FFFF ==>
      Judge(runs, histories, id, payload, retrievedAt, summary) == Refused
    ensures !summary.fullDataset || id !in runs || runs[id].status != Running || runs[id].archive != Archived ==>
      Judge(runs, histories, id, payload, retrievedAt, summary) == Refused
    ensures var verdict := Judge(runs, histories, id, payload, retrievedAt, summary);
      verdict.Apply? ==>
        && Acceptable(summary.alerts)
        && verdict.feed.run == id && verdict.feed.retrievedAt == retrievedAt && verdict.feed.payload == Sha256(payload)
        && verdict.feed.observedAt ==
             (if summary.timestamp.Some? then summary.timestamp.value * 1_000_000 else retrievedAt)
        && (forall entity :: entity in verdict.feed.content <==>
              exists alert <- summary.alerts :: alert.entityId == entity)
        && (forall alert <- summary.alerts :: verdict.feed.content[alert.entityId] == Hashed(alert))
  {
    if Judge(runs, histories, id, payload, retrievedAt, summary).Apply? { ContentListed(summary.alerts); }
  }

  /** Where nothing stands against it a feed is not refused, and one that is not stale is a duplicate exactly if it
      has a timestamp and repeats the payload of the run that comes first by observation, retrieval and id. */
  lemma DuplicateExactly(runs: map<int, Run>, histories: map<string, History>, id: int, payload: seq<Byte>,
                         retrievedAt: Time, summary: FeedSummary, p: nat)
    requires id in runs && runs[id].status == Running && runs[id].archive == Archived && summary.fullDataset
    requires summary.timestamp.Some? ==> summary.timestamp.value <= 0x7FFF_FFFF_FFFF_FFFF
    requires var history := HistoryOf(histories, runs[id].source);
      && IsLatest(history, p) && (forall i, j :: 0 <= i < j < |history| ==> history[i].run != history[j].run)
    ensures var verdict := Judge(runs, histories, id, payload, retrievedAt, summary);
      && (Acceptable(summary.alerts) ==> verdict != Refused)
      && (verdict != SkipAs(Stale) ==>
            (verdict == SkipAs(Duplicate) <==>
               summary.timestamp.Some?
               && HistoryOf(histories, runs[id].source)[p].payload == Sha256(payload)))
  {
    LatestIsUnique(HistoryOf(histories, runs[id].source), payload, p);
  }

  /** The first feed of a source is never skipped. */
  lemma FirstIsNotSkipped(runs: map<int, Run>, histories: map<string, History>, id: int, payload: seq<Byte>,
                          retrievedAt: Time, summary: FeedSummary)
    requires id in runs && HistoryOf(histories, runs[id].source) == []
    ensures !Judge(runs, histories, id, payload, retrievedAt, summary).SkipAs?
  {
  }

  lemma ContentListed(alerts: seq<AlertSummary>)
    requires Acceptable(alerts)
    ensures forall entity :: entity in ContentOf(alerts) <==> exists alert <- alerts :: alert.entityId == entity
    ensures forall alert <- alerts :: ContentOf(alerts)[alert.entityId] == Hashed(alert)
  {
    forall alert <- alerts
      ensures alert.entityId in ContentOf(alerts) && ContentOf(alerts)[alert.entityId] == Hashed(alert)
    {
      var i :| 0 <= i < |alerts| && alerts[i] == alert;
      ContentOfDistinct(alerts, i);
    }
    forall entity <- ContentOf(alerts) ensures exists alert <- alerts :: alert.entityId == entity {
      var i := WhichAlert(alerts, entity);
      assert alerts[i] in alerts;
    }
  }

  lemma SameContentShared(a: Applied, b: Applied, c: Applied)
    requires a.content == c.content
    ensures SameContent(a, b) <==> SameContent(b, c)
  {
  }

  /** Applying a payload again, instead of skipping it as a duplicate of feed `p`, changes no chain exactly if
      feed `p` says what the feed applied last says. */
  lemma DuplicateSkipExact(decode: seq<Byte> -> FeedSummary, history: History, p: nat, again: Applied)
    requires Ordered(history) && IsLatest(history, p) && history[p].payload == again.payload
    requires DecodedBy(decode, history[p]) && DecodedBy(decode, again)
    requires decode(again.payload.preimage).timestamp.Some?
    ensures again.content == history[p].content && again.observedAt == history[|history| - 1].observedAt
    ensures ChangesNothing(history, again) <==> SameContent(history[p], history[|history| - 1])
  {
    LatestHasLastTimes(history, p);
    ReapplyingExact(history, again);
    SameContentShared(history[p], history[|history| - 1], again);
  }

  /** The feed a skipped payload would have been. */
  function Again(id: int, payload: seq<Byte>, retrievedAt: Time, summary: FeedSummary): Applied
    requires ObservationTime(summary.timestamp, retrievedAt).Some?
  {
    Applied(id, ObservationTime(summary.timestamp, retrievedAt).value, retrievedAt, Sha256(payload),
            ContentOf(summary.alerts))
  }

  lemma DuplicateVerdict(runs: map<int, Run>, histories: map<string, History>, id: int, payload: seq<Byte>,
                         retrievedAt: Time, summary: FeedSummary)
    requires Judge(runs, histories, id, payload, retrievedAt, summary) == SkipAs(Duplicate)
    ensures id in runs && RepeatsLatest(HistoryOf(histories, runs[id].source), payload)
    ensures summary.timestamp.Some? && ObservationTime(summary.timestamp, retrievedAt).Some?
  {
  }

  /** Applying the feed would change no chain. */
  ghost predicate ChangesNothing(history: History, again: Applied) {
    forall entity :: Replay(history + [again], entity) == Replay(history, entity)
  }

  /** The same of the verdict of a reconciliation. The condition always holds when no run that shares both times
      with the feed applied last has a larger id: then the recognised feed is the one applied last. */
  lemma SkipVerdictExact(decode: seq<Byte> -> FeedSummary, runs: map<int, Run>, histories: map<string, History>,
                         history: History, id: int, payload: seq<Byte>, retrievedAt: Time)
    returns (p: nat)
    requires Judge(runs, histories, id, payload, retrievedAt, decode(payload)) == SkipAs(Duplicate)
    requires id in runs && history == HistoryOf(histories, runs[id].source)
    requires RunsMatch(runs, history, runs[id].source) && AllDecoded(decode, history)
    ensures ObservationTime(decode(payload).timestamp, retrievedAt).Some?
    ensures IsLatest(history, p) && history[p].payload == Sha256(payload)
    ensures ChangesNothing(history, Again(id, payload, retrievedAt, decode(payload)))
        <==> SameContent(history[p], history[|history| - 1])
    ensures NoLargerTie(history) ==> p == |history| - 1 && SameContent(history[p], history[|history| - 1])
  {
    DuplicateVerdict(runs, histories, id, payload, retrievedAt, decode(payload));
    p := RecognisedExact(decode, history, id, payload, retrievedAt);
  }

  lemma RecognisedExact(decode: seq<Byte> -> FeedSummary, history: History, id: int, payload: seq<Byte>,
                        retrievedAt: Time)
    returns (p: nat)
    requires RepeatsLatest(history, payload) && Ordered(history) && AllDecoded(decode, history)
    requires forall i, j :: 0 <= i < j < |history| ==> history[i].run != history[j].run
    requires decode(payload).timestamp.Some? && ObservationTime(decode(payload).timestamp, retrievedAt).Some?
    ensures IsLatest(history, p) && history[p].payload == Sha256(payload)
    ensures ChangesNothing(history, Again(id, payload, retrievedAt, decode(payload)))
        <==> SameContent(history[p], history[|history| - 1])
    ensures NoLargerTie(history) ==> p == |history| - 1 && SameContent(history[p], history[|history| - 1])
  {
    p :| IsLatest(history, p) && history[p].payload == Sha256(payload);
    assert history[p] in history && DecodedBy(decode, history[p]);
    DuplicateSkipExact(decode, history, p, Again(id, payload, retrievedAt, decode(payload)));
    LatestIsLastApplied(history, p);
  }

  predicate SameTimes(a: Applied, b: Applied) {
    a.observedAt == b.observedAt && a.retrievedAt == b.retrievedAt
  }

  /** No run that shares both times with the feed applied last has a larger id. */
  ghost predicate NoLargerTie(history: History)
    requires history != []
  {
    forall q :: 0 <= q < |history| && SameTimes(history[q], history[|history| - 1]) ==>
      history[q].run <= history[|history| - 1].run
  }

  /** Where the chains would not change, no row would differ except in last_seen_run_id. */
  lemma SkippedRowsKept(history: History, again: Applied, row: Option<AlertRow>, entity: string)
    requires Replay(history + [again], entity) == Replay(history, entity)
    requires Represents(row, history, entity)
    ensures match row
      case None => Represents(None, history + [again], entity)
      case Some(stored) => exists run :: Represents(Some(stored.(lastRun := run)), history + [again], entity)
  {
    ReplayStep(history, again, entity);
    if row.Some? {
      var run := LastSeenRun(history + [again], entity);
      assert Represents(Some(row.value.(lastRun := run.value)), history + [again], entity);
    }
  }

  /** With the tie the larger run id wins: the payload of a feed that showed an alert is skipped as a duplicate
      although a later feed with the same two times no longer had the alert. */
  lemma TieSkipsAChange(runs: map<int, Run>, histories: map<string, History>, id: int, shown: Applied, gone: Applied,
                        entity: string, summary: FeedSummary)
    requires id in runs && runs[id].status == Running && runs[id].archive == Archived
    requires HistoryOf(histories, runs[id].source) == [shown, gone]
    requires shown.observedAt == gone.observedAt && shown.retrievedAt == gone.retrievedAt && shown.run > gone.run
    requires entity in shown.content && entity !in gone.content
    requires summary.fullDataset && summary.timestamp.Some? && ContentOf(summary.alerts) == shown.content
    requires ObservationTime(summary.timestamp, shown.retrievedAt) == Some(shown.observedAt)
    ensures Judge(runs, histories, id, shown.payload.preimage, shown.retrievedAt, summary) == SkipAs(Duplicate)
    ensures !ChangesNothing([shown, gone], Again(id, shown.payload.preimage, shown.retrievedAt, summary))
  {
    var history := [shown, gone];
    assert IsLatest(history, 0) && Sha256(shown.payload.preimage) == shown.payload;
    assert RepeatsLatest(history, shown.payload.preimage);
    ChangeShows(history, Again(id, shown.payload.preimage, shown.retrievedAt, summary), entity);
  }

  /** A started attempt with its archive linked. */
  method Fetch(repository: AlertRepository, source: string) returns (id: int)
    requires repository.Valid()
    modifies repository
    ensures repository.Valid() && id == old(repository.nextRun) && repository.nextRun == id + 1
    ensures repository.runs == old(repository.runs)[id := Run(source, Running, Archived, None, None, None, false, None)]
    ensures repository.histories == old(repository.histories) && repository.doubt == old(repository.doubt)
  {
    id := repository.StartAlertRun(source);
    var ok := repository.LinkArchive(id);
  }

  predicate Waits(runs: map<int, Run>, id: int, source: string) {
    id in runs && runs[id] == Run(source, Running, Archived, None, None, None, false, None)
  }

  /** Three attempts on empty tables. */
  method FetchThree(source: string) returns (repository: AlertRepository, first: int, second: int, third: int)
    ensures fresh(repository) && repository.Valid() && repository.doubt.None? && repository.histories == map[]
    ensures first < second < third
    ensures Waits(repository.runs, first, source) && Waits(repository.runs, second, source)
    ensures Waits(repository.runs, third, source)
  {
    repository := new AlertRepository();
    first := Fetch(repository, source);
    second := Fetch(repository, source);
    third := Fetch(repository, source);
  }

  /** A feed that is neither stale nor a duplicate is applied. */
  method Take(repository: AlertRepository, id: int, payload: seq<Byte>, retrievedAt: Time, summary: FeedSummary)
    requires repository.Valid() && repository.doubt.None?
    requires ObservationTime(summary.timestamp, retrievedAt).Some?
    requires Judge(repository.runs, repository.histories, id, payload, retrievedAt, summary)
          == Apply(Again(id, payload, retrievedAt, summary))
    modifies repository
    ensures repository.Valid() && repository.doubt.None?
    ensures forall other <- old(repository.runs) :: other != id ==>
      other in repository.runs && repository.runs[other] == old(repository.runs)[other]
    ensures old(id in repository.runs) && var source := old(repository.runs)[id].source;
      HistoryOf(repository.histories, source)
        == HistoryOf(old(repository.histories), source) + [Again(id, payload, retrievedAt, summary)]
  {
    var r, skipped := repository.CompleteAlertRun(id, payload, retrievedAt, summary, CALM);
  }

  lemma FirstIsApplied(runs: map<int, Run>, histories: map<string, History>, id: int, payload: seq<Byte>,
                       retrievedAt: Time, summary: FeedSummary)
    requires id in runs && runs[id].status == Running && runs[id].archive == Archived
    requires summary.fullDataset && ObservationTime(summary.timestamp, retrievedAt).Some? && Acceptable(summary.alerts)
    requires HistoryOf(histories, runs[id].source) == []
    ensures Judge(runs, histories, id, payload, retrievedAt, summary) == Apply(Again(id, payload, retrievedAt, summary))
  {
  }

  lemma TieIsApplied(runs: map<int, Run>, histories: map<string, History>, id: int, payload: seq<Byte>,
                     retrievedAt: Time, summary: FeedSummary, before: Applied)
    requires id in runs && runs[id].status == Running && runs[id].archive == Archived
    requires summary.fullDataset && Acceptable(summary.alerts)
    requires ObservationTime(summary.timestamp, retrievedAt) == Some(before.observedAt)
    requires HistoryOf(histories, runs[id].source) == [before]
    requires before.retrievedAt == retrievedAt && before.payload != Sha256(payload)
    ensures Judge(runs, histories, id, payload, retrievedAt, summary) == Apply(Again(id, payload, retrievedAt, summary))
  {
    forall p | IsLatest([before], p) ensures [before][p].payload != Sha256(payload) {}
  }

  /** The code reaches such a state from empty tables: three attempts, of which the second is applied first, then
      the first with the same two times, and the third brings the payload of the second again. */
  method ReachTie(decode: seq<Byte> -> FeedSummary, source: string, a: seq<Byte>, b: seq<Byte>, alert: AlertSummary,
                  seconds: nat, retrievedAt: Time)
    returns (repository: AlertRepository, id: int, ghost shown: Applied, ghost gone: Applied)
    requires seconds <= MAX_INT64 && Storable(alert) && Hashable(alert)
    requires decode(a) == FeedSummary(true, Some(seconds), [alert]) && decode(b) == FeedSummary(true, Some(seconds), [])
    ensures fresh(repository) && repository.Valid()
    ensures Judge(repository.runs, repository.histories, id, a, retrievedAt, decode(a)) == SkipAs(Duplicate)
    ensures HistoryOf(repository.histories, source) == [shown, gone]
    ensures DecodedBy(decode, shown) && DecodedBy(decode, gone)
    ensures !ChangesNothing([shown, gone], Again(id, a, retrievedAt, decode(a)))
  {
    var first, second;
    repository, first, second, id := FetchThree(source);
    shown, gone := Again(second, a, retrievedAt, decode(a)), Again(first, b, retrievedAt, decode(b));
    OneAlert(alert);
    FirstIsApplied(repository.runs, repository.histories, second, a, retrievedAt, decode(a));
    Take(repository, second, a, retrievedAt, decode(a));
    TieIsApplied(repository.runs, repository.histories, first, b, retrievedAt, decode(b), shown);
    Take(repository, first, b, retrievedAt, decode(b));
    assert [shown] + [gone] == [shown, gone];
    TieSkipsAChange(repository.runs, repository.histories, id, shown, gone, alert.entityId, decode(a));
  }

  lemma OneAlert(alert: AlertSummary)
    requires Storable(alert) && Hashable(alert)
    ensures ContentOf([alert]) == map[alert.entityId := Hashed(alert)] && Acceptable([alert])
  {
    assert [alert][..0] == [];
  }

  // ---- Feeds that say the same in another order ----

  /** The same alerts, each possibly with its collections in another order. */
  ghost predicate SameAlerts(a: seq<AlertSummary>, b: seq<AlertSummary>) {
    && |a| == |b|
    && forall i :: 0 <= i < |a| ==> a[i].entityId == b[i].entityId && Fingerprinted(a[i]) == Fingerprinted(b[i])
  }

  lemma SameAlertSameHash(a: seq<AlertSummary>, b: seq<AlertSummary>, entity: string)
    requires SameAlerts(a, b) && DistinctIds(a) && DistinctIds(b) && entity in ContentOf(a)
    ensures entity in ContentOf(b) && ContentOf(a)[entity].hash == ContentOf(b)[entity].hash
  {
    var i := WhichAlert(a, entity);
    ContentOfDistinct(a, i);
    ContentOfDistinct(b, i);
  }

  lemma SameAlertsSameHashes(a: seq<AlertSummary>, b: seq<AlertSummary>)
    requires SameAlerts(a, b) && DistinctIds(a) && DistinctIds(b)
    ensures SameHashes(ContentOf(a), ContentOf(b))
  {
    var contentA, contentB := ContentOf(a), ContentOf(b);
    forall entity <- contentA ensures entity in contentB && contentA[entity].hash == contentB[entity].hash {
      SameAlertSameHash(a, b, entity);
    }
    forall entity <- contentB ensures entity in contentA {
      SameAlertSameHash(b, a, entity);
    }
  }

  /** Reordering the alerts of a feed, and the collections inside each of them, gives a feed of the same
      content, so by AlertHistory.OnlyHashesMatter the same tables up to stored positions. */
  lemma ReorderedFeedSameContent(a: seq<AlertSummary>, b: seq<AlertSummary>, b': seq<AlertSummary>,
                                 feed: Applied, feed': Applied)
    requires SameAlerts(a, b) && DistinctIds(a) && DistinctIds(b) && DistinctIds(b') && multiset(b) == multiset(b')
    requires feed.content == ContentOf(a) && feed'.content == ContentOf(b')
    ensures SameContent(feed, feed')
  {
    ContentIgnoresOrder(b, b');
    SameAlertsSameHashes(a, b);
  }

  // ---- Every run of the system ----

  /** One step: whatever attempt it belongs to, and in whatever order steps come. */
  datatype Step =
    | Start(source: string)
    | Link(run: int)
    | Fail(run: int, fetch: Option<(Time, seq<Byte>)>)
    | Complete(run: int, payload: seq<Byte>, retrievedAt: Time, summary: FeedSummary, answers: Answers)
    | Settle(applies: bool)

  /** The run whose row a step may change. */
  predicate Concerns(step: Step, doubt: Option<Transaction>, id: int) {
    match step
    case Start(_) => false
    case Settle(_) => doubt.Some? && doubt.value.id == id
    case _ => step.run == id
  }

  /** Every applied feed, and the one an undecided commit would apply, is what its payload decodes to. */
  ghost predicate Decoded(decode: seq<Byte> -> FeedSummary, histories: map<string, History>,
                          doubt: Option<Transaction>) {
    && (forall source: string :: AllDecoded(decode, HistoryOf(histories, source)))
    && (doubt.Some? && doubt.value.feed.Some? ==> DecodedBy(decode, doubt.value.feed.value))
  }

  /** The summary of the step is what its payload decodes to. */
  predicate DecodesStep(decode: seq<Byte> -> FeedSummary, step: Step) {
    step.Complete? ==> step.summary == decode(step.payload)
  }

  predicate DecodesAll(decode: seq<Byte> -> FeedSummary, steps: seq<Step>) {
    forall step <- steps :: DecodesStep(decode, step)
  }

  /** The step leaves the rows of other runs, and other undecided commits, as they are. */
  twostate predicate StaysLocal(repository: AlertRepository, step: Step)
    reads repository
  {
    && (forall id <- old(repository.runs) :: !Concerns(step, old(repository.doubt), id) ==>
          id in repository.runs && repository.runs[id] == old(repository.runs)[id])
    && (repository.doubt.Some? && repository.doubt != old(repository.doubt) ==>
          step.Complete? && repository.doubt.value.id == step.run)
  }

  lemma DecodedNext(decode: seq<Byte> -> FeedSummary, histories: map<string, History>, source: string, feed: Applied)
    requires Decoded(decode, histories, None) && DecodedBy(decode, feed)
    ensures Decoded(decode, histories[source := HistoryOf(histories, source) + [feed]], None)
  {
    var after := histories[source := HistoryOf(histories, source) + [feed]];
    forall s: string ensures AllDecoded(decode, HistoryOf(after, s)) {
      assert AllDecoded(decode, HistoryOf(histories, s));
    }
  }

  lemma DecodedAfter(decode: seq<Byte> -> FeedSummary, runs: map<int, Run>, histories: map<string, History>, id: int,
                     payload: seq<Byte>, retrievedAt: Time, after: map<string, History>, doubt: Option<Transaction>)
    requires Decoded(decode, histories, None)
    requires var verdict := Judge(runs, histories, id, payload, retrievedAt, decode(payload));
      && (doubt.Some? ==> doubt.value.feed == FeedOf(verdict))
      && (after != histories ==>
            && verdict.Apply? && id in runs
            && after == histories[runs[id].source := HistoryOf(histories, runs[id].source) + [verdict.feed]])
    ensures Decoded(decode, after, doubt)
  {
    var verdict := Judge(runs, histories, id, payload, retrievedAt, decode(payload));
    if verdict.Apply? {
      assert DecodedBy(decode, verdict.feed);
      if after != histories { DecodedNext(decode, histories, runs[id].source, verdict.feed); }
    }
  }

  method TakeComplete(repository: AlertRepository, step: Step, ghost decode: seq<Byte> -> FeedSummary)
    requires repository.Valid() && repository.doubt.None? && step.Complete?
    modifies repository
    ensures repository.Valid() && StaysLocal(repository, step)
    ensures old(Decoded(decode, repository.histories, repository.doubt)) && DecodesStep(decode, step) ==>
      Decoded(decode, repository.histories, repository.doubt)
  {
    ghost var runs, histories := repository.runs, repository.histories;
    var r, skipped :=
      repository.CompleteAlertRun(step.run, step.payload, step.retrievedAt, step.summary, step.answers);
    if Decoded(decode, histories, None) && DecodesStep(decode, step) {
      DecodedAfter(decode, runs, histories, step.run, step.payload, step.retrievedAt, repository.histories,
                   repository.doubt);
    }
  }

  method TakeSettle(repository: AlertRepository, step: Step, ghost decode: seq<Byte> -> FeedSummary)
    requires repository.Valid() && step.Settle?
    modifies repository
    ensures repository.Valid() && StaysLocal(repository, step)
    ensures old(Decoded(decode, repository.histories, repository.doubt)) ==>
      Decoded(decode, repository.histories, repository.doubt)
  {
    ghost var doubt, histories := repository.doubt, repository.histories;
    repository.Decide(step.applies);
    if old(Decoded(decode, repository.histories, repository.doubt)) {
      if doubt.Some? && doubt.value.feed.Some? && step.applies {
        DecodedNext(decode, histories, doubt.value.row.source, doubt.value.feed.value);
      }
    }
  }

  /** A reconciliation waits for the advisory lock of an undecided commit, and a failing update for the lock of its
      run: their steps come after the decision. */
  method TakeStep(repository: AlertRepository, step: Step, ghost decode: seq<Byte> -> FeedSummary)
    requires repository.Valid()
    modifies repository
    ensures repository.Valid() && StaysLocal(repository, step)
    ensures old(Decoded(decode, repository.histories, repository.doubt)) && DecodesStep(decode, step) ==>
      Decoded(decode, repository.histories, repository.doubt)
  {
    match step {
      case Start(source) =>
        var run := repository.StartAlertRun(source);
      case Link(run) =>
        var ok := repository.LinkArchive(run);
      case Fail(run, fetch) =>
        if repository.doubt.None? || repository.doubt.value.id != run {
          var ok := repository.FailAlertRun(run, fetch);
        }
      case Complete(_, _, _, _, _) =>
        if repository.doubt.None? { TakeComplete(repository, step, decode); }
      case Settle(_) =>
        TakeSettle(repository, step, decode);
    }
  }

  /** After any sequence of steps of any attempts, at every instant the tables of every source show exactly what
      the last applied feed observed by then showed, every chain holds together, and, where summaries are decoded
      payloads, so is every applied feed. */
  method TakeSteps(repository: AlertRepository, steps: seq<Step>, ghost decode: seq<Byte> -> FeedSummary)
    requires repository.Valid()
    modifies repository
    ensures repository.Valid()
    ensures forall source, entity, hash, t :: Shows(repository.alerts, source, entity, hash, t) <==>
              Says(HistoryOf(repository.histories, source), entity, hash, t)
    ensures forall key <- repository.alerts :: ChainInvariant(repository.alerts[key])
    ensures old(Decoded(decode, repository.histories, repository.doubt)) && DecodesAll(decode, steps) ==>
      Decoded(decode, repository.histories, repository.doubt)
  {
    for i := 0 to |steps|
      invariant repository.Valid()
      invariant old(Decoded(decode, repository.histories, repository.doubt)) && DecodesAll(decode, steps) ==>
        Decoded(decode, repository.histories, repository.doubt)
    {
      assert steps[i] in steps;
      TakeStep(repository, steps[i], decode);
    }
    forall key <- repository.alerts ensures ChainInvariant(repository.alerts[key]) {
      assert RunsMatch(repository.runs, HistoryOf(repository.histories, key.source), key.source);
      EveryChainHolds(repository.alerts, repository.histories, key);
    }
    forall source, entity, hash, t
      ensures Shows(repository.alerts, source, entity, hash, t) <==>
              Says(HistoryOf(repository.histories, source), entity, hash, t)
    {
      assert RunsMatch(repository.runs, HistoryOf(repository.histories, source), source);
      TablesAsOf(repository.alerts, repository.histories, source, t);
    }
  }
}
