/** The revision chain of one alert as a compression of the feeds that were applied.

    `Replay` states what the tables must hold after a sequence of applied feeds; AlertRepository keeps
    its tables equal to it. Here the chain is shown to be the run-length encoding of the history, and
    the shape of the chain and the as-of reading of the tables follow from that. */
module AlertHistory {
  import opened Common
  import opened AlertContent

  /** A row of service_alert_revisions, without its key. */
  datatype Revision = Revision(
    body: AlertSummary, hash: Fingerprint, firstSeen: Time, lastSeen: Time, closedAt: Option<Time>,
    openedRun: int, closedRun: Option<int>)

  /** An alert of a feed together with its content hash. */
  datatype Sighting = Sighting(alert: AlertSummary, hash: Fingerprint)

  function Hashed(alert: AlertSummary): Sighting {
    Sighting(alert, Fingerprinted(alert))
  }

  /** The stored hash tells apart exactly the alerts that do not say the same. */
  lemma HashTellsApart(a: AlertSummary, b: AlertSummary)
    ensures Hashed(a).hash == Hashed(b).hash <==> SaysTheSame(a, b)
    ensures Hashed(a).alert == a && Hashed(a).hash.deleted == a.deleted
    ensures Hashed(a).hash.cause == a.cause && Hashed(a).hash.effect == a.effect
    ensures Hashed(a).hash.severity == a.severity
    ensures Hashed(a).hash.header == multiset(a.header) && Hashed(a).hash.description == multiset(a.description)
  {
  }

  /** A feed whose reconciliation was committed. */
  datatype Applied = Applied(
    run: int, observedAt: Time, retrievedAt: Time, payload: Digest, content: map<string, Sighting>)

  type History = seq<Applied>

  function Observed(feed: Applied, entity: string): Option<Sighting> {
    if entity in feed.content then Some(feed.content[entity]) else None
  }

  function Closed(revision: Revision, run: int, at: Time): Revision {
    revision.(closedAt := Some(at), closedRun := Some(run))
  }

  function Opened(seen: Sighting, run: int, at: Time): Revision {
    Revision(seen.alert, seen.hash, at, at, None, run, None)
  }

  predicate IsOpen(chain: seq<Revision>) {
    |chain| > 0 && chain[|chain| - 1].closedAt.None?
  }

  function CloseLast(chain: seq<Revision>, run: int, at: Time): seq<Revision> {
    if IsOpen(chain) then chain[|chain| - 1 := Closed(chain[|chain| - 1], run, at)] else chain
  }

  /** What one applied feed does to the chain of one alert. */
  function Observe(chain: seq<Revision>, run: int, at: Time, seen: Option<Sighting>): seq<Revision> {
    match seen
    case None => CloseLast(chain, run, at)
    case Some(sighting) =>
      if IsOpen(chain) && chain[|chain| - 1].hash == sighting.hash
      then chain[|chain| - 1 := chain[|chain| - 1].(lastSeen := at)]
      else CloseLast(chain, run, at) + [Opened(sighting, run, at)]
  }

  function Replay(history: History, entity: string): (chain: seq<Revision>) {
    if history == [] then []
    else
      var feed := history[|history| - 1];
      Observe(Replay(history[..|history| - 1], entity), feed.run, feed.observedAt, Observed(feed, entity))
  }

  lemma ReplayStep(history: History, feed: Applied, entity: string)
    ensures Replay(history + [feed], entity)
         == Observe(Replay(history, entity), feed.run, feed.observedAt, Observed(feed, entity))
    ensures LastSeenRun(history + [feed], entity)
         == (if entity in feed.content then Some(feed.run) else LastSeenRun(history, entity))
  {
    assert (history + [feed])[..|history|] == history;
  }

  /** The run of the last feed that showed the entity. */
  function LastSeenRun(history: History, entity: string): Option<int> {
    if history == [] then None
    else if entity in history[|history| - 1].content then Some(history[|history| - 1].run)
    else LastSeenRun(history[..|history| - 1], entity)
  }

  /** Feeds are applied in the lexicographic order of observation and retrieval time. */
  predicate NotOlder(a: Applied, b: Applied) {
    a.observedAt < b.observedAt || (a.observedAt == b.observedAt && a.retrievedAt <= b.retrievedAt)
  }

  ghost predicate Ordered(history: History) {
    forall i, j :: 0 <= i <= j < |history| ==> NotOlder(history[i], history[j])
  }

  // ---- The chain is the run-length encoding of the history ----

  /** Positions start, ..., end - 1 of the history. */
  datatype Span = Span(start: nat, end: nat)

  function Spans(history: History, entity: string): (spans: seq<Span>) {
    if history == [] then []
    else
      var n := |history| - 1;
      var before := history[..n];
      var spans, chain := Spans(before, entity), Replay(before, entity);
      match Observed(history[n], entity)
      case None => spans
      case Some(sighting) =>
        if IsOpen(chain) && chain[|chain| - 1].hash == sighting.hash && |spans| > 0
        then spans[|spans| - 1 := spans[|spans| - 1].(end := n + 1)]
        else spans + [Span(n, n + 1)]
  }

  /** One revision records one run of equal observations. */
  ghost predicate Records(history: History, entity: string, span: Span, revision: Revision) {
    && span.start < span.end <= |history|
    && (forall p :: span.start <= p < span.end ==>
          entity in history[p].content && history[p].content[entity].hash == revision.hash)
    && revision.body == history[span.start].content[entity].alert
    && revision.firstSeen == history[span.start].observedAt
    && revision.openedRun == history[span.start].run
    && revision.lastSeen == history[span.end - 1].observedAt
    && revision.closedAt == (if span.end == |history| then None else Some(history[span.end].observedAt))
    && revision.closedRun == (if span.end == |history| then None else Some(history[span.end].run))
  }

  ghost predicate AllRecorded(history: History, entity: string, spans: seq<Span>, chain: seq<Revision>) {
    && |spans| == |chain|
    && forall i :: 0 <= i < |spans| ==> Records(history, entity, spans[i], chain[i])
  }

  ghost predicate InOrder(spans: seq<Span>) {
    forall i, j :: 0 <= i < j < |spans| ==> spans[i].end <= spans[j].start
  }

  /** Runs that touch differ, so every run is as long as it can be. */
  ghost predicate Maximal(spans: seq<Span>, chain: seq<Revision>)
    requires |spans| == |chain|
  {
    forall i, j :: 0 <= i < j < |spans| && j == i + 1 && spans[i].end == spans[j].start ==>
      chain[i].hash != chain[j].hash
  }

  ghost predicate Covered(spans: seq<Span>, p: int) {
    exists i :: 0 <= i < |spans| && spans[i].start <= p < spans[i].end
  }

  ghost predicate Complete(history: History, entity: string, spans: seq<Span>) {
    forall p {:trigger Covered(spans, p)} ::
      0 <= p < |history| && entity in history[p].content ==> Covered(spans, p)
  }

  ghost predicate Encodes(history: History, entity: string, spans: seq<Span>, chain: seq<Revision>) {
    && AllRecorded(history, entity, spans, chain)
    && InOrder(spans)
    && Maximal(spans, chain)
    && Complete(history, entity, spans)
  }

  /** Appending a feed leaves the record of an already closed run as it is. */
  lemma RecordsKept(before: History, feed: Applied, entity: string, span: Span, revision: Revision)
    requires Records(before, entity, span, revision) && span.end < |before|
    ensures Records(before + [feed], entity, span, revision)
  {
  }

  /** An open run is closed by the appended feed, or extended by it. */
  lemma RecordsClosed(before: History, feed: Applied, entity: string, span: Span, revision: Revision)
    requires Records(before, entity, span, revision) && span.end == |before|
    ensures Records(before + [feed], entity, span, Closed(revision, feed.run, feed.observedAt))
    ensures entity in feed.content && feed.content[entity].hash == revision.hash ==>
              Records(before + [feed], entity, span.(end := |before| + 1), revision.(lastSeen := feed.observedAt))
  {
  }

  /** Only the last run can reach the end of the history. */
  lemma OpenRunIsLast(history: History, entity: string, spans: seq<Span>, chain: seq<Revision>)
    requires AllRecorded(history, entity, spans, chain) && InOrder(spans)
    ensures forall i :: 0 <= i < |spans| - 1 ==> spans[i].end < |history|
    ensures |spans| > 0 ==> (IsOpen(chain) <==> spans[|spans| - 1].end == |history|)
  {
    forall i | 0 <= i < |spans| - 1 ensures spans[i].end < |history| {
      assert Records(history, entity, spans[i + 1], chain[i + 1]);
      assert spans[i].end <= spans[i + 1].start;
    }
    if |spans| > 0 {
      assert Records(history, entity, spans[|spans| - 1], chain[|chain| - 1]);
    }
  }

  lemma CompleteKept(before: History, feed: Applied, entity: string, spans: seq<Span>, spans': seq<Span>)
    requires Complete(before, entity, spans) && |spans| <= |spans'|
    requires forall i :: 0 <= i < |spans| ==> spans'[i].start == spans[i].start && spans[i].end <= spans'[i].end
    requires entity in feed.content ==> Covered(spans', |before|)
    ensures Complete(before + [feed], entity, spans')
  {
    var history := before + [feed];
    forall p | 0 <= p < |history| && entity in history[p].content ensures Covered(spans', p) {
      if p < |before| {
        assert Covered(spans, p);
        var i :| 0 <= i < |spans| && spans[i].start <= p < spans[i].end;
        assert spans'[i].start <= p < spans'[i].end;
      }
    }
  }

  lemma ShapeWithLast(spans: seq<Span>, chain: seq<Revision>, span: Span, revision: Revision)
    requires |spans| == |chain| > 0 && InOrder(spans) && Maximal(spans, chain)
    requires span.start == spans[|spans| - 1].start && revision.hash == chain[|chain| - 1].hash
    ensures InOrder(spans[|spans| - 1 := span])
    ensures Maximal(spans[|spans| - 1 := span], chain[|chain| - 1 := revision])
  {
  }

  lemma ShapeWithNew(spans: seq<Span>, chain: seq<Revision>, span: Span, revision: Revision)
    requires |spans| == |chain| && InOrder(spans) && Maximal(spans, chain)
    requires forall i :: 0 <= i < |spans| ==> spans[i].end <= span.start
    requires |spans| > 0 && spans[|spans| - 1].end == span.start ==> chain[|chain| - 1].hash != revision.hash
    ensures InOrder(spans + [span]) && Maximal(spans + [span], chain + [revision])
  {
  }

  lemma RunsExtend(before: History, feed: Applied, entity: string, spans: seq<Span>, chain: seq<Revision>)
    requires Encodes(before, entity, spans, chain)
    requires IsOpen(chain) && entity in feed.content
    requires chain[|chain| - 1].hash == feed.content[entity].hash
    ensures Encodes(before + [feed], entity,
              spans[|spans| - 1 := spans[|spans| - 1].(end := |before| + 1)],
              chain[|chain| - 1 := chain[|chain| - 1].(lastSeen := feed.observedAt)])
  {
    var last := |chain| - 1;
    var span, revision := spans[last].(end := |before| + 1), chain[last].(lastSeen := feed.observedAt);
    OpenRunIsLast(before, entity, spans, chain);
    assert Records(before, entity, spans[last], chain[last]);
    RecordsClosed(before, feed, entity, spans[last], chain[last]);
    RecordedWithLast(before, feed, entity, spans, chain, span, revision);
    ShapeWithLast(spans, chain, span, revision);
    CompleteWithLast(before, feed, entity, spans, span);
  }

  lemma CompleteWithLast(before: History, feed: Applied, entity: string, spans: seq<Span>, span: Span)
    requires Complete(before, entity, spans) && |spans| > 0
    requires span.start == spans[|spans| - 1].start && spans[|spans| - 1].end <= span.end
    requires span.start <= |before| < span.end
    ensures Complete(before + [feed], entity, spans[|spans| - 1 := span])
  {
    var spans' := spans[|spans| - 1 := span];
    assert spans'[|spans| - 1].start <= |before| < spans'[|spans| - 1].end;
    CompleteKept(before, feed, entity, spans, spans');
  }

  lemma CompleteWithNew(before: History, feed: Applied, entity: string, spans: seq<Span>, span: Span)
    requires Complete(before, entity, spans) && span.start <= |before| < span.end
    ensures Complete(before + [feed], entity, spans + [span])
  {
    var spans' := spans + [span];
    assert spans'[|spans|].start <= |before| < spans'[|spans|].end;
    CompleteKept(before, feed, entity, spans, spans');
  }

  lemma RecordedWithNew(history: History, entity: string, spans: seq<Span>, chain: seq<Revision>,
                        span: Span, revision: Revision)
    requires AllRecorded(history, entity, spans, chain) && Records(history, entity, span, revision)
    ensures AllRecorded(history, entity, spans + [span], chain + [revision])
  {
  }

  lemma RecordedWithLast(before: History, feed: Applied, entity: string, spans: seq<Span>, chain: seq<Revision>,
                         span: Span, revision: Revision)
    requires AllRecorded(before, entity, spans, chain) && |chain| > 0
    requires forall i :: 0 <= i < |spans| - 1 ==> spans[i].end < |before|
    requires Records(before + [feed], entity, span, revision)
    ensures AllRecorded(before + [feed], entity, spans[|spans| - 1 := span], chain[|chain| - 1 := revision])
  {
    var spans', chain' := spans[|spans| - 1 := span], chain[|chain| - 1 := revision];
    forall i | 0 <= i < |spans'| ensures Records(before + [feed], entity, spans'[i], chain'[i]) {
      if i < |spans| - 1 { RecordsKept(before, feed, entity, spans[i], chain[i]); }
    }
  }

  lemma RunsClose(before: History, feed: Applied, entity: string, spans: seq<Span>, chain: seq<Revision>)
    requires AllRecorded(before, entity, spans, chain) && InOrder(spans)
    ensures AllRecorded(before + [feed], entity, spans, CloseLast(chain, feed.run, feed.observedAt))
    ensures Maximal(spans, chain) ==> Maximal(spans, CloseLast(chain, feed.run, feed.observedAt))
  {
    var history, chain' := before + [feed], CloseLast(chain, feed.run, feed.observedAt);
    OpenRunIsLast(before, entity, spans, chain);
    forall i | 0 <= i < |spans| ensures Records(history, entity, spans[i], chain'[i]) {
      assert Records(before, entity, spans[i], chain[i]);
      if spans[i].end < |before| { RecordsKept(before, feed, entity, spans[i], chain[i]); }
      else { RecordsClosed(before, feed, entity, spans[i], chain[i]); }
    }
  }

  lemma RunsOpen(before: History, feed: Applied, entity: string, spans: seq<Span>, chain: seq<Revision>)
    requires Encodes(before, entity, spans, chain)
    requires entity in feed.content
    requires IsOpen(chain) ==> chain[|chain| - 1].hash != feed.content[entity].hash
    ensures Encodes(before + [feed], entity,
              spans + [Span(|before|, |before| + 1)],
              CloseLast(chain, feed.run, feed.observedAt) + [Opened(feed.content[entity], feed.run, feed.observedAt)])
  {
    var history, n := before + [feed], |before|;
    var closed := CloseLast(chain, feed.run, feed.observedAt);
    var span, revision := Span(n, n + 1), Opened(feed.content[entity], feed.run, feed.observedAt);
    RunsClose(before, feed, entity, spans, chain);
    OpenRunIsLast(before, entity, spans, chain);
    RecordsNew(before, feed, entity);
    RecordedWithNew(history, entity, spans, closed, span, revision);
    ShapeWithNew(spans, closed, span, revision);
    CompleteWithNew(before, feed, entity, spans, span);
  }

  lemma RecordsNew(before: History, feed: Applied, entity: string)
    requires entity in feed.content
    ensures Records(before + [feed], entity, Span(|before|, |before| + 1),
              Opened(feed.content[entity], feed.run, feed.observedAt))
  {
  }

  /** The compressed revision table and the sequence of applied feeds determine each other: every revision
      is a maximal run of feeds showing the alert with one fingerprint, and no such feed is left out. */
  lemma {:induction false} ChainIsRunLengthEncoding(history: History, entity: string)
    ensures Encodes(history, entity, Spans(history, entity), Replay(history, entity))
  {
    if history != [] {
      var before, feed := history[..|history| - 1], history[|history| - 1];
      assert history == before + [feed];
      ChainIsRunLengthEncoding(before, entity);
      var spans, chain := Spans(before, entity), Replay(before, entity);
      match Observed(feed, entity) {
        case None =>
          RunsClose(before, feed, entity, spans, chain);
          CompleteKept(before, feed, entity, spans, spans);
        case Some(sighting) =>
          if IsOpen(chain) && chain[|chain| - 1].hash == sighting.hash {
            RunsExtend(before, feed, entity, spans, chain);
          } else {
            RunsOpen(before, feed, entity, spans, chain);
          }
      }
    }
  }

  // The parts of the encoding, one revision at a time.

  lemma RevisionTimes(history: History, entity: string, spans: seq<Span>, chain: seq<Revision>, i: nat)
    requires Encodes(history, entity, spans, chain) && i < |chain|
    ensures spans[i].start < spans[i].end <= |history|
    ensures chain[i].firstSeen == history[spans[i].start].observedAt
    ensures chain[i].lastSeen == history[spans[i].end - 1].observedAt
    ensures chain[i].closedAt == (if spans[i].end == |history| then None else Some(history[spans[i].end].observedAt))
    ensures chain[i].closedAt.Some? <==> chain[i].closedRun.Some?
  {
    assert Records(history, entity, spans[i], chain[i]);
  }

  lemma RevisionHash(history: History, entity: string, spans: seq<Span>, chain: seq<Revision>, i: nat, p: nat)
    requires Encodes(history, entity, spans, chain) && i < |chain| && spans[i].start <= p < spans[i].end
    ensures p < |history| && entity in history[p].content
    ensures history[p].content[entity].hash == chain[i].hash
  {
    assert Records(history, entity, spans[i], chain[i]);
  }

  lemma RevisionCovering(history: History, entity: string, spans: seq<Span>, chain: seq<Revision>, p: nat)
    returns (i: nat)
    requires Encodes(history, entity, spans, chain) && p < |history| && entity in history[p].content
    ensures i < |spans| == |chain| && spans[i].start <= p < spans[i].end
  {
    assert Covered(spans, p);
    i :| 0 <= i < |spans| && spans[i].start <= p < spans[i].end;
  }

  // ---- Shape of a chain ----

  /** One revision does not end before it starts. */
  predicate Lived(revision: Revision) {
    && revision.firstSeen <= revision.lastSeen
    && (revision.closedAt.Some? ==> revision.lastSeen <= revision.closedAt.value)
    && (revision.closedAt.Some? <==> revision.closedRun.Some?)
  }

  /** first <= last <= closed <= next first; only the last revision may be open. */
  ghost predicate WellFormed(chain: seq<Revision>) {
    && (forall i :: 0 <= i < |chain| ==> Lived(chain[i]))
    && (forall i, j :: 0 <= i < j < |chain| ==>
          chain[i].closedAt.Some? && chain[i].closedAt.value <= chain[j].firstSeen)
  }

  /** No time of the chain is after the last feed. */
  ghost predicate Past(history: History, chain: seq<Revision>) {
    forall i :: 0 <= i < |chain| ==> PastRevision(history, chain[i])
  }

  predicate PastRevision(history: History, revision: Revision) {
    && history != []
    && revision.lastSeen <= history[|history| - 1].observedAt
    && (revision.closedAt.Some? ==> revision.closedAt.value <= history[|history| - 1].observedAt)
  }

  lemma RevisionShape(history: History, entity: string, spans: seq<Span>, chain: seq<Revision>, i: nat)
    requires Ordered(history) && Encodes(history, entity, spans, chain) && i < |chain|
    ensures Lived(chain[i]) && PastRevision(history, chain[i])
  {
    RevisionTimes(history, entity, spans, chain, i);
    var span, last := spans[i], |history| - 1;
    assert NotOlder(history[span.start], history[span.end - 1]) && NotOlder(history[span.end - 1], history[last]);
    if span.end < |history| {
      assert NotOlder(history[span.end - 1], history[span.end]) && NotOlder(history[span.end], history[last]);
    }
  }

  lemma RevisionsApart(history: History, entity: string, spans: seq<Span>, chain: seq<Revision>, i: nat, j: nat)
    requires Ordered(history) && Encodes(history, entity, spans, chain) && i < j < |chain|
    ensures chain[i].closedAt.Some? && chain[i].closedAt.value <= chain[j].firstSeen
  {
    RevisionTimes(history, entity, spans, chain, i);
    RevisionTimes(history, entity, spans, chain, j);
    assert NotOlder(history[spans[i].end], history[spans[j].start]);
  }

  lemma EncodingShape(history: History, entity: string, spans: seq<Span>, chain: seq<Revision>)
    requires Ordered(history) && Encodes(history, entity, spans, chain)
    ensures WellFormed(chain) && Past(history, chain)
  {
    forall i | 0 <= i < |chain| ensures Lived(chain[i]) && PastRevision(history, chain[i]) {
      RevisionShape(history, entity, spans, chain, i);
    }
    forall i, j | 0 <= i < j < |chain|
      ensures chain[i].closedAt.Some? && chain[i].closedAt.value <= chain[j].firstSeen
    {
      RevisionsApart(history, entity, spans, chain, i, j);
    }
  }

  lemma ChainShape(history: History, entity: string)
    requires Ordered(history)
    ensures WellFormed(Replay(history, entity)) && Past(history, Replay(history, entity))
  {
    ChainIsRunLengthEncoding(history, entity);
    EncodingShape(history, entity, Spans(history, entity), Replay(history, entity));
  }

  // ---- Reading the tables as of an instant ----

  predicate VisibleAt(revision: Revision, t: Time) {
    revision.firstSeen <= t && (revision.closedAt.Some? ==> t < revision.closedAt.value)
  }

  /** How many applied feeds there are up to and including the last one observed at or before `t`. */
  function FeedsUpTo(history: History, t: Time): (n: nat)
    ensures n <= |history|
    ensures n > 0 ==> history[n - 1].observedAt <= t
    ensures forall p :: n <= p < |history| ==> t < history[p].observedAt
  {
    if history == [] then 0
    else if history[|history| - 1].observedAt <= t then |history|
    else FeedsUpTo(history[..|history| - 1], t)
  }

  /** What the last feed observed at or before `t` said about the entity. */
  function SeenAt(history: History, entity: string, t: Time): Option<Sighting> {
    var n := FeedsUpTo(history, t);
    if n == 0 then None else Observed(history[n - 1], entity)
  }

  /** At every instant the chain shows exactly what the last feed observed at or before it showed, in at most
      one revision. Observation times may repeat. */
  lemma AsOf(history: History, entity: string, t: Time)
    requires Ordered(history)
    ensures ReadsAs(Replay(history, entity), SeenAt(history, entity, t), t)
  {
    ChainIsRunLengthEncoding(history, entity);
    EncodingAsOf(history, entity, Spans(history, entity), Replay(history, entity), t);
  }

  ghost predicate ReadsAs(chain: seq<Revision>, seen: Option<Sighting>, t: Time) {
    && (forall i :: 0 <= i < |chain| && VisibleAt(chain[i], t) ==> seen.Some? && chain[i].hash == seen.value.hash)
    && (seen.Some? ==> exists i :: 0 <= i < |chain| && VisibleAt(chain[i], t))
    && (forall i, j :: 0 <= i < j < |chain| ==> !(VisibleAt(chain[i], t) && VisibleAt(chain[j], t)))
  }

  lemma EncodingAsOf(history: History, entity: string, spans: seq<Span>, chain: seq<Revision>, t: Time)
    requires Ordered(history) && Encodes(history, entity, spans, chain)
    ensures ReadsAs(chain, SeenAt(history, entity, t), t)
  {
    var n := FeedsUpTo(history, t);
    forall i | 0 <= i < |chain| && VisibleAt(chain[i], t)
      ensures n > 0 && entity in history[n - 1].content && chain[i].hash == history[n - 1].content[entity].hash
    {
      VisibleIsCurrent(history, entity, spans, chain, t, i);
      RevisionHash(history, entity, spans, chain, i, n - 1);
    }
    if SeenAt(history, entity, t).Some? {
      var i := RevisionCovering(history, entity, spans, chain, n - 1);
      VisibleIsCurrent(history, entity, spans, chain, t, i);
    }
    forall i, j | 0 <= i < j < |chain| ensures !(VisibleAt(chain[i], t) && VisibleAt(chain[j], t)) {
      VisibleIsCurrent(history, entity, spans, chain, t, i);
      VisibleIsCurrent(history, entity, spans, chain, t, j);
    }
  }

  /** A revision is visible exactly when its run contains the last feed observed so far. */
  lemma VisibleIsCurrent(history: History, entity: string, spans: seq<Span>, chain: seq<Revision>, t: Time, i: nat)
    requires Ordered(history) && Encodes(history, entity, spans, chain) && i < |chain|
    ensures VisibleAt(chain[i], t) <==> spans[i].start < FeedsUpTo(history, t) <= spans[i].end
  {
    RevisionTimes(history, entity, spans, chain, i);
    UpToIsPrefix(history, t, spans[i].start);
    if spans[i].end < |history| { UpToIsPrefix(history, t, spans[i].end); }
  }

  lemma UpToIsPrefix(history: History, t: Time, p: nat)
    requires Ordered(history) && p < |history|
    ensures history[p].observedAt <= t <==> p < FeedsUpTo(history, t)
  {
    var n := FeedsUpTo(history, t);
    if p < n { assert NotOlder(history[p], history[n - 1]); }
  }

  // ---- Skipping a repeated payload ----

  predicate SameHashes(a: map<string, Sighting>, b: map<string, Sighting>) {
    && a.Keys == b.Keys
    && forall entity <- a :: a[entity].hash == b[entity].hash
  }

  predicate SameContent(a: Applied, b: Applied) {
    SameHashes(a.content, b.content)
  }

  /** Applying once more what the last feed already said, at the same observation time, changes no chain. */
  lemma ReapplyingChangesNothing(history: History, again: Applied, entity: string)
    requires history != [] && again.observedAt == history[|history| - 1].observedAt
    requires SameContent(history[|history| - 1], again)
    ensures Replay(history + [again], entity) == Replay(history, entity)
  {
    assert (history + [again])[..|history|] == history;
    var last := history[|history| - 1];
    var chain := Replay(history, entity);
    if entity in last.content {
      assert IsOpen(chain) && chain[|chain| - 1].hash == last.content[entity].hash;
      assert chain[|chain| - 1].lastSeen == last.observedAt;
    }
  }

  /** An alert that the last feed and the new one show differently gets another chain. */
  lemma ChangeShows(history: History, again: Applied, entity: string)
    requires history != []
    requires var seen, next := Observed(history[|history| - 1], entity), Observed(again, entity);
      seen.Some? != next.Some? || (seen.Some? && seen.value.hash != next.value.hash)
    ensures Replay(history + [again], entity) != Replay(history, entity)
  {
    ReplayStep(history, again, entity);
    var before, last := history[..|history| - 1], history[|history| - 1];
    assert history == before + [last];
    ReplayStep(before, last, entity);
    var chain := Replay(history, entity);
    if Observed(last, entity).Some? {
      assert IsOpen(chain) && chain[|chain| - 1].hash == last.content[entity].hash;
      if Observed(again, entity).None? { assert Replay(history + [again], entity)[|chain| - 1].closedAt.Some?; }
    }
  }

  /** At one observation time, applying one more feed changes no chain exactly if it says what the last one said. */
  lemma ReapplyingExact(history: History, again: Applied)
    requires history != [] && again.observedAt == history[|history| - 1].observedAt
    ensures (forall entity :: Replay(history + [again], entity) == Replay(history, entity))
        <==> SameContent(history[|history| - 1], again)
  {
    var last := history[|history| - 1];
    if SameContent(last, again) {
      forall entity ensures Replay(history + [again], entity) == Replay(history, entity) {
        ReapplyingChangesNothing(history, again, entity);
      }
    } else if entity :| entity in last.content && entity !in again.content {
      ChangeShows(history, again, entity);
    } else if entity :| entity in again.content && entity !in last.content {
      ChangeShows(history, again, entity);
    } else {
      var entity :| entity in last.content && last.content[entity].hash != again.content[entity].hash;
      ChangeShows(history, again, entity);
    }
  }

  // ---- The order of a feed's collections does not matter ----

  /** A revision without the stored order of its collections. */
  function Shadow(revision: Revision): (Fingerprint, Time, Time, Option<Time>, int, Option<int>) {
    (revision.hash, revision.firstSeen, revision.lastSeen, revision.closedAt, revision.openedRun, revision.closedRun)
  }

  ghost predicate SameUpToOrder(a: seq<Revision>, b: seq<Revision>) {
    |a| == |b| && forall i :: 0 <= i < |a| ==> Shadow(a[i]) == Shadow(b[i])
  }

  lemma ObserveUpToOrder(a: seq<Revision>, b: seq<Revision>, run: int, at: Time, sa: Option<Sighting>,
                         sb: Option<Sighting>)
    requires SameUpToOrder(a, b)
    requires sa.Some? <==> sb.Some?
    requires sa.Some? ==> sa.value.hash == sb.value.hash
    ensures SameUpToOrder(Observe(a, run, at, sa), Observe(b, run, at, sb))
  {
    if |a| > 0 { assert Shadow(a[|a| - 1]) == Shadow(b[|b| - 1]); }
    assert SameUpToOrder(CloseLast(a, run, at), CloseLast(b, run, at));
  }

  lemma {:induction false} OnlyHashesMatter(a: History, b: History, entity: string)
    requires |a| == |b|
    requires forall p :: 0 <= p < |a| ==>
               a[p].run == b[p].run && a[p].observedAt == b[p].observedAt && SameContent(a[p], b[p])
    ensures SameUpToOrder(Replay(a, entity), Replay(b, entity))
  {
    if a != [] {
      var n := |a| - 1;
      OnlyHashesMatter(a[..n], b[..n], entity);
      assert SameContent(a[n], b[n]);
      ObserveUpToOrder(Replay(a[..n], entity), Replay(b[..n], entity), a[n].run, a[n].observedAt,
                       Observed(a[n], entity), Observed(b[n], entity));
    }
  }
}
