/** The episode views of migration 00005: window functions over the revisions of one alert recover when the
    alert was continuously present. Identifiers of an alert's revisions grow with their numbers, so ordering
    by (first_seen_at, revision_number, id) and by (first_seen_at, id) are orders on numbered rows. */
module AlertEpisodes {
  import opened Common
  import opened AlertContent
  import opened AlertHistory
  import opened AlertReconciliation

  type Rows = map<nat, Revision>

  /** is_deleted, which a revision takes from the same alert as its hash. */
  predicate IsDeleted(revision: Revision) {
    revision.hash.deleted
  }

  // ---- alert_revision_episode_membership ----

  predicate Precedes(rows: Rows, m: nat, n: nat)
    requires m in rows && n in rows
  {
    rows[m].firstSeen < rows[n].firstSeen || (rows[m].firstSeen == rows[n].firstSeen && m < n)
  }

  /** lag() OVER (ORDER BY first_seen_at, revision_number): the row just before. */
  ghost predicate IsLag(rows: Rows, m: nat, n: nat)
    requires n in rows
  {
    && m in rows && Precedes(rows, m, n)
    && forall k: nat :: k in rows && Precedes(rows, k, n) ==> k == m || Precedes(rows, k, m)
  }

  predicate Breaks(previous: Revision, revision: Revision) {
    (IsDeleted(previous) && !IsDeleted(revision)) || previous.closedAt != Some(revision.firstSeen)
  }

  ghost predicate Starts(rows: Rows, n: nat)
    requires n in rows
  {
    || (forall m: nat :: m in rows ==> !Precedes(rows, m, n))
    || (exists m: nat :: IsLag(rows, m, n) && Breaks(rows[m], rows[n]))
  }

  /** The running sum of episode starts. */
  ghost function EpisodeNumber(rows: Rows, n: nat): nat
    requires n in rows
  {
    |StartsUpTo(rows, n)|
  }

  ghost function StartsUpTo(rows: Rows, n: nat): set<nat>
    requires n in rows
  {
    set k | k in rows && (k == n || Precedes(rows, k, n)) && Starts(rows, k)
  }

  // ---- The same, along the chain ----

  predicate Boundary(chain: seq<Revision>, i: nat)
    requires i < |chain|
  {
    i == 0 || Breaks(chain[i - 1], chain[i])
  }

  /** Episodes begun by the first `n` revisions. */
  function Begun(chain: seq<Revision>, n: nat): nat
    requires n <= |chain|
  {
    if n == 0 then 0 else Begun(chain, n - 1) + if Boundary(chain, n - 1) then 1 else 0
  }

  lemma ViewOrder(rows: Rows, chain: seq<Revision>, m: nat, n: nat)
    requires WellFormed(chain) && rows == Numbered(chain) && m in rows && n in rows
    ensures Precedes(rows, m, n) <==> m < n
  {
    if m < n { assert Lived(chain[m - 1]) && chain[m - 1].closedAt.value <= chain[n - 1].firstSeen; }
    if n < m { assert Lived(chain[n - 1]) && chain[n - 1].closedAt.value <= chain[m - 1].firstSeen; }
  }

  /** The order of the view is the order of the numbers. */
  ghost predicate InNumberOrder(rows: Rows) {
    forall m: nat, n: nat :: m in rows && n in rows ==> (Precedes(rows, m, n) <==> m < n)
  }

  lemma LagIsPredecessor(rows: Rows, n: nat)
    requires InNumberOrder(rows) && n in rows && n > 1 && n - 1 in rows
    ensures forall m: nat :: IsLag(rows, m, n) <==> m == n - 1
  {
    assert Precedes(rows, n - 1, n);
  }

  /** `rows` holds the first `|chain|` numbers, without going into how it is built. */
  ghost predicate Holds(rows: Rows, chain: seq<Revision>) {
    && (forall n: nat :: n in rows <==> 1 <= n <= |chain|)
    && (forall n: nat :: n in rows ==> rows[n] == chain[n - 1])
  }

  lemma StartsAtBoundaries(rows: Rows, chain: seq<Revision>, n: nat)
    requires InNumberOrder(rows) && Holds(rows, chain) && 1 <= n <= |chain|
    ensures Starts(rows, n) <==> Boundary(chain, n - 1)
  {
    if n > 1 {
      LagIsPredecessor(rows, n);
      assert Precedes(rows, n - 1, n);
      assert Starts(rows, n) <==> Breaks(rows[n - 1], rows[n]);
    }
  }

  lemma StartsUpToNext(rows: Rows, n: nat)
    requires InNumberOrder(rows) && n > 1 && n in rows && n - 1 in rows
    ensures StartsUpTo(rows, n) == if Starts(rows, n) then StartsUpTo(rows, n - 1) + {n} else StartsUpTo(rows, n - 1)
    ensures n !in StartsUpTo(rows, n - 1)
  {
  }

  lemma StartsUpToFirst(rows: Rows, chain: seq<Revision>)
    requires InNumberOrder(rows) && Holds(rows, chain) && chain != []
    ensures StartsUpTo(rows, 1) == {1}
  {
    StartsAtBoundaries(rows, chain, 1);
  }

  lemma CountNext(rows: Rows, chain: seq<Revision>, n: nat)
    requires InNumberOrder(rows) && Holds(rows, chain) && 1 < n <= |chain|
    ensures |StartsUpTo(rows, n)| == |StartsUpTo(rows, n - 1)| + if Boundary(chain, n - 1) then 1 else 0
  {
    StartsUpToNext(rows, n);
    StartsAtBoundaries(rows, chain, n);
  }

  lemma {:induction false} NumbersCountBoundaries(rows: Rows, chain: seq<Revision>, n: nat)
    requires InNumberOrder(rows) && Holds(rows, chain) && 1 <= n <= |chain|
    ensures |StartsUpTo(rows, n)| == Begun(chain, n)
  {
    if n == 1 {
      StartsUpToFirst(rows, chain);
    } else {
      NumbersCountBoundaries(rows, chain, n - 1);
      CountNext(rows, chain, n);
    }
  }

  lemma NumberedHolds(rows: Rows, chain: seq<Revision>)
    requires WellFormed(chain) && rows == Numbered(chain)
    ensures InNumberOrder(rows) && Holds(rows, chain)
  {
    forall m: nat, k: nat | m in rows && k in rows ensures Precedes(rows, m, k) <==> m < k {
      ViewOrder(rows, chain, m, k);
    }
  }

  /** The window functions count the boundaries of the chain. */
  lemma ViewCountsBoundaries(chain: seq<Revision>, n: nat)
    requires WellFormed(chain) && 1 <= n <= |chain|
    ensures EpisodeNumber(Numbered(chain), n) == Begun(chain, n)
  {
    var rows := Numbered(chain);
    NumberedHolds(rows, chain);
    NumbersCountBoundaries(rows, chain, n);
  }

  // ---- Stretches of feeds ----

  predicate Present(history: History, entity: string, p: int) {
    0 <= p < |history| && entity in history[p].content
  }

  /** The alert was deleted in the feed before and is live again. */
  predicate Revived(history: History, entity: string, p: int)
    requires Present(history, entity, p - 1) && Present(history, entity, p)
  {
    history[p - 1].content[entity].hash.deleted && !history[p].content[entity].hash.deleted
  }

  predicate StretchStarts(history: History, entity: string, p: int) {
    Present(history, entity, p) && (!Present(history, entity, p - 1) || Revived(history, entity, p))
  }

  /** Stretches begun in the first `n` feeds. */
  function Stretches(history: History, entity: string, n: nat): nat
    requires n <= |history|
  {
    if n == 0 then 0 else Stretches(history, entity, n - 1) + if StretchStarts(history, entity, n - 1) then 1 else 0
  }

  /** The alert stays from one feed to the next, and is not brought back from deletion. */
  predicate Continues(history: History, entity: string, r: int) {
    Present(history, entity, r - 1) && Present(history, entity, r) && !Revived(history, entity, r)
  }

  lemma NoStartContinues(history: History, entity: string, p: nat, q: nat)
    requires p <= q && Present(history, entity, p) && Present(history, entity, q)
    requires forall r :: p < r <= q ==> !StretchStarts(history, entity, r)
    ensures Stretches(history, entity, p + 1) == Stretches(history, entity, q + 1)
    ensures forall r :: p < r <= q ==> Continues(history, entity, r)
  {
    NoStartsNoGaps(history, entity, p, q);
    StretchesConstant(history, entity, p + 1, q + 1);
    forall r | p < r <= q ensures Continues(history, entity, r) {
      assert !StretchStarts(history, entity, r) && Present(history, entity, r) && Present(history, entity, r - 1);
    }
  }

  lemma StartSeparates(history: History, entity: string, p: nat, r: nat, q: nat)
    requires p < r <= q < |history| && StretchStarts(history, entity, r)
    ensures Stretches(history, entity, p + 1) < Stretches(history, entity, q + 1)
    ensures !Continues(history, entity, r)
  {
    StretchesGrow(history, entity, p + 1, r);
    StretchesGrow(history, entity, r + 1, q + 1);
  }

  /** The number tells apart exactly the maximal stretches of feeds through which the alert continues. */
  lemma StretchNumbersSeparate(history: History, entity: string, p: nat, q: nat)
    requires p <= q && Present(history, entity, p) && Present(history, entity, q)
    ensures Stretches(history, entity, p + 1) == Stretches(history, entity, q + 1) <==>
            forall r :: p < r <= q ==> Continues(history, entity, r)
  {
    if r :| p < r <= q && StretchStarts(history, entity, r) {
      StartSeparates(history, entity, p, r, q);
    } else {
      NoStartContinues(history, entity, p, q);
    }
  }

  lemma {:induction false} NoStartsNoGaps(history: History, entity: string, p: nat, q: nat)
    requires p <= q < |history| && Present(history, entity, p) && Present(history, entity, q)
    requires forall r :: p < r <= q ==> !StretchStarts(history, entity, r)
    ensures forall r :: p <= r <= q ==> Present(history, entity, r)
    decreases q
  {
    if p < q {
      assert !StretchStarts(history, entity, q);
      NoStartsNoGaps(history, entity, p, q - 1);
    }
  }

  lemma {:induction false} StretchesConstant(history: History, entity: string, m: nat, n: nat)
    requires m <= n <= |history| && forall r :: m <= r < n ==> !StretchStarts(history, entity, r)
    ensures Stretches(history, entity, m) == Stretches(history, entity, n)
    decreases n
  {
    if m < n { StretchesConstant(history, entity, m, n - 1); }
  }

  lemma {:induction false} StretchesGrow(history: History, entity: string, m: nat, n: nat)
    requires m <= n <= |history|
    ensures Stretches(history, entity, m) <= Stretches(history, entity, n)
    decreases n
  {
    if m < n { StretchesGrow(history, entity, m, n - 1); }
  }

  // ---- Episodes are stretches ----

  /** The alert left and came back, not from deletion, in feeds that share one observation time. */
  ghost predicate InstantReturn(history: History, entity: string, p: int) {
    && Present(history, entity, p)
    && exists q :: LeftAfter(history, entity, q, p)
         && history[q + 1].observedAt == history[p].observedAt
         && !(history[q].content[entity].hash.deleted && !history[p].content[entity].hash.deleted)
  }

  /** `q` is the last feed before `p` that shows the alert, and not the one just before. */
  ghost predicate LeftAfter(history: History, entity: string, q: int, p: int) {
    && Present(history, entity, q) && q + 1 < p < |history|
    && forall r :: q < r < p ==> !Present(history, entity, r)
  }

  ghost function InstantReturns(history: History, entity: string, n: nat): nat
    requires n <= |history|
  {
    if n == 0 then 0
    else InstantReturns(history, entity, n - 1) + if InstantReturn(history, entity, n - 1) then 1 else 0
  }

  /** Neither a stretch nor an instant return begins at `p`. */
  ghost predicate Quiet(history: History, entity: string, p: int) {
    !StretchStarts(history, entity, p) && !InstantReturn(history, entity, p)
  }

  // The run-length encoding is passed along, so that each step reasons about runs and not about the replay.

  /** A position inside a run begins nothing. */
  lemma InsideNothingBegins(history: History, entity: string, spans: seq<Span>, chain: seq<Revision>, i: nat, p: nat)
    requires Encodes(history, entity, spans, chain) && i < |spans| && spans[i].start < p < spans[i].end
    ensures Quiet(history, entity, p)
  {
    RevisionHash(history, entity, spans, chain, i, p - 1);
    RevisionHash(history, entity, spans, chain, i, p);
  }

  ghost predicate NonEmpty(spans: seq<Span>) {
    forall i :: 0 <= i < |spans| ==> spans[i].start < spans[i].end
  }

  lemma RunsNonEmpty(history: History, entity: string, spans: seq<Span>, chain: seq<Revision>)
    requires Encodes(history, entity, spans, chain)
    ensures InOrder(spans) && NonEmpty(spans)
  {
    forall i | 0 <= i < |spans| ensures spans[i].start < spans[i].end {
      assert Records(history, entity, spans[i], chain[i]);
    }
  }

  /** Before the first run, and between two runs that do not touch, nothing is covered. */
  lemma GapIsUncovered(spans: seq<Span>, i: nat, r: nat)
    requires InOrder(spans) && NonEmpty(spans) && i < |spans|
    requires r < spans[i].start && (i > 0 ==> spans[i - 1].end <= r)
    ensures !Covered(spans, r)
  {
    forall j | 0 <= j < |spans| ensures !(spans[j].start <= r < spans[j].end) {
      if i < j { assert spans[i].end <= spans[j].start; }
      if j + 1 < i { assert spans[j].end <= spans[i - 1].start; }
    }
  }

  lemma GapIsAbsence(history: History, entity: string, spans: seq<Span>, chain: seq<Revision>, i: nat, r: nat)
    requires Encodes(history, entity, spans, chain) && i < |spans|
    requires r < spans[i].start && (i > 0 ==> spans[i - 1].end <= r)
    ensures !Present(history, entity, r)
  {
    RunsNonEmpty(history, entity, spans, chain);
    GapIsUncovered(spans, i, r);
  }

  /** Just before a run starts the alert is absent, or it is shown by the run before. */
  lemma BeforeStart(history: History, entity: string, spans: seq<Span>, chain: seq<Revision>, i: nat)
    requires Encodes(history, entity, spans, chain) && i < |spans|
    ensures Present(history, entity, spans[i].start)
    ensures Present(history, entity, spans[i].start - 1) <==> i > 0 && spans[i - 1].end == spans[i].start
  {
    RunsNonEmpty(history, entity, spans, chain);
    RevisionHash(history, entity, spans, chain, i, spans[i].start);
    if i > 0 && spans[i - 1].end == spans[i].start {
      RevisionHash(history, entity, spans, chain, i - 1, spans[i].start - 1);
    } else if spans[i].start > 0 {
      GapIsAbsence(history, entity, spans, chain, i, spans[i].start - 1);
    }
  }

  /** At the start of a run: a stretch starts exactly if an episode does or the alert returns in an instant. */
  ghost predicate StartAgrees(history: History, entity: string, chain: seq<Revision>, i: nat, p: nat)
    requires i < |chain|
  {
    (if StretchStarts(history, entity, p) then 1 else 0)
    == (if Boundary(chain, i) then 1 else 0) + (if InstantReturn(history, entity, p) then 1 else 0)
  }

  lemma FirstStart(history: History, entity: string, spans: seq<Span>, chain: seq<Revision>)
    requires Encodes(history, entity, spans, chain) && |spans| > 0
    ensures StartAgrees(history, entity, chain, 0, spans[0].start)
  {
    BeforeStart(history, entity, spans, chain, 0);
    forall q | 0 <= q < spans[0].start ensures !Present(history, entity, q) {
      GapIsAbsence(history, entity, spans, chain, 0, q);
    }
  }

  lemma TouchingStart(history: History, entity: string, spans: seq<Span>, chain: seq<Revision>, i: nat)
    requires Encodes(history, entity, spans, chain) && 0 < i < |spans| && spans[i - 1].end == spans[i].start
    ensures StartAgrees(history, entity, chain, i, spans[i].start)
  {
    var p := spans[i].start;
    BeforeStart(history, entity, spans, chain, i);
    RevisionTimes(history, entity, spans, chain, i - 1);
    RevisionTimes(history, entity, spans, chain, i);
    RevisionHash(history, entity, spans, chain, i - 1, p - 1);
    RevisionHash(history, entity, spans, chain, i, p);
  }

  lemma ReturningStart(history: History, entity: string, spans: seq<Span>, chain: seq<Revision>, i: nat)
    requires Encodes(history, entity, spans, chain) && 0 < i < |spans| && spans[i - 1].end < spans[i].start
    ensures StartAgrees(history, entity, chain, i, spans[i].start)
  {
    var p, q := spans[i].start, spans[i - 1].end - 1;
    BeforeStart(history, entity, spans, chain, i);
    RevisionTimes(history, entity, spans, chain, i - 1);
    RevisionTimes(history, entity, spans, chain, i);
    RevisionHash(history, entity, spans, chain, i - 1, q);
    RevisionHash(history, entity, spans, chain, i, p);
    forall r | q < r < p ensures !Present(history, entity, r) {
      GapIsAbsence(history, entity, spans, chain, i, r);
    }
    assert LeftAfter(history, entity, q, p);
    LastBeforeIsUnique(history, entity, q, p);
  }

  lemma LastBeforeIsUnique(history: History, entity: string, q: int, p: int)
    requires LeftAfter(history, entity, q, p)
    ensures forall q' :: LeftAfter(history, entity, q', p) ==> q' == q
  {
    forall q' | LeftAfter(history, entity, q', p) ensures q' == q {
      assert Present(history, entity, q) && Present(history, entity, q');
    }
  }

  lemma AnyStart(history: History, entity: string, spans: seq<Span>, chain: seq<Revision>, i: nat)
    requires Encodes(history, entity, spans, chain) && i < |spans|
    ensures StartAgrees(history, entity, chain, i, spans[i].start)
  {
    if i == 0 {
      FirstStart(history, entity, spans, chain);
    } else if spans[i - 1].end == spans[i].start {
      TouchingStart(history, entity, spans, chain, i);
    } else {
      ReturningStart(history, entity, spans, chain, i);
    }
  }

  /** `i` runs start before position `n`. */
  predicate Started(spans: seq<Span>, n: nat, i: nat) {
    && i <= |spans|
    && (i > 0 ==> spans[i - 1].start < n)
    && (i < |spans| ==> n <= spans[i].start)
  }

  lemma NoneStartsAt(spans: seq<Span>, p: nat, i: nat, j: nat)
    requires InOrder(spans) && NonEmpty(spans) && Started(spans, p, i) && Started(spans, p + 1, i) && j < |spans|
    ensures spans[j].start != p
  {
    if j + 1 < i { assert spans[j].end <= spans[i - 1].start; }
    if i < j { assert spans[i].end <= spans[j].start; }
  }

  /** Where no run starts, no stretch does either. */
  lemma NoStart(history: History, entity: string, spans: seq<Span>, chain: seq<Revision>, p: nat, i: nat)
    requires Encodes(history, entity, spans, chain) && Started(spans, p, i) && Started(spans, p + 1, i)
    ensures Quiet(history, entity, p)
  {
    RunsNonEmpty(history, entity, spans, chain);
    if Present(history, entity, p) {
      var j := RevisionCovering(history, entity, spans, chain, p);
      NoneStartsAt(spans, p, i, j);
      InsideNothingBegins(history, entity, spans, chain, j, p);
    }
  }

  lemma StartedBefore(spans: seq<Span>, n: nat, i: nat)
    requires InOrder(spans) && NonEmpty(spans) && 0 < i && Started(spans, n, i) && spans[i - 1].start == n - 1
    ensures Started(spans, n - 1, i - 1)
  {
    if i > 1 { assert spans[i - 2].end <= spans[i - 1].start; }
  }

  lemma StartedInside(spans: seq<Span>, p: nat, i: nat)
    requires InOrder(spans) && i < |spans| && spans[i].start <= p < spans[i].end
    ensures Started(spans, p + 1, i + 1)
  {
    if i + 1 < |spans| { assert spans[i].end <= spans[i + 1].start; }
  }

  lemma CountsAtStart(history: History, entity: string, chain: seq<Revision>, n: nat, i: nat)
    requires 0 < n <= |history| && 0 < i <= |chain| && StartAgrees(history, entity, chain, i - 1, n - 1)
    ensures Begun(chain, i) - Begun(chain, i - 1)
      + InstantReturns(history, entity, n) - InstantReturns(history, entity, n - 1)
         == Stretches(history, entity, n) - Stretches(history, entity, n - 1)
  {
  }

  lemma CountsInside(history: History, entity: string, n: nat)
    requires 0 < n <= |history| && Quiet(history, entity, n - 1)
    ensures InstantReturns(history, entity, n) == InstantReturns(history, entity, n - 1)
    ensures Stretches(history, entity, n) == Stretches(history, entity, n - 1)
  {
  }

  /** What the run-length encoding says about the beginnings of episodes and stretches. */
  ghost predicate BeginningsAgree(history: History, entity: string, spans: seq<Span>, chain: seq<Revision>) {
    && |spans| == |chain| && InOrder(spans) && NonEmpty(spans)
    && (forall i: nat {:trigger StartAgrees(history, entity, chain, i, spans[i].start)} ::
          i < |spans| ==> StartAgrees(history, entity, chain, i, spans[i].start))
    && (forall p: nat, i: nat {:trigger Started(spans, p, i)} ::
          Started(spans, p, i) && Started(spans, p + 1, i) ==> Quiet(history, entity, p))
  }

  lemma EncodingBeginnings(history: History, entity: string, spans: seq<Span>, chain: seq<Revision>)
    requires Encodes(history, entity, spans, chain)
    ensures BeginningsAgree(history, entity, spans, chain)
  {
    RunsNonEmpty(history, entity, spans, chain);
    forall i: nat | i < |spans| ensures StartAgrees(history, entity, chain, i, spans[i].start) {
      AnyStart(history, entity, spans, chain, i);
    }
    forall p: nat, i: nat | Started(spans, p, i) && Started(spans, p + 1, i) ensures Quiet(history, entity, p) {
      NoStart(history, entity, spans, chain, p, i);
    }
  }

  /** Feed by feed, the stretches grow as much as the episodes and instant returns together. */
  lemma {:induction false} CountsAgree(history: History, entity: string, spans: seq<Span>, chain: seq<Revision>,
                                       n: nat, i: nat)
    requires BeginningsAgree(history, entity, spans, chain) && n <= |history| && Started(spans, n, i)
    ensures Begun(chain, i) + InstantReturns(history, entity, n) == Stretches(history, entity, n)
    decreases n
  {
    if n > 0 {
      if i > 0 && spans[i - 1].start == n - 1 {
        StartedBefore(spans, n, i);
        CountsAgree(history, entity, spans, chain, n - 1, i - 1);
        assert StartAgrees(history, entity, chain, i - 1, spans[i - 1].start);
        CountsAtStart(history, entity, chain, n, i);
      } else {
        CountsAgree(history, entity, spans, chain, n - 1, i);
        var started := Started(spans, n - 1, i);
        CountsInside(history, entity, n);
      }
    }
  }

  /** For every feed showing the alert: the episode of the revision in force, plus the instant returns so far,
      is the number of the stretch. Holds for every history, also with repeated observation times. */
  lemma EpisodesCountStretches(history: History, entity: string, spans: seq<Span>, chain: seq<Revision>, i: nat, p: nat)
    requires Ordered(history) && Encodes(history, entity, spans, chain)
    requires i < |spans| && spans[i].start <= p < spans[i].end
    ensures p < |history| && i + 1 in Numbered(chain)
    ensures EpisodeNumber(Numbered(chain), i + 1) + InstantReturns(history, entity, p + 1)
         == Stretches(history, entity, p + 1)
  {
    RevisionTimes(history, entity, spans, chain, i);
    StartedInside(spans, p, i);
    EncodingBeginnings(history, entity, spans, chain);
    CountsAgree(history, entity, spans, chain, p + 1, i + 1);
    EpisodeIsBegun(history, entity, spans, chain, i);
  }

  lemma EpisodeIsBegun(history: History, entity: string, spans: seq<Span>, chain: seq<Revision>, i: nat)
    requires Ordered(history) && Encodes(history, entity, spans, chain) && i < |chain|
    ensures i + 1 in Numbered(chain) && EpisodeNumber(Numbered(chain), i + 1) == Begun(chain, i + 1)
  {
    EncodingShape(history, entity, spans, chain);
    ViewCountsBoundaries(chain, i + 1);
  }

  /** Feeds whose hashes are those of their alerts, as the reconciliation makes them. */
  ghost predicate Genuine(history: History) {
    forall feed <- history, entity <- feed.content :: feed.content[entity] == Hashed(feed.content[entity].alert)
  }

  /** A revision's deletion flag, read off its hash, is the flag of the alert it stores. */
  lemma DeletedFlagIsStored(history: History, entity: string, i: nat)
    requires Genuine(history) && i < |Replay(history, entity)|
    ensures IsDeleted(Replay(history, entity)[i]) <==> Replay(history, entity)[i].body.deleted
  {
    ChainIsRunLengthEncoding(history, entity);
    var span := Spans(history, entity)[i];
    assert Records(history, entity, span, Replay(history, entity)[i]);
    assert history[span.start] in history;
  }
}
