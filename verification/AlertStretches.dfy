/** The episodes of the alert_episodes view against the feeds: which feeds an episode stands for, and when that is the
    stretch of feeds through which the alert was present. */
module AlertStretches {
  import opened Common
  import opened AlertContent
  import opened AlertHistory
  import opened AlertReconciliation
  import opened AlertEpisodes
  import opened AlertEpisodeTimes

  // ---- How many rows the view has ----

  /** For every history: an alert has as many rows in the view as stretches of feeds, but for its instant returns. */
  lemma RowsCountStretches(history: History, entity: string)
    requires Ordered(history)
    ensures |EpisodeRows(Numbered(Replay(history, entity)))| + InstantReturns(history, entity, |history|)
         == Stretches(history, entity, |history|)
  {
    ChainIsRunLengthEncoding(history, entity);
    var spans, chain := Spans(history, entity), Replay(history, entity);
    EncodingShape(history, entity, spans, chain);
    ViewNumbers(chain);
    NumbersAreConsecutive(Numbered(chain), chain);
    BegunAtEnd(history, entity, spans, chain);
  }

  lemma BegunAtEnd(history: History, entity: string, spans: seq<Span>, chain: seq<Revision>)
    requires Encodes(history, entity, spans, chain)
    ensures Begun(chain, |chain|) + InstantReturns(history, entity, |history|) == Stretches(history, entity, |history|)
  {
    EncodingBeginnings(history, entity, spans, chain);
    if |spans| > 0 { assert Records(history, entity, spans[|spans| - 1], chain[|spans| - 1]); }
    CountsAgree(history, entity, spans, chain, |history|, |spans|);
  }

  // ---- Which feeds share an episode ----

  lemma {:induction false} ReturnsGrow(history: History, entity: string, m: nat, n: nat)
    requires m <= n <= |history|
    ensures InstantReturns(history, entity, m) <= InstantReturns(history, entity, n)
    decreases n
  {
    if m < n { ReturnsGrow(history, entity, m, n - 1); }
  }

  ghost predicate NoReturns(history: History, entity: string) {
    InstantReturns(history, entity, |history|) == 0
  }

  /** Strictly increasing observation times rule instant returns out. */
  lemma {:induction false} StrictTimesNoReturns(history: History, entity: string, n: nat)
    requires n <= |history|
    requires forall i, j :: 0 <= i < j < |history| ==> history[i].observedAt < history[j].observedAt
    ensures InstantReturns(history, entity, n) == 0
  {
    if n > 0 { StrictTimesNoReturns(history, entity, n - 1); }
  }

  predicate Covers(spans: seq<Span>, i: nat, r: nat) {
    i < |spans| && spans[i].start <= r < spans[i].end
  }

  /** The number that the view gives to a revision is the number of the stretch its feeds lie in. */
  ghost predicate NumbersFit(history: History, entity: string, spans: seq<Span>, rows: Rows) {
    forall i: nat, r: nat {:trigger Covers(spans, i, r)} :: Covers(spans, i, r) ==>
      (i + 1 in rows && Present(history, entity, r) && EpisodeNumber(rows, i + 1) == Stretches(history, entity, r + 1))
  }

  lemma NumbersFitAt(history: History, entity: string, spans: seq<Span>, chain: seq<Revision>, i: nat, r: nat)
    requires Ordered(history) && Encodes(history, entity, spans, chain) && Covers(spans, i, r)
    ensures i + 1 in Numbered(chain) && Present(history, entity, r)
    ensures EpisodeNumber(Numbered(chain), i + 1) <= Stretches(history, entity, r + 1)
    ensures NoReturns(history, entity) ==>
              EpisodeNumber(Numbered(chain), i + 1) == Stretches(history, entity, r + 1)
    ensures InstantReturn(history, entity, r) ==>
              EpisodeNumber(Numbered(chain), i + 1) < Stretches(history, entity, r + 1)
  {
    RevisionHash(history, entity, spans, chain, i, r);
    EpisodesCountStretches(history, entity, spans, chain, i, r);
    ReturnsGrow(history, entity, r + 1, |history|);
  }

  /** The view finds exactly the stretches if and only if the alert never returns within one instant. */
  lemma NumbersFitExactly(history: History, entity: string, spans: seq<Span>, chain: seq<Revision>)
    requires Ordered(history) && Encodes(history, entity, spans, chain)
    ensures NumbersFit(history, entity, spans, Numbered(chain)) <==> NoReturns(history, entity)
  {
    if NoReturns(history, entity) {
      forall i: nat, r: nat | Covers(spans, i, r)
        ensures i + 1 in Numbered(chain) && Present(history, entity, r)
        ensures EpisodeNumber(Numbered(chain), i + 1) == Stretches(history, entity, r + 1)
      {
        NumbersFitAt(history, entity, spans, chain, i, r);
      }
    } else {
      var r := SomeReturn(history, entity, |history|);
      var i := RevisionCovering(history, entity, spans, chain, r);
      NumbersFitAt(history, entity, spans, chain, i, r);
      var covers := Covers(spans, i, r);
    }
  }

  lemma {:induction false} SomeReturn(history: History, entity: string, n: nat) returns (r: nat)
    requires n <= |history| && InstantReturns(history, entity, n) > 0
    ensures r < n && InstantReturn(history, entity, r) && InstantReturns(history, entity, r + 1) > 0
  {
    if InstantReturn(history, entity, n - 1) { r := n - 1; }
    else { r := SomeReturn(history, entity, n - 1); }
  }

  /** Two feeds that show the alert, recorded by revisions `i + 1` and `j + 1`, are in one episode exactly when the
      alert continues from one to the other. */
  ghost predicate Grouped(history: History, entity: string, rows: Rows, i: nat, p: nat, j: nat, q: nat) {
    && i + 1 in rows && j + 1 in rows
    && (EpisodeNumber(rows, i + 1) == EpisodeNumber(rows, j + 1) <==>
          forall r :: p < r <= q ==> Continues(history, entity, r))
  }

  /** The view puts feeds into episodes as the alert's presence does. */
  ghost predicate Groups(history: History, entity: string, spans: seq<Span>, rows: Rows) {
    forall i: nat, p: nat, j: nat, q: nat {:trigger Covers(spans, i, p), Covers(spans, j, q)} ::
      Covers(spans, i, p) && Covers(spans, j, q) && p <= q ==> Grouped(history, entity, rows, i, p, j, q)
  }

  lemma EpisodesAreStretches(history: History, entity: string, spans: seq<Span>, rows: Rows,
                             i: nat, p: nat, j: nat, q: nat)
    requires NumbersFit(history, entity, spans, rows)
    requires Covers(spans, i, p) && Covers(spans, j, q) && p <= q
    ensures Grouped(history, entity, rows, i, p, j, q)
  {
    StretchNumbersSeparate(history, entity, p, q);
  }

  /** While the alert is absent nothing begins. */
  lemma {:induction false} AbsenceBeginsNothing(history: History, entity: string, m: nat, n: nat)
    requires m <= n <= |history| && forall r :: m <= r < n ==> !Present(history, entity, r)
    ensures Stretches(history, entity, m) == Stretches(history, entity, n)
    ensures InstantReturns(history, entity, m) == InstantReturns(history, entity, n)
    decreases n
  {
    if m < n { AbsenceBeginsNothing(history, entity, m, n - 1); }
  }

  lemma LeftBefore(history: History, entity: string, r: nat) returns (q: nat)
    requires InstantReturn(history, entity, r)
    ensures LeftAfter(history, entity, q, r) && Present(history, entity, q) && Present(history, entity, r)
  {
    var p :| LeftAfter(history, entity, p, r);
    assert LeftAfter(history, entity, p, r);
    q := p;
  }

  /** A return begins one stretch. */
  lemma ReturnCounts(history: History, entity: string, q: nat, r: nat)
    requires LeftAfter(history, entity, q, r) && InstantReturn(history, entity, r)
    ensures Stretches(history, entity, r + 1) == Stretches(history, entity, q + 1) + 1
    ensures InstantReturns(history, entity, r + 1) == InstantReturns(history, entity, q + 1) + 1
    ensures !Continues(history, entity, r)
  {
    AbsenceBeginsNothing(history, entity, q + 1, r);
    assert !Present(history, entity, r - 1);
  }

  /** An instant return stays in the episode that the alert had left. */
  lemma ReturnIsNotSeparated(history: History, entity: string, spans: seq<Span>, chain: seq<Revision>,
                             i: nat, q: nat, j: nat, r: nat)
    requires Ordered(history) && Encodes(history, entity, spans, chain)
    requires InstantReturn(history, entity, r) && LeftAfter(history, entity, q, r)
    requires Covers(spans, i, q) && Covers(spans, j, r)
    ensures !Grouped(history, entity, Numbered(chain), i, q, j, r)
  {
    EpisodesCountStretches(history, entity, spans, chain, i, q);
    EpisodesCountStretches(history, entity, spans, chain, j, r);
    ReturnCounts(history, entity, q, r);
    assert !Continues(history, entity, r);
  }

  /** The view groups feeds as the alert's presence does if and only if the alert never returns within one instant. */
  lemma GroupsExactly(history: History, entity: string, spans: seq<Span>, chain: seq<Revision>)
    requires Ordered(history) && Encodes(history, entity, spans, chain)
    ensures Groups(history, entity, spans, Numbered(chain)) <==> NoReturns(history, entity)
  {
    if NoReturns(history, entity) {
      NumbersFitExactly(history, entity, spans, chain);
      forall i: nat, p: nat, j: nat, q: nat | Covers(spans, i, p) && Covers(spans, j, q) && p <= q
        ensures Grouped(history, entity, Numbered(chain), i, p, j, q)
      {
        EpisodesAreStretches(history, entity, spans, Numbered(chain), i, p, j, q);
      }
    } else {
      var r := SomeReturn(history, entity, |history|);
      var q := LeftBefore(history, entity, r);
      var i := RevisionCovering(history, entity, spans, chain, q);
      var j := RevisionCovering(history, entity, spans, chain, r);
      ReturnIsNotSeparated(history, entity, spans, chain, i, q, j, r);
      var covers := Covers(spans, i, q) && Covers(spans, j, r);
    }
  }

  /** The alert is shown, gone, and shown again by a feed with the observation time of the one that lacked it. */
  function ReturningHistory(entity: string, seen: Sighting, payload: Digest): History {
    [Applied(1, 10, 11, payload, map[entity := seen]), Applied(2, 20, 21, payload, map[]),
     Applied(3, 20, 22, payload, map[entity := seen])]
  }

  /** Its two revisions share an episode of the view, although the second feed does not show the alert. */
  lemma ReturnSharesEpisode(entity: string, seen: Sighting, payload: Digest)
    ensures var history := ReturningHistory(entity, seen, payload);
      var rows := Numbered(Replay(history, entity));
      && Ordered(history) && !Present(history, entity, 1) && !NoReturns(history, entity)
      && 1 in rows && 2 in rows && EpisodeNumber(rows, 1) == EpisodeNumber(rows, 2)
  {
    var history := ReturningHistory(entity, seen, payload);
    ReplayStep([], history[0], entity);
    ReplayStep([history[0]], history[1], entity);
    ReplayStep([history[0], history[1]], history[2], entity);
    assert [history[0]] == [] + [history[0]] && [history[0], history[1]] == [history[0]] + [history[1]];
    assert history == [history[0], history[1]] + [history[2]];
    var chain := Replay(history, entity);
    assert chain == [Closed(Opened(seen, 1, 10), 2, 20), Opened(seen, 3, 20)];
    ChainShape(history, entity);
    ViewNumbers(chain);
    assert !Boundary(chain, 1);
    assert LeftAfter(history, entity, 0, 2);
    assert InstantReturn(history, entity, 2);
  }

  /** Positions `p` to `q` are the stretch numbered `e`. */
  ghost predicate IsStretch(history: History, entity: string, e: nat, p: nat, q: nat) {
    && Present(history, entity, p) && Stretches(history, entity, p + 1) == e
    && Present(history, entity, q) && Stretches(history, entity, q + 1) == e
    && forall r: nat :: Present(history, entity, r) && Stretches(history, entity, r + 1) == e ==> p <= r <= q
  }

  predicate ShownDeleted(history: History, entity: string, r: nat) {
    Present(history, entity, r) && history[r].content[entity].hash.deleted
  }

  /** The life of a stretch: from its first feed to the feed that deletes the alert, or that no longer has it. */
  ghost predicate StretchLife(history: History, entity: string, p: nat, q: nat, life: Episode)
    requires p < |history| && q < |history|
  {
    && life.firstSeen == history[p].observedAt
    && (forall d: nat :: FirstDeleted(history, entity, p, q, d) ==>
          life.lastSeen == history[d].observedAt && life.closedAt == Some(history[d].observedAt))
    && ((forall r :: p <= r <= q ==> !ShownDeleted(history, entity, r)) ==>
          && life.lastSeen == history[q].observedAt
          && life.closedAt == if q + 1 == |history| then None else Some(history[q + 1].observedAt))
  }

  ghost predicate FirstDeleted(history: History, entity: string, p: nat, q: nat, d: nat) {
    p <= d <= q && ShownDeleted(history, entity, d) && forall r :: p <= r < d ==> !ShownDeleted(history, entity, r)
  }

  /** A revision of the episode, which lies inside its stretch. */
  predicate Inside(history: History, entity: string, span: Span, revision: Revision, p: nat, q: nat) {
    && p <= span.start < span.end <= q + 1 <= |history|
    && revision.firstSeen == history[span.start].observedAt
    && revision.lastSeen == history[span.end - 1].observedAt
    && revision.closedAt == (if span.end == |history| then None else Some(history[span.end].observedAt))
    && (IsDeleted(revision) <==> ShownDeleted(history, entity, span.start))
  }

  /** Some revision of the episode records the feed. */
  ghost predicate Gathered(history: History, entity: string, spans: seq<Span>, rows: Rows, e: nat, r: nat) {
    exists n: nat :: Member(rows, e, n) && n >= 1 && Covers(spans, n - 1, r)
                     && (IsDeleted(rows[n]) <==> ShownDeleted(history, entity, r))
  }

  /** Which revisions an episode consists of: those that record its stretch. */
  ghost predicate Gathers(history: History, entity: string, spans: seq<Span>, rows: Rows, e: nat, p: nat, q: nat) {
    && Ordered(history) && p <= q < |history|
    && (forall n: nat {:trigger Member(rows, e, n)} :: Member(rows, e, n) ==>
          1 <= n <= |spans| && Inside(history, entity, spans[n - 1], rows[n], p, q))
    && (forall r: nat {:trigger Gathered(history, entity, spans, rows, e, r)} :: p <= r <= q ==>
          Gathered(history, entity, spans, rows, e, r))
    && (forall m: nat, n: nat {:trigger Member(rows, e, m), Member(rows, e, n)} ::
          Member(rows, e, m) && Member(rows, e, n) && Precedes(rows, m, n) ==>
            spans[m - 1].end <= spans[n - 1].end)
  }

  lemma StretchIsContinuous(history: History, entity: string, e: nat, p: nat, q: nat, r: nat)
    requires IsStretch(history, entity, e, p, q) && p <= r <= q
    ensures Present(history, entity, r) && Stretches(history, entity, r + 1) == e
  {
    StretchNumbersSeparate(history, entity, p, q);
    assert r > p ==> Continues(history, entity, r);
    StretchesGrow(history, entity, p + 1, r + 1);
    StretchesGrow(history, entity, r + 1, q + 1);
  }

  lemma MemberBounds(history: History, entity: string, spans: seq<Span>, rows: Rows, e: nat, p: nat, q: nat, n: nat)
    requires NumbersFit(history, entity, spans, rows) && IsStretch(history, entity, e, p, q)
    requires Member(rows, e, n) && 1 <= n <= |spans| && spans[n - 1].start < spans[n - 1].end
    ensures p <= spans[n - 1].start && spans[n - 1].end <= q + 1
  {
    var starts, ends := Covers(spans, n - 1, spans[n - 1].start), Covers(spans, n - 1, spans[n - 1].end - 1);
    assert starts && ends;
  }

  lemma MemberInside(history: History, entity: string, spans: seq<Span>, chain: seq<Revision>, p: nat, q: nat, n: nat)
    requires Encodes(history, entity, spans, chain) && 1 <= n <= |chain|
    requires p <= spans[n - 1].start && spans[n - 1].end <= q + 1 <= |history|
    ensures Inside(history, entity, spans[n - 1], chain[n - 1], p, q)
  {
    RevisionTimes(history, entity, spans, chain, n - 1);
    DeletedShown(history, entity, spans, chain, n - 1, spans[n - 1].start);
  }

  lemma DeletedShown(history: History, entity: string, spans: seq<Span>, chain: seq<Revision>, i: nat, r: nat)
    requires Encodes(history, entity, spans, chain) && Covers(spans, i, r)
    ensures |spans| == |chain| && (IsDeleted(chain[i]) <==> ShownDeleted(history, entity, r))
  {
    RevisionHash(history, entity, spans, chain, i, r);
  }

  lemma CoveringGathers(history: History, entity: string, spans: seq<Span>, rows: Rows, e: nat, i: nat, r: nat)
    requires NumbersFit(history, entity, spans, rows) && Covers(spans, i, r) && Stretches(history, entity, r + 1) == e
    requires i + 1 in rows && (IsDeleted(rows[i + 1]) <==> ShownDeleted(history, entity, r))
    ensures Gathered(history, entity, spans, rows, e, r)
  {
    var n, member := i + 1, Member(rows, e, i + 1);
    assert member && Covers(spans, n - 1, r);
  }

  lemma FeedGathered(history: History, entity: string, spans: seq<Span>, chain: seq<Revision>, rows: Rows,
                     e: nat, p: nat, q: nat, r: nat)
    requires Encodes(history, entity, spans, chain) && NumbersFit(history, entity, spans, rows) && Holds(rows, chain)
    requires IsStretch(history, entity, e, p, q) && p <= r <= q
    ensures Gathered(history, entity, spans, rows, e, r)
  {
    StretchIsContinuous(history, entity, e, p, q, r);
    var i := RevisionCovering(history, entity, spans, chain, r);
    DeletedShown(history, entity, spans, chain, i, r);
    CoveringGathers(history, entity, spans, rows, e, i, r);
  }

  lemma MembersInOrder(spans: seq<Span>, rows: Rows, m: nat, n: nat)
    requires InOrder(spans) && NonEmpty(spans) && InNumberOrder(rows)
    requires m in rows && n in rows && 1 <= m <= |spans| && 1 <= n <= |spans| && Precedes(rows, m, n)
    ensures spans[m - 1].end <= spans[n - 1].end
  {
    assert m < n;
  }

  /** The rows of the view over an encoded chain, numbered as the stretches are. */
  ghost predicate Fitted(history: History, entity: string, spans: seq<Span>, chain: seq<Revision>, rows: Rows) {
    && Ordered(history) && Encodes(history, entity, spans, chain)
    && Holds(rows, chain) && InNumberOrder(rows) && NumbersFit(history, entity, spans, rows)
  }

  lemma ViewFits(history: History, entity: string, spans: seq<Span>, chain: seq<Revision>)
    requires Ordered(history) && Encodes(history, entity, spans, chain) && NoReturns(history, entity)
    ensures Fitted(history, entity, spans, chain, Numbered(chain))
  {
    EncodingShape(history, entity, spans, chain);
    NumberedHolds(Numbered(chain), chain);
    NumbersFitExactly(history, entity, spans, chain);
  }

  lemma AnyMemberInside(history: History, entity: string, spans: seq<Span>, chain: seq<Revision>, rows: Rows,
                        e: nat, p: nat, q: nat, n: nat)
    requires Fitted(history, entity, spans, chain, rows) && IsStretch(history, entity, e, p, q) && Member(rows, e, n)
    ensures 1 <= n <= |spans| && Inside(history, entity, spans[n - 1], rows[n], p, q)
  {
    RunsNonEmpty(history, entity, spans, chain);
    MemberBounds(history, entity, spans, rows, e, p, q, n);
    MemberInside(history, entity, spans, chain, p, q, n);
  }

  lemma StretchGathers(history: History, entity: string, spans: seq<Span>, chain: seq<Revision>, rows: Rows,
                       e: nat, p: nat, q: nat)
    requires Fitted(history, entity, spans, chain, rows) && IsStretch(history, entity, e, p, q)
    ensures Gathers(history, entity, spans, rows, e, p, q)
  {
    forall n: nat | Member(rows, e, n)
      ensures 1 <= n <= |spans| && Inside(history, entity, spans[n - 1], rows[n], p, q)
    {
      AnyMemberInside(history, entity, spans, chain, rows, e, p, q, n);
    }
    forall r: nat | p <= r <= q ensures Gathered(history, entity, spans, rows, e, r) {
      FeedGathered(history, entity, spans, chain, rows, e, p, q, r);
    }
    RunsNonEmpty(history, entity, spans, chain);
    forall m: nat, n: nat | Member(rows, e, m) && Member(rows, e, n) && Precedes(rows, m, n)
      ensures spans[m - 1].end <= spans[n - 1].end
    {
      MembersInOrder(spans, rows, m, n);
    }
  }

  /** The member whose run contains a feed of the stretch. */
  lemma MemberAt(history: History, entity: string, spans: seq<Span>, rows: Rows, e: nat, p: nat, q: nat, r: nat)
    returns (n: nat)
    requires Gathers(history, entity, spans, rows, e, p, q) && p <= r <= q
    ensures Member(rows, e, n) && 1 <= n <= |spans| && Covers(spans, n - 1, r)
    ensures Inside(history, entity, spans[n - 1], rows[n], p, q)
    ensures IsDeleted(rows[n]) <==> ShownDeleted(history, entity, r)
  {
    var gathered := Gathered(history, entity, spans, rows, e, r);
    assert gathered;
    n :| Member(rows, e, n) && n >= 1 && Covers(spans, n - 1, r)
         && (IsDeleted(rows[n]) <==> ShownDeleted(history, entity, r));
  }

  lemma FirstMatches(history: History, entity: string, spans: seq<Span>, rows: Rows, e: nat, p: nat, q: nat, t: Time)
    requires Gathers(history, entity, spans, rows, e, p, q) && IsFirst(rows, e, t)
    ensures t == history[p].observedAt
  {
    var m := MemberAt(history, entity, spans, rows, e, p, q, p);
    var n :| Member(rows, e, n) && rows[n].firstSeen == t;
    assert NotOlder(history[p], history[spans[n - 1].start]);
  }

  lemma LastMatches(history: History, entity: string, spans: seq<Span>, rows: Rows, e: nat, p: nat, q: nat, t: Time)
    requires Gathers(history, entity, spans, rows, e, p, q) && IsLast(rows, e, t)
    ensures t == history[q].observedAt
  {
    var m := MemberAt(history, entity, spans, rows, e, p, q, q);
    var n :| Member(rows, e, n) && rows[n].lastSeen == t;
    assert NotOlder(history[spans[n - 1].end - 1], history[q]);
  }

  lemma FinalMatches(history: History, entity: string, spans: seq<Span>, rows: Rows, e: nat, p: nat, q: nat, n: nat)
    requires Gathers(history, entity, spans, rows, e, p, q) && IsFinal(rows, e, n)
    ensures rows[n].closedAt == if q + 1 == |history| then None else Some(history[q + 1].observedAt)
  {
    var m := MemberAt(history, entity, spans, rows, e, p, q, q);
  }

  lemma DeletionMatches(history: History, entity: string, spans: seq<Span>, rows: Rows,
                        e: nat, p: nat, q: nat, d: nat, t: Time)
    requires Gathers(history, entity, spans, rows, e, p, q)
    requires FirstDeleted(history, entity, p, q, d) && IsDeletion(rows, e, t)
    ensures t == history[d].observedAt
  {
    var m := MemberAt(history, entity, spans, rows, e, p, q, d);
    var member := DeletedMember(rows, e, m);
    var n :| DeletedMember(rows, e, n) && rows[n].firstSeen == t;
    assert NotOlder(history[d], history[spans[n - 1].start]);
  }

  lemma DeletedSomewhere(history: History, entity: string, spans: seq<Span>, rows: Rows, e: nat, p: nat, q: nat)
    requires Gathers(history, entity, spans, rows, e, p, q)
    ensures EverDeleted(rows, e) <==> exists r :: p <= r <= q && ShownDeleted(history, entity, r)
  {
    if r :| p <= r <= q && ShownDeleted(history, entity, r) {
      var n := MemberAt(history, entity, spans, rows, e, p, q, r);
      assert DeletedMember(rows, e, n);
    }
  }

  lemma GatheredLife(history: History, entity: string, spans: seq<Span>, rows: Rows, e: nat, p: nat, q: nat,
                     episode: Episode)
    requires Gathers(history, entity, spans, rows, e, p, q) && IsEpisode(rows, e, episode)
    ensures StretchLife(history, entity, p, q, episode)
  {
    FirstMatches(history, entity, spans, rows, e, p, q, episode.firstSeen);
    DeletedSomewhere(history, entity, spans, rows, e, p, q);
    if EverDeleted(rows, e) {
      forall d: nat | FirstDeleted(history, entity, p, q, d) ensures episode.lastSeen == history[d].observedAt {
        DeletionMatches(history, entity, spans, rows, e, p, q, d, episode.lastSeen);
      }
    } else {
      LastMatches(history, entity, spans, rows, e, p, q, episode.lastSeen);
      var n :| IsFinal(rows, e, n) && episode.closedAt == rows[n].closedAt;
      FinalMatches(history, entity, spans, rows, e, p, q, n);
    }
  }

  /** Without instant returns every stretch of feeds has its row in the view, which tells when the stretch began,
      ended and was closed. */
  lemma EpisodeIsStretchLife(history: History, entity: string, e: nat, p: nat, q: nat)
    requires Ordered(history) && NoReturns(history, entity) && IsStretch(history, entity, e, p, q)
    ensures e in EpisodeRows(Numbered(Replay(history, entity)))
    ensures StretchLife(history, entity, p, q, EpisodeRows(Numbered(Replay(history, entity)))[e])
  {
    ChainIsRunLengthEncoding(history, entity);
    var spans, chain := Spans(history, entity), Replay(history, entity);
    var rows := Numbered(chain);
    ViewFits(history, entity, spans, chain);
    StretchGathers(history, entity, spans, chain, rows, e, p, q);
    var n := MemberAt(history, entity, spans, rows, e, p, q, p);
    assert Occurs(rows, e);
    GatheredLife(history, entity, spans, rows, e, p, q, EpisodeRow(rows, e));
  }

  /** When observation times strictly increase: the revisions that record feeds `p` and `q` are in one episode of
      the view exactly when the alert stays in all feeds between them and is never brought back from deletion. */
  lemma StrictTimesEpisodes(history: History, entity: string, i: nat, p: nat, j: nat, q: nat)
    requires forall m, n :: 0 <= m < n < |history| ==> history[m].observedAt < history[n].observedAt
    requires Covers(Spans(history, entity), i, p) && Covers(Spans(history, entity), j, q) && p <= q
    ensures Grouped(history, entity, Numbered(Replay(history, entity)), i, p, j, q)
  {
    ChainIsRunLengthEncoding(history, entity);
    StrictTimesNoReturns(history, entity, |history|);
    var spans, chain := Spans(history, entity), Replay(history, entity);
    ViewFits(history, entity, spans, chain);
    EpisodesAreStretches(history, entity, spans, Numbered(chain), i, p, j, q);
  }
}
