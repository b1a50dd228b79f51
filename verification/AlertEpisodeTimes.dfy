/** The rows of the alert_episodes view: one for every episode of an alert, with the life it tells. */
module AlertEpisodeTimes {
  import opened Common
  import opened AlertContent
  import opened AlertHistory
  import opened AlertReconciliation
  import opened AlertEpisodes

  /** A row of alert_episodes, without its alert and number. */
  datatype Episode = Episode(firstSeen: Time, lastSeen: Time, closedAt: Option<Time>)

  ghost predicate Member(rows: Rows, e: nat, n: nat) {
    n in rows && EpisodeNumber(rows, n) == e
  }

  ghost predicate DeletedMember(rows: Rows, e: nat, n: nat) {
    Member(rows, e, n) && IsDeleted(rows[n])
  }

  /** min(first_seen_at) */
  ghost predicate IsFirst(rows: Rows, e: nat, t: Time) {
    && (exists n :: Member(rows, e, n) && rows[n].firstSeen == t)
    && (forall n :: Member(rows, e, n) ==> t <= rows[n].firstSeen)
  }

  /** min(first_seen_at) FILTER (WHERE is_deleted) */
  ghost predicate IsDeletion(rows: Rows, e: nat, t: Time) {
    && (exists n :: DeletedMember(rows, e, n) && rows[n].firstSeen == t)
    && (forall n :: DeletedMember(rows, e, n) ==> t <= rows[n].firstSeen)
  }

  /** max(last_seen_at) */
  ghost predicate IsLast(rows: Rows, e: nat, t: Time) {
    && (exists n :: Member(rows, e, n) && rows[n].lastSeen == t)
    && (forall n :: Member(rows, e, n) ==> rows[n].lastSeen <= t)
  }

  /** The member that comes first by first_seen_at DESC, id DESC. */
  ghost predicate IsFinal(rows: Rows, e: nat, n: nat) {
    Member(rows, e, n) && forall m :: Member(rows, e, m) ==> m == n || Precedes(rows, m, n)
  }

  ghost predicate EverDeleted(rows: Rows, e: nat) {
    exists n :: DeletedMember(rows, e, n)
  }

  ghost predicate IsEpisode(rows: Rows, e: nat, episode: Episode) {
    && IsFirst(rows, e, episode.firstSeen)
    && if EverDeleted(rows, e) then
         IsDeletion(rows, e, episode.lastSeen) && episode.closedAt == Some(episode.lastSeen)
       else
         && IsLast(rows, e, episode.lastSeen)
         && exists n :: IsFinal(rows, e, n) && episode.closedAt == rows[n].closedAt
  }

  // ---- alert_episodes has exactly one row for every episode ----

  ghost predicate Occurs(rows: Rows, e: nat) {
    exists n: nat :: Member(rows, e, n)
  }

  /** One of `some` comes first, in any order of the revisions by time and number. */
  lemma {:induction false} LeastExists(rows: Rows, some: set<nat>) returns (n: nat)
    requires some != {} && forall m <- some :: m in rows
    ensures n in some && forall m <- some :: m == n || Precedes(rows, n, m)
    decreases |some|
  {
    var k: nat :| k in some;
    assert some == {k} + (some - {k});
    if some - {k} == {} {
      n := k;
    } else {
      var other := LeastExists(rows, some - {k});
      n := if Precedes(rows, k, other) then k else other;
      forall m <- some ensures m == n || Precedes(rows, n, m) {
        if m != k { assert m in some - {k}; }
      }
    }
  }

  lemma {:induction false} GreatestExists(rows: Rows, some: set<nat>) returns (n: nat)
    requires some != {} && forall m <- some :: m in rows
    ensures n in some && forall m <- some :: m == n || Precedes(rows, m, n)
    decreases |some|
  {
    var k: nat :| k in some;
    assert some == {k} + (some - {k});
    if some - {k} == {} {
      n := k;
    } else {
      var other := GreatestExists(rows, some - {k});
      n := if Precedes(rows, other, k) then k else other;
      forall m <- some ensures m == n || Precedes(rows, m, n) {
        if m != k { assert m in some - {k}; }
      }
    }
  }

  lemma {:induction false} LastSeenExists(rows: Rows, some: set<nat>) returns (n: nat)
    requires some != {} && forall m <- some :: m in rows
    ensures n in some && forall m <- some :: rows[m].lastSeen <= rows[n].lastSeen
    decreases |some|
  {
    var k: nat :| k in some;
    assert some == {k} + (some - {k});
    if some - {k} == {} {
      n := k;
    } else {
      var other := LastSeenExists(rows, some - {k});
      n := if rows[other].lastSeen <= rows[k].lastSeen then k else other;
      forall m <- some ensures rows[m].lastSeen <= rows[n].lastSeen {
        if m != k { assert m in some - {k}; }
      }
    }
  }

  lemma FirstExists(rows: Rows, e: nat) returns (t: Time)
    requires Occurs(rows, e)
    ensures IsFirst(rows, e, t)
  {
    var some := set n | n in rows && Member(rows, e, n);
    var k: nat :| Member(rows, e, k);
    assert k in some;
    var n := LeastExists(rows, some);
    t := rows[n].firstSeen;
    assert Member(rows, e, n);
    forall m | Member(rows, e, m) ensures t <= rows[m].firstSeen { assert m in some; }
  }

  lemma DeletionExists(rows: Rows, e: nat) returns (t: Time)
    requires EverDeleted(rows, e)
    ensures IsDeletion(rows, e, t)
  {
    var some := set n | n in rows && DeletedMember(rows, e, n);
    var k :| DeletedMember(rows, e, k);
    assert k in some;
    var n := LeastExists(rows, some);
    t := rows[n].firstSeen;
    assert DeletedMember(rows, e, n);
    forall m | DeletedMember(rows, e, m) ensures t <= rows[m].firstSeen { assert m in some; }
  }

  lemma FinalExists(rows: Rows, e: nat) returns (t: Time, n: nat)
    requires Occurs(rows, e)
    ensures IsLast(rows, e, t) && IsFinal(rows, e, n)
  {
    var some := set n | n in rows && Member(rows, e, n);
    var k: nat :| Member(rows, e, k);
    assert k in some;
    var last := LastSeenExists(rows, some);
    n := GreatestExists(rows, some);
    t := rows[last].lastSeen;
    assert Member(rows, e, last) && Member(rows, e, n);
    forall m | Member(rows, e, m) ensures m in some {}
  }

  lemma EpisodeExists(rows: Rows, e: nat)
    requires Occurs(rows, e)
    ensures exists episode :: IsEpisode(rows, e, episode)
  {
    var first := FirstExists(rows, e);
    if EverDeleted(rows, e) {
      var t := DeletionExists(rows, e);
      assert IsEpisode(rows, e, Episode(first, t, Some(t)));
    } else {
      var t, n := FinalExists(rows, e);
      assert IsEpisode(rows, e, Episode(first, t, rows[n].closedAt));
    }
  }

  lemma FinalIsUnique(rows: Rows, e: nat, m: nat, n: nat)
    requires IsFinal(rows, e, m) && IsFinal(rows, e, n)
    ensures m == n
  {
    assert Member(rows, e, m) && Member(rows, e, n);
  }

  lemma FirstIsUnique(rows: Rows, e: nat, t: Time, u: Time)
    requires IsFirst(rows, e, t) && IsFirst(rows, e, u)
    ensures t == u
  {
    var m :| Member(rows, e, m) && rows[m].firstSeen == t;
    var n :| Member(rows, e, n) && rows[n].firstSeen == u;
  }

  lemma LastIsUnique(rows: Rows, e: nat, t: Time, u: Time)
    requires IsLast(rows, e, t) && IsLast(rows, e, u)
    ensures t == u
  {
    var m :| Member(rows, e, m) && rows[m].lastSeen == t;
    var n :| Member(rows, e, n) && rows[n].lastSeen == u;
  }

  lemma DeletionIsUnique(rows: Rows, e: nat, t: Time, u: Time)
    requires IsDeletion(rows, e, t) && IsDeletion(rows, e, u)
    ensures t == u
  {
    var m :| DeletedMember(rows, e, m) && rows[m].firstSeen == t;
    var n :| DeletedMember(rows, e, n) && rows[n].firstSeen == u;
  }

  /** The row of an episode is determined. */
  lemma EpisodeIsUnique(rows: Rows, e: nat, a: Episode, b: Episode)
    requires IsEpisode(rows, e, a) && IsEpisode(rows, e, b)
    ensures a == b
  {
    FirstIsUnique(rows, e, a.firstSeen, b.firstSeen);
    if EverDeleted(rows, e) {
      DeletionIsUnique(rows, e, a.lastSeen, b.lastSeen);
    } else {
      LastIsUnique(rows, e, a.lastSeen, b.lastSeen);
      var m :| IsFinal(rows, e, m) && a.closedAt == rows[m].closedAt;
      var n :| IsFinal(rows, e, n) && b.closedAt == rows[n].closedAt;
      FinalIsUnique(rows, e, m, n);
    }
  }

  /** The row of the view. */
  ghost function EpisodeRow(rows: Rows, e: nat): (episode: Episode)
    requires Occurs(rows, e)
    ensures IsEpisode(rows, e, episode)
  {
    EpisodeExists(rows, e);
    var episode :| IsEpisode(rows, e, episode);
    episode
  }

  /** All rows of the view for one alert, by number. */
  ghost function EpisodeRows(rows: Rows): map<nat, Episode> {
    map e | e in Numbers(rows) :: EpisodeRow(rows, e)
  }

  ghost function Numbers(rows: Rows): (numbers: set<nat>)
    ensures forall e: nat :: e in numbers <==> Occurs(rows, e)
  {
    var numbers: set<nat> := set n | n in rows :: EpisodeNumber(rows, n);
    assert forall e: nat {:trigger Occurs(rows, e)} :: Occurs(rows, e) ==> e in numbers by {
      forall e: nat | Occurs(rows, e) ensures e in numbers {
        var n: nat :| Member(rows, e, n);
      }
    }
    assert forall n: nat :: n in rows ==> Member(rows, EpisodeNumber(rows, n), n);
    numbers
  }

  /** The view holds a row exactly if it is that of an episode with a member, and never two for one episode. */
  lemma ViewIsExact(rows: Rows, e: nat, episode: Episode)
    ensures e in EpisodeRows(rows) && EpisodeRows(rows)[e] == episode <==> IsEpisode(rows, e, episode)
  {
    if IsEpisode(rows, e, episode) {
      var n :| Member(rows, e, n);
      EpisodeIsUnique(rows, e, episode, EpisodeRow(rows, e));
    }
  }

  // ---- Members of an episode ----

  lemma {:induction false} BegunGrows(chain: seq<Revision>, m: nat, n: nat)
    requires m <= n <= |chain|
    ensures Begun(chain, m) <= Begun(chain, n)
    decreases n
  {
    if m < n { BegunGrows(chain, m, n - 1); }
  }

  /** What the numbers of the view are, without the window functions. */
  ghost predicate NumbersBegun(rows: Rows, chain: seq<Revision>) {
    && InNumberOrder(rows) && Holds(rows, chain)
    && forall n: nat :: n in rows ==> EpisodeNumber(rows, n) == Begun(chain, n)
  }

  lemma ViewNumbers(chain: seq<Revision>)
    requires WellFormed(chain)
    ensures NumbersBegun(Numbered(chain), chain)
  {
    var rows := Numbered(chain);
    NumberedHolds(rows, chain);
    forall n: nat | n in rows ensures EpisodeNumber(rows, n) == Begun(chain, n) {
      NumbersCountBoundaries(rows, chain, n);
    }
  }

  /** Inside an episode each revision closes when the next begins, and no deleted one is followed by a live one. */
  lemma {:induction false} Unbroken(chain: seq<Revision>, m: nat, n: nat)
    requires 1 <= m < n <= |chain| && Begun(chain, m) == Begun(chain, n)
    ensures forall k :: m <= k < n ==> !Boundary(chain, k)
    ensures IsDeleted(chain[m - 1]) ==> IsDeleted(chain[n - 1])
    decreases n
  {
    BegunGrows(chain, m, n - 1);
    if m < n - 1 { Unbroken(chain, m, n - 1); }
  }

  /** Deleted revisions form a suffix of every episode. */
  lemma DeletedSuffix(chain: seq<Revision>, e: nat, m: nat, n: nat)
    requires WellFormed(chain)
    requires Member(Numbered(chain), e, m) && Member(Numbered(chain), e, n) && m < n
    requires IsDeleted(Numbered(chain)[m])
    ensures IsDeleted(Numbered(chain)[n])
  {
    ViewNumbers(chain);
    Unbroken(chain, m, n);
  }

  // ---- The life of an episode ----

  lemma MemberLives(rows: Rows, chain: seq<Revision>, m: nat, n: nat)
    requires WellFormed(chain) && NumbersBegun(rows, chain)
    requires m in rows && n in rows && (m == n || Precedes(rows, m, n))
    ensures rows[m].firstSeen <= rows[m].lastSeen
    ensures rows[n].closedAt.Some? ==> rows[m].lastSeen <= rows[n].closedAt.value
  {
    assert Lived(chain[m - 1]) && Lived(chain[n - 1]);
  }

  lemma MembersLive(rows: Rows, chain: seq<Revision>, e: nat, episode: Episode)
    requires WellFormed(chain) && NumbersBegun(rows, chain) && IsEpisode(rows, e, episode)
    ensures episode.firstSeen <= episode.lastSeen
    ensures episode.closedAt.Some? ==> episode.lastSeen <= episode.closedAt.value
  {
    if !EverDeleted(rows, e) {
      var m :| Member(rows, e, m) && rows[m].lastSeen == episode.lastSeen;
      var n :| IsFinal(rows, e, n) && episode.closedAt == rows[n].closedAt;
      MemberLives(rows, chain, m, n);
    }
  }

  /** No episode ends before it begins, or closes before it was last seen. */
  lemma EpisodeLives(chain: seq<Revision>, e: nat)
    requires WellFormed(chain) && e in EpisodeRows(Numbered(chain))
    ensures var episode := EpisodeRows(Numbered(chain))[e];
      && episode.firstSeen <= episode.lastSeen
      && (episode.closedAt.Some? ==> episode.lastSeen <= episode.closedAt.value)
  {
    ViewNumbers(chain);
    MembersLive(Numbered(chain), chain, e, EpisodeRow(Numbered(chain), e));
  }

  lemma MembersApart(rows: Rows, chain: seq<Revision>, e: nat, e': nat, m: nat, n: nat)
    requires WellFormed(chain) && NumbersBegun(rows, chain) && e < e' && Member(rows, e, m) && Member(rows, e', n)
    ensures rows[m].firstSeen <= rows[n].firstSeen
    ensures rows[m].closedAt.Some? && rows[m].closedAt.value <= rows[n].firstSeen
  {
    if n <= m { BegunGrows(chain, n, m); }
    assert Lived(chain[m - 1]);
  }

  lemma RowsApart(rows: Rows, chain: seq<Revision>, e: nat, e': nat, episode: Episode, episode': Episode)
    requires WellFormed(chain) && NumbersBegun(rows, chain) && e < e'
    requires IsEpisode(rows, e, episode) && IsEpisode(rows, e', episode')
    ensures episode.closedAt.Some? && episode.closedAt.value <= episode'.firstSeen
  {
    var m :| Member(rows, e, m) && (if EverDeleted(rows, e) then rows[m].firstSeen == episode.lastSeen
                                    else IsFinal(rows, e, m) && episode.closedAt == rows[m].closedAt);
    var n :| Member(rows, e', n) && rows[n].firstSeen == episode'.firstSeen;
    MembersApart(rows, chain, e, e', m, n);
  }

  /** Episodes of one alert are disjoint in time. */
  lemma EpisodesApart(chain: seq<Revision>, e: nat, e': nat)
    requires WellFormed(chain) && e < e' && e in EpisodeRows(Numbered(chain)) && e' in EpisodeRows(Numbered(chain))
    ensures var episode, next := EpisodeRows(Numbered(chain))[e], EpisodeRows(Numbered(chain))[e'];
      episode.closedAt.Some? && episode.closedAt.value <= next.firstSeen
  {
    var rows := Numbered(chain);
    ViewNumbers(chain);
    RowsApart(rows, chain, e, e', EpisodeRow(rows, e), EpisodeRow(rows, e'));
  }

  // ---- How many rows the view has ----

  /** Numbers grow by at most one, so none is left out. */
  lemma {:induction false} BegunReaches(chain: seq<Revision>, e: nat, n: nat) returns (k: nat)
    requires n <= |chain| && 1 <= e <= Begun(chain, n)
    ensures 1 <= k <= n && Begun(chain, k) == e
    decreases n
  {
    if e == Begun(chain, n) { k := n; }
    else { k := BegunReaches(chain, e, n - 1); }
  }

  function UpTo(n: nat): (s: set<nat>)
    ensures forall e: nat :: e in s <==> 1 <= e <= n
    ensures |s| == n
  {
    if n == 0 then {} else UpTo(n - 1) + {n}
  }

  /** The episodes are numbered 1, 2, ... without gaps. */
  lemma NumbersAreConsecutive(rows: Rows, chain: seq<Revision>)
    requires NumbersBegun(rows, chain)
    ensures Numbers(rows) == UpTo(Begun(chain, |chain|)) && |EpisodeRows(rows)| == Begun(chain, |chain|)
  {
    var numbers, total := Numbers(rows), Begun(chain, |chain|);
    forall e: nat | e in numbers ensures 1 <= e <= total {
      var n: nat :| Member(rows, e, n);
      BegunGrows(chain, n, |chain|);
      BegunGrows(chain, 1, n);
    }
    forall e: nat | 1 <= e <= total ensures e in numbers {
      var n := BegunReaches(chain, e, |chain|);
      assert Member(rows, e, n);
    }
    assert numbers == UpTo(total);
    assert EpisodeRows(rows).Keys == numbers;
    assert |EpisodeRows(rows)| == |EpisodeRows(rows).Keys|;
  }
}
