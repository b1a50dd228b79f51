/** From a stop to its parent station: resolveStation of internal/gtfs/parse.go, and the recursive view
    stop_parent_stations of migration 00005 over the stops table. */
module GtfsStations {
  import opened Common

  /** Location types and parents by stop, as the parser collects them and as the stops table holds them.
      No parent is the empty string. */
  datatype StopGraph = StopGraph(types: map<string, int>, parents: map<string, string>)

  const STATION: int := 1

  function TypeOf(g: StopGraph, stop: string): int {
    if stop in g.types then g.types[stop] else 0
  }

  function ParentOf(g: StopGraph, stop: string): string {
    if stop in g.parents then g.parents[stop] else ""
  }

  /** Some("") says the walk ends without a station; None that it came back to a stop. */
  function ResolveStation(g: StopGraph, stop: string, visiting: set<string>): Option<string>
    decreases g.parents.Keys - visiting
  {
    if stop in visiting then None
    else if TypeOf(g, stop) == STATION then Some(stop)
    else if ParentOf(g, stop) == "" then Some("")
    else
      assert stop in g.parents.Keys - visiting;
      ResolveStation(g, ParentOf(g, stop), visiting + {stop})
  }

  // ---- The walk from parent to parent ----

  predicate WalkEnds(g: StopGraph, stop: string) {
    TypeOf(g, stop) == STATION || ParentOf(g, stop) == ""
  }

  predicate Goes(g: StopGraph, stop: string, next: string) {
    !WalkEnds(g, stop) && next == ParentOf(g, stop)
  }

  /** A walk from its first stop, from parent to parent. */
  ghost predicate IsWalk(g: StopGraph, walk: seq<string>) {
    && walk != []
    && forall i, j :: 0 <= i < j < |walk| && j == i + 1 ==> Goes(g, walk[i], walk[j])
  }

  function Elements(stops: seq<string>): set<string> {
    set stop | stop in stops
  }

  predicate Revisits(walk: seq<string>) {
    walk != [] && walk[|walk| - 1] in walk[..|walk| - 1]
  }

  ghost predicate ComesBack(g: StopGraph, stop: string) {
    exists walk :: IsWalk(g, walk) && walk[0] == stop && Revisits(walk)
  }

  ghost predicate EndsAt(g: StopGraph, stop: string, last: string) {
    exists walk :: IsWalk(g, walk) && walk[0] == stop && walk[|walk| - 1] == last && WalkEnds(g, last)
  }

  /** From a walk that has not come back: the result is where it goes on to. */
  lemma {:induction false} ResolveFollows(g: StopGraph, walk: seq<string>, visiting: set<string>)
    returns (whole: seq<string>)
    requires IsWalk(g, walk) && visiting == Elements(walk[..|walk| - 1])
    ensures IsWalk(g, whole) && walk <= whole
    ensures match ResolveStation(g, walk[|walk| - 1], visiting)
      case None => Revisits(whole)
      case Some(station) =>
        && WalkEnds(g, whole[|whole| - 1])
        && station == if TypeOf(g, whole[|whole| - 1]) == STATION then whole[|whole| - 1] else ""
    decreases g.parents.Keys - visiting
  {
    var stop := walk[|walk| - 1];
    if stop in visiting || WalkEnds(g, stop) {
      whole := walk;
    } else {
      var longer := walk + [ParentOf(g, stop)];
      assert Goes(g, longer[|walk| - 1], longer[|walk|]);
      assert IsWalk(g, longer);
      assert longer[..|longer| - 1] == walk == walk[..|walk| - 1] + [stop];
      assert visiting + {stop} == Elements(longer[..|longer| - 1]);
      assert stop in g.parents.Keys - visiting;
      whole := ResolveFollows(g, longer, visiting + {stop});
    }
  }

  /** Two walks from one stop agree as far as both go. */
  lemma {:induction false} WalksAgree(g: StopGraph, a: seq<string>, b: seq<string>, k: nat)
    requires IsWalk(g, a) && IsWalk(g, b) && a[0] == b[0] && k < |a| && k < |b|
    ensures a[k] == b[k]
  {
    if k > 0 { WalksAgree(g, a, b, k - 1); }
  }

  lemma GoesOn(g: StopGraph, walk: seq<string>, i: nat)
    requires IsWalk(g, walk) && i + 1 < |walk|
    ensures !WalkEnds(g, walk[i])
  {
    assert Goes(g, walk[i], walk[i + 1]);
  }

  /** A walk that ends never comes back. */
  lemma EndsOrComesBack(g: StopGraph, a: seq<string>, b: seq<string>)
    requires IsWalk(g, a) && IsWalk(g, b) && a[0] == b[0] && WalkEnds(g, a[|a| - 1])
    ensures !Revisits(b)
  {
    var end, last := |a| - 1, |b| - 1;
    if |a| < |b| {
      WalksAgree(g, a, b, end);
      GoesOn(g, b, end);
    } else if Revisits(b) {
      var i :| 0 <= i < last && b[i] == b[last];
      WalksAgree(g, a, b, i);
      WalksAgree(g, a, b, last);
      Recurs(g, a, i, last, end - last);
      GoesOn(g, a, end - last + i);
    }
  }

  lemma {:induction false} Recurs(g: StopGraph, a: seq<string>, i: nat, j: nat, k: nat)
    requires IsWalk(g, a) && i < j && j + k < |a| && a[i] == a[j]
    ensures a[i + k] == a[j + k]
  {
    if k > 0 { Recurs(g, a, i, j, k - 1); }
  }

  lemma WalksEndAlike(g: StopGraph, a: seq<string>, b: seq<string>)
    requires IsWalk(g, a) && IsWalk(g, b) && a[0] == b[0]
    requires WalkEnds(g, a[|a| - 1]) && WalkEnds(g, b[|b| - 1])
    ensures a[|a| - 1] == b[|b| - 1]
  {
    if |a| < |b| {
      WalksAgree(g, a, b, |a| - 1);
      GoesOn(g, b, |a| - 1);
    } else if |b| < |a| {
      WalksAgree(g, a, b, |b| - 1);
      GoesOn(g, a, |b| - 1);
    } else {
      WalksAgree(g, a, b, |a| - 1);
    }
  }

  /** What a walk that comes back, or ends, tells about the result. */
  lemma WalkDecides(g: StopGraph, stop: string, walk: seq<string>)
    requires IsWalk(g, walk) && walk[0] == stop
    ensures Revisits(walk) ==> ResolveStation(g, stop, {}).None?
    ensures var last := walk[|walk| - 1]; WalkEnds(g, last) ==>
      ResolveStation(g, stop, {}) == Some(if TypeOf(g, last) == STATION then last else "")
  {
    var whole := ResolveFollows(g, [stop], {});
    if ResolveStation(g, stop, {}).Some? {
      EndsOrComesBack(g, whole, walk);
      if WalkEnds(g, walk[|walk| - 1]) { WalksEndAlike(g, whole, walk); }
    } else if WalkEnds(g, walk[|walk| - 1]) {
      EndsOrComesBack(g, walk, whole);
    }
  }

  /** On arbitrary maps resolveStation terminates; it fails exactly when the walk comes back to a stop before it
      reaches a station or an end, and otherwise finds the station the walk ends at, if it is one. */
  lemma ResolveStationExact(g: StopGraph, stop: string)
    ensures ResolveStation(g, stop, {}).None? <==> ComesBack(g, stop)
    ensures forall last :: EndsAt(g, stop, last) ==>
              ResolveStation(g, stop, {}) == Some(if TypeOf(g, last) == STATION then last else "")
  {
    if ResolveStation(g, stop, {}).None? {
      var whole := ResolveFollows(g, [stop], {});
    }
    forall walk | IsWalk(g, walk) && walk[0] == stop && Revisits(walk) ensures ResolveStation(g, stop, {}).None? {
      WalkDecides(g, stop, walk);
    }
    forall last | EndsAt(g, stop, last)
      ensures ResolveStation(g, stop, {}) == Some(if TypeOf(g, last) == STATION then last else "")
    {
      var walk :| IsWalk(g, walk) && walk[0] == stop && walk[|walk| - 1] == last && WalkEnds(g, last);
      WalkDecides(g, stop, walk);
    }
  }

  // ---- Parents that were validated ----

  /** The type the parent of a stop must have; None where there is no parent to check. */
  function ExpectedParentType(locationType: int, parent: string): Option<int> {
    if locationType == 0 then (if parent != "" then Some(STATION) else None)
    else if locationType == 1 then None
    else if locationType == 4 then Some(0)
    else Some(STATION)
  }

  predicate ParentAccepted(g: StopGraph, stop: string)
    requires stop in g.types && stop in g.parents
  {
    var parent, expected := g.parents[stop], ExpectedParentType(g.types[stop], g.parents[stop]);
    && (g.types[stop] == STATION ==> parent == "")
    && (expected.Some? ==> parent != "" && parent in g.types && g.types[parent] == expected.value)
  }

  predicate Validated(g: StopGraph) {
    && g.types.Keys == g.parents.Keys && "" !in g.types
    && (forall stop <- g.types :: 0 <= g.types[stop] <= 4)
    && forall stop <- g.types :: ParentAccepted(g, stop)
  }

  /** After validation the cycle error cannot happen, and what is found is a station of the file. */
  lemma ValidatedResolves(g: StopGraph, stop: string)
    requires Validated(g) && stop in g.types
    ensures var station := ResolveStation(g, stop, {});
      station.Some? && (station.value != "" ==> station.value in g.types && g.types[station.value] == STATION)
  {
    assert ParentAccepted(g, stop);
    var parent := g.parents[stop];
    if g.types[stop] != STATION && parent != "" {
      assert ParentAccepted(g, parent) && parent != stop;
      assert ResolveStation(g, stop, {}) == ResolveStation(g, parent, {} + {stop});
      var above := g.parents[parent];
      if g.types[parent] != STATION && above != "" {
        assert g.types[above] == STATION && above != stop;
        assert ResolveStation(g, parent, {} + {stop}) == ResolveStation(g, above, {} + {stop} + {parent});
      }
    }
  }

  /** What is found for a stop with validated parents: a station finds itself, a boarding area the parent of its
      platform, and any other stop its parent, where there is one. */
  lemma ValidatedFinds(g: StopGraph, stop: string)
    requires Validated(g) && stop in g.types
    ensures g.types[stop] == 1 ==> ResolveStation(g, stop, {}) == Some(stop)
    ensures g.types[stop] == 0 || g.types[stop] == 2 || g.types[stop] == 3 ==>
      ResolveStation(g, stop, {}) == Some(g.parents[stop])
    ensures g.types[stop] == 4 ==>
      g.parents[stop] in g.parents && ResolveStation(g, stop, {}) == Some(g.parents[g.parents[stop]])
  {
    assert ParentAccepted(g, stop);
    var parent := g.parents[stop];
    if g.types[stop] != STATION && parent != "" {
      assert ParentAccepted(g, parent) && parent != stop;
      assert ResolveStation(g, stop, {}) == ResolveStation(g, parent, {} + {stop});
      var above := g.parents[parent];
      if g.types[parent] != STATION && above != "" {
        assert g.types[above] == STATION && above != stop;
        assert ResolveStation(g, parent, {} + {stop}) == ResolveStation(g, above, {} + {stop} + {parent});
      }
    }
  }

  // ---- The recursive view ----

  /** Step `j` of a path: from a stop that is not a station to its parent, not yet on the path. */
  predicate Joins(g: StopGraph, path: seq<string>, j: int) {
    && 0 < j < |path|
    && TypeOf(g, path[j - 1]) != STATION && ParentOf(g, path[j - 1]) == path[j] && path[j] !in path[..j]
  }

  /** A row of the recursive query, as its path. */
  ghost predicate Ancestry(g: StopGraph, path: seq<string>) {
    && path != [] && (forall stop <- path :: stop in g.types)
    && (forall j {:trigger Joins(g, path, j)} :: 0 < j < |path| ==> Joins(g, path, j))
  }

  /** A row of stop_parent_stations. */
  ghost predicate StationInView(g: StopGraph, stop: string, station: string) {
    exists path :: Ancestry(g, path) && path[0] == stop && path[|path| - 1] == station && TypeOf(g, station) == STATION
  }

  ghost predicate LeadsTo(g: StopGraph, path: seq<string>, station: string) {
    exists longer :: Ancestry(g, longer) && path <= longer && longer[|longer| - 1] == station
                     && TypeOf(g, station) == STATION
  }

  lemma PathPrefix(g: StopGraph, longer: seq<string>, path: seq<string>)
    requires Ancestry(g, longer) && path <= longer && path != []
    ensures Ancestry(g, path)
  {
    forall stop <- path ensures stop in g.types { assert stop in longer; }
    forall j | 0 < j < |path| ensures Joins(g, path, j) {
      var joins := Joins(g, longer, j);
      assert joins && path[..j] == longer[..j];
    }
  }

  lemma AncestryStep(g: StopGraph, path: seq<string>, parent: string)
    requires Ancestry(g, path) && TypeOf(g, path[|path| - 1]) != STATION && parent == ParentOf(g, path[|path| - 1])
    ensures Ancestry(g, path + [parent]) <==> parent in g.types && parent !in path
  {
    var longer := path + [parent];
    assert longer[..|path|] == path;
    if parent in g.types && parent !in path {
      forall j | 0 < j < |longer| ensures Joins(g, longer, j) {
        var joins := Joins(g, path, j);
        assert j < |path| ==> joins && path[..j] == longer[..j];
      }
    }
    if Ancestry(g, longer) {
      assert longer[|path|] in longer;
      var joins := Joins(g, longer, |path|);
      assert joins;
    }
  }

  /** A longer path goes on with the parent of the last stop. */
  lemma LeadsOn(g: StopGraph, path: seq<string>, station: string)
    requires Ancestry(g, path) && path[|path| - 1] != station
    ensures LeadsTo(g, path, station) <==>
              TypeOf(g, path[|path| - 1]) != STATION && LeadsTo(g, path + [ParentOf(g, path[|path| - 1])], station)
  {
    if LeadsTo(g, path, station) {
      var longer :| Ancestry(g, longer) && path <= longer && longer[|longer| - 1] == station
                 && TypeOf(g, station) == STATION;
      var joins := Joins(g, longer, |path|);
      assert joins;
      assert path + [longer[|path|]] <= longer;
    }
  }

  lemma {:induction false} ViewFollows(g: StopGraph, path: seq<string>, visiting: set<string>, station: string)
    requires g.types.Keys == g.parents.Keys && "" !in g.types && Ancestry(g, path)
    requires visiting == Elements(path[..|path| - 1]) && path[|path| - 1] !in visiting
    ensures LeadsTo(g, path, station) <==>
              station != "" && ResolveStation(g, path[|path| - 1], visiting) == Some(station)
    decreases g.parents.Keys - visiting
  {
    var stop := path[|path| - 1];
    var parent := ParentOf(g, stop);
    assert stop in path;
    if TypeOf(g, stop) == STATION {
      if station == stop { assert path <= path; } else { LeadsOn(g, path, station); }
    } else {
      if station == stop { NotThroughSelf(g, path, station); } else { LeadsOn(g, path, station); }
      AncestryStep(g, path, parent);
      if parent in g.types && parent !in path {
        var longer := path + [parent];
        assert longer[..|longer| - 1] == path == path[..|path| - 1] + [stop];
        ViewFollows(g, longer, visiting + {stop}, station);
      } else {
        if LeadsTo(g, path + [parent], station) {
          var longer :| Ancestry(g, longer) && path + [parent] <= longer && longer[|longer| - 1] == station;
          PathPrefix(g, longer, path + [parent]);
        }
        if station != "" { NoWayOn(g, path, visiting, station); }
      }
    }
  }

  lemma NotThroughSelf(g: StopGraph, path: seq<string>, station: string)
    requires TypeOf(g, station) != STATION
    ensures !LeadsTo(g, path, station)
  {
  }

  lemma NoWayOn(g: StopGraph, path: seq<string>, visiting: set<string>, station: string)
    requires g.types.Keys == g.parents.Keys && Ancestry(g, path) && station != ""
    requires visiting == Elements(path[..|path| - 1])
    requires path[|path| - 1] !in visiting && TypeOf(g, path[|path| - 1]) != STATION
    requires var parent := ParentOf(g, path[|path| - 1]); parent !in g.types || parent in path
    ensures ResolveStation(g, path[|path| - 1], visiting) != Some(station)
  {
    var stop := path[|path| - 1];
    var parent, passed := ParentOf(g, stop), visiting + {stop};
    assert path == path[..|path| - 1] + [stop];
    assert forall x :: x in path <==> x in passed;
    if parent != "" {
      assert stop in g.parents.Keys - visiting;
      assert ResolveStation(g, stop, visiting) == ResolveStation(g, parent, passed);
      if parent !in path { assert TypeOf(g, parent) == 0 && ParentOf(g, parent) == ""; }
    }
  }

  /** On any stops table, with or without valid parents, the view and resolveStation find the same station, or
      none; in particular the view has at most one station per stop. */
  lemma ViewAgrees(g: StopGraph, stop: string, station: string)
    requires g.types.Keys == g.parents.Keys && "" !in g.types && stop in g.types
    ensures StationInView(g, stop, station) <==> station != "" && ResolveStation(g, stop, {}) == Some(station)
  {
    ViewFollows(g, [stop], {}, station);
    if StationInView(g, stop, station) {
      var path :| Ancestry(g, path) && path[0] == stop && path[|path| - 1] == station && TypeOf(g, station) == STATION;
      assert [stop] <= path;
    }
  }
}
