/** The dataset of an archive (ParseArchive in internal/gtfs/parse.go): what is accepted, and that whatever is
    accepted can be installed. */
module GtfsDataset {
  import opened Common
  import opened Ordering
  import opened GtfsStations
  import opened GtfsTables
  import opened GtfsParse

  datatype Archive = Archive(routes: Table, stops: Table, trips: Table, stopTimes: Table)

  ghost predicate TablesAccepted(library: Library, archive: Archive) {
    && RoutesAccepted(library, archive.routes)
    && StopsAccepted(library, archive.stops)
    && TripsAccepted(archive.trips, Values(archive.routes.rows, RouteId))
    && var stops := StopsOf(library, archive.stops.rows);
       StopTimesAccepted(archive.stopTimes, TripsOf(archive.trips.rows), StationMap(GraphOf(stops)), StationsOf(stops))
  }

  /** An archive is refused when any table is empty, or no stop is a station. */
  predicate NotEmpty(library: Library, archive: Archive)
    requires archive.routes.Table? && archive.stops.Table? && archive.trips.Table? && archive.stopTimes.Table?
  {
    && archive.routes.rows != [] && archive.stops.rows != [] && archive.trips.rows != [] && archive.stopTimes.rows != []
    && StationsOf(StopsOf(library, archive.stops.rows)) != {}
  }

  ghost predicate Accepted(library: Library, archive: Archive) {
    TablesAccepted(library, archive) && NotEmpty(library, archive)
  }

  /** The relations are exactly the pairs of a route and the station of a stop that one of its trips calls at. */
  ghost predicate RelatesRoutes(archive: Archive, library: Library, relations: seq<RouteStation>)
    requires archive.stopTimes.Table? && archive.trips.Table? && archive.stops.Table?
  {
    && StrictlySorted(RelationLess(), relations)
    && forall relation :: relation in relations <==>
         relation in Relations(archive.stopTimes.rows, TripsOf(archive.trips.rows),
                               StationMap(GraphOf(StopsOf(library, archive.stops.rows))))
  }

  /** What the tables amount to, with the counts of the emptiness check. */
  ghost predicate Reads(library: Library, archive: Archive, dataset: Dataset, stations: nat, trips: nat, stopTimes: nat)
    requires archive.routes.Table? && archive.stops.Table? && archive.trips.Table? && archive.stopTimes.Table?
  {
    && dataset.routes == RoutesOf(library, archive.routes.rows)
    && dataset.stops == StopsOf(library, archive.stops.rows)
    && RelatesRoutes(archive, library, dataset.relations)
    && |dataset.routes| == |archive.routes.rows| && |dataset.stops| == |archive.stops.rows|
    && stations == |StationsOf(dataset.stops)| && trips == |archive.trips.rows| && stopTimes == |archive.stopTimes.rows|
    && (stopTimes > 0 ==> dataset.relations != [])
  }

  /** Routes and stops say what their records say, one for one and in order. */
  predicate ReadsNetwork(library: Library, routes: seq<Row>, stops: seq<Row>, dataset: Dataset) {
    && |dataset.routes| == |routes| && |dataset.stops| == |stops|
    && (forall i :: 0 <= i < |routes| ==> ReadsRoute(library, routes[i], dataset.routes[i]))
    && (forall i :: 0 <= i < |stops| ==> ReadsStop(library, stops[i], dataset.stops[i]))
  }

  method ReadNetwork(library: Library, routesTable: Table, stopsTable: Table)
    returns (r: Result<(seq<Route>, seq<Stop>)>, ids: set<string>, stopStations: map<string, string>,
             stations: set<string>)
    ensures r.Ok? <==> RoutesAccepted(library, routesTable) && StopsAccepted(library, stopsTable)
    ensures r.Ok? ==>
      && r.value.0 == RoutesOf(library, routesTable.rows) && r.value.1 == StopsOf(library, stopsTable.rows)
      && |r.value.0| == |routesTable.rows| && |r.value.1| == |stopsTable.rows|
      && ids == Values(routesTable.rows, RouteId)
      && stopStations == StationMap(GraphOf(r.value.1)) && stations == StationsOf(r.value.1)
  {
    stopStations, stations := map[], {};
    var routes;
    routes, ids := ParseRoutes(library, routesTable);
    if routes.Err? { return Err, ids, stopStations, stations; }
    var stops;
    stops, stopStations, stations := ParseStops(library, stopsTable);
    if stops.Err? { return Err, ids, stopStations, stations; }
    ParsedRows(RouteParser(library), routesTable.rows);
    ParsedRows(StopParser(library), stopsTable.rows);
    r := Ok((routes.value, stops.value));
  }

  method ReadTables(library: Library, archive: Archive)
    returns (r: Result<Dataset>, stationCount: nat, tripCount: nat, stopTimeCount: nat)
    ensures r.Ok? <==> TablesAccepted(library, archive)
    ensures r.Ok? ==> Reads(library, archive, r.value, stationCount, tripCount, stopTimeCount)
  {
    stationCount, tripCount, stopTimeCount := 0, 0, 0;
    var network, ids, stopStations, stations := ReadNetwork(library, archive.routes, archive.stops);
    if network.Err? { return Err, 0, 0, 0; }
    var trips := ParseTrips(archive.trips, ids);
    if trips.Err? { return Err, 0, 0, 0; }
    var relations, count := ParseStopTimes(archive.stopTimes, trips.value, stopStations, stations);
    if relations.Err? { return Err, 0, 0, 0; }
    if count > 0 { SomeRelation(archive.stopTimes.rows, trips.value, stopStations, stations); }
    r := Ok(Dataset(network.value.0, network.value.1, relations.value));
    stationCount, tripCount, stopTimeCount := |stations|, |trips.value|, count;
  }

  method ParseTables(library: Library, archive: Archive) returns (r: Result<Dataset>)
    ensures r.Ok? <==> Accepted(library, archive)
    ensures r.Ok? ==>
      && r.value.routes == RoutesOf(library, archive.routes.rows)
      && r.value.stops == StopsOf(library, archive.stops.rows)
      && RelatesRoutes(archive, library, r.value.relations)
    ensures r.Ok? ==> (Installable(r.value) <==> ColumnsFit(r.value))
    ensures r.Ok? ==> ReadsNetwork(library, archive.routes.rows, archive.stops.rows, r.value)
  {
    var stationCount, tripCount, stopTimeCount;
    r, stationCount, tripCount, stopTimeCount := ReadTables(library, archive);
    if r.Err? { return; }
    var dataset := r.value;
    ReadsConclude(library, archive, dataset, stationCount, tripCount, stopTimeCount);
    RoutesRead(library, archive.routes.rows);
    StopsRead(library, archive.stops.rows);
    if |dataset.routes| == 0 || |dataset.stops| == 0 || stationCount == 0 || tripCount == 0 || stopTimeCount == 0
      || |dataset.relations| == 0
    {
      return Err;
    }
  }

  lemma ReadsConclude(library: Library, archive: Archive, dataset: Dataset, stations: nat, trips: nat, stopTimes: nat)
    requires TablesAccepted(library, archive) && Reads(library, archive, dataset, stations, trips, stopTimes)
    ensures Accepted(library, archive) <==>
              !(|dataset.routes| == 0 || |dataset.stops| == 0 || stations == 0 || trips == 0 || stopTimes == 0
                || |dataset.relations| == 0)
    ensures Installable(dataset) <==> ColumnsFit(dataset)
  {
    AcceptedIsInstallable(library, archive, dataset);
  }

  lemma SomeRelation(rows: seq<Row>, trips: map<string, string>, stopStations: map<string, string>,
                     stations: set<string>)
    requires rows != [] && forall row <- rows :: StopTimeAccepted(row, trips, stopStations, stations)
    ensures exists relation :: relation in Relations(rows, trips, stopStations)
  {
    assert rows[0] in rows;
    assert RelationOf(rows[0], trips, stopStations) in Relations(rows, trips, stopStations);
  }

  // ---- Accepted datasets can be installed ----

  lemma StopsInstallable(stops: seq<Stop>)
    requires StopKeys(stops) && ParentsAccepted(GraphOf(stops))
    requires forall stop <- stops :: stop.id != "" && 0 <= stop.locationType <= 4
    ensures forall stop <- stops :: LocationTypeChecks(stop) && ParentForeignKey(stops, stop)
  {
    forall i | 0 <= i < |stops| ensures LocationTypeChecks(stops[i]) && ParentForeignKey(stops, stops[i]) {
      GraphHolds(stops, i);
      var g := GraphOf(stops);
      assert ParentAccepted(g, stops[i].id);
      if stops[i].parent != "" { ListedStop(stops, stops[i].parent); }
    }
  }

  /** The parser accepts exactly the parents that the tables accept. */
  lemma ParentsAcceptedExactly(stops: seq<Stop>)
    requires StopKeys(stops) && forall stop <- stops :: stop.id != "" && 0 <= stop.locationType <= 4
    ensures ParentsAccepted(GraphOf(stops))
        <==> forall stop <- stops :: LocationTypeChecks(stop) && ParentForeignKey(stops, stop)
  {
    if ParentsAccepted(GraphOf(stops)) {
      StopsInstallable(stops);
    } else if forall stop <- stops :: LocationTypeChecks(stop) && ParentForeignKey(stops, stop) {
      GraphKeys(stops);
      forall id <- GraphOf(stops).types ensures ParentAccepted(GraphOf(stops), id) {
        var stop :| stop in stops && stop.id == id;
        var i :| 0 <= i < |stops| && stops[i] == stop;
        ParentKept(stops, i);
      }
    }
  }

  lemma ParentKept(stops: seq<Stop>, i: nat)
    requires StopKeys(stops) && i < |stops| && 0 <= stops[i].locationType <= 4
    requires LocationTypeChecks(stops[i]) && ParentForeignKey(stops, stops[i])
    ensures stops[i].id in GraphOf(stops).types && stops[i].id in GraphOf(stops).parents
    ensures ParentAccepted(GraphOf(stops), stops[i].id)
  {
    GraphHolds(stops, i);
    if stops[i].parent != "" {
      var kind := if stops[i].locationType == 4 then 0 else STATION;
      var j :| 0 <= j < |stops| && stops[j].id == stops[i].parent && stops[j].locationType == kind;
      GraphHolds(stops, j);
    }
  }

  lemma ListedStop(stops: seq<Stop>, id: string)
    requires StopKeys(stops) && id in GraphOf(stops).types
    ensures HasStop(stops, id, GraphOf(stops).types[id])
  {
    GraphKeys(stops);
    var stop :| stop in stops && stop.id == id;
    var i :| 0 <= i < |stops| && stops[i] == stop;
    GraphHolds(stops, i);
  }

  lemma {:induction false} TripsLeadToRoutes(rows: seq<Row>, routes: set<string>, trip: string)
    requires TripRows(rows, routes) && trip in TripsOf(rows)
    ensures TripsOf(rows)[trip] in routes
  {
    var n := |rows| - 1;
    assert rows[n] in rows && TripAccepted(rows[n], routes);
    if trip != Value(rows[n], TripId) { TripsLeadToRoutes(rows[..n], routes, trip); }
  }

  lemma RouteListed(library: Library, rows: seq<Row>, id: string)
    requires RouteRows(library, rows) && id in Values(rows, RouteId)
    ensures exists i :: 0 <= i < |RoutesOf(library, rows)| && RoutesOf(library, rows)[i].id == id
  {
    ParsedRows(RouteParser(library), rows);
    var row :| row in rows && Value(row, RouteId) == id;
    var i :| 0 <= i < |rows| && rows[i] == row;
    assert RoutesOf(library, rows)[i].id == id;
  }

  lemma StationListed(stops: seq<Stop>, station: string)
    requires station in StationsOf(stops)
    ensures HasStop(stops, station, STATION)
  {
    var stop :| stop in stops && stop.locationType == STATION && stop.id == station;
    var i :| 0 <= i < |stops| && stops[i] == stop;
  }

  lemma StopsInRange(library: Library, rows: seq<Row>)
    requires StopRows(library, rows)
    ensures forall stop <- StopsOf(library, rows) :: stop.id != "" && 0 <= stop.locationType <= 4
  {
    ParsedRows(StopParser(library), rows);
  }

  lemma RelationInstallable(library: Library, archive: Archive, dataset: Dataset, relation: RouteStation)
    requires TablesAccepted(library, archive)
    requires dataset.routes == RoutesOf(library, archive.routes.rows)
    requires dataset.stops == StopsOf(library, archive.stops.rows)
    requires RelatesRoutes(archive, library, dataset.relations) && relation in dataset.relations
    ensures RouteStationForeignKeys(dataset, relation)
  {
    var trips, stopStations := TripsOf(archive.trips.rows), StationMap(GraphOf(dataset.stops));
    var row :| row in archive.stopTimes.rows && Value(row, TripId) in trips && Value(row, StopId) in stopStations
            && RelationOf(row, trips, stopStations) == relation;
    assert StopTimeAccepted(row, trips, stopStations, StationsOf(dataset.stops));
    TripsLeadToRoutes(archive.trips.rows, Values(archive.routes.rows, RouteId), Value(row, TripId));
    RouteListed(library, archive.routes.rows, relation.route);
    StationListed(dataset.stops, relation.station);
  }

  /** An accepted dataset keeps every key, check and foreign key of the tables, so it can be installed exactly if its
      values have the types of their columns. */
  lemma AcceptedIsInstallable(library: Library, archive: Archive, dataset: Dataset)
    requires TablesAccepted(library, archive)
    requires dataset.routes == RoutesOf(library, archive.routes.rows)
    requires dataset.stops == StopsOf(library, archive.stops.rows)
    requires RelatesRoutes(archive, library, dataset.relations)
    ensures Installable(dataset) <==> ColumnsFit(dataset)
  {
    RoutesKeyed(library, archive.routes.rows);
    StopsKeyed(library, archive.stops.rows);
    StopsInRange(library, archive.stops.rows);
    StopsInstallable(dataset.stops);
    RelationsOrdered();
    forall relation <- dataset.relations ensures RouteStationForeignKeys(dataset, relation) {
      RelationInstallable(library, archive, dataset, relation);
    }
  }

  /** The archive with another colour for one of its routes. */
  function Recoloured(archive: Archive, i: nat, colour: string): Archive
    requires archive.routes.Table? && i < |archive.routes.rows|
  {
    var rows := archive.routes.rows;
    archive.(routes := archive.routes.(rows := rows[i := rows[i][RouteColor := colour]]))
  }

  lemma RecolouredRow(library: Library, row: Row, colour: string)
    ensures var row' := row[RouteColor := colour];
      && Value(row', RouteId) == Value(row, RouteId) && (RouteOf(library, row').Some? <==> RouteOf(library, row).Some?)
      && (RouteOf(library, row').Some? ==> RouteOf(library, row').value.color == library.upper(colour))
  {
  }

  lemma RecolouredRoutes(library: Library, rows: seq<Row>, i: nat, colour: string)
    requires RouteRows(library, rows) && i < |rows|
    ensures var rows' := rows[i := rows[i][RouteColor := colour]];
      && RouteRows(library, rows') && Values(rows', RouteId) == Values(rows, RouteId)
      && |RoutesOf(library, rows')| == |rows| && RoutesOf(library, rows')[i].color == library.upper(colour)
  {
    var rows' := rows[i := rows[i][RouteColor := colour]];
    RecolouredRow(library, rows[i], colour);
    assert IsParsed(RouteParser(library))(rows[i]);
    forall j | 0 <= j < |rows| ensures Value(rows'[j], RouteId) == Value(rows[j], RouteId) {}
    forall row <- rows' ensures IsParsed(RouteParser(library))(row) {}
    SameValues(rows, rows', RouteId);
    ParsedRows(RouteParser(library), rows');
  }

  lemma SameValues(a: seq<Row>, b: seq<Row>, column: Column)
    requires |a| == |b| && forall j :: 0 <= j < |a| ==> Value(a[j], column) == Value(b[j], column)
    ensures Values(a, column) == Values(b, column)
  {
    forall value ensures value in Values(a, column) <==> value in Values(b, column) {
      if row :| row in a && Value(row, column) == value {
        var j :| 0 <= j < |a| && a[j] == row;
        assert b[j] in b;
      }
      if row :| row in b && Value(row, column) == value {
        var j :| 0 <= j < |b| && b[j] == row;
        assert a[j] in a;
      }
    }
  }

  /** The parser looks at no colour: any accepted archive stays accepted with one that its column refuses. */
  lemma ColoursAreNotChecked(library: Library, archive: Archive, i: nat, colour: string, dataset: Dataset)
    requires Accepted(library, archive) && i < |archive.routes.rows| && !FitsSix(library.upper(colour))
    requires dataset.routes == RoutesOf(library, Recoloured(archive, i, colour).routes.rows)
    ensures Accepted(library, Recoloured(archive, i, colour)) && !Installable(dataset)
  {
    RecolouredRoutes(library, archive.routes.rows, i, colour);
    assert dataset.routes[i] in dataset.routes;
  }

  /** Two readings of one archive list the same relations in the same order, whatever order maps and sets are
      walked in. */
  lemma RelationsDetermined(library: Library, archive: Archive, a: seq<RouteStation>, b: seq<RouteStation>)
    requires archive.stopTimes.Table? && archive.trips.Table? && archive.stops.Table?
    requires RelatesRoutes(archive, library, a) && RelatesRoutes(archive, library, b)
    ensures a == b
  {
    RelationsOrdered();
    ListingIsUnique(RelationLess(), a, b);
  }

  /** On an installed dataset the view finds, for stops and boarding areas, the stations the parser used. */
  lemma ViewMatchesParser(library: Library, archive: Archive, stop: string, station: string)
    requires TablesAccepted(library, archive)
    ensures var g := GraphOf(StopsOf(library, archive.stops.rows));
      (stop in StationMap(g) && StationMap(g)[stop] == station) <==>
      (stop in g.types && (g.types[stop] == 0 || g.types[stop] == 4) && StationInView(g, stop, station))
  {
    var stops := StopsOf(library, archive.stops.rows);
    StopsKeyed(library, archive.stops.rows);
    StopsInRange(library, archive.stops.rows);
    GraphValidated(stops);
    if stop in GraphOf(stops).types { ViewAgrees(GraphOf(stops), stop, station); }
  }
}
