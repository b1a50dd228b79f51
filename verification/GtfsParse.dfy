/** The four table parsers of internal/gtfs/parse.go. Each is proved to accept exactly the tables described by
    its `...Accepted` predicate, and the datasets they make are proved installable. */
module GtfsParse {
  import opened Common
  import opened Ordering
  import opened GtfsStations
  import opened GtfsTables

  const MAX_ROUTES := 10_000
  const MAX_STOPS := 100_000
  const MAX_TRIPS := 500_000
  const MAX_STOP_TIMES := 5_000_000
  const MAX_RELATIONS := 250_000

  /** The columns the parsers use, named as in the headers. */
  datatype Column =
    | RouteId | RouteType | AgencyId | RouteShortName | RouteLongName | RouteColor | RouteTextColor
    | StopId | StopName | StopLat | StopLon | StopUrl | LocationType | ParentStation | WheelchairBoarding | LevelId
    | PlatformCode | TripId

  type Row = map<Column, string>

  /** A CSV file as its reader delivers it: the header's columns, the records, and whether it broke off. */
  datatype Table = Unreadable | Table(columns: set<Column>, rows: seq<Row>, broken: bool)

  /** strconv.Atoi, strconv.ParseFloat, strings.ToUpper and strings.EqualFold. */
  datatype Library = Library(
    integer: string -> Option<int>, float: string -> Option<real>, upper: string -> string,
    sameFolded: (string, string) -> bool)

  /** An absent column, or one beyond a short record, reads as empty. */
  function Value(row: Row, column: Column): string {
    if column in row then row[column] else ""
  }

  predicate Opens(table: Table, required: set<Column>) {
    table.Table? && required <= table.columns
  }

  /** A table opens if it has the columns that are asked for, whatever others it has. */
  lemma OpensExactly(table: Table, required: set<Column>)
    ensures Opens(table, required) <==> table.Table? && forall column <- required :: column in table.columns
  {
  }

  lemma ValueExactly(row: Row, column: Column, text: string)
    ensures Value(row[column := text], column) == text
    ensures Value(row - {column}, column) == ""
  {
  }

  /** Records can be keyed by one of their columns. */
  ghost predicate DistinctValues(rows: seq<Row>, column: Column) {
    forall i, j :: 0 <= i < j < |rows| ==> Value(rows[i], column) != Value(rows[j], column)
  }

  function Values(rows: seq<Row>, column: Column): set<string> {
    set row | row in rows :: Value(row, column)
  }

  lemma ValuesNext(done: seq<Row>, row: Row, column: Column)
    ensures Values(done + [row], column) == Values(done, column) + {Value(row, column)}
  {
  }

  lemma DistinctNext(done: seq<Row>, row: Row, column: Column)
    requires DistinctValues(done, column) && Value(row, column) !in Values(done, column)
    ensures DistinctValues(done + [row], column)
  {
    forall j | 0 <= j < |done| ensures Value(done[j], column) != Value(row, column) {
      assert done[j] in done;
    }
  }

  lemma RepeatedValue(rows: seq<Row>, i: nat, column: Column)
    requires i < |rows| && Value(rows[i], column) in Values(rows[..i], column)
    ensures !DistinctValues(rows, column)
  {
    var row :| row in rows[..i] && Value(row, column) == Value(rows[i], column);
    var j :| 0 <= j < i && rows[..i][j] == row;
    assert rows[j] == row;
  }

  /** Acceptable records with keys of their own. */
  ghost predicate KeyedRows(accepts: Row -> bool, column: Column, rows: seq<Row>) {
    (forall row <- rows :: accepts(row)) && DistinctValues(rows, column)
  }

  lemma KeyedNext(accepts: Row -> bool, column: Column, done: seq<Row>, row: Row)
    requires KeyedRows(accepts, column, done) && accepts(row) && Value(row, column) !in Values(done, column)
    ensures KeyedRows(accepts, column, done + [row])
    ensures Values(done + [row], column) == Values(done, column) + {Value(row, column)}
  {
    DistinctNext(done, row, column);
    ValuesNext(done, row, column);
  }

  lemma RowRefused(accepts: Row -> bool, column: Column, rows: seq<Row>, i: nat)
    requires i < |rows|
    requires !accepts(rows[i]) || Value(rows[i], column) in Values(rows[..i], column)
    ensures !KeyedRows(accepts, column, rows)
  {
    assert rows[i] in rows;
    if Value(rows[i], column) in Values(rows[..i], column) { RepeatedValue(rows, i, column); }
  }

  /** The records that are `parse`d to something, in order. */
  function Parsed<R>(parse: Row -> Option<R>, rows: seq<Row>): seq<R> {
    if rows == [] then []
    else
      var last := parse(rows[|rows| - 1]);
      Parsed(parse, rows[..|rows| - 1]) + if last.Some? then [last.value] else []
  }

  function IsParsed<R>(parse: Row -> Option<R>): Row -> bool {
    (row: Row) => parse(row).Some?
  }

  lemma {:induction false} ParsedRows<R>(parse: Row -> Option<R>, rows: seq<Row>)
    requires forall row <- rows :: IsParsed(parse)(row)
    ensures |Parsed(parse, rows)| == |rows|
    ensures forall i :: 0 <= i < |rows| ==> parse(rows[i]) == Some(Parsed(parse, rows)[i])
  {
    if rows != [] {
      var before, row := rows[..|rows| - 1], rows[|rows| - 1];
      ParsedRows(parse, before);
      assert IsParsed(parse)(row);
      assert Parsed(parse, rows) == Parsed(parse, before) + [parse(row).value];
    }
  }

  lemma ParsedNext<R>(parse: Row -> Option<R>, done: seq<Row>, row: Row)
    requires parse(row).Some?
    ensures Parsed(parse, done + [row]) == Parsed(parse, done) + [parse(row).value]
  {
    assert (done + [row])[..|done|] == done;
  }

  // ---- routes.txt ----

  /** None: the record is refused. */
  function RouteOf(library: Library, row: Row): Option<Route> {
    var kind := if Value(row, RouteType) == "" then None else library.integer(Value(row, RouteType));
    var id, short, long := Value(row, RouteId), Value(row, RouteShortName), Value(row, RouteLongName);
    if kind.None? || id == "" || (short == "" && long == "") then None
    else Some(Route(id, Value(row, AgencyId), short, long, kind.value, library.upper(Value(row, RouteColor)),
                    library.upper(Value(row, RouteTextColor)), library.sameFolded(short, "Replacement Bus")))
  }

  /** The record describes a route. */
  predicate DescribesRoute(library: Library, row: Row) {
    && Value(row, RouteId) != "" && (Value(row, RouteShortName) != "" || Value(row, RouteLongName) != "")
    && Value(row, RouteType) != "" && library.integer(Value(row, RouteType)).Some?
  }

  /** The route says what the record says, column by column. */
  predicate ReadsRoute(library: Library, row: Row, route: Route) {
    && route.id == Value(row, RouteId) && route.agencyId == Value(row, AgencyId)
    && route.shortName == Value(row, RouteShortName) && route.longName == Value(row, RouteLongName)
    && library.integer(Value(row, RouteType)) == Some(route.kind)
    && route.color == library.upper(Value(row, RouteColor))
    && route.textColor == library.upper(Value(row, RouteTextColor))
    && (route.isReplacementBus <==> library.sameFolded(Value(row, RouteShortName), "Replacement Bus"))
  }

  lemma RouteOfExactly(library: Library, row: Row)
    ensures RouteOf(library, row).Some? <==> DescribesRoute(library, row)
    ensures RouteOf(library, row).Some? ==> ReadsRoute(library, row, RouteOf(library, row).value)
  {
  }

  lemma RoutesRead(library: Library, rows: seq<Row>)
    requires RouteRows(library, rows)
    ensures |RoutesOf(library, rows)| == |rows|
    ensures forall i :: 0 <= i < |rows| ==>
      DescribesRoute(library, rows[i]) && ReadsRoute(library, rows[i], RoutesOf(library, rows)[i])
  {
    ParsedRows(RouteParser(library), rows);
    forall i | 0 <= i < |rows|
      ensures DescribesRoute(library, rows[i]) && ReadsRoute(library, rows[i], RoutesOf(library, rows)[i])
    {
      RouteOfExactly(library, rows[i]);
    }
  }

  function RouteParser(library: Library): Row -> Option<Route> {
    (row: Row) => RouteOf(library, row)
  }

  function RoutesOf(library: Library, rows: seq<Row>): seq<Route> {
    Parsed(RouteParser(library), rows)
  }

  ghost predicate RouteRows(library: Library, rows: seq<Row>) {
    KeyedRows(IsParsed(RouteParser(library)), RouteId, rows)
  }

  ghost predicate RoutesAccepted(library: Library, table: Table) {
    && Opens(table, {RouteId, RouteType}) && !table.broken && |table.rows| <= 10_000
    && RouteRows(library, table.rows)
  }

  lemma RoutesKeyed(library: Library, rows: seq<Row>)
    requires RouteRows(library, rows)
    ensures RouteKeys(RoutesOf(library, rows))
  {
    ParsedRows(RouteParser(library), rows);
    var routes := RoutesOf(library, rows);
    forall i, j | 0 <= i < j < |routes| ensures routes[i].id != routes[j].id {
      assert Value(rows[i], RouteId) != Value(rows[j], RouteId);
    }
  }

  ghost predicate RoutesCollected(library: Library, done: seq<Row>, routes: seq<Route>, ids: set<string>) {
    RouteRows(library, done) && routes == RoutesOf(library, done) && |routes| == |done| && ids == Values(done, RouteId)
  }

  /** Record `i` of routes.txt. */
  method CollectRoute(library: Library, rows: seq<Row>, i: nat, routes: seq<Route>, ids: set<string>)
    returns (ok: bool, routes': seq<Route>, ids': set<string>)
    requires i < |rows| && RoutesCollected(library, rows[..i], routes, ids)
    ensures !ok ==> !RouteRows(library, rows)
    ensures ok ==> RoutesCollected(library, rows[..i + 1], routes', ids')
  {
    var route := RouteOf(library, rows[i]);
    if route.None? || route.value.id in ids {
      RowRefused(IsParsed(RouteParser(library)), RouteId, rows, i);
      return false, routes, ids;
    }
    PrefixNext(rows, i);
    KeyedNext(IsParsed(RouteParser(library)), RouteId, rows[..i], rows[i]);
    ParsedNext(RouteParser(library), rows[..i], rows[i]);
    ok, routes', ids' := true, routes + [route.value], ids + {route.value.id};
  }

  method ParseRoutes(library: Library, table: Table) returns (r: Result<seq<Route>>, ids: set<string>)
    ensures r.Ok? <==> RoutesAccepted(library, table)
    ensures r.Ok? ==> r.value == RoutesOf(library, table.rows) && ids == Values(table.rows, RouteId)
    ensures r.Ok? ==> |r.value| == |table.rows| && forall i :: 0 <= i < |table.rows| ==>
      DescribesRoute(library, table.rows[i]) && ReadsRoute(library, table.rows[i], r.value[i])
  {
    ids := {};
    if !Opens(table, {RouteId, RouteType}) { return Err, ids; }
    var rows, routes := table.rows, [];
    for i := 0 to |rows|
      invariant i <= MAX_ROUTES
      invariant RoutesCollected(library, rows[..i], routes, ids)
    {
      var ok;
      ok, routes, ids := CollectRoute(library, rows, i, routes, ids);
      if !ok { return Err, ids; }
      if |routes| > MAX_ROUTES { return Err, ids; }
    }
    assert rows[..|rows|] == rows;
    if table.broken { return Err, ids; }
    RoutesRead(library, rows);
    r := Ok(routes);
  }

  // ---- stops.txt ----

  /** An optional number: fails only on text that is not one. */
  function Optional<N>(parse: string -> Option<N>, text: string): Option<Option<N>> {
    if text == "" then Some(None)
    else match parse(text)
      case None => None
      case Some(number) => Some(Some(number))
  }

  function StopOf(library: Library, row: Row): Option<Stop> {
    var id, name := Value(row, StopId), Value(row, StopName);
    var latitude := Optional(library.float, Value(row, StopLat));
    var longitude := Optional(library.float, Value(row, StopLon));
    var kind := Optional(library.integer, Value(row, LocationType));
    var wheelchair := Optional(library.integer, Value(row, WheelchairBoarding));
    if id == "" || latitude.None? || longitude.None? || kind.None? || wheelchair.None? then None
    else
      var locationType := if kind.value.None? then 0 else kind.value.value;
      if locationType < 0 || locationType > 4 then None
      else if locationType <= 2 && (name == "" || latitude.value.None? || longitude.value.None?) then None
      else Some(Stop(id, name, latitude.value, longitude.value, Value(row, StopUrl), locationType,
                     Value(row, ParentStation), wheelchair.value, Value(row, LevelId), Value(row, PlatformCode)))
  }

  /** Text that is absent, or a number. */
  predicate ReadsNumber<N(==)>(parse: string -> Option<N>, text: string, number: Option<N>) {
    if text == "" then number.None? else number.Some? && parse(text) == number
  }

  predicate IsNumber<N>(parse: string -> Option<N>, text: string) {
    text == "" || parse(text).Some?
  }

  /** The record describes a stop; stops, stations and entrances need a name and a place. */
  predicate DescribesStop(library: Library, row: Row) {
    && Value(row, StopId) != ""
    && IsNumber(library.float, Value(row, StopLat)) && IsNumber(library.float, Value(row, StopLon))
    && IsNumber(library.integer, Value(row, LocationType)) && IsNumber(library.integer, Value(row, WheelchairBoarding))
    && var kind := if Value(row, LocationType) == "" then 0 else library.integer(Value(row, LocationType)).value;
       && 0 <= kind <= 4
       && (kind <= 2 ==> Value(row, StopName) != "" && Value(row, StopLat) != "" && Value(row, StopLon) != "")
  }

  /** The stop says what the record says, column by column. */
  predicate ReadsStop(library: Library, row: Row, stop: Stop) {
    && stop.id == Value(row, StopId) && stop.name == Value(row, StopName) && stop.url == Value(row, StopUrl)
    && ReadsNumber(library.float, Value(row, StopLat), stop.latitude)
    && ReadsNumber(library.float, Value(row, StopLon), stop.longitude)
    && (if Value(row, LocationType) == "" then stop.locationType == 0
        else library.integer(Value(row, LocationType)) == Some(stop.locationType))
    && stop.parent == Value(row, ParentStation)
    && ReadsNumber(library.integer, Value(row, WheelchairBoarding), stop.wheelchair)
    && stop.levelId == Value(row, LevelId) && stop.platformCode == Value(row, PlatformCode)
  }

  lemma StopOfExactly(library: Library, row: Row)
    ensures StopOf(library, row).Some? <==> DescribesStop(library, row)
    ensures StopOf(library, row).Some? ==> ReadsStop(library, row, StopOf(library, row).value)
  {
  }

  lemma StopsRead(library: Library, rows: seq<Row>)
    requires StopRows(library, rows)
    ensures |StopsOf(library, rows)| == |rows|
    ensures forall i :: 0 <= i < |rows| ==>
      DescribesStop(library, rows[i]) && ReadsStop(library, rows[i], StopsOf(library, rows)[i])
  {
    ParsedRows(StopParser(library), rows);
    forall i | 0 <= i < |rows|
      ensures DescribesStop(library, rows[i]) && ReadsStop(library, rows[i], StopsOf(library, rows)[i])
    {
      StopOfExactly(library, rows[i]);
    }
  }

  /** The maps from stop to location type and parent. */
  function GraphOf(stops: seq<Stop>): StopGraph {
    if stops == [] then StopGraph(map[], map[])
    else
      var stop, before := stops[|stops| - 1], GraphOf(stops[..|stops| - 1]);
      StopGraph(before.types[stop.id := stop.locationType], before.parents[stop.id := stop.parent])
  }

  function StopParser(library: Library): Row -> Option<Stop> {
    (row: Row) => StopOf(library, row)
  }

  function StopsOf(library: Library, rows: seq<Row>): seq<Stop> {
    Parsed(StopParser(library), rows)
  }

  ghost predicate StopRows(library: Library, rows: seq<Row>) {
    KeyedRows(IsParsed(StopParser(library)), StopId, rows)
  }

  ghost predicate StopRowsAccepted(library: Library, table: Table) {
    && Opens(table, {StopId}) && !table.broken && |table.rows| <= 100_000
    && StopRows(library, table.rows)
  }

  lemma StopsKeyed(library: Library, rows: seq<Row>)
    requires StopRows(library, rows)
    ensures StopKeys(StopsOf(library, rows))
  {
    ParsedRows(StopParser(library), rows);
    var stops := StopsOf(library, rows);
    forall i, j | 0 <= i < j < |stops| ensures stops[i].id != stops[j].id {
      assert Value(rows[i], StopId) != Value(rows[j], StopId);
    }
  }

  predicate Boards(locationType: int) {
    locationType == 0 || locationType == 4
  }

  predicate Resolvable(g: StopGraph) {
    forall stop <- g.types :: Boards(g.types[stop]) ==> ResolveStation(g, stop, {}).Some?
  }

  predicate ParentsAccepted(g: StopGraph) {
    forall stop <- g.types :: stop in g.parents && ParentAccepted(g, stop)
  }

  lemma {:induction false} GraphKeys(stops: seq<Stop>)
    ensures GraphOf(stops).types.Keys == GraphOf(stops).parents.Keys == set stop | stop in stops :: stop.id
  {
    if stops != [] {
      GraphKeys(stops[..|stops| - 1]);
      assert stops == stops[..|stops| - 1] + [stops[|stops| - 1]];
    }
  }

  lemma {:induction false} GraphHolds(stops: seq<Stop>, i: nat)
    requires StopKeys(stops) && i < |stops|
    ensures stops[i].id in GraphOf(stops).types && GraphOf(stops).types[stops[i].id] == stops[i].locationType
    ensures stops[i].id in GraphOf(stops).parents && GraphOf(stops).parents[stops[i].id] == stops[i].parent
  {
    if i < |stops| - 1 { GraphHolds(stops[..|stops| - 1], i); }
  }

  function StationsOf(stops: seq<Stop>): set<string> {
    set stop | stop in stops && stop.locationType == STATION :: stop.id
  }

  /** What has been collected from the records read so far. */
  ghost predicate Collected(library: Library, done: seq<Row>, stops: seq<Stop>, g: StopGraph,
                            stations: set<string>) {
    && StopRows(library, done) && stops == StopsOf(library, done) && |stops| == |done|
    && g == GraphOf(stops) && g.types.Keys == Values(done, StopId) && stations == StationsOf(stops)
  }

  lemma ReadsItsId(library: Library, row: Row)
    ensures StopOf(library, row).Some? ==> StopOf(library, row).value.id == Value(row, StopId)
  {
  }

  lemma CollectedNext(library: Library, done: seq<Row>, row: Row, stops: seq<Stop>,
                      g: StopGraph, stations: set<string>, stop: Stop)
    requires Collected(library, done, stops, g, stations)
    requires StopRows(library, done + [row]) && StopsOf(library, done + [row]) == StopsOf(library, done) + [stop]
    requires Values(done + [row], StopId) == Values(done, StopId) + {stop.id}
    ensures Collected(library, done + [row], stops + [stop],
              StopGraph(g.types[stop.id := stop.locationType], g.parents[stop.id := stop.parent]),
              if stop.locationType == STATION then stations + {stop.id} else stations)
  {
    GraphNext(stops, stop);
  }

  lemma GraphNext(stops: seq<Stop>, stop: Stop)
    ensures var g := GraphOf(stops);
      GraphOf(stops + [stop]) == StopGraph(g.types[stop.id := stop.locationType], g.parents[stop.id := stop.parent])
    ensures StationsOf(stops + [stop]) ==
              if stop.locationType == STATION then StationsOf(stops) + {stop.id} else StationsOf(stops)
  {
    assert (stops + [stop])[..|stops|] == stops;
  }

  /** Record `i` of stops.txt. */
  method CollectStop(library: Library, rows: seq<Row>, i: nat, stops: seq<Stop>, g: StopGraph, stations: set<string>)
    returns (ok: bool, stops': seq<Stop>, g': StopGraph, stations': set<string>)
    requires i < |rows| && Collected(library, rows[..i], stops, g, stations)
    ensures !ok ==> !StopRows(library, rows)
    ensures ok ==> Collected(library, rows[..i + 1], stops', g', stations')
  {
    ok, stops', g', stations' := false, stops, g, stations;
    var row := rows[i];
    var read := StopOf(library, row);
    ReadsItsId(library, row);
    if read.None? || read.value.id in g.types {
      RowRefused(IsParsed(StopParser(library)), StopId, rows, i);
      return;
    }
    var stop := read.value;
    PrefixNext(rows, i);
    KeyedNext(IsParsed(StopParser(library)), StopId, rows[..i], row);
    ParsedNext(StopParser(library), rows[..i], row);
    CollectedNext(library, rows[..i], row, stops, g, stations, stop);
    g' := StopGraph(g.types[stop.id := stop.locationType], g.parents[stop.id := stop.parent]);
    if stop.locationType == STATION { stations' := stations + {stop.id}; }
    stops', ok := stops + [stop], true;
  }

  /** The stops, the maps over them, and the stations. */
  method ReadStops(library: Library, table: Table) returns (r: Result<seq<Stop>>, g: StopGraph, stations: set<string>)
    ensures r.Ok? <==> StopRowsAccepted(library, table)
    ensures r.Ok? ==> r.value == StopsOf(library, table.rows)
    ensures r.Ok? ==> g == GraphOf(r.value) && stations == StationsOf(r.value)
  {
    g, stations := StopGraph(map[], map[]), {};
    if !Opens(table, {StopId}) { return Err, g, stations; }
    var rows, stops := table.rows, [];
    for i := 0 to |rows|
      invariant i <= MAX_STOPS
      invariant Collected(library, rows[..i], stops, g, stations)
    {
      var ok;
      ok, stops, g, stations := CollectStop(library, rows, i, stops, g, stations);
      if !ok { return Err, g, stations; }
      if |stops| > MAX_STOPS { return Err, g, stations; }
    }
    assert rows[..|rows|] == rows;
    if table.broken { return Err, g, stations; }
    r := Ok(stops);
  }

  /** Checks every stop's parent, in any order. */
  method CheckParents(g: StopGraph) returns (ok: bool)
    requires g.types.Keys == g.parents.Keys
    ensures ok <==> ParentsAccepted(g)
  {
    var left := g.types.Keys;
    while left != {}
      invariant left <= g.types.Keys
      invariant forall stop <- g.types :: stop !in left ==> ParentAccepted(g, stop)
    {
      var stop :| stop in left;
      var parent, expected := g.parents[stop], ExpectedParentType(g.types[stop], g.parents[stop]);
      if g.types[stop] == STATION && parent != "" { return false; }
      if expected.Some? {
        if parent == "" { return false; }
        if parent !in g.types || g.types[parent] != expected.value { return false; }
      }
      left := left - {stop};
    }
    ok := true;
  }

  predicate HasStation(g: StopGraph, stop: string) {
    && stop in g.types && Boards(g.types[stop])
    && ResolveStation(g, stop, {}).Some? && ResolveStation(g, stop, {}).value != ""
  }

  /** The station of each stop or boarding area that has one. */
  function StationMap(g: StopGraph): map<string, string> {
    map stop | stop in g.types && HasStation(g, stop) :: ResolveStation(g, stop, {}).value
  }

  method ResolveStations(g: StopGraph) returns (r: Result<map<string, string>>)
    ensures r == if Resolvable(g) then Ok(StationMap(g)) else Err
  {
    var left, stopStations := g.types.Keys, map[];
    while left != {}
      invariant left <= g.types.Keys
      invariant forall stop <- g.types :: stop !in left && Boards(g.types[stop]) ==> ResolveStation(g, stop, {}).Some?
      invariant forall stop :: stop in stopStations <==> stop !in left && HasStation(g, stop)
      invariant forall stop <- stopStations :: ResolveStation(g, stop, {}) == Some(stopStations[stop])
    {
      var stop :| stop in left;
      left := left - {stop};
      if Boards(g.types[stop]) {
        var station := ResolveStation(g, stop, {});
        if station.None? { return Err; }
        if station.value != "" { stopStations := stopStations[stop := station.value]; }
      }
    }
    assert stopStations == StationMap(g);
    r := Ok(stopStations);
  }

  ghost predicate StopsAccepted(library: Library, table: Table) {
    && StopRowsAccepted(library, table)
    && var g := GraphOf(StopsOf(library, table.rows));
       ParentsAccepted(g) && Resolvable(g)
  }

  /** Of the conditions on stops.txt, the one on cycles follows from the others: its error cannot happen. */
  lemma CycleErrorIsUnreachable(stops: seq<Stop>)
    requires StopKeys(stops) && forall stop <- stops :: stop.id != "" && 0 <= stop.locationType <= 4
    requires ParentsAccepted(GraphOf(stops))
    ensures Resolvable(GraphOf(stops))
  {
    var g := GraphOf(stops);
    GraphValidated(stops);
    forall stop <- g.types ensures ResolveStation(g, stop, {}).Some? { ValidatedResolves(g, stop); }
  }

  lemma GraphValidated(stops: seq<Stop>)
    requires StopKeys(stops) && forall stop <- stops :: stop.id != "" && 0 <= stop.locationType <= 4
    requires ParentsAccepted(GraphOf(stops))
    ensures Validated(GraphOf(stops))
  {
    var g := GraphOf(stops);
    GraphKeys(stops);
    forall id <- g.types ensures id != "" && 0 <= g.types[id] <= 4 {
      var stop :| stop in stops && stop.id == id;
      var i :| 0 <= i < |stops| && stops[i] == stop;
      GraphHolds(stops, i);
    }
  }

  lemma StopsNamed(library: Library, rows: seq<Row>)
    requires StopRows(library, rows)
    ensures StopKeys(StopsOf(library, rows))
    ensures forall stop <- StopsOf(library, rows) :: stop.id != "" && 0 <= stop.locationType <= 4
  {
    StopsKeyed(library, rows);
    ParsedRows(StopParser(library), rows);
  }

  /** The station found for a stop: its parent, or for a boarding area its platform's parent, where there is one. */
  ghost predicate ResolvesParent(stops: seq<Stop>, stopStations: map<string, string>, stop: Stop) {
    match stop.locationType
    case 0 =>
      && (stop.id in stopStations <==> stop.parent != "")
      && (stop.parent != "" ==> stopStations[stop.id] == stop.parent)
    case 4 =>
      exists platform <- stops ::
        && platform.id == stop.parent && platform.locationType == 0
        && (stop.id in stopStations <==> platform.parent != "")
        && (platform.parent != "" ==> stopStations[stop.id] == platform.parent)
    case _ => stop.id !in stopStations
  }

  ghost predicate ResolvesParents(stops: seq<Stop>, stopStations: map<string, string>) {
    && (forall id <- stopStations :: exists stop <- stops :: stop.id == id)
    && forall stop <- stops :: ResolvesParent(stops, stopStations, stop)
  }

  /** The maps say what the stop says. */
  predicate Graphs(g: StopGraph, stop: Stop) {
    && stop.id in g.types && g.types[stop.id] == stop.locationType
    && stop.id in g.parents && g.parents[stop.id] == stop.parent
  }

  lemma ParentResolved(stops: seq<Stop>, g: StopGraph, stop: Stop)
    requires Validated(g) && Graphs(g, stop) && stop in stops
    requires forall id <- g.types :: exists other <- stops :: other.id == id && Graphs(g, other)
    ensures ResolvesParent(stops, StationMap(g), stop)
  {
    ValidatedFinds(g, stop.id);
    if stop.locationType == 4 {
      assert ParentAccepted(g, stop.id);
      var platform :| platform in stops && platform.id == stop.parent && Graphs(g, platform);
    }
  }

  lemma ParentsResolved(stops: seq<Stop>)
    requires StopKeys(stops) && forall stop <- stops :: stop.id != "" && 0 <= stop.locationType <= 4
    requires ParentsAccepted(GraphOf(stops))
    ensures ResolvesParents(stops, StationMap(GraphOf(stops)))
  {
    var g := GraphOf(stops);
    GraphValidated(stops);
    GraphKeys(stops);
    forall stop <- stops ensures Graphs(g, stop) {
      var i :| 0 <= i < |stops| && stops[i] == stop;
      GraphHolds(stops, i);
    }
    forall stop <- stops ensures ResolvesParent(stops, StationMap(g), stop) { ParentResolved(stops, g, stop); }
  }

  /** parseStops: the stops, the station of every stop that boards, and the stations. */
  method ParseStops(library: Library, table: Table)
    returns (r: Result<seq<Stop>>, stopStations: map<string, string>, stations: set<string>)
    ensures r.Ok? <==> StopsAccepted(library, table)
    ensures r.Ok? ==> r.value == StopsOf(library, table.rows)
    ensures r.Ok? ==> |r.value| == |table.rows| && forall i :: 0 <= i < |table.rows| ==>
      DescribesStop(library, table.rows[i]) && ReadsStop(library, table.rows[i], r.value[i])
    ensures r.Ok? ==> stopStations == StationMap(GraphOf(r.value)) && stations == StationsOf(r.value)
    ensures r.Ok? ==> forall id :: id in stations <==> exists stop <- r.value :: stop.id == id && stop.locationType == 1
    ensures r.Ok? ==> ResolvesParents(r.value, stopStations)
  {
    var g;
    stopStations := map[];
    r, g, stations := ReadStops(library, table);
    if r.Err? { return; }
    StopsRead(library, table.rows);
    GraphKeys(r.value);
    var ok := CheckParents(g);
    if !ok { return Err, stopStations, stations; }
    var resolved := ResolveStations(g);
    if resolved.Err? { return Err, stopStations, stations; }
    stopStations := resolved.value;
    StopsNamed(library, table.rows);
    ParentsResolved(r.value);
  }

  // ---- trips.txt ----

  predicate TripAccepted(row: Row, routes: set<string>) {
    Value(row, TripId) != "" && Value(row, RouteId) != "" && Value(row, RouteId) in routes
  }

  function IsTrip(routes: set<string>): Row -> bool {
    (row: Row) => TripAccepted(row, routes)
  }

  ghost predicate TripRows(rows: seq<Row>, routes: set<string>) {
    KeyedRows(IsTrip(routes), TripId, rows)
  }

  ghost predicate TripsAccepted(table: Table, routes: set<string>) {
    && Opens(table, {RouteId, TripId}) && !table.broken && |table.rows| <= 500_000
    && TripRows(table.rows, routes)
  }

  /** The route of every trip. */
  function TripsOf(rows: seq<Row>): map<string, string> {
    if rows == [] then map[]
    else TripsOf(rows[..|rows| - 1])[Value(rows[|rows| - 1], TripId) := Value(rows[|rows| - 1], RouteId)]
  }

  lemma TripsNext(done: seq<Row>, row: Row)
    ensures TripsOf(done + [row]) == TripsOf(done)[Value(row, TripId) := Value(row, RouteId)]
  {
    assert (done + [row])[..|done|] == done;
  }

  lemma {:induction false} TripsHold(rows: seq<Row>, routes: set<string>)
    requires TripRows(rows, routes)
    ensures forall row <- rows ::
      && TripAccepted(row, routes) && Value(row, TripId) in TripsOf(rows)
      && TripsOf(rows)[Value(row, TripId)] == Value(row, RouteId)
  {
    if rows != [] {
      var n := |rows| - 1;
      TripsHold(rows[..n], routes);
      assert rows == rows[..n] + [rows[n]];
      forall row <- rows
        ensures TripAccepted(row, routes) && Value(row, TripId) in TripsOf(rows)
        ensures TripsOf(rows)[Value(row, TripId)] == Value(row, RouteId)
      {
        var i :| 0 <= i <= n && rows[i] == row;
        assert IsTrip(routes)(row);
      }
    }
  }

  ghost predicate TripsCollected(done: seq<Row>, routes: set<string>, trips: map<string, string>) {
    TripRows(done, routes) && trips == TripsOf(done) && trips.Keys == Values(done, TripId) && |trips| == |done|
  }

  /** Record `i` of trips.txt. */
  method CollectTrip(rows: seq<Row>, i: nat, routes: set<string>, trips: map<string, string>)
    returns (ok: bool, trips': map<string, string>)
    requires i < |rows| && TripsCollected(rows[..i], routes, trips)
    ensures !ok ==> !TripRows(rows, routes)
    ensures ok ==> TripsCollected(rows[..i + 1], routes, trips')
  {
    var row := rows[i];
    var trip, route := Value(row, TripId), Value(row, RouteId);
    if trip == "" || route == "" || route !in routes || trip in trips {
      RowRefused(IsTrip(routes), TripId, rows, i);
      return false, trips;
    }
    PrefixNext(rows, i);
    KeyedNext(IsTrip(routes), TripId, rows[..i], row);
    TripsNext(rows[..i], row);
    KeyAdded(trips, trip, route);
    ok, trips' := true, trips[trip := route];
  }

  /** The records of trips.txt, without regard to how the file ends. */
  method ReadTrips(rows: seq<Row>, routes: set<string>) returns (r: Result<map<string, string>>)
    ensures r.Ok? <==> TripRows(rows, routes) && |rows| <= MAX_TRIPS
    ensures r.Ok? ==> TripsCollected(rows, routes, r.value)
  {
    var trips := map[];
    for i := 0 to |rows|
      invariant i <= MAX_TRIPS
      invariant TripsCollected(rows[..i], routes, trips)
    {
      var ok;
      ok, trips := CollectTrip(rows, i, routes, trips);
      if !ok { return Err; }
      if |trips| > MAX_TRIPS { return Err; }
    }
    assert rows[..|rows|] == rows;
    r := Ok(trips);
  }

  method ParseTrips(table: Table, routes: set<string>) returns (r: Result<map<string, string>>)
    ensures r.Ok? <==> TripsAccepted(table, routes)
    ensures r.Ok? ==> r.value == TripsOf(table.rows) && |r.value| == |table.rows|
    ensures r.Ok? ==> forall row <- table.rows ::
      && Value(row, TripId) != "" && Value(row, TripId) in r.value
      && r.value[Value(row, TripId)] == Value(row, RouteId) && Value(row, RouteId) in routes
  {
    if !Opens(table, {RouteId, TripId}) { return Err; }
    r := ReadTrips(table.rows, routes);
    if r.Ok? { TripsHold(table.rows, routes); }
    if table.broken { return Err; }
  }

  // ---- stop_times.txt ----

  predicate StopTimeAccepted(row: Row, trips: map<string, string>, stopStations: map<string, string>,
                             stations: set<string>) {
    && Value(row, TripId) in trips && Value(row, StopId) in stopStations
    && stopStations[Value(row, StopId)] in stations
  }

  function RelationOf(row: Row, trips: map<string, string>, stopStations: map<string, string>): RouteStation
    requires Value(row, TripId) in trips && Value(row, StopId) in stopStations
  {
    RouteStation(trips[Value(row, TripId)], stopStations[Value(row, StopId)])
  }

  /** Every route with every station one of its trips stops at. */
  function Relations(rows: seq<Row>, trips: map<string, string>, stopStations: map<string, string>):
    set<RouteStation>
  {
    set row | row in rows && Value(row, TripId) in trips && Value(row, StopId) in stopStations ::
      RelationOf(row, trips, stopStations)
  }

  ghost predicate StopTimesAccepted(table: Table, trips: map<string, string>, stopStations: map<string, string>,
                                    stations: set<string>) {
    && Opens(table, {TripId, StopId}) && !table.broken && |table.rows| <= 5_000_000
    && (forall row <- table.rows :: StopTimeAccepted(row, trips, stopStations, stations))
    && |Relations(table.rows, trips, stopStations)| <= 250_000
  }

  lemma RelationsNext(done: seq<Row>, row: Row, trips: map<string, string>,
                      stopStations: map<string, string>)
    requires Value(row, TripId) in trips && Value(row, StopId) in stopStations
    ensures Relations(done + [row], trips, stopStations) ==
              Relations(done, trips, stopStations) + {RelationOf(row, trips, stopStations)}
  {
  }

  lemma FewerRelations(rows: seq<Row>, i: nat, trips: map<string, string>, stopStations: map<string, string>)
    requires i <= |rows|
    ensures |Relations(rows[..i], trips, stopStations)| <= |Relations(rows, trips, stopStations)|
  {
    var part, whole := Relations(rows[..i], trips, stopStations), Relations(rows, trips, stopStations);
    assert part <= whole;
    assert whole == part + (whole - part);
  }

  /** The relations of a set in order, whichever order they are taken from the set in. */
  method SortedListing(relations: set<RouteStation>) returns (listing: seq<RouteStation>)
    ensures StrictlySorted(RelationLess(), listing) && |listing| == |relations|
    ensures forall relation :: relation in listing <==> relation in relations
  {
    var left, taken := relations, [];
    while left != {}
      invariant left <= relations && |taken| + |left| == |relations|
      invariant forall relation :: relation in taken <==> relation in relations && relation !in left
      invariant Distinct(taken)
    {
      var next :| next in left;
      assert next !in taken;
      taken, left := taken + [next], left - {next};
    }
    RelationsOrdered();
    var copy := new RouteStation[|taken|](i requires 0 <= i < |taken| => taken[i]);
    assert copy[..] == taken;
    SortInPlace(RelationLess(), copy);
    listing := copy[..];
    SortSorts(RelationLess(), taken);
    SortedOnce(RelationLess(), taken, listing);
  }

  ghost predicate RelationsCollected(done: seq<Row>, trips: map<string, string>,
                                     stopStations: map<string, string>, stations: set<string>,
                                     relations: set<RouteStation>) {
    && relations == Relations(done, trips, stopStations)
    && forall row <- done :: StopTimeAccepted(row, trips, stopStations, stations)
  }

  /** Record `i` of stop_times.txt. */
  method CollectStopTime(rows: seq<Row>, i: nat, trips: map<string, string>, stopStations: map<string, string>,
                         stations: set<string>, relations: set<RouteStation>)
    returns (ok: bool, relations': set<RouteStation>)
    requires i < |rows| && RelationsCollected(rows[..i], trips, stopStations, stations, relations)
    ensures ok <==> StopTimeAccepted(rows[i], trips, stopStations, stations)
    ensures ok ==> RelationsCollected(rows[..i + 1], trips, stopStations, stations, relations')
    ensures ok ==> |relations'| <= |Relations(rows, trips, stopStations)|
  {
    var row := rows[i];
    var trip, stop := Value(row, TripId), Value(row, StopId);
    if trip !in trips { return false, relations; }
    if stop !in stopStations { return false, relations; }
    if stopStations[stop] !in stations { return false, relations; }
    PrefixNext(rows, i);
    RelationsNext(rows[..i], row, trips, stopStations);
    FewerRelations(rows, i + 1, trips, stopStations);
    ok, relations' := true, relations + {RouteStation(trips[trip], stopStations[stop])};
  }

  method ParseStopTimes(table: Table, trips: map<string, string>, stopStations: map<string, string>,
                        stations: set<string>)
    returns (r: Result<seq<RouteStation>>, count: nat)
    ensures r.Ok? <==> StopTimesAccepted(table, trips, stopStations, stations)
    ensures r.Ok? ==> StrictlySorted(RelationLess(), r.value) && count == |table.rows|
    ensures r.Ok? ==> forall relation :: relation in r.value <==> relation in Relations(table.rows, trips, stopStations)
  {
    count := 0;
    if !Opens(table, {TripId, StopId}) { return Err, count; }
    var rows, relations := table.rows, {};
    for i := 0 to |rows|
      invariant count == i <= MAX_STOP_TIMES && |relations| <= MAX_RELATIONS
      invariant RelationsCollected(rows[..i], trips, stopStations, stations, relations)
    {
      count := count + 1;
      if count > MAX_STOP_TIMES { return Err, count; }
      var ok;
      assert rows[i] in rows;
      ok, relations := CollectStopTime(rows, i, trips, stopStations, stations, relations);
      if !ok { return Err, count; }
      if |relations| > MAX_RELATIONS { return Err, count; }
    }
    assert rows[..|rows|] == rows;
    if table.broken { return Err, count; }
    var listing := SortedListing(relations);
    r := Ok(listing);
  }
}
