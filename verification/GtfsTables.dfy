/** The parsed network (internal/gtfs/types.go) and what the tables of migration 00003 demand of it. */
module GtfsTables {
  import opened Common
  import opened Ordering
  import opened GtfsStations

  datatype Route = Route(
    id: string, agencyId: string, shortName: string, longName: string, kind: int, color: string, textColor: string,
    isReplacementBus: bool)

  datatype Stop = Stop(
    id: string, name: string, latitude: Option<real>, longitude: Option<real>, url: string, locationType: int,
    parent: string, wheelchair: Option<int>, levelId: string, platformCode: string)

  datatype RouteStation = RouteStation(route: string, station: string)

  datatype Dataset = Dataset(routes: seq<Route>, stops: seq<Stop>, relations: seq<RouteStation>)

  // ---- Constraints ----

  ghost predicate RouteKeys(routes: seq<Route>) {
    forall i, j :: 0 <= i < j < |routes| ==> routes[i].id != routes[j].id
  }

  ghost predicate StopKeys(stops: seq<Stop>) {
    forall i, j :: 0 <= i < j < |stops| ==> stops[i].id != stops[j].id
  }

  predicate LocationTypeChecks(stop: Stop) {
    && 0 <= stop.locationType <= 4
    && ((stop.locationType == 1 && stop.parent == "") || stop.locationType == 0
        || (stop.locationType >= 2 && stop.parent != ""))
  }

  /** Which location types may have a parent, and which must. */
  lemma LocationTypesExactly(stop: Stop)
    ensures LocationTypeChecks(stop) <==>
      match stop.locationType
      case 0 => true
      case 1 => stop.parent == ""
      case 2 => stop.parent != ""
      case 3 => stop.parent != ""
      case 4 => stop.parent != ""
      case _ => false
  {
  }

  ghost predicate HasStop(stops: seq<Stop>, id: string, locationType: int) {
    exists i :: 0 <= i < |stops| && stops[i].id == id && stops[i].locationType == locationType
  }

  /** The typed foreign key to the parent, with its generated type column. */
  ghost predicate ParentForeignKey(stops: seq<Stop>, stop: Stop) {
    stop.parent != "" ==> HasStop(stops, stop.parent, if stop.locationType == 4 then 0 else STATION)
  }

  ghost predicate RouteStationForeignKeys(dataset: Dataset, relation: RouteStation) {
    && (exists i :: 0 <= i < |dataset.routes| && dataset.routes[i].id == relation.route)
    && HasStop(dataset.stops, relation.station, STATION)
  }

  /** PostgreSQL text: any characters but NUL. */
  predicate FitsText(text: string) {
    '\0' !in text
  }

  /** CHAR(6): what is over six characters may only be spaces. */
  predicate FitsSix(text: string) {
    FitsText(text) && forall i :: 6 <= i < |text| ==> text[i] == ' '
  }

  /** INTEGER */
  predicate FitsInteger(n: int) {
    -0x8000_0000 <= n <= 0x7FFF_FFFF
  }

  predicate RouteFits(route: Route) {
    && FitsText(route.id) && FitsText(route.agencyId) && FitsText(route.shortName) && FitsText(route.longName)
    && FitsInteger(route.kind) && FitsSix(route.color) && FitsSix(route.textColor)
  }

  predicate StopFits(stop: Stop) {
    && FitsText(stop.id) && FitsText(stop.name) && FitsText(stop.url) && FitsText(stop.parent)
    && FitsText(stop.levelId) && FitsText(stop.platformCode)
    && (stop.wheelchair.Some? ==> FitsInteger(stop.wheelchair.value))
  }

  /** The ends of the ranges. */
  lemma FitsAtTheEnds(text: string)
    requires '\0' !in text
    ensures FitsInteger(2_147_483_647) && !FitsInteger(2_147_483_648)
    ensures FitsInteger(-2_147_483_648) && !FitsInteger(-2_147_483_649)
    ensures FitsText(text) && !FitsText(text + ['\0'])
    ensures |text| <= 6 ==> FitsSix(text) && FitsSix(text + "      ")
    ensures |text| == 6 ==> !FitsSix(text + "0") && !FitsSix(text + " 0")
  {
    assert (text + ['\0'])[|text|] == '\0';
    assert |text| == 6 ==> (text + "0")[6] == '0' && (text + " 0")[7] == '0';
  }

  /** Every column counts: one value that is not of its column's type is enough for a row not to fit. */
  lemma EveryColumnCounts(route: Route, stop: Stop, text: string, n: int)
    ensures !FitsText(text) ==>
      && !RouteFits(route.(id := text)) && !RouteFits(route.(agencyId := text))
      && !RouteFits(route.(shortName := text)) && !RouteFits(route.(longName := text))
      && !StopFits(stop.(id := text)) && !StopFits(stop.(name := text)) && !StopFits(stop.(url := text))
      && !StopFits(stop.(parent := text)) && !StopFits(stop.(levelId := text))
      && !StopFits(stop.(platformCode := text))
    ensures !FitsSix(text) ==> !RouteFits(route.(color := text)) && !RouteFits(route.(textColor := text))
    ensures !FitsInteger(n) ==> !RouteFits(route.(kind := n)) && !StopFits(stop.(wheelchair := Some(n)))
    ensures RouteFits(Route("1", "", "M1", "", 1, "", "FFFFFF", false))
    ensures StopFits(Stop("1", "", None, None, "", 1, "", None, "", ""))
  {
  }

  /** Every value has its column's type. */
  ghost predicate ColumnsFit(dataset: Dataset) {
    (forall route <- dataset.routes :: RouteFits(route)) && (forall stop <- dataset.stops :: StopFits(stop))
  }

  /** Inserting the dataset into empty tables violates no column type and no constraint. */
  ghost predicate Installable(dataset: Dataset) {
    ColumnsFit(dataset) && Related(dataset)
  }

  /** No key, check or foreign key of the network tables is violated. */
  ghost predicate Related(dataset: Dataset) {
    && RouteKeys(dataset.routes)
    && StopKeys(dataset.stops)
    && (forall stop <- dataset.stops :: LocationTypeChecks(stop))
    && (forall stop <- dataset.stops :: ParentForeignKey(dataset.stops, stop))
    && Distinct(dataset.relations)
    && (forall relation <- dataset.relations :: RouteStationForeignKeys(dataset, relation))
  }

  // ---- Order of the relations ----

  /** Relations are compared by route, then by station. */
  function RelationLess(): (RouteStation, RouteStation) -> bool {
    KeyedLess((r: RouteStation) => r.route, (r: RouteStation) => r.station)
  }

  lemma RelationsOrdered()
    ensures StrictTotal(RelationLess())
  {
    KeyedOrdered((r: RouteStation) => r.route, (r: RouteStation) => r.station);
  }
}
