/** Replacement of the installed network (internal/database/gtfs.go). SkipIfImported and CompleteImport each hold
    one advisory lock for their whole transaction, so each call is one step and any interleaving of imports is a
    sequence of calls. */
module NetworkInstall {
  import opened Common
  import opened Ordering
  import opened GtfsStations
  import opened GtfsTables

  datatype Download = Download(requestedAt: Time, retrievedAt: Time, modifiedAt: Option<Time>, content: Payload)

  /** A row of gtfs_imports. */
  datatype Import = Import(
    status: RunStatus, archive: ArchiveStatus, download: Option<Download>, isCurrent: bool, skipCode: Option<SkipCode>)

  /** An import whose dataset was installed. */
  datatype Installed = Installed(id: int, download: Download, dataset: Dataset)

  type History = seq<Installed>

  // ---- Whether to install ----

  /** skipGTFSReason, by the code of its reason. */
  function SkipReason(current: Option<Download>, download: Download): Option<SkipCode> {
    if current.None? then None
    else if current.value.modifiedAt.Some? && download.modifiedAt.Some?
      && download.modifiedAt.value < current.value.modifiedAt.value then Some(Stale)
    else if current.value.modifiedAt.Some? && download.modifiedAt.Some?
      && download.modifiedAt.value == current.value.modifiedAt.value
      && download.requestedAt < current.value.requestedAt then Some(Stale)
    else if !(current.value.modifiedAt.Some? && download.modifiedAt.Some?)
      && download.requestedAt < current.value.requestedAt then Some(Stale)
    else if current.value.content.hash == download.content.hash then Some(Duplicate)
    else None
  }

  function Latest(history: History): Option<Download> {
    if history == [] then None else Some(history[|history| - 1].download)
  }

  /** Each import was installable when it was installed. */
  ghost predicate Allowed(history: History) {
    forall i, j :: 0 <= i < j < |history| && j == i + 1 ==>
      SkipReason(Some(history[i].download), history[j].download).None?
  }

  predicate NotAfter(a: Download, b: Download)
    requires a.modifiedAt.Some? && b.modifiedAt.Some?
  {
    a.modifiedAt.value < b.modifiedAt.value
    || (a.modifiedAt.value == b.modifiedAt.value && a.requestedAt <= b.requestedAt)
  }

  predicate Dated(history: History) {
    forall i :: 0 <= i < |history| ==> history[i].download.modifiedAt.Some?
  }

  /** Among installed downloads with a modification time, (modified, requested) never goes back. */
  ghost predicate Monotone(history: History) {
    forall i, j :: 0 <= i < j < |history| ==>
      (history[i].download.modifiedAt.Some? && history[j].download.modifiedAt.Some? ==>
         NotAfter(history[i].download, history[j].download))
  }

  /** The download does not come before the installed one: by modification, then request, where both are dated, and
      by request otherwise. */
  predicate ComesAfter(current: Download, download: Download) {
    if current.modifiedAt.Some? && download.modifiedAt.Some? then NotAfter(current, download)
    else current.requestedAt <= download.requestedAt
  }

  /** A download is installed exactly if it does not come before the network in place and differs from it; it is
      stale exactly if it comes before, and a duplicate otherwise. */
  lemma SkipReasonExact(current: Download, download: Download)
    ensures SkipReason(Some(current), download) == Some(Stale) <==> !ComesAfter(current, download)
    ensures SkipReason(Some(current), download) == Some(Duplicate) <==>
              ComesAfter(current, download) && current.content.hash == download.content.hash
    ensures SkipReason(Some(current), download).None? <==>
              ComesAfter(current, download) && current.content.hash != download.content.hash
    ensures ComesAfter(current, download) <==>
      match (current.modifiedAt, download.modifiedAt)
      case (Some(m), Some(m')) => m < m' || (m == m' && current.requestedAt <= download.requestedAt)
      case _ => current.requestedAt <= download.requestedAt
  {
  }

  /** Neighbours never have the same content. */
  lemma NeighboursDiffer(history: History, i: nat)
    requires Allowed(history) && i + 1 < |history|
    ensures history[i].download.content.hash != history[i + 1].download.content.hash
  {
    assert SkipReason(Some(history[i].download), history[i + 1].download).None?;
  }

  /** When every download says when it was modified, the installed sequence never goes back. */
  lemma {:induction false} AllDatedIsMonotone(history: History)
    requires Allowed(history) && Dated(history)
    ensures Monotone(history)
  {
    if |history| > 1 {
      var n := |history| - 1;
      AllDatedIsMonotone(history[..n]);
      assert SkipReason(Some(history[n - 1].download), history[n].download).None?;
      forall i, j | 0 <= i < j < |history| ensures NotAfter(history[i].download, history[j].download) {
        if j < n { assert NotAfter(history[..n][i].download, history[..n][j].download); }
        else if i < n - 1 { assert NotAfter(history[..n][i].download, history[..n][n - 1].download); }
      }
    }
  }

  /** The newest installed download that says when it was modified. */
  function LastDated(history: History): (d: Option<Download>)
    ensures d.Some? ==> d.value.modifiedAt.Some? && exists i :: 0 <= i < |history| && history[i].download == d.value
  {
    if history == [] then None
    else if history[|history| - 1].download.modifiedAt.Some? then Some(history[|history| - 1].download)
    else LastDated(history[..|history| - 1])
  }

  lemma {:induction false} LastDatedIsLatest(history: History)
    requires Monotone(history)
    ensures LastDated(history).None? ==> forall i :: 0 <= i < |history| ==> history[i].download.modifiedAt.None?
    ensures LastDated(history).Some? ==> forall i :: 0 <= i < |history| && history[i].download.modifiedAt.Some? ==>
              NotAfter(history[i].download, LastDated(history).value)
  {
    if history != [] && history[|history| - 1].download.modifiedAt.None? {
      LastDatedIsLatest(history[..|history| - 1]);
    }
  }

  /** In mixed sequences only this much is certain: an installation keeps the order exactly when the download has
      no modification time, or is not before the newest installed one that has. The code compares only with the
      import just before it, so it enforces that exactly when that one is dated. */
  lemma MixedKeepsOrderExactly(history: History, next: Installed)
    requires Monotone(history) && SkipReason(Latest(history), next.download).None?
    ensures Monotone(history + [next]) <==>
              || next.download.modifiedAt.None? || LastDated(history).None?
              || NotAfter(LastDated(history).value, next.download)
    ensures history != [] && history[|history| - 1].download.modifiedAt.Some? ==> Monotone(history + [next])
  {
    LastDatedIsLatest(history);
    var after := history + [next];
    if Monotone(after) && next.download.modifiedAt.Some? && LastDated(history).Some? {
      var i :| 0 <= i < |history| && history[i].download == LastDated(history).value;
      assert NotAfter(after[i].download, after[|history|].download);
    }
  }

  /** Three installations, each allowed after the one before, that go back: the middle one is not dated. */
  lemma MixedCanGoBack(dataset: Dataset, a: Payload, b: Payload, c: Payload)
    requires a.hash != b.hash && b.hash != c.hash
    ensures var history := [Installed(1, Download(10, 11, Some(9), a), dataset),
                            Installed(2, Download(20, 21, None, b), dataset),
                            Installed(3, Download(30, 31, Some(5), c), dataset)];
      Allowed(history) && !Monotone(history)
  {
    var history := [Installed(1, Download(10, 11, Some(9), a), dataset),
                    Installed(2, Download(20, 21, None, b), dataset),
                    Installed(3, Download(30, 31, Some(5), c), dataset)];
    assert !NotAfter(history[0].download, history[2].download);
  }

  // ---- The tables ----

  function RouteTable(routes: seq<Route>): map<string, Route> {
    if routes == [] then map[]
    else RouteTable(routes[..|routes| - 1])[routes[|routes| - 1].id := routes[|routes| - 1]]
  }

  function StopTable(stops: seq<Stop>): map<string, Stop> {
    if stops == [] then map[]
    else StopTable(stops[..|stops| - 1])[stops[|stops| - 1].id := stops[|stops| - 1]]
  }

  function RelationTable(relations: seq<RouteStation>): set<RouteStation> {
    set relation | relation in relations
  }

  lemma {:induction false} RouteTableHolds(routes: seq<Route>)
    requires RouteKeys(routes)
    ensures forall id :: id in RouteTable(routes) <==> exists i :: 0 <= i < |routes| && routes[i].id == id
    ensures forall i :: 0 <= i < |routes| ==> RouteTable(routes)[routes[i].id] == routes[i]
  {
    if routes != [] { RouteTableHolds(routes[..|routes| - 1]); }
  }

  /** The rows of the tables are exactly those of the dataset. */
  ghost predicate HoldRows(routes: map<string, Route>, stops: map<string, Stop>, relations: set<RouteStation>,
                           dataset: Dataset) {
    && (forall id <- routes :: routes[id].id == id && routes[id] in dataset.routes)
    && (forall route <- dataset.routes :: route.id in routes && routes[route.id] == route)
    && (forall id <- stops :: stops[id].id == id && stops[id] in dataset.stops)
    && (forall stop <- dataset.stops :: stop.id in stops && stops[stop.id] == stop)
    && (forall relation :: relation in relations <==> relation in dataset.relations)
  }

  lemma TablesHoldRows(dataset: Dataset)
    requires RouteKeys(dataset.routes) && StopKeys(dataset.stops)
    ensures HoldRows(RouteTable(dataset.routes), StopTable(dataset.stops), RelationTable(dataset.relations), dataset)
  {
    RouteTableHolds(dataset.routes);
    StopTableHolds(dataset.stops);
    var routes, stops := RouteTable(dataset.routes), StopTable(dataset.stops);
    forall id <- routes ensures routes[id].id == id && routes[id] in dataset.routes {
      var i :| 0 <= i < |dataset.routes| && dataset.routes[i].id == id;
    }
    forall id <- stops ensures stops[id].id == id && stops[id] in dataset.stops {
      var i :| 0 <= i < |dataset.stops| && dataset.stops[i].id == id;
    }
  }

  lemma {:induction false} StopTableHolds(stops: seq<Stop>)
    requires StopKeys(stops)
    ensures forall id :: id in StopTable(stops) <==> exists i :: 0 <= i < |stops| && stops[i].id == id
    ensures forall i :: 0 <= i < |stops| ==> StopTable(stops)[stops[i].id] == stops[i]
  {
    if stops != [] { StopTableHolds(stops[..|stops| - 1]); }
  }

  predicate RefersTo(stops: map<string, Stop>, id: string, locationType: int) {
    id in stops && stops[id].locationType == locationType
  }

  /** The foreign keys of route_stations. */
  predicate Refers(routes: map<string, Route>, stops: map<string, Stop>, relation: RouteStation) {
    relation.route in routes && RefersTo(stops, relation.station, STATION)
  }

  /** The foreign key to the parent, checked when the transaction commits. */
  predicate ParentRefers(stops: map<string, Stop>, stop: Stop) {
    stop.parent != "" ==> RefersTo(stops, stop.parent, if stop.locationType == 4 then 0 else STATION)
  }

  predicate ParentsRefer(stops: map<string, Stop>) {
    forall id <- stops :: ParentRefers(stops, stops[id])
  }

  lemma RefersToHasStop(stops: seq<Stop>, id: string, locationType: int)
    requires StopKeys(stops)
    ensures RefersTo(StopTable(stops), id, locationType) <==> HasStop(stops, id, locationType)
  {
    StopTableHolds(stops);
  }

  lemma ParentsReferExactly(stops: seq<Stop>)
    requires StopKeys(stops)
    ensures ParentsRefer(StopTable(stops)) <==> forall stop <- stops :: ParentForeignKey(stops, stop)
  {
    StopTableHolds(stops);
    var table := StopTable(stops);
    forall stop <- stops ensures ParentRefers(table, stop) <==> ParentForeignKey(stops, stop) {
      RefersToHasStop(stops, stop.parent, if stop.locationType == 4 then 0 else STATION);
    }
    forall stop <- stops ensures stop.id in table && table[stop.id] == stop {}
    forall id <- table ensures table[id] in stops {
      var i :| 0 <= i < |stops| && stops[i].id == id;
    }
  }

  lemma RelationsReferExactly(dataset: Dataset)
    requires RouteKeys(dataset.routes) && StopKeys(dataset.stops)
    ensures forall relation <- dataset.relations ::
      Refers(RouteTable(dataset.routes), StopTable(dataset.stops), relation)
      <==> RouteStationForeignKeys(dataset, relation)
  {
    forall relation <- dataset.relations
      ensures Refers(RouteTable(dataset.routes), StopTable(dataset.stops), relation)
          <==> RouteStationForeignKeys(dataset, relation)
    {
      RouteTableHolds(dataset.routes);
      RefersToHasStop(dataset.stops, relation.station, STATION);
    }
  }

  const EMPTY := Dataset([], [], [])

  function Network(history: History): Dataset {
    if history == [] then EMPTY else history[|history| - 1].dataset
  }

  /** The import installed last is the only current one. */
  ghost predicate CurrentIsLast(imports: map<int, Import>, history: History) {
    && (forall id <- imports :: imports[id].isCurrent <==> history != [] && id == history[|history| - 1].id)
    && (forall i :: 0 <= i < |history| ==>
          && history[i].id in imports && imports[history[i].id].status == Succeeded
          && imports[history[i].id].download == Some(history[i].download))
  }

  function MarkedFailed(row: Import, download: Option<Download>): Import {
    row.(status := Failed, download := download, archive := if row.archive == Archived then Archived else ArchiveFailed)
  }

  /** WHERE id = $1 AND status = 'running' AND archive_status = 'archived' */
  predicate Completable(imports: map<int, Import>, id: int) {
    id in imports && imports[id].status == Running && imports[id].archive == Archived
  }

  ghost predicate EachInstallable(history: History) {
    forall i :: 0 <= i < |history| ==> Installable(history[i].dataset)
  }

  /** The two updates of gtfs_imports: the old current marker goes, the import is completed. */
  function Completed(imports: map<int, Import>, id: int, download: Download): (after: map<int, Import>)
    requires id in imports
    ensures after.Keys == imports.Keys
  {
    (map other | other in imports :: imports[other].(isCurrent := false))
      [id := imports[id].(status := Succeeded, download := Some(download), isCurrent := true, skipCode := None)]
  }

  lemma CompletedIsLast(imports: map<int, Import>, history: History, id: int, download: Download, dataset: Dataset)
    requires CurrentIsLast(imports, history) && id in imports && imports[id].status == Running
    ensures CurrentIsLast(Completed(imports, id, download), history + [Installed(id, download, dataset)])
  {
  }

  lemma HistoryNext(history: History, next: Installed)
    requires Allowed(history) && EachInstallable(history)
    requires SkipReason(Latest(history), next.download).None? && Installable(next.dataset)
    ensures Allowed(history + [next]) && EachInstallable(history + [next])
  {
    var after := history + [next];
    forall i | 0 <= i < |after| ensures Installable(after[i].dataset) {
      if i < |history| { assert Installable(history[i].dataset); }
    }
  }

  // ---- Transactions ----

  datatype Effect = Skipping(code: SkipCode) | Installing(dataset: Dataset)

  /** What a transaction sent to commit does: it skips the import or installs its dataset. */
  datatype Transaction = Transaction(id: int, download: Download, effect: Effect)

  /** The effect is what the network in place calls for, and the import is still to be completed. */
  ghost predicate Committable(imports: map<int, Import>, history: History, tx: Transaction) {
    && Completable(imports, tx.id)
    && match tx.effect
       case Skipping(code) => SkipReason(Latest(history), tx.download) == Some(code)
       case Installing(dataset) => SkipReason(Latest(history), tx.download).None? && Installable(dataset)
  }

  function SkippedAs(imports: map<int, Import>, id: int, download: Download, code: SkipCode): map<int, Import>
    requires id in imports
  {
    imports[id := imports[id].(status := Skipped, download := Some(download), skipCode := Some(code))]
  }

  function ImportsAfter(imports: map<int, Import>, tx: Transaction): map<int, Import>
    requires tx.id in imports
  {
    match tx.effect
    case Skipping(code) => SkippedAs(imports, tx.id, tx.download, code)
    case Installing(_) => Completed(imports, tx.id, tx.download)
  }

  /** What the rows of the imports say once the transaction took effect: the import is skipped with its reason, and
      nothing else changes, or it succeeded and is the only current one. */
  ghost predicate RowsAfter(imports: map<int, Import>, tx: Transaction, after: map<int, Import>)
    requires tx.id in imports
  {
    && after.Keys == imports.Keys && after[tx.id].download == Some(tx.download)
    && after[tx.id].archive == imports[tx.id].archive
    && match tx.effect
       case Skipping(code) =>
         && after[tx.id].status == Skipped && after[tx.id].skipCode == Some(code)
         && after[tx.id].isCurrent == imports[tx.id].isCurrent
         && forall id <- imports :: id != tx.id ==> after[id] == imports[id]
       case Installing(_) =>
         && after[tx.id].status == Succeeded && after[tx.id].skipCode == None
         && (forall id <- imports :: after[id].isCurrent <==> id == tx.id)
         && forall id <- imports :: id != tx.id ==>
              && after[id].status == imports[id].status && after[id].download == imports[id].download
              && after[id].archive == imports[id].archive && after[id].skipCode == imports[id].skipCode
  }

  lemma ImportsAfterRows(imports: map<int, Import>, tx: Transaction)
    requires tx.id in imports
    ensures RowsAfter(imports, tx, ImportsAfter(imports, tx))
  {
  }

  function HistoryAfter(history: History, tx: Transaction): History {
    match tx.effect
    case Skipping(_) => history
    case Installing(dataset) => history + [Installed(tx.id, tx.download, dataset)]
  }

  /** A committed transaction leaves the imports in step with what was installed. */
  lemma TransactionKeeps(imports: map<int, Import>, history: History, tx: Transaction)
    requires CurrentIsLast(imports, history) && Allowed(history) && EachInstallable(history)
    requires Committable(imports, history, tx)
    ensures CurrentIsLast(ImportsAfter(imports, tx), HistoryAfter(history, tx))
    ensures Allowed(HistoryAfter(history, tx)) && EachInstallable(HistoryAfter(history, tx))
  {
    match tx.effect {
      case Skipping(_) =>
      case Installing(dataset) =>
        CompletedIsLast(imports, history, tx.id, tx.download, dataset);
        HistoryNext(history, Installed(tx.id, tx.download, dataset));
    }
  }

  // ---- The repository ----

  class GtfsRepository {
    var imports: map<int, Import>
    var routes: map<string, Route>
    var stops: map<string, Stop>
    var relations: set<RouteStation>
    var nextImport: int
    /** A commit was sent and is not decided yet; it holds the advisory lock and the lock of its import. */
    var doubt: Option<Transaction>
    ghost var history: History

    /** The network tables hold exactly the dataset. */
    ghost predicate Holds(dataset: Dataset)
      reads this
    {
      && routes == RouteTable(dataset.routes) && stops == StopTable(dataset.stops)
      && relations == RelationTable(dataset.relations)
    }

    ghost predicate Valid()
      reads this
    {
      && CurrentIsLast(imports, history) && Holds(Network(history)) && Allowed(history)
      && EachInstallable(history)
      && (forall id <- imports :: id < nextImport)
      && (doubt.Some? ==> Committable(imports, history, doubt.value))
    }

    constructor ()
      ensures Valid() && history == [] && imports == map[] && doubt.None?
    {
      imports, routes, stops, relations, nextImport, doubt, history := map[], map[], map[], {}, 1, None, [];
    }

    twostate predicate NetworkKept()
      reads this
    {
      history == old(history) && routes == old(routes) && stops == old(stops) && relations == old(relations)
    }

    twostate predicate TablesKept()
      reads this
    {
      imports == old(imports) && NetworkKept()
    }

    /** Everything the transaction does is done. */
    twostate predicate Written(tx: Transaction)
      requires tx.id in old(imports)
      reads this
    {
      && imports == ImportsAfter(old(imports), tx) && RowsAfter(old(imports), tx, imports)
      && history == HistoryAfter(old(history), tx)
      && match tx.effect
         case Skipping(_) => NetworkKept()
         case Installing(dataset) => Holds(dataset)
    }

    method StartImport() returns (id: int)
      requires Valid()
      modifies this`imports, this`nextImport
      ensures Valid() && id !in old(imports)
      ensures imports == old(imports)[id := Import(Running, ArchivePending, None, false, None)]
    {
      id := nextImport;
      imports, nextImport := imports[id := Import(Running, ArchivePending, None, false, None)], id + 1;
    }

    method LinkArchive(id: int) returns (ok: bool)
      requires Valid()
      modifies this`imports
      ensures Valid()
      ensures ok <==>
        id in old(imports) && old(imports)[id].status == Running && old(imports)[id].archive == ArchivePending
      ensures imports == if ok then old(imports)[id := old(imports)[id].(archive := Archived)] else old(imports)
    {
      ok := id in imports && imports[id].status == Running && imports[id].archive == ArchivePending;
      if ok { imports := imports[id := imports[id].(archive := Archived)]; }
    }

    /** Marks a running import failed; the update waits for the lock of the import. */
    method FailImport(id: int, download: Option<Download>) returns (ok: bool)
      requires Valid() && (doubt.Some? ==> doubt.value.id != id)
      modifies this`imports
      ensures Valid()
      ensures ok <==> id in old(imports) && old(imports)[id].status == Running
      ensures imports == if ok then old(imports)[id := MarkedFailed(old(imports)[id], download)] else old(imports)
      ensures ok ==>
        && imports[id].status == Failed && imports[id].download == download
        && imports[id].archive == (if old(imports)[id].archive == Archived then Archived else ArchiveFailed)
        && imports[id].isCurrent == old(imports)[id].isCurrent && imports[id].skipCode == old(imports)[id].skipCode
    {
      ok := id in imports && imports[id].status == Running;
      if ok { imports := imports[id := MarkedFailed(imports[id], download)]; }
    }

    /** SELECT ... WHERE is_current */
    method LoadCurrent() returns (current: Option<Download>)
      requires Valid()
      ensures current == Latest(history)
    {
      current := None;
      if history != [] { assert history[|history| - 1].id in imports && imports[history[|history| - 1].id].isCurrent; }
      if exists id :: id in imports && imports[id].isCurrent {
        var id: int :| id in imports && imports[id].isCurrent;
        current := imports[id].download;
      }
    }

    /** The check before the archive is parsed, made once the advisory lock is free. Without a reason to skip it
        only looks. */
    method SkipIfImported(id: int, download: Download, answers: Answers) returns (r: Outcome, skipped: bool)
      requires Valid() && doubt.None?
      modifies this
      ensures Valid() && nextImport == old(nextImport)
      ensures var reason := SkipReason(Latest(old(history)), download);
        && (skipped <==> r == Done && reason.Some?)
        && if !answers.statements then r == Rejected && TablesKept() && doubt.None?
           else if reason.None? then r == Done && TablesKept() && doubt.None?
           else if id !in old(imports) || old(imports)[id].status != Running
             || old(imports)[id].archive != Archived then
             r == Rejected && TablesKept() && doubt.None?
           else Attempted(Transaction(id, download, Skipping(reason.value)), answers) && r == Learned(answers)
      ensures skipped ==>
        imports[id].status == Skipped && imports[id].skipCode == SkipReason(Latest(old(history)), download)
    {
      if !answers.statements { return Rejected, false; }
      var current := LoadCurrent();
      var reason := SkipReason(current, download);
      if reason.None? { return Done, false; }
      if !Completable(imports, id) { return Rejected, false; }
      r := Commit(Transaction(id, download, Skipping(reason.value)), answers);
      skipped := r == Done;
    }

    /** What a transaction that was sent to commit leaves behind. */
    twostate predicate Attempted(tx: Transaction, answers: Answers)
      requires tx.id in old(imports)
      reads this
    {
      if TakesEffect(answers) then Written(tx) && doubt.None?
      else TablesKept() && doubt == if answers.commit == Undecided then Some(tx) else None
    }

    /** The commit of a transaction, and the status read of commitGTFS where it goes unreported. */
    method Commit(tx: Transaction, answers: Answers) returns (r: Outcome)
      requires Valid() && doubt.None? && answers.statements && Committable(imports, history, tx)
      modifies this
      ensures Valid() && nextImport == old(nextImport)
      ensures Attempted(tx, answers) && r == Learned(answers)
    {
      match answers.commit {
        case Confirmed | AppliedUnreported => Write(tx);
        case Undecided => doubt := Some(tx);
        case RolledBack =>
      }
      if answers.commit == Confirmed { return Done; }
      if !answers.status { return Unknown; }
      r := if imports[tx.id].status == (if tx.effect.Skipping? then Skipped else Succeeded) then Done else Rejected;
    }

    /** The server applies a transaction. */
    method Write(tx: Transaction)
      requires Valid() && Committable(imports, history, tx) && (doubt.Some? ==> doubt.value == tx)
      modifies this
      ensures Valid() && Written(tx) && nextImport == old(nextImport) && doubt.None?
    {
      doubt := None;
      WriteImports(tx);
      if tx.effect.Installing? { WriteNetwork(tx.effect.dataset); }
    }

    /** The statements that replace the network, as TryNetwork has shown to go through. */
    method WriteNetwork(dataset: Dataset)
      modifies this`routes, this`stops, this`relations
      ensures Holds(dataset)
    {
      routes, stops := RouteTable(dataset.routes), StopTable(dataset.stops);
      relations := RelationTable(dataset.relations);
    }

    /** The updates of gtfs_imports. */
    method WriteImports(tx: Transaction)
      requires CurrentIsLast(imports, history) && Allowed(history) && EachInstallable(history)
      requires Committable(imports, history, tx)
      modifies this`imports, this`history
      ensures CurrentIsLast(imports, history) && Allowed(history) && EachInstallable(history)
      ensures RowsAfter(old(imports), tx, imports)
      ensures imports == ImportsAfter(old(imports), tx) && history == HistoryAfter(old(history), tx)
      ensures imports.Keys == old(imports).Keys
    {
      TransactionKeeps(imports, history, tx);
      ImportsAfterRows(imports, tx);
      imports, history := ImportsAfter(imports, tx), HistoryAfter(history, tx);
    }

    /** An undecided commit is decided. */
    method Decide(applies: bool)
      requires Valid()
      modifies this
      ensures Valid() && nextImport == old(nextImport) && doubt.None?
      ensures if applies && old(doubt).Some? then Written(old(doubt).value) else TablesKept()
    {
      if doubt.Some? && applies { Write(doubt.value); }
      doubt := None;
    }

    method InsertRoutes(list: seq<Route>) returns (ok: bool)
      requires routes == map[]
      modifies this`routes
      ensures ok <==> RouteKeys(list) && forall route <- list :: RouteFits(route)
      ensures ok ==> routes == RouteTable(list)
    {
      ghost var done := [];
      for i := 0 to |list|
        invariant done == list[..i] && routes == RouteTable(done) && RouteKeys(done)
        invariant forall route <- done :: RouteFits(route)
      {
        if !RouteFits(list[i]) { return false; }
        RouteTableHolds(done);
        if list[i].id in routes {
          ghost var j :| 0 <= j < i && done[j].id == list[i].id;
          assert list[j].id == list[i].id;
          return false;
        }
        PrefixNext(list, i);
        assert (done + [list[i]])[..i] == done;
        routes := routes[list[i].id := list[i]];
        done := done + [list[i]];
      }
      assert done == list;
      ok := true;
    }

    method InsertStops(list: seq<Stop>) returns (ok: bool)
      requires stops == map[]
      modifies this`stops
      ensures ok <==> StopKeys(list) && forall stop <- list :: StopFits(stop) && LocationTypeChecks(stop)
      ensures ok ==> stops == StopTable(list)
    {
      ghost var done := [];
      for i := 0 to |list|
        invariant done == list[..i] && stops == StopTable(done) && StopKeys(done)
        invariant forall stop <- done :: StopFits(stop) && LocationTypeChecks(stop)
      {
        StopTableHolds(done);
        if list[i].id in stops {
          ghost var j :| 0 <= j < i && done[j].id == list[i].id;
          assert list[j].id == list[i].id;
          return false;
        }
        if !StopFits(list[i]) || !LocationTypeChecks(list[i]) { return false; }
        PrefixNext(list, i);
        assert (done + [list[i]])[..i] == done;
        stops := stops[list[i].id := list[i]];
        done := done + [list[i]];
      }
      assert done == list;
      ok := true;
    }

    method InsertRouteStations(list: seq<RouteStation>) returns (ok: bool)
      requires relations == {}
      modifies this`relations
      ensures ok <==> Distinct(list) && forall relation <- list :: Refers(routes, stops, relation)
      ensures ok ==> relations == RelationTable(list)
    {
      ghost var done := [];
      for i := 0 to |list|
        invariant done == list[..i] && relations == RelationTable(done) && Distinct(done)
        invariant forall relation <- done :: Refers(routes, stops, relation)
      {
        if list[i] in relations {
          ghost var j :| 0 <= j < i && done[j] == list[i];
          assert list[j] == list[i];
          return false;
        }
        if !Refers(routes, stops, list[i]) { return false; }
        PrefixNext(list, i);
        relations := relations + {list[i]};
        done := done + [list[i]];
      }
      assert done == list;
      ok := true;
    }

    /** Empties the three tables and fills them from the dataset. They accept it exactly if it is installable. */
    method ReplaceNetwork(dataset: Dataset) returns (ok: bool)
      modifies this`routes, this`stops, this`relations
      ensures ok <==> Installable(dataset)
      ensures ok ==> Holds(dataset) && HoldRows(routes, stops, relations, dataset)
    {
      relations, stops, routes := {}, map[], map[];
      ok := InsertRoutes(dataset.routes);
      if !ok { return; }
      ok := InsertStops(dataset.stops);
      if !ok { return; }
      TablesHoldRows(dataset);
      RelationsReferExactly(dataset);
      ParentsReferExactly(dataset.stops);
      ok := InsertRouteStations(dataset.relations);
      if !ok { return; }
      ok := ParentsRefer(stops);
    }

    /** Installs the dataset unless the network in place makes that wrong, once the advisory lock is free. The tables
        change exactly if the commit takes effect; a refused dataset leaves every table as it was. */
    method CompleteImport(id: int, download: Download, dataset: Dataset, answers: Answers)
      returns (r: Outcome, skipped: bool)
      requires Valid() && doubt.None?
      modifies this
      ensures Valid() && nextImport == old(nextImport)
      ensures var reason := SkipReason(Latest(old(history)), download);
        && (skipped <==> r == Done && reason.Some?)
        && if !answers.statements || id !in old(imports) || old(imports)[id].status != Running
             || old(imports)[id].archive != Archived || (reason.None? && !Installable(dataset)) then
             r == Rejected && TablesKept() && doubt.None?
           else
             && Attempted(Transaction(id, download,
                  if reason.Some? then Skipping(reason.value) else Installing(dataset)), answers)
             && r == Learned(answers)
      ensures skipped ==>
        imports[id].status == Skipped && imports[id].skipCode == SkipReason(Latest(old(history)), download)
      ensures r == Done && !skipped ==> imports[id].status == Succeeded && imports[id].isCurrent
    {
      if !answers.statements { return Rejected, false; }
      var current := LoadCurrent();
      var reason := SkipReason(current, download);
      if reason.Some? {
        if !Completable(imports, id) { return Rejected, false; }
        r := Commit(Transaction(id, download, Skipping(reason.value)), answers);
        skipped := r == Done;
        return;
      }
      var ok := TryNetwork(dataset);
      if !ok || !Completable(imports, id) { return Rejected, false; }
      r := Commit(Transaction(id, download, Installing(dataset)), answers);
      skipped := false;
    }

    /** The statements that replace the network, on a copy of the tables. */
    method TryNetwork(dataset: Dataset) returns (ok: bool)
      requires Valid()
      modifies this`routes, this`stops, this`relations
      ensures Valid() && TablesKept() && (ok <==> Installable(dataset))
    {
      var routesBefore, stopsBefore, relationsBefore := routes, stops, relations;
      ok := ReplaceNetwork(dataset);
      routes, stops, relations := routesBefore, stopsBefore, relationsBefore;
    }
  }

  // ---- Every run of the system ----

  datatype Step =
    | Start
    | Link(id: int)
    | Fail(id: int, fetched: Option<Download>)
    | Check(id: int, download: Download, answers: Answers)
    | Complete(id: int, download: Download, dataset: Dataset, answers: Answers)
    | Settle(applies: bool)

  /** A check or an installation waits for the advisory lock of an undecided commit, a failing update for the lock of
      its import. After any sequence of steps of any imports at most one is current, the tables hold exactly the
      dataset installed last, neighbours differ, and fully dated sequences never go back. */
  method TakeSteps(repository: GtfsRepository, steps: seq<Step>)
    requires repository.Valid()
    modifies repository
    ensures repository.Valid()
    ensures forall a <- repository.imports, b <- repository.imports ::
      repository.imports[a].isCurrent && repository.imports[b].isCurrent ==> a == b
    ensures HoldRows(repository.routes, repository.stops, repository.relations, Network(repository.history))
    ensures Dated(repository.history) ==> Monotone(repository.history)
  {
    for i := 0 to |steps|
      invariant repository.Valid()
    {
      match steps[i] {
        case Start =>
          var id := repository.StartImport();
        case Link(id) =>
          var ok := repository.LinkArchive(id);
        case Fail(id, fetched) =>
          if repository.doubt.None? || repository.doubt.value.id != id {
            var ok := repository.FailImport(id, fetched);
          }
        case Check(id, download, answers) =>
          if repository.doubt.None? { var r, skipped := repository.SkipIfImported(id, download, answers); }
        case Complete(id, download, dataset, answers) =>
          if repository.doubt.None? { var r, skipped := repository.CompleteImport(id, download, dataset, answers); }
        case Settle(applies) =>
          repository.Decide(applies);
      }
    }
    TablesHoldRows(Network(repository.history));
    if Dated(repository.history) { AllDatedIsMonotone(repository.history); }
  }
}
