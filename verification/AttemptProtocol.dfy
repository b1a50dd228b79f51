/** One ingestion attempt against a database whose commits may succeed, fail, or go unreported
    (internal/ingest/alerts.go, internal/ingest/gtfs.go, internal/database/archive.go, and commitRun,
    commitGTFS and the Fail... updates).

    A transaction whose commit went unreported may still be in progress: until it is decided it holds the
    lock of the attempt's row, so no other write to that row gets ahead of it, while plain reads see the old row. */
module AttemptProtocol {
  import opened Common

  /** A row of raw_archives; the table is keyed by UNIQUE (backend, object_key). */
  datatype ArchiveRow = ArchiveRow(content: Payload, version: string)

  type Archives = map<ObjectKey, ArchiveRow>

  /** The columns of an attempt that its life depends on. */
  datatype Attempt = Attempt(
    status: RunStatus, archive: ArchiveStatus, linked: Option<ObjectKey>, created: Option<bool>, archiveError: bool,
    skipCode: Option<SkipCode>, payload: Option<Payload>)

  const STARTED := Attempt(Running, ArchivePending, None, None, false, None, None)

  // ---- Constraints of the attempt tables ----

  predicate ArchiveLinkCheck(a: Attempt) {
    match a.archive
    case Archived => a.linked.Some? && !a.archiveError
    case ArchiveFailed => a.linked.None? && a.created.None? && a.archiveError
    case ArchivePending => a.linked.None? && a.created.None? && !a.archiveError
  }

  predicate TerminalArchiveCheck(a: Attempt) {
    a.status == Succeeded || a.status == Skipped ==> a.archive == Archived
  }

  predicate SkipLifecycleCheck(a: Attempt) {
    a.status == Skipped <==> a.skipCode.Some?
  }

  predicate Checks(a: Attempt) {
    ArchiveLinkCheck(a) && TerminalArchiveCheck(a) && SkipLifecycleCheck(a)
  }

  // ---- The guarded updates ----

  function Linked(a: Attempt, stored: StoredObject): Attempt {
    a.(archive := Archived, linked := Some(stored.at), created := stored.created, archiveError := false)
  }

  datatype Verdict = Refuses | Skips(code: SkipCode) | Succeeds

  function Completed(a: Attempt, payload: Payload, verdict: Verdict): Attempt
    requires !verdict.Refuses?
  {
    match verdict
    case Skips(code) => a.(status := Skipped, skipCode := Some(code), payload := Some(payload))
    case Succeeds => a.(status := Succeeded, skipCode := None, payload := Some(payload))
  }

  function MarkedFailed(a: Attempt, payload: Option<Payload>): Attempt {
    a.(status := Failed, payload := payload,
       archive := if a.archive == Archived then Archived else ArchiveFailed, archiveError := a.archive != Archived)
  }

  /** What one committed write may do to an attempt. */
  ghost predicate Legal(a: Attempt, b: Attempt) {
    && a.status == Running
    && (|| (a.archive == ArchivePending && exists stored :: b == Linked(a, stored))
        || (a.archive == Archived && exists payload, verdict: Verdict ::
              !verdict.Refuses? && b == Completed(a, payload, verdict))
        || (exists payload :: b == MarkedFailed(a, payload)))
  }

  /** Every committed version of an attempt, oldest first. */
  ghost predicate Lifecycle(log: seq<Attempt>) {
    && log != [] && log[0] == STARTED
    && forall i, j :: 0 <= i < j < |log| && j == i + 1 ==> Legal(log[i], log[j])
  }

  // ---- What every life of an attempt keeps ----

  /** A finished attempt never changes again; in particular a succeeded or skipped one never becomes failed. */
  lemma FinishedIsFinal(log: seq<Attempt>, i: nat)
    requires Lifecycle(log) && i < |log| && log[i].status != Running
    ensures i == |log| - 1
  {
    assert i + 1 < |log| ==> Legal(log[i], log[i + 1]);
  }

  lemma {:induction false} ChecksHold(log: seq<Attempt>, i: nat)
    requires Lifecycle(log) && i < |log|
    ensures Checks(log[i])
  {
    if i > 0 {
      ChecksHold(log, i - 1);
      assert Legal(log[i - 1], log[i]);
      LegalKeepsChecks(log[i - 1], log[i]);
    }
  }

  lemma LegalKeepsChecks(a: Attempt, b: Attempt)
    requires Checks(a) && Legal(a, b)
    ensures Checks(b)
  {
  }

  /** The archive is linked before the payload is interpreted: no version of an attempt is succeeded or skipped
      unless an earlier version was running with the very same link. */
  lemma ArchivedBeforeInterpreted(log: seq<Attempt>, j: nat)
    requires Lifecycle(log) && j < |log| && (log[j].status == Succeeded || log[j].status == Skipped)
    ensures log[j].archive == Archived && log[j].linked.Some?
    ensures j >= 1 && log[j - 1].status == Running && log[j - 1].archive == Archived
    ensures log[j - 1].linked == log[j].linked
  {
    ChecksHold(log, j);
    assert j > 0;
    assert Legal(log[j - 1], log[j]);
  }

  /** Once linked, an attempt keeps its archive. */
  lemma {:induction false} LinkIsKept(log: seq<Attempt>, i: nat, j: nat)
    requires Lifecycle(log) && i <= j < |log| && log[i].archive == Archived
    ensures log[j].archive == Archived && log[j].linked == log[i].linked && log[j].created == log[i].created
    decreases j
  {
    if i < j {
      LinkIsKept(log, i, j - 1);
      assert Legal(log[j - 1], log[j]);
    }
  }

  /** UPDATE ... SET status = 'failed' ... WHERE status = 'running' */
  function GuardedFail(log: seq<Attempt>, payload: Option<Payload>): seq<Attempt>
    requires log != []
  {
    var row := log[|log| - 1];
    if row.status == Running then log + [MarkedFailed(row, payload)] else log
  }

  /** A commit that writes the row it prepared over whatever row is there by then. */
  function Overwritten(log: seq<Attempt>, row: Attempt): seq<Attempt> {
    log + [row]
  }

  /** The guards alone would not do. A failing update behind the commit that completes an attempt leaves it alone;
      one that gets ahead of the commit, as it could if it did not have to wait for the lock of the row, is
      overwritten by it: a failed attempt becomes succeeded or skipped. */
  lemma LockIsNeeded(log: seq<Attempt>, payload: Payload, verdict: Verdict, failure: Option<Payload>)
    requires Lifecycle(log) && !verdict.Refuses?
    requires log[|log| - 1].status == Running && log[|log| - 1].archive == Archived
    ensures var row := Completed(log[|log| - 1], payload, verdict);
      var behind, ahead := GuardedFail(Overwritten(log, row), failure), Overwritten(GuardedFail(log, failure), row);
      && Lifecycle(behind) && behind == log + [row]
      && !Lifecycle(ahead) && ahead[|log|].status == Failed && ahead[|log| + 1] == row && row.status != Failed
  {
    var last := log[|log| - 1];
    var row := Completed(last, payload, verdict);
    assert Legal(last, row);
    var ahead := Overwritten(GuardedFail(log, failure), row);
    if Lifecycle(ahead) { FinishedIsFinal(ahead, |log|); }
  }

  // ---- The attempt in the database ----

  /** The writes of a transaction to the attempt and to raw_archives. */
  datatype Transaction = Transaction(row: Attempt, adds: Archives)

  /** Of the failing update: answered; applied without an answer; left waiting; never sent. */
  datatype FailOutcome = Answered | AppliedUnanswered | LeftWaiting | NotSent

  /** The failing update was carried out. */
  predicate IsSent(outcome: FailOutcome) {
    outcome == Answered || outcome == AppliedUnanswered
  }

  /** The row is that of the attempt, completed as the verdict says. */
  predicate RecordsVerdict(a: Attempt, payload: Payload, verdict: Verdict) {
    && a.payload == Some(payload)
    && match verdict
       case Refuses => false
       case Skips(code) => a.status == Skipped && a.skipCode == Some(code)
       case Succeeds => a.status == Succeeded && a.skipCode == None
  }

  predicate LinkKept(a: Attempt, before: Attempt) {
    && a.archive == before.archive && a.linked == before.linked && a.created == before.created
    && a.archiveError == before.archiveError
  }

  /** The row links the attempt to the object that was stored for it, and says whether that was created. */
  predicate LinksTo(a: Attempt, put: Option<StoredObject>) {
    && put.Some? && a.archive == Archived && !a.archiveError
    && a.linked == Some(put.value.at) && a.created == put.value.created
  }

  /** What the caller learns. None: it depends on whether the server decides before the status is read. */
  function Foreseen(answers: Answers): Option<Outcome> {
    if answers.commit == Undecided && answers.status then None else Some(Learned(answers))
  }

  ghost predicate ArchivesKept(before: Archives, after: Archives) {
    forall key <- before :: key in after && after[key] == before[key]
  }

  predicate LinkExists(a: Attempt, archives: Archives) {
    a.linked.Some? ==> a.linked.value in archives
  }

  /** Whatever is linked holds `content`, and whatever payload is recorded is `content`. */
  predicate IsAbout(a: Attempt, archives: Archives, content: Payload) {
    && (a.linked.Some? ==> a.linked.value in archives && archives[a.linked.value].content == content)
    && (a.payload.Some? ==> a.payload.value == content)
  }

  ghost predicate AllAbout(log: seq<Attempt>, archives: Archives, content: Payload) {
    forall a <- log :: IsAbout(a, archives, content)
  }

  lemma AboutKept(log: seq<Attempt>, archives: Archives, more: Archives, content: Payload)
    requires AllAbout(log, archives, content) && archives.Keys !! more.Keys
    ensures AllAbout(log, archives + more, content)
  {
  }

  lemma AboutFailed(log: seq<Attempt>, archives: Archives, payload: Option<Payload>, content: Payload)
    requires log != [] && AllAbout(log, archives, content) && (payload.Some? ==> payload.value == content)
    ensures AllAbout(log + [MarkedFailed(log[|log| - 1], payload)], archives, content)
  {
    assert log[|log| - 1] in log;
  }

  class AttemptDatabase {
    var row: Attempt
    var archives: Archives
    /** A commit was sent and not reported: it may apply or roll back later. */
    var doubt: Option<Transaction>
    /** A failing update was sent and not reported: it may still run, on the row as it will be then. */
    var waiting: Option<Option<Payload>>
    ghost var log: seq<Attempt>

    ghost predicate Valid()
      reads this
    {
      && Lifecycle(log) && row == log[|log| - 1] && LinkExists(row, archives)
      && (doubt.Some? ==>
            && Legal(row, doubt.value.row)
            && LinkExists(doubt.value.row, archives + doubt.value.adds)
            && doubt.value.adds.Keys !! archives.Keys)
    }

    /** Nothing is under way any more. */
    predicate Settled()
      reads this
    {
      doubt.None? && waiting.None?
    }

    /** Every version of the attempt, committed or under way, is about one payload. */
    ghost predicate About(content: Payload)
      reads this
    {
      && AllAbout(log, archives, content)
      && (doubt.Some? ==> IsAbout(doubt.value.row, archives + doubt.value.adds, content))
      && (waiting.Some? && waiting.value.Some? ==> waiting.value.value == content)
    }

    /** StartAlertRun, StartImport */
    constructor (existing: Archives)
      ensures Valid() && Settled() && log == [STARTED] && archives == existing
      ensures forall content :: About(content)
    {
      row, archives, doubt, waiting, log := STARTED, existing, None, None, [STARTED];
    }

    /** The log grows, archives stay, and what a payload is about stays so. */
    twostate predicate Grows()
      reads this
    {
      && old(log) <= log && ArchivesKept(old(archives), archives)
      && forall content :: old(About(content)) ==> About(content)
    }

    /** Nothing was written, and nothing was decided. */
    twostate predicate AsBefore()
      reads this
    {
      row == old(row) && log == old(log) && doubt == old(doubt)
    }

    /** An undecided commit is decided by the server. */
    method Decide()
      requires Valid()
      modifies this`row, this`archives, this`doubt, this`log
      ensures Valid() && doubt.None? && Grows()
      ensures old(doubt).None? ==> row == old(row) && log == old(log) && archives == old(archives)
      ensures old(doubt).Some? ==>
        || (row == old(row) && log == old(log) && archives == old(archives))
        || (row == old(doubt).value.row && log == old(log) + [row] && archives == old(archives) + old(doubt).value.adds)
    {
      if doubt.Some? {
        if * {
          row, archives, log := doubt.value.row, archives + doubt.value.adds, log + [doubt.value.row];
        }
        doubt := None;
      }
    }

    /** Nothing has marked the attempt failed, and nothing under way will. */
    predicate NotFailing()
      reads this
    {
      row.status != Failed && waiting.None? && (doubt.Some? ==> doubt.value.row.status != Failed)
    }

    /** Nothing has completed the attempt, and nothing under way will. */
    predicate NotCompleting()
      reads this
    {
      && row.status != Succeeded && row.status != Skipped
      && (doubt.Some? ==> doubt.value.row.status != Succeeded && doubt.value.row.status != Skipped)
    }

    /** Other attempts archive under other keys. */
    method Others()
      requires Valid()
      modifies this`archives
      ensures Valid() && Grows()
    {
      var more: Archives := *;
      if more.Keys !! archives.Keys && (doubt.Some? ==> more.Keys !! doubt.value.adds.Keys) {
        forall content | About(content) ensures AllAbout(log, archives + more, content) {
          AboutKept(log, archives, more, content);
        }
        archives := archives + more;
      }
    }

    /** A failing update that went unreported runs late, or not at all. */
    method RunWaiting()
      requires Valid() && doubt.None?
      modifies this`row, this`log, this`waiting
      ensures Valid() && Grows()
      ensures old(waiting).None? ==> waiting.None? && row == old(row) && log == old(log)
      ensures old(NotCompleting()) ==> NotCompleting()
    {
      if waiting.Some? {
        if row.status == Running {
          if * {
            forall content | About(content)
              ensures AllAbout(log + [MarkedFailed(row, waiting.value)], archives, content)
            {
              AboutFailed(log, archives, waiting.value, content);
            }
            row := MarkedFailed(row, waiting.value);
            log := log + [row];
          }
        }
        if * { waiting := None; }
      }
    }

    /** Anything the server, and other attempts, may do between two steps of this one. */
    method Environment()
      requires Valid()
      modifies this
      ensures Valid() && Grows()
      ensures (old(NotFailing()) ==> NotFailing()) && (old(NotCompleting()) ==> NotCompleting())
      ensures old(Settled()) ==> Settled() && row == old(row) && log == old(log)
      ensures doubt.Some? ==> doubt == old(doubt) && row == old(row)
      ensures old(doubt).Some? && old(waiting).None? ==> row == old(row) || row == old(doubt).value.row
    {
      Others();
      if * { Decide(); }
      if doubt.None? { RunWaiting(); }
    }

    /** Commits a transaction that holds the row lock. */
    method Commit(tx: Transaction, outcome: CommitOutcome) returns (reported: bool)
      requires Valid() && doubt.None?
      requires Legal(row, tx.row) && tx.adds.Keys !! archives.Keys && LinkExists(tx.row, archives + tx.adds)
      modifies this
      ensures Valid() && waiting == old(waiting) && old(log) <= log && ArchivesKept(old(archives), archives)
      ensures forall content ::
        old(About(content)) && old(IsAbout(tx.row, archives + tx.adds, content)) ==> About(content)
      ensures reported <==> outcome == Confirmed
      ensures outcome == Confirmed || outcome == AppliedUnreported ==>
        doubt.None? && row == tx.row && archives == old(archives) + tx.adds && log == old(log) + [tx.row]
      ensures outcome == RolledBack || outcome == Undecided ==>
        && row == old(row) && archives == old(archives) && log == old(log)
        && doubt == if outcome == Undecided then Some(tx) else None
    {
      match outcome {
        case Confirmed | AppliedUnreported =>
          row, archives, log := tx.row, archives + tx.adds, log + [tx.row];
        case Undecided => doubt := Some(tx);
        case RolledBack =>
      }
      reported := outcome == Confirmed;
    }

    /** A plain read sees the committed row, also while a commit is undecided; it may go unanswered. */
    method Read(answered: bool) returns (r: Option<Attempt>)
      requires Valid()
      modifies this
      ensures Valid() && Grows()
      ensures (old(NotFailing()) ==> NotFailing()) && (old(NotCompleting()) ==> NotCompleting())
      ensures r == if answered then Some(row) else None
      ensures doubt.Some? ==> doubt == old(doubt) && row == old(row)
      ensures old(Settled()) ==> Settled() && row == old(row)
      ensures old(doubt).Some? && old(waiting).None? ==> row == old(row) || row == old(doubt).value.row
    {
      Environment();
      r := if answered then Some(row) else None;
    }

    /** Whether the archive's record of the object, where it has one, is of this very object. */
    predicate Agrees(stored: StoredObject)
      reads this
    {
      stored.at in archives ==> archives[stored.at] == ArchiveRow(stored.content, stored.version)
    }

    predicate AwaitsArchive()
      reads this
    {
      row.status == Running && row.archive == ArchivePending
    }

    /** Whether the attempt is seen linked to the very object. */
    predicate SeenArchived(a: Attempt, stored: StoredObject)
      reads this
    {
      a.archive == Archived && a.linked == Some(stored.at) && stored.at in archives && Agrees(stored)
    }

    /** The upsert and the link of recordArchive, up to its commit. None: nothing may be written. */
    method PrepareArchive(stored: StoredObject) returns (tx: Option<Transaction>)
      requires Valid() && doubt.None?
      ensures tx.Some? <==> Agrees(stored) && row.status == Running && row.archive == ArchivePending
      ensures tx.Some? ==>
        && tx.value.row == Linked(row, stored) && tx.value.adds.Keys !! archives.Keys
        && stored.at in archives + tx.value.adds
        && (archives + tx.value.adds)[stored.at] == ArchiveRow(stored.content, stored.version)
    {
      var entry := ArchiveRow(stored.content, stored.version);
      if stored.at in archives && archives[stored.at] != entry { return None; }
      if row.status != Running || row.archive != ArchivePending { return None; }
      tx := Some(Transaction(Linked(row, stored), if stored.at in archives then map[] else map[stored.at := entry]));
    }

    /** The commit of a link, and resolveArchiveCommit where it goes unreported. */
    method CommitLink(tx: Transaction, stored: StoredObject, answers: Answers) returns (r: Outcome)
      requires Valid() && doubt.None? && row.status == Running && row.archive == ArchivePending
      requires tx.row == Linked(row, stored) && tx.adds.Keys !! archives.Keys && stored.at in archives + tx.adds
      requires (archives + tx.adds)[stored.at] == ArchiveRow(stored.content, stored.version)
      modifies this
      ensures Valid() && old(log) <= log && ArchivesKept(old(archives), archives)
      ensures old(About(stored.content)) ==> About(stored.content)
      ensures (old(NotFailing()) ==> NotFailing()) && (old(NotCompleting()) ==> NotCompleting())
      ensures r == Done ==> SeenArchived(row, stored)
      ensures r == Done && old(waiting).None? ==> Settled() && row == Linked(old(row), stored)
      ensures r == Done && old(waiting).None? ==> row.status == Running && row.created == stored.created
      ensures old(waiting).None? ==> Foreseen(answers).None? || r == Foreseen(answers).value
    {
      assert row in log;
      var reported := Commit(tx, answers.commit);
      if reported { return Done; }
      var seen := Read(answers.status);
      if seen.None? { return Unknown; }
      r := if SeenArchived(seen.value, stored) then Done else Rejected;
    }

    /** recordArchive: links the attempt to its archived payload. A repeated call for the same object changes
        nothing. If the commit is not reported, the row tells what became of it. */
    method RecordArchive(stored: StoredObject, usable: bool, answers: Answers) returns (r: Outcome)
      requires Valid()
      modifies this
      ensures Valid() && old(log) <= log && ArchivesKept(old(archives), archives)
      ensures old(About(stored.content)) ==> About(stored.content)
      ensures (old(NotFailing()) ==> NotFailing()) && (old(NotCompleting()) ==> NotCompleting())
      ensures r == Done ==>
        && row.archive == Archived && row.linked == Some(stored.at)
        && stored.at in archives && archives[stored.at] == ArchiveRow(stored.content, stored.version)
      ensures r == Done && old(Settled()) ==> Settled() && (row == old(row) || row == Linked(old(row), stored))
      ensures r == Done && old(Settled()) && old(AwaitsArchive()) ==>
        row.status == Running && row.created == stored.created
      ensures !usable || !answers.statements ==> r == Rejected && AsBefore()
      ensures old(Settled()) && old(AwaitsArchive()) && usable && answers.statements ==>
        if old(Agrees(stored)) then Foreseen(answers).None? || r == Foreseen(answers).value
        else r == Rejected && Settled() && row == old(row)
    {
      if !usable || !answers.statements { return Rejected; }
      Decide();
      var tx := PrepareArchive(stored);
      if tx.Some? {
        r := CommitLink(tx.value, stored, answers);
        return;
      }
      if !SeenArchived(row, stored) { return Rejected; }
      if answers.commit == Confirmed { return Done; }
      var seen := Read(answers.status);
      if seen.None? { return Unknown; }
      r := if SeenArchived(seen.value, stored) then Done else Rejected;
    }

    /** The transaction of CompleteAlertRun, SkipIfImported or CompleteImport, and commitRun or commitGTFS. */
    method Complete(payload: Payload, verdict: Verdict, answers: Answers) returns (r: Outcome)
      requires Valid()
      modifies this
      ensures Valid() && old(log) <= log && ArchivesKept(old(archives), archives)
      ensures old(About(payload)) ==> About(payload)
      ensures old(NotFailing()) ==> NotFailing()
      ensures r == Done && old(Settled()) ==>
        Settled() && !verdict.Refuses? && row == Completed(old(row), payload, verdict)
      ensures r == Done && old(Settled()) ==> RecordsVerdict(row, payload, verdict) && LinkKept(row, old(row))
      ensures verdict.Refuses? || !answers.statements ==> r == Rejected && AsBefore()
      ensures r == Rejected && old(Settled()) && old(NotCompleting()) && answers.commit != Undecided ==> NotCompleting()
      ensures old(Settled()) && !verdict.Refuses? && answers.statements ==>
        if old(row).status == Running && old(row).archive == Archived
        then Foreseen(answers).None? || r == Foreseen(answers).value
        else r == Rejected && Settled() && row == old(row)
    {
      if verdict.Refuses? || !answers.statements { return Rejected; }
      Decide();
      if row.status != Running || row.archive != Archived { return Rejected; }
      assert row in log;
      var tx := Transaction(Completed(row, payload, verdict), map[]);
      var reported := Commit(tx, answers.commit);
      if reported { return Done; }
      var seen := Read(answers.status);
      if seen.None? { return Unknown; }
      r := if seen.value.status == tx.row.status then Done else Rejected;
    }

    /** FailAlertRunWithFailure, FailImportWithFailure: waits for the row lock, then marks a running attempt. */
    method Fail(payload: Option<Payload>, outcome: FailOutcome) returns (ok: bool)
      requires Valid() && waiting.None?
      modifies this
      ensures Valid() && old(log) <= log && ArchivesKept(old(archives), archives)
      ensures forall content :: old(About(content)) && (payload.Some? ==> payload.value == content) ==> About(content)
      ensures ok ==> Settled() && row.status == Failed && row.payload == payload
      ensures outcome == Answered && old(Settled()) ==>
        && ok == (old(row).status == Running) && Settled()
        && row == if ok then MarkedFailed(old(row), payload) else old(row)
      ensures if IsSent(outcome) then row.status != Running && doubt.None? else !ok && AsBefore()
      ensures old(NotCompleting()) ==> NotCompleting()
    {
      if outcome == NotSent { return false; }
      if outcome == LeftWaiting { waiting := Some(payload); return false; }
      Decide();
      if row.status != Running { return false; }
      forall content | About(content) && (payload.Some? ==> payload.value == content)
        ensures AllAbout(log + [MarkedFailed(row, payload)], archives, content)
      {
        AboutFailed(log, archives, payload, content);
      }
      row := MarkedFailed(row, payload);
      log := log + [row];
      ok := outcome == Answered;
    }

    /** What the caller of a run may rely on. A run that reports a failure has marked its attempt failed, except that
        the attempt is still running if the failing update was not carried out, and that it is completed all the same,
        or about to be, if its completing commit was undecided when its status was read. */
    ghost predicate Concluded(r: RunResult, content: Option<Payload>, undecided: bool, failing: FailOutcome)
      reads this
    {
      && Valid()
      && (content.Some? ==> About(content.value))
      && match r
         case Finished(skipped) =>
           && Settled() && content.Some?
           && row.status == (if skipped then Skipped else Succeeded)
           && row.payload == content && row.archive == Archived && row.linked.Some?
         case OutcomeUnknown => NotFailing()
         case FailureReported =>
           && (undecided || NotCompleting())
           && (row.status == Running ==> !IsSent(failing)) && (IsSent(failing) ==> doubt.None?)
    }

    /** AlertService.fail, GTFSService.fail */
    method ReportFailure(payload: Option<Payload>, ghost content: Option<Payload>, ghost undecided: bool,
                         outcome: FailOutcome)
      returns (r: RunResult)
      requires Valid() && waiting.None? && (content.Some? ==> About(content.value))
      requires payload.Some? ==> payload == content
      requires undecided || NotCompleting()
      modifies this
      ensures Concluded(r, content, undecided, outcome) && r == FailureReported && old(log) <= log
      ensures outcome == Answered && old(Settled()) && old(row).status == Running ==>
        Settled() && row == MarkedFailed(old(row), payload)
    {
      var ok := Fail(payload, outcome);
      r := FailureReported;
    }

    /** Puts the payload's archive on record. None: the attempt is linked to it and nothing is under way. */
    method Archive(content: Payload, keyed: bool, put: Option<StoredObject>, usable: bool, answers: Answers,
                   failing: FailOutcome)
      returns (r: Option<RunResult>)
      requires Valid() && Settled() && row == STARTED && About(content)
      requires put.Some? ==> put.value.content == content
      modifies this
      ensures Valid() && About(content)
      ensures r.None? ==> Settled() && LinksTo(row, put) && row == Linked(STARTED, put.value)
      ensures r.None? ==> keyed && usable && answers.statements
      ensures r.Some? ==> !r.value.Finished? && Concluded(r.value, Some(content), false, failing)
      ensures answers == CALM && failing == Answered ==>
        && Settled()
        && if keyed && put.Some? && usable && old(Agrees(put.value)) then r.None?
           else r == Some(FailureReported) && row == MarkedFailed(STARTED, Some(content))
    {
      if !keyed || put.None? {
        var failed := ReportFailure(Some(content), Some(content), false, failing);
        return Some(failed);
      }
      var outcome := RecordArchive(put.value, usable, answers);
      match outcome {
        case Unknown => return Some(OutcomeUnknown);
        case Rejected =>
          var failed := ReportFailure(Some(content), Some(content), false, failing);
          return Some(failed);
        case Done =>
      }
      Environment();
      r := None;
    }

    /** Completes the attempt, or reports why not. */
    method Persist(content: Payload, verdict: Verdict, answers: Answers, failing: FailOutcome) returns (r: RunResult)
      requires Valid() && Settled() && About(content)
      requires row.status == Running && row.archive == Archived && row.linked.Some?
      modifies this
      ensures Concluded(r, Some(content), answers.commit == Undecided, failing)
      ensures r.Finished? ==>
        r == Finished(verdict.Skips?) && RecordsVerdict(row, content, verdict) && LinkKept(row, old(row))
      ensures answers == CALM && failing == Answered ==>
        && Settled()
        && r == (if verdict.Refuses? then FailureReported else Finished(verdict.Skips?))
        && row == if verdict.Refuses? then MarkedFailed(old(row), Some(content))
                  else Completed(old(row), content, verdict)
    {
      var outcome := Complete(content, verdict, answers);
      match outcome {
        case Unknown => return OutcomeUnknown;
        case Rejected => r := ReportFailure(Some(content), Some(content), answers.commit == Undecided, failing);
        case Done => return Finished(verdict.Skips?);
      }
    }

    /** AlertService.Run, after StartAlertRun: fetch, archive, decode, reconcile. The parameters say how the steps
        outside the database turn out, and how the database answers; `put` is a successful Put, which holds
        exactly the body. */
    method RunAlerts(body: Option<seq<Byte>>, keyed: bool, put: Option<StoredObject>, usable: bool, decodes: bool,
                     verdict: Verdict, archiving: Answers, completing: Answers, failing: FailOutcome)
      returns (r: RunResult)
      requires Valid() && Settled() && log == [STARTED]
      requires body.Some? && put.Some? ==> put.value.content == PayloadOf(body.value)
      modifies this
      ensures Concluded(r, ContentOf(body), completing.commit == Undecided, failing)
      ensures r.Finished? ==> body.Some? && keyed && usable && decodes && LinksTo(row, put)
      ensures r.Finished? ==>
        r == Finished(verdict.Skips?) && RecordsVerdict(row, PayloadOf(body.value), verdict)
      ensures archiving == completing == CALM && failing == Answered ==>
        Settled() && (r, row) == CalmRun(ContentOf(body), keyed, put, usable && (put.Some? ==> old(Agrees(put.value))),
          decodes, verdict)
    {
      if body.None? {
        r := ReportFailure(None, None, false, failing);
        return;
      }
      var content := PayloadOf(body.value);
      var early := Archive(content, keyed, put, usable, archiving, failing);
      if early.Some? { return early.value; }
      if !decodes {
        r := ReportFailure(Some(content), Some(content), false, failing);
        return;
      }
      r := Persist(content, verdict, completing, failing);
    }

    /** GTFSService.Run, after StartImport. The network is looked at twice: `before` parsing, where None means
        no reason to skip, and again when the parsed dataset is installed. */
    method RunImport(download: Option<Payload>, keyed: bool, put: Option<StoredObject>, usable: bool,
                     before: Option<Verdict>, parses: bool, verdict: Verdict,
                     archiving: Answers, checking: Answers, completing: Answers, failing: FailOutcome)
      returns (r: RunResult)
      requires Valid() && Settled() && log == [STARTED]
      requires download.Some? && put.Some? ==> put.value.content == download.value
      requires before.Some? ==> !before.value.Succeeds?
      modifies this
      ensures Concluded(r, download, (if before.Some? then checking else completing).commit == Undecided, failing)
      ensures r.Finished? ==> download.Some? && keyed && usable && (before.Some? || parses) && LinksTo(row, put)
      ensures r.Finished? ==> var made := if before.Some? then before.value else verdict;
        r == Finished(made.Skips?) && RecordsVerdict(row, download.value, made)
      ensures archiving == checking == completing == CALM && failing == Answered ==>
        Settled() && (r, row) == CalmRun(download, keyed, put, usable && (put.Some? ==> old(Agrees(put.value))),
          before.Some? || parses, if before.Some? then before.value else verdict)
    {
      if download.None? {
        r := ReportFailure(None, None, false, failing);
        return;
      }
      var early := Archive(download.value, keyed, put, usable, archiving, failing);
      if early.Some? { return early.value; }
      if before.Some? {
        r := Persist(download.value, before.value, checking, failing);
        return;
      }
      if !parses {
        r := ReportFailure(Some(download.value), Some(download.value), false, failing);
        return;
      }
      r := Persist(download.value, verdict, completing, failing);
    }
  }

  function ContentOf(body: Option<seq<Byte>>): Option<Payload> {
    if body.Some? then Some(PayloadOf(body.value)) else None
  }

  /** A run whose database answers everything: its result and the final attempt. A payload is interpreted only once
      it is archived and the attempt is linked to it, and a later failure keeps the link. */
  function CalmRun(content: Option<Payload>, keyed: bool, put: Option<StoredObject>, recorded: bool, interpreted: bool,
                   verdict: Verdict): (RunResult, Attempt) {
    if content.None? then (FailureReported, MarkedFailed(STARTED, None))
    else if !keyed || put.None? || !recorded then (FailureReported, MarkedFailed(STARTED, content))
    else if !interpreted || verdict.Refuses? then (FailureReported, MarkedFailed(Linked(STARTED, put.value), content))
    else (Finished(verdict.Skips?), Completed(Linked(STARTED, put.value), content.value, verdict))
  }
}
