/** AlertService.Run (internal/ingest/alerts.go) over the reconciled tables, with the steps of other attempts in
    between: what a reported success says about the tables. */
module AlertIngestion {
  import opened Common
  import opened AlertContent
  import opened AlertHistory
  import opened AlertReconciliation
  import opened AlertTables

  datatype Fetched = Fetched(body: seq<Byte>, retrievedAt: Time)

  // ---- Steps of other attempts ----

  /** The step is another attempt's. */
  predicate IsForeign(step: Step, mine: int) {
    match step
    case Start(_) => true
    case Settle(_) => true
    case _ => step.run != mine
  }

  predicate NotMine(doubt: Option<Transaction>, mine: int) {
    doubt.Some? ==> doubt.value.id != mine
  }

  /** The others go on, and leave attempt `mine` alone. */
  method TakeOthers(repository: AlertRepository, steps: seq<Step>, mine: int)
    requires repository.Valid() && mine in repository.runs && NotMine(repository.doubt, mine)
    modifies repository
    ensures repository.Valid() && NotMine(repository.doubt, mine)
    ensures mine in repository.runs && repository.runs[mine] == old(repository.runs)[mine]
  {
    ghost var decode: seq<Byte> -> FeedSummary := bytes => FeedSummary(false, None, []);
    for i := 0 to |steps|
      invariant repository.Valid() && NotMine(repository.doubt, mine)
      invariant mine in repository.runs && repository.runs[mine] == old(repository.runs)[mine]
    {
      if IsForeign(steps[i], mine) { TakeStep(repository, steps[i], decode); }
    }
  }

  // ---- One run ----

  /** From its observation on, the tables of the source show exactly the feed. */
  ghost predicate ShowsFeed(alerts: map<AlertKey, AlertRow>, source: string, feed: Applied) {
    forall entity, hash, t :: t >= feed.observedAt ==>
      (Shows(alerts, source, entity, hash, t) <==> entity in feed.content && feed.content[entity].hash == hash)
  }

  lemma {:induction false} LastFeedUpTo(history: History, t: Time)
    requires history != [] && history[|history| - 1].observedAt <= t
    ensures FeedsUpTo(history, t) == |history|
  {
  }

  lemma LastFeedShows(alerts: map<AlertKey, AlertRow>, histories: map<string, History>, source: string, feed: Applied)
    requires Replayed(alerts, histories) && Ordered(HistoryOf(histories, source))
    requires var history := HistoryOf(histories, source); history != [] && history[|history| - 1] == feed
    ensures ShowsFeed(alerts, source, feed)
  {
    var history := HistoryOf(histories, source);
    forall entity, hash, t | t >= feed.observedAt
      ensures Shows(alerts, source, entity, hash, t) <==> entity in feed.content && feed.content[entity].hash == hash
    {
      TablesAsOf(alerts, histories, source, t);
      LastFeedUpTo(history, t);
    }
  }

  lemma AppliedShows(repository: AlertRepository, source: string, before: History, feed: Applied)
    requires repository.Valid() && HistoryOf(repository.histories, source) == before + [feed]
    ensures ShowsFeed(repository.alerts, source, feed)
  {
    assert RunsMatch(repository.runs, HistoryOf(repository.histories, source), source);
    LastFeedShows(repository.alerts, repository.histories, source, feed);
  }

  /** What the result of a run says about its attempt and the tables. */
  ghost predicate Tells(r: RunResult, repository: AlertRepository, id: int, source: string, fetched: Option<Fetched>,
                        summary: Option<FeedSummary>, undecided: bool, sent: bool)
    reads repository
  {
    && id in repository.runs && repository.runs[id].source == source
    && var status := repository.runs[id].status;
       match r
       case Finished(skipped) =>
         && fetched.Some? && summary.Some? && NotMine(repository.doubt, id)
         && repository.runs[id].archive == Archived
         && repository.runs[id].payload == Some(Sha256(fetched.value.body))
         && if skipped then status == Skipped
            else
              && status == Succeeded && ObservationTime(summary.value.timestamp, fetched.value.retrievedAt).Some?
              && ShowsFeed(repository.alerts, source,
                           Again(id, fetched.value.body, fetched.value.retrievedAt, summary.value))
       case OutcomeUnknown => status != Failed
       case FailureReported =>
         && (status == Succeeded || status == Skipped ==> undecided)
         && (status == Running ==> !sent)
  }

  /** AlertService.fail: the update waits for the lock of the run, so an undecided commit is decided first. */
  method ReportFailure(repository: AlertRepository, id: int, fetch: Option<(Time, seq<Byte>)>, sent: bool,
                       decided: bool)
    requires repository.Valid() && id in repository.runs
    modifies repository
    ensures repository.Valid() && id in repository.runs
    ensures repository.runs[id].source == old(repository.runs)[id].source
    ensures sent && old(repository.runs)[id].status == Running && old(NotMine(repository.doubt, id)) ==>
              repository.runs[id] == MarkedFailed(old(repository.runs)[id], fetch)
    ensures sent ==> repository.runs[id].status != Running
    ensures repository.runs[id].status == Succeeded || repository.runs[id].status == Skipped ==>
              old(repository.runs)[id].status != Running || !old(NotMine(repository.doubt, id))
  {
    if !sent { return; }
    if !NotMine(repository.doubt, id) { repository.Decide(decided); }
    var ok := repository.FailAlertRun(id, fetch);
  }

  /** One attempt from start to end, with anything the others do between its steps. `archiving` is what becomes of
      archiving the payload and linking it to the attempt, `linked` whether a link that was not reported was made all
      the same, and `decided` how the server decides an undecided commit of others and of this run. A successful
      result means that the run is durably skipped, or that the tables show exactly its feed; an unknown outcome is
      not marked failed; and a reported failure of a run that took effect all the same is possible only through an
      undecided commit. */
  method Run(repository: AlertRepository, source: string, fetched: Option<Fetched>, archiving: Outcome,
             linked: bool, summary: Option<FeedSummary>, answers: Answers, sent: bool, decided: (bool, bool),
             others: (seq<Step>, seq<Step>))
    returns (r: RunResult, id: int)
    requires repository.Valid()
    modifies repository
    ensures repository.Valid() && id !in old(repository.runs)
    ensures Tells(r, repository, id, source, fetched, summary, answers.commit == Undecided, sent)
    ensures fetched.Some? && archiving == Unknown ==> r == OutcomeUnknown
    ensures fetched.None? || archiving == Rejected || (archiving == Done && summary.None?) ==>
              r == FailureReported && (sent ==> repository.runs[id].status == Failed)
  {
    id := repository.StartAlertRun(source);
    TakeOthers(repository, others.0, id);
    if fetched.None? {
      ReportFailure(repository, id, None, sent, decided.1);
      return FailureReported, id;
    }
    var fetch := Some((fetched.value.retrievedAt, fetched.value.body));
    if archiving == Done || linked { var ok := repository.LinkArchive(id); }
    if archiving == Unknown { return OutcomeUnknown, id; }
    if archiving == Rejected {
      ReportFailure(repository, id, fetch, sent, decided.1);
      return FailureReported, id;
    }
    TakeOthers(repository, others.1, id);
    if summary.None? {
      ReportFailure(repository, id, fetch, sent, decided.1);
      return FailureReported, id;
    }
    repository.Decide(decided.0);
    r := Reconcile(repository, id, source, fetched.value, summary.value, answers, sent, decided.1);
  }

  function ResultOf(verdict: Verdict, answers: Answers): RunResult {
    if verdict.Refused? || !answers.statements then FailureReported
    else match Learned(answers)
      case Done => Finished(verdict.SkipAs?)
      case Rejected => FailureReported
      case Unknown => OutcomeUnknown
  }

  /** The reconciliation of a run, once the advisory lock is free, and what is made of its outcome. */
  method Reconcile(repository: AlertRepository, id: int, source: string, fetched: Fetched, summary: FeedSummary,
                   answers: Answers, sent: bool, decided: bool)
    returns (r: RunResult)
    requires repository.Valid() && repository.doubt.None?
    requires id in repository.runs && repository.runs[id].source == source
    requires repository.runs[id].status == Running && repository.runs[id].archive == Archived
    modifies repository
    ensures repository.Valid()
    ensures Tells(r, repository, id, source, Some(fetched), Some(summary), answers.commit == Undecided, sent)
    ensures r == ResultOf(Judge(old(repository.runs), old(repository.histories), id, fetched.body, fetched.retrievedAt,
                                summary), answers)
  {
    ghost var before := HistoryOf(repository.histories, source);
    var outcome, skipped :=
      repository.CompleteAlertRun(id, fetched.body, fetched.retrievedAt, summary, answers);
    match outcome {
      case Unknown => return OutcomeUnknown;
      case Rejected =>
        ReportFailure(repository, id, Some((fetched.retrievedAt, fetched.body)), sent, decided);
        return FailureReported;
      case Done =>
    }
    if !skipped {
      AppliedShows(repository, source, before, Again(id, fetched.body, fetched.retrievedAt, summary));
    }
    return Finished(skipped);
  }
}
