/** Write-once archiving in a directory (internal/storage/local.go): any number of Puts on one key, interleaved
    step by step. A Put fills a private temporary file, checks it, and publishes it with a hard link, which
    fails where the name is taken. Puts may stop anywhere; nobody removes published files. */
module ArchiveLocal {
  import opened Common

  datatype Reason = ContentDiffers | NotConfirmed

  datatype Report = Success(created: bool) | Failure(reason: Reason)

  datatype Phase =
    | Checking
    | Creating
    | Filling(temporary: seq<Byte>)
    | Closed(temporary: seq<Byte>)
    | Rechecking
    | Published
    | Reported(report: Report)

  datatype Put = Put(request: Payload, phase: Phase)

  /** The file under the key, the Puts, and the Put that published it. */
  datatype Directory = Directory(file: Option<seq<Byte>>, puts: seq<Put>, creator: Option<nat>)

  /** `ok` tells whether the system calls of a step succeed. */
  datatype Event =
    | Begin(request: Payload)
    | Check(p: nat, ok: bool)
    | CreateTemporary(p: nat, ok: bool)
    | Copy(p: nat, chunk: seq<Byte>, ok: bool)
    | Finish(p: nat, ok: bool)
    | Link(p: nat, ok: bool)
    | CleanUp(p: nat, ok: bool)

  /** A link succeeds only where there is no file. */
  predicate Enabled(d: Directory, e: Event) {
    match e
    case Begin(_) => true
    case Check(p, _) => p < |d.puts| && (d.puts[p].phase.Checking? || d.puts[p].phase.Rechecking?)
    case CreateTemporary(p, _) => p < |d.puts| && d.puts[p].phase.Creating?
    case Copy(p, _, _) => p < |d.puts| && d.puts[p].phase.Filling?
    case Finish(p, _) => p < |d.puts| && d.puts[p].phase.Filling?
    case Link(p, ok) => p < |d.puts| && d.puts[p].phase.Closed? && (ok ==> d.file.None?)
    case CleanUp(p, _) => p < |d.puts| && d.puts[p].phase.Published?
  }

  /** verifyExisting; without a file the first check goes on to create one, the second gives up. */
  function AfterCheck(file: Option<seq<Byte>>, ok: bool, request: Payload, first: bool): Phase {
    if !ok then Reported(Failure(NotConfirmed))
    else if file.None? then (if first then Creating else Reported(Failure(NotConfirmed)))
    else if |file.value| != request.bytes || Sha256(file.value) != request.hash then Reported(Failure(ContentDiffers))
    else Reported(Success(false))
  }

  function AfterFinish(temporary: seq<Byte>, ok: bool, request: Payload): Phase {
    if |temporary| != request.bytes || Sha256(temporary) != request.hash then Reported(Failure(ContentDiffers))
    else if ok then Closed(temporary) else Reported(Failure(NotConfirmed))
  }

  function Moved(d: Directory, p: nat, phase: Phase): Directory
    requires p < |d.puts|
  {
    d.(puts := d.puts[p := d.puts[p].(phase := phase)])
  }

  function Next(d: Directory, e: Event): Directory
    requires Enabled(d, e)
  {
    match e
    case Begin(request) => d.(puts := d.puts + [Put(request, Checking)])
    case Check(p, ok) => Moved(d, p, AfterCheck(d.file, ok, d.puts[p].request, d.puts[p].phase.Checking?))
    case CreateTemporary(p, ok) => Moved(d, p, if ok then Filling([]) else Reported(Failure(NotConfirmed)))
    case Copy(p, chunk, ok) =>
      Moved(d, p, if ok then Filling(d.puts[p].phase.temporary + chunk) else Reported(Failure(NotConfirmed)))
    case Finish(p, ok) => Moved(d, p, AfterFinish(d.puts[p].phase.temporary, ok, d.puts[p].request))
    case Link(p, ok) =>
      if ok then Moved(d, p, Published).(file := Some(d.puts[p].phase.temporary), creator := Some(p))
      else Moved(d, p, Rechecking)
    case CleanUp(p, ok) => Moved(d, p, Reported(if ok then Success(true) else Failure(NotConfirmed)))
  }

  // ---- What every run keeps ----

  predicate Succeeded(put: Put) {
    put.phase.Reported? && put.phase.report.Success?
  }

  predicate Holds(d: Directory, request: Payload) {
    d.file.Some? && PayloadOf(d.file.value) == request
  }

  predicate PutHolds(d: Directory, p: nat)
    requires p < |d.puts|
  {
    var put := d.puts[p];
    && (Succeeded(put) ==> Holds(d, put.request))
    && (put.phase.Published? || put.phase == Reported(Success(true)) ==> d.creator == Some(p))
    && (put.phase.Closed? ==> PayloadOf(put.phase.temporary) == put.request)
  }

  /** A file this code published was complete and as announced when it appeared under its name. */
  ghost predicate Invariant(d: Directory) {
    && (d.creator.Some? ==> d.creator.value < |d.puts| && Holds(d, d.puts[d.creator.value].request))
    && forall p :: 0 <= p < |d.puts| ==> PutHolds(d, p)
  }

  lemma NextKeepsInvariant(d: Directory, e: Event)
    requires Invariant(d) && Enabled(d, e)
    ensures Invariant(Next(d, e))
    ensures d.file.Some? ==> Next(d, e).file == d.file && Next(d, e).creator == d.creator
  {
    var d' := Next(d, e);
    if e.Link? { assert PutHolds(d, e.p); }
    forall p | 0 <= p < |d'.puts| ensures PutHolds(d', p) {
      if p < |d.puts| { assert PutHolds(d, p); }
    }
  }

  ghost predicate Possible(d: Directory, events: seq<Event>)
    decreases |events|
  {
    events == [] || (Enabled(d, events[0]) && Possible(Next(d, events[0]), events[1..]))
  }

  function After(d: Directory, events: seq<Event>): Directory
    requires Possible(d, events)
    decreases |events|
  {
    if events == [] then d else After(Next(d, events[0]), events[1..])
  }

  /** Under any interleaving of any Puts a published file never changes and the invariant holds. */
  lemma {:induction false} WriteOnce(d: Directory, events: seq<Event>)
    requires Invariant(d) && Possible(d, events)
    ensures Invariant(After(d, events))
    ensures d.file.Some? ==> After(d, events).file == d.file
    decreases |events|
  {
    if events != [] {
      NextKeepsInvariant(d, events[0]);
      WriteOnce(Next(d, events[0]), events[1..]);
    }
  }

  /** Two Puts of different content never both succeed, and at most one reports to have created the file. */
  lemma SuccessesAgree(d: Directory, p: nat, q: nat)
    requires Invariant(d) && p < |d.puts| && q < |d.puts|
    ensures Succeeded(d.puts[p]) && Succeeded(d.puts[q]) ==> d.puts[p].request == d.puts[q].request
    ensures d.puts[p].phase == d.puts[q].phase == Reported(Success(true)) ==> p == q
  {
    assert PutHolds(d, p) && PutHolds(d, q);
  }

  // ---- Put, step by step ----

  /** A step of another Put. */
  predicate Foreign(e: Event, me: nat) {
    e.Begin? || e.p != me
  }

  lemma ForeignKeepsPut(d: Directory, e: Event, me: nat)
    requires Enabled(d, e) && Foreign(e, me) && me < |d.puts|
    ensures me < |d.puts| <= |Next(d, e).puts| && Next(d, e).puts[me] == d.puts[me]
  {
  }

  class LocalStore {
    var directory: Directory

    ghost predicate Valid()
      reads this
    {
      Invariant(directory)
    }

    constructor (existing: Option<seq<Byte>>)
      ensures Valid() && directory == Directory(existing, [], None)
    {
      directory := Directory(existing, [], None);
    }

    /** A published file never changes. */
    twostate predicate FileKept()
      reads this
    {
      old(directory.file).Some? ==> directory.file == old(directory.file)
    }

    /** Any number of steps of other Puts. */
    method Environment(me: nat)
      requires Valid() && me < |directory.puts|
      modifies this
      ensures Valid() && me < |directory.puts| && directory.puts[me] == old(directory.puts[me]) && FileKept()
    {
      var steps :| 0 <= steps;
      for i := 0 to steps
        invariant Valid() && me < |directory.puts| && directory.puts[me] == old(directory.puts[me]) && FileKept()
      {
        assert Enabled(directory, Begin(PayloadOf([]))) && Foreign(Begin(PayloadOf([])), me);
        var e :| Enabled(directory, e) && Foreign(e, me);
        NextKeepsInvariant(directory, e);
        ForeignKeepsPut(directory, e, me);
        directory := Next(directory, e);
      }
    }

    /** One step of Put `me`, between steps of the others. */
    method Step(me: nat, e: Event)
      requires Valid() && !e.Begin? && e.p == me && Enabled(directory, e) && !e.Link?
      modifies this
      ensures Valid() && me < |directory.puts|
      ensures directory.puts[me] == old(Next(directory, e).puts[me]) && FileKept()
    {
      NextKeepsInvariant(directory, e);
      directory := Next(directory, e);
      Environment(me);
    }

    /** The hard link: it may fail for any reason, and must where the name is taken. */
    method Publish(me: nat, smooth: bool) returns (ok: bool)
      requires Valid() && me < |directory.puts| && directory.puts[me].phase.Closed?
      modifies this
      ensures Valid() && me < |directory.puts| && directory.puts[me].request == old(directory.puts[me].request)
      ensures directory.puts[me].phase == if ok then Published else Rechecking
      ensures smooth || ok ==> directory.file.Some?
      ensures FileKept()
    {
      ok := *;
      ok := ok || smooth;
      if directory.file.Some? { ok := false; }
      NextKeepsInvariant(directory, Link(me, ok));
      directory := Next(directory, Link(me, ok));
      Environment(me);
    }

    /** What comparing the file with a request comes to. */
    function Compared(request: Payload): Report
      reads this
    {
      if Holds(directory, request) then Success(false) else Failure(ContentDiffers)
    }

    /** There is a file, and the report tells whether it is the requested one. */
    predicate Decided(report: Report, request: Payload)
      reads this
    {
      && directory.file.Some?
      && (report.Success? <==> Holds(directory, request)) && (report.Failure? ==> report.reason == ContentDiffers)
    }

    /** verifyExisting. None: there is no file. */
    method VerifyExisting(me: nat, request: Payload, smooth: bool) returns (report: Option<Report>)
      requires Valid() && me < |directory.puts| && directory.puts[me].request == request
      requires directory.puts[me].phase.Checking? || directory.puts[me].phase.Rechecking?
      modifies this
      ensures Valid() && me < |directory.puts| && directory.puts[me].request == request
      ensures report.Some? ==> directory.puts[me].phase == Reported(report.value) && report.value != Success(true)
      ensures report.None? && old(directory.puts[me].phase.Checking?) ==> directory.puts[me].phase == Creating
      ensures report.None? && old(directory.puts[me].phase.Rechecking?) ==>
                directory.puts[me].phase == Reported(Failure(NotConfirmed))
      ensures FileKept()
      ensures smooth && report.Some? ==> directory.file.Some? && report.value == Compared(request)
      ensures smooth && old(directory.file).Some? ==> report.Some?
    {
      var ok: bool := *;
      ok := ok || smooth;
      var file := directory.file;
      Step(me, Check(me, ok));
      if !ok { return Some(Failure(NotConfirmed)); }
      if file.None? { return None; }
      if |file.value| != request.bytes { return Some(Failure(ContentDiffers)); }
      if Sha256(file.value) != request.hash { return Some(Failure(ContentDiffers)); }
      report := Some(Success(false));
    }

    /** Copies the source into the temporary file, chunk by chunk. */
    method Fill(me: nat, source: seq<Byte>, request: Payload, smooth: bool) returns (ok: bool)
      requires Valid() && me < |directory.puts| && directory.puts[me].request == request
      requires directory.puts[me].phase == Filling([])
      modifies this
      ensures Valid() && me < |directory.puts| && directory.puts[me].request == request
      ensures directory.puts[me].phase == if ok then Filling(source) else Reported(Failure(NotConfirmed))
      ensures smooth ==> ok
    {
      var copied: nat := 0;
      ok := true;
      while copied < |source|
        invariant Valid() && me < |directory.puts| && directory.puts[me].request == request
        invariant ok && copied <= |source| && directory.puts[me].phase == Filling(source[..copied])
      {
        var end :| copied < end <= |source|;
        ok := *;
        ok := ok || smooth;
        assert source[..copied] + source[copied..end] == source[..end];
        Step(me, Copy(me, source[copied..end], ok));
        if !ok { return; }
        copied := end;
      }
      assert source[..copied] == source;
    }

    /** Put: success means that the file under the key holds exactly the requested content, published by this
        Put if it says so. If every system call goes through (`smooth`), it succeeds exactly when the file does. */
    method Put(source: seq<Byte>, request: Payload, smooth: bool) returns (report: Report)
      requires Valid()
      modifies this
      ensures Valid()
      ensures report.Success? ==> Holds(directory, request)
      ensures report == Success(true) ==>
        directory.creator == Some(|old(directory.puts)|) && PayloadOf(source) == request
      ensures |old(directory.puts)| < |directory.puts|
      ensures directory.puts[|old(directory.puts)|].phase == Reported(report)
      ensures smooth && PayloadOf(source) == request ==> Decided(report, request)
      ensures smooth && old(directory.file).Some? ==> report == Compared(request)
    {
      var me := |directory.puts|;
      NextKeepsInvariant(directory, Begin(request));
      directory := Next(directory, Begin(request));
      Environment(me);
      var existing := VerifyExisting(me, request, smooth);
      assert PutHolds(directory, me);
      if existing.Some? { return existing.value; }
      var ok: bool := *;
      ok := ok || smooth;
      Step(me, CreateTemporary(me, ok));
      if !ok { return Failure(NotConfirmed); }
      ok := Fill(me, source, request, smooth);
      if !ok { return Failure(NotConfirmed); }
      report := PublishFilled(me, source, request, smooth);
    }

    /** Checks the filled temporary file and publishes it, or finds that another Put was first. */
    method PublishFilled(me: nat, source: seq<Byte>, request: Payload, smooth: bool) returns (report: Report)
      requires Valid() && me < |directory.puts| && directory.puts[me].request == request
      requires directory.puts[me].phase == Filling(source)
      modifies this
      ensures Valid() && me < |directory.puts| && directory.puts[me].phase == Reported(report)
      ensures report.Success? ==> Holds(directory, request)
      ensures report == Success(true) ==> directory.creator == Some(me) && PayloadOf(source) == request
      ensures smooth && PayloadOf(source) == request ==> Decided(report, request)
    {
      var ok: bool := *;
      ok := ok || smooth;
      Step(me, Finish(me, ok));
      if |source| != request.bytes || Sha256(source) != request.hash { return Failure(ContentDiffers); }
      if !ok { return Failure(NotConfirmed); }
      var linked := Publish(me, smooth);
      if !linked {
        var existing := VerifyExisting(me, request, smooth);
        assert PutHolds(directory, me);
        return if existing.Some? then existing.value else Failure(NotConfirmed);
      }
      ok := *;
      ok := ok || smooth;
      Step(me, CleanUp(me, ok));
      assert PutHolds(directory, me);
      report := if ok then Success(true) else Failure(NotConfirmed);
    }
  }
}
