/** Write-once archiving in S3 (internal/storage/s3.go): any number of Puts on one key, interleaved request by
    request, with requests that fail, are answered late, or arrive after their sender has given up.

    The bucket honours If-None-Match: * (section 13.1.2 of RFC 9110): a request creates the object only where
    there is none, and is refused with 412 only where there is one. It stores a body only if length and
    SHA-256 checksum are those announced. Nobody deletes objects. */
module ArchiveS3 {
  import opened Common

  // ---- Errors of a request ----

  /** What the error chain of a failed request holds. */
  datatype S3Error = S3Error(httpStatus: Option<int>, apiCode: Option<string>, connection: Option<bool>, network: bool)

  datatype ErrorClass = Definitive | Precondition | ConditionalConflict | Ambiguous

  function Classify(error: S3Error): ErrorClass {
    if error.httpStatus.Some? then
      if error.httpStatus.value == 412 then Precondition
      else if error.httpStatus.value == 409 then ConditionalConflict
      else Definitive
    else if error.apiCode.Some? then
      if error.apiCode.value == "PreconditionFailed" then Precondition
      else if error.apiCode.value == "ConditionalRequestConflict" then ConditionalConflict
      else Definitive
    else if error.connection == Some(true) || error.network then Ambiguous
    else Definitive
  }

  /** A response that refuses the conditional create because there is an object. */
  predicate SaysItExists(error: S3Error) {
    error.httpStatus == Some(412) || (error.httpStatus.None? && error.apiCode == Some("PreconditionFailed"))
  }

  /** A response that refuses because of another conditional request under way. */
  predicate SaysConflict(error: S3Error) {
    error.httpStatus == Some(409) || (error.httpStatus.None? && error.apiCode == Some("ConditionalRequestConflict"))
  }

  /** No response at all: the connection or the network failed. */
  predicate GotNoResponse(error: S3Error) {
    error.httpStatus.None? && error.apiCode.None? && (error.connection == Some(true) || error.network)
  }

  // ---- The bucket and the Puts ----

  /** An object: its bytes, the announced hash kept as metadata, and the checksum, where the store keeps one. */
  datatype Stored = Stored(body: seq<Byte>, metadata: Digest, checksum: Option<Digest>)

  const MAX_PUT_ATTEMPTS: nat := 3

  /** ErrConflict, or any error that leaves open what is stored. */
  datatype Reason = ContentDiffers | NotConfirmed

  datatype Report = Success(created: Option<bool>) | Failure(reason: Reason)

  datatype Phase =
    | Sending(attempt: nat)
    | Heading(created: Option<bool>)
    | Reading(created: Option<bool>)
    | Reported(report: Report)

  /** One Put: what it was asked to store, where it stands, how many requests it sent, and whether one of them
      may still reach the bucket. */
  datatype Put = Put(request: Payload, phase: Phase, sends: nat, late: bool)

  /** `creator` is the Put whose request made the object. */
  datatype Bucket = Bucket(current: Option<Stored>, puts: seq<Put>, creator: Option<nat>)

  datatype Event =
    | Begin(request: Payload)
    /** A create request: answered with success or an error; `applied` if it created the object. */
    | Create(p: nat, body: seq<Byte>, error: Option<S3Error>, applied: bool, checksummed: bool, staysLate: bool)
    /** A request given up earlier arrives. */
    | Arrive(p: nat, body: seq<Byte>, checksummed: bool)
    /** A HEAD request, answered or not. */
    | Head(p: nat, answered: bool)
    /** A GET request for the body, answered or not. */
    | Get(p: nat, answered: bool)
    /** The caller's context ends. */
    | Cancel(p: nat)

  predicate Accepts(body: seq<Byte>, request: Payload) {
    PayloadOf(body) == request
  }

  function Created(body: seq<Byte>, request: Payload, checksummed: bool): Stored {
    Stored(body, request.hash, if checksummed then Some(request.hash) else None)
  }

  /** What may happen next. */
  predicate Enabled(b: Bucket, e: Event) {
    match e
    case Begin(_) => true
    case Create(p, body, error, applied, _, _) =>
      && p < |b.puts| && b.puts[p].phase.Sending?
      && (applied ==> b.current.None? && Accepts(body, b.puts[p].request))
      && (error.None? ==> applied)
      && (error.Some? && SaysItExists(error.value) ==> b.current.Some?)
    case Arrive(p, body, _) =>
      p < |b.puts| && b.puts[p].late && b.current.None? && Accepts(body, b.puts[p].request)
    case Head(p, _) => p < |b.puts| && b.puts[p].phase.Heading?
    case Get(p, _) => p < |b.puts| && b.puts[p].phase.Reading?
    case Cancel(p) => p < |b.puts| && !b.puts[p].phase.Reported?
  }

  /** What a Put does after a create request. */
  function AfterCreate(attempt: nat, error: Option<S3Error>): Phase {
    if error.None? then Reported(Success(Some(true)))
    else match Classify(error.value)
      case Precondition => Heading(Some(false))
      case ConditionalConflict =>
        if attempt + 1 < MAX_PUT_ATTEMPTS then Sending(attempt + 1) else Reported(Failure(NotConfirmed))
      case Ambiguous => Heading(None)
      case Definitive => Reported(Failure(NotConfirmed))
  }

  /** verifyExisting, up to the body. */
  function AfterHead(current: Option<Stored>, answered: bool, request: Payload, created: Option<bool>): Phase {
    if !answered || current.None? then Reported(Failure(NotConfirmed))
    else
      var found := current.value;
      if |found.body| != request.bytes || found.metadata != request.hash then Reported(Failure(ContentDiffers))
      else if found.checksum.None? then Reading(created)
      else if found.checksum.value != request.hash then Reported(Failure(ContentDiffers))
      else Reported(Success(created))
  }

  /** verifyExistingBody */
  function AfterGet(current: Option<Stored>, answered: bool, request: Payload, created: Option<bool>): Phase {
    if !answered || current.None? then Reported(Failure(NotConfirmed))
    else if PayloadOf(current.value.body) != request then Reported(Failure(ContentDiffers))
    else Reported(Success(created))
  }

  function Next(b: Bucket, e: Event): Bucket
    requires Enabled(b, e)
  {
    match e
    case Begin(request) => b.(puts := b.puts + [Put(request, Sending(0), 0, false)])
    case Create(p, body, error, applied, checksummed, staysLate) =>
      var put := b.puts[p];
      var after := put.(phase := AfterCreate(put.phase.attempt, error), sends := put.sends + 1,
                        late := put.late || (staysLate && error.Some?));
      Bucket(if applied then Some(Created(body, put.request, checksummed)) else b.current,
             b.puts[p := after], if applied then Some(p) else b.creator)
    case Arrive(p, body, checksummed) =>
      Bucket(Some(Created(body, b.puts[p].request, checksummed)), b.puts[p := b.puts[p].(late := false)], Some(p))
    case Head(p, answered) =>
      var put := b.puts[p];
      b.(puts := b.puts[p := put.(phase := AfterHead(b.current, answered, put.request, put.phase.created))])
    case Get(p, answered) =>
      var put := b.puts[p];
      b.(puts := b.puts[p := put.(phase := AfterGet(b.current, answered, put.request, put.phase.created))])
    case Cancel(p) =>
      b.(puts := b.puts[p := b.puts[p].(phase := Reported(Failure(NotConfirmed)))])
  }

  // ---- What every run keeps ----

  predicate Succeeded(put: Put) {
    put.phase.Reported? && put.phase.report.Success?
  }

  predicate ClaimsCreation(put: Put) {
    Succeeded(put) && put.phase.report.created == Some(true)
  }

  predicate Holds(b: Bucket, request: Payload) {
    b.current.Some? && PayloadOf(b.current.value.body) == request
  }

  /** One Put: success means the bucket holds its content, a claimed creation was its own, and it stopped in time. */
  predicate PutHolds(b: Bucket, p: nat)
    requires p < |b.puts|
  {
    var put := b.puts[p];
    && (Succeeded(put) ==> Holds(b, put.request))
    && (ClaimsCreation(put) ==> b.creator == Some(p))
    && put.sends <= MAX_PUT_ATTEMPTS && (put.late ==> put.sends > 0)
    && (put.phase.Sending? ==> put.sends == put.phase.attempt < MAX_PUT_ATTEMPTS)
    && (put.phase.Heading? || put.phase.Reading? ==> put.phase.created != Some(true))
  }

  ghost predicate Invariant(b: Bucket) {
    && (b.creator.Some? ==> b.current.Some? && b.current.value.metadata == Sha256(b.current.value.body))
    && (b.current.Some? && b.current.value.checksum.Some? ==>
          b.current.value.checksum.value == Sha256(b.current.value.body))
    && forall p :: 0 <= p < |b.puts| ==> PutHolds(b, p)
  }

  /** A request can arrive late only once it was sent and given up, and then only once. */
  lemma LateOnlyIfGivenUp(b: Bucket, e: Event, p: nat)
    requires Enabled(b, e) && p < |b.puts|
    ensures Next(b, e).puts[p].late <==>
      && !(e.Arrive? && e.p == p)
      && (b.puts[p].late || (e.Create? && e.p == p && e.staysLate && e.error.Some?))
  {
  }

  /** A stored object has the body that was sent, the announced hash as metadata, and as checksum where it has one. */
  lemma StoresWhatWasSent(b: Bucket, e: Event)
    requires Enabled(b, e) && (e.Arrive? || (e.Create? && e.applied))
    ensures var made := Next(b, e).current; var request := b.puts[e.p].request;
      && made.Some? && made.value.body == e.body && made.value.metadata == request.hash
      && made.value.checksum == (if e.checksummed then Some(request.hash) else None)
      && PayloadOf(e.body) == request && Next(b, e).creator == Some(e.p)
  {
  }

  lemma NextKeepsObject(b: Bucket, e: Event)
    requires Enabled(b, e)
    ensures b.current.Some? ==> Next(b, e).current == b.current && Next(b, e).creator == b.creator
  {
  }

  lemma NextKeepsInvariant(b: Bucket, e: Event)
    requires Invariant(b) && Enabled(b, e)
    ensures Invariant(Next(b, e))
  {
    var b' := Next(b, e);
    forall p | 0 <= p < |b'.puts| ensures PutHolds(b', p) {
      if p < |b.puts| { assert PutHolds(b, p); }
    }
  }

  ghost predicate Possible(b: Bucket, events: seq<Event>)
    decreases |events|
  {
    events == [] || (Enabled(b, events[0]) && Possible(Next(b, events[0]), events[1..]))
  }

  function After(b: Bucket, events: seq<Event>): Bucket
    requires Possible(b, events)
    decreases |events|
  {
    if events == [] then b else After(Next(b, events[0]), events[1..])
  }

  /** Under any interleaving of any Puts: an object once there never changes, a report once given stands, and the
      invariant holds. */
  lemma {:induction false} WriteOnce(b: Bucket, events: seq<Event>)
    requires Invariant(b) && Possible(b, events)
    ensures Invariant(After(b, events))
    ensures b.current.Some? ==> After(b, events).current == b.current
    ensures |b.puts| <= |After(b, events).puts|
    ensures forall p :: 0 <= p < |b.puts| ==> After(b, events).puts[p].request == b.puts[p].request
    ensures forall p :: 0 <= p < |b.puts| && b.puts[p].phase.Reported? ==>
              After(b, events).puts[p].phase == b.puts[p].phase
    decreases |events|
  {
    if events != [] {
      NextKeepsInvariant(b, events[0]);
      var b' := Next(b, events[0]);
      forall p | 0 <= p < |b.puts|
        ensures b'.puts[p].request == b.puts[p].request
        ensures b.puts[p].phase.Reported? ==> b'.puts[p].phase == b.puts[p].phase
      {
      }
      WriteOnce(b', events[1..]);
    }
  }

  /** Two Puts of different content never both succeed, and at most one reports to have created the object. */
  lemma SuccessesAgree(b: Bucket, p: nat, q: nat)
    requires Invariant(b) && p < |b.puts| && q < |b.puts|
    ensures Succeeded(b.puts[p]) && Succeeded(b.puts[q]) ==> b.puts[p].request == b.puts[q].request
    ensures ClaimsCreation(b.puts[p]) && ClaimsCreation(b.puts[q]) ==> p == q
    ensures b.puts[p].sends <= MAX_PUT_ATTEMPTS
  {
    assert PutHolds(b, p) && PutHolds(b, q);
  }

  /** The outcome of verifying an existing object when every request is answered. */
  function Verified(b: Bucket, request: Payload, created: Option<bool>): Phase {
    match AfterHead(b.current, true, request, created)
    case Reading(c) => AfterGet(b.current, true, request, c)
    case phase => phase
  }

  /** Where a Put made the object, verification accepts exactly the content it has: storing the same payload
      again never conflicts, storing another one always does. */
  lemma VerificationIsExact(b: Bucket, request: Payload, created: Option<bool>)
    requires Invariant(b) && b.creator.Some?
    ensures Verified(b, request, created) ==
              Reported(if Holds(b, request) then Success(created) else Failure(ContentDiffers))
  {
  }

  /** The same of any object, made by a Put or not: what is there must have the announced length and metadata, and its
      checksum, or else the hash of its body, must be that of the request. */
  lemma VerifiedExactly(b: Bucket, request: Payload, created: Option<bool>)
    ensures Verified(b, request, created) ==
      if b.current.None? then Reported(Failure(NotConfirmed))
      else
        var found := b.current.value;
        var hash := if found.checksum.Some? then found.checksum.value else Sha256(found.body);
        Reported(if |found.body| == request.bytes && found.metadata == request.hash && hash == request.hash
                 then Success(created) else Failure(ContentDiffers))
  {
  }

  // ---- Put, request by request ----

  /** A step of another Put, or one that leaves Put `me` where it is. */
  predicate Foreign(e: Event, me: nat) {
    e.Begin? || e.Arrive? || e.p != me
  }

  lemma ForeignKeepsPut(b: Bucket, e: Event, me: nat)
    requires Enabled(b, e) && Foreign(e, me) && me < |b.puts|
    ensures me < |b.puts| <= |Next(b, e).puts|
    ensures Next(b, e).puts[me].phase == b.puts[me].phase && Next(b, e).puts[me].request == b.puts[me].request
  {
  }

  class S3Store {
    var bucket: Bucket

    ghost predicate Valid()
      reads this
    {
      Invariant(bucket)
    }

    constructor (existing: Option<Stored>)
      requires existing.Some? && existing.value.checksum.Some? ==>
        existing.value.checksum.value == Sha256(existing.value.body)
      ensures Valid() && bucket == Bucket(existing, [], None)
    {
      bucket := Bucket(existing, [], None);
    }

    /** The bucket moves on, and Put `me` stays where it is. */
    twostate predicate Undisturbed(me: nat)
      reads this
      requires me < |old(bucket.puts)|
    {
      && |old(bucket.puts)| <= |bucket.puts|
      && bucket.puts[me].phase == old(bucket.puts[me].phase)
      && bucket.puts[me].request == old(bucket.puts[me].request)
      && ObjectKept()
    }

    /** Any number of steps of other Puts, and late requests of this one. */
    method Environment(me: nat)
      requires Valid() && me < |bucket.puts|
      modifies this
      ensures Valid() && Undisturbed(me)
    {
      var steps :| 0 <= steps;
      for i := 0 to steps
        invariant Valid() && Undisturbed(me)
      {
        assert Enabled(bucket, Begin(PayloadOf([]))) && Foreign(Begin(PayloadOf([])), me);
        var e :| Enabled(bucket, e) && Foreign(e, me);
        NextKeepsInvariant(bucket, e);
        ForeignKeepsPut(bucket, e, me);
        NextKeepsObject(bucket, e);
        bucket := Next(bucket, e);
      }
    }

    /** putOnce: one conditional create request, with whatever answer the bucket may give. */
    method PutOnce(me: nat) returns (error: Option<S3Error>)
      requires Valid() && me < |bucket.puts| && bucket.puts[me].phase.Sending?
      modifies this
      ensures Valid() && |bucket.puts| == |old(bucket.puts)|
      ensures bucket.puts[me].request == old(bucket.puts[me].request)
      ensures bucket.puts[me].phase == AfterCreate(old(bucket.puts[me].phase.attempt), error) && ObjectKept()
      ensures error.Some? && Classify(error.value) == Precondition ==> bucket.current.Some?
      ensures error.None? ==> Holds(bucket, bucket.puts[me].request) && bucket.creator == Some(me)
    {
      var body: seq<Byte> := *;
      var applied: bool := *;
      var checksummed: bool := *;
      var staysLate: bool := *;
      error := *;
      var e := Create(me, body, error, applied, checksummed, staysLate);
      if !Enabled(bucket, e) {
        error := Some(S3Error(None, None, None, true));
        e := Create(me, body, error, false, checksummed, staysLate);
      }
      NextKeepsInvariant(bucket, e);
      NextKeepsObject(bucket, e);
      bucket := Next(bucket, e);
      assert PutHolds(bucket, me);
    }

    /** The created object never changes while others go on. */
    twostate predicate ObjectKept()
      reads this
    {
      (old(bucket.current).Some? ==> bucket.current == old(bucket.current))
      && (old(bucket.creator).Some? ==> bucket.creator == old(bucket.creator))
    }

    method VerifyExisting(me: nat, request: Payload, created: Option<bool>, headAnswered: bool, bodyAnswered: bool)
      returns (report: Report)
      requires Valid() && me < |bucket.puts| && bucket.puts[me].phase == Heading(created)
      requires bucket.puts[me].request == request
      modifies this
      ensures Valid() && me < |bucket.puts| && bucket.puts[me].phase == Reported(report)
      ensures bucket.puts[me].request == request && ObjectKept()
      ensures report.Success? ==> report.created == created && Holds(bucket, request)
      ensures old(bucket.current).Some? && headAnswered && bodyAnswered ==>
                Reported(report) == Verified(bucket, request, created)
    {
      assert PutHolds(bucket, me);
      NextKeepsInvariant(bucket, Head(me, headAnswered));
      var head := bucket.current;
      bucket := Next(bucket, Head(me, headAnswered));
      if !headAnswered || head.None? { return Failure(NotConfirmed); }
      if |head.value.body| != request.bytes || head.value.metadata != request.hash { return Failure(ContentDiffers); }
      if head.value.checksum.Some? {
        if head.value.checksum.value != request.hash { return Failure(ContentDiffers); }
      } else {
        Environment(me);
        report := VerifyExistingBody(me, request, created, bodyAnswered);
        return;
      }
      report := Success(created);
    }

    method VerifyExistingBody(me: nat, request: Payload, created: Option<bool>, answered: bool) returns (report: Report)
      requires Valid() && me < |bucket.puts| && bucket.puts[me].phase == Reading(created)
      requires bucket.puts[me].request == request
      modifies this
      ensures Valid() && me < |bucket.puts| && bucket.puts[me].phase == Reported(report)
      ensures bucket.puts[me].request == request && ObjectKept()
      ensures Reported(report) == AfterGet(bucket.current, answered, request, created)
    {
      NextKeepsInvariant(bucket, Get(me, answered));
      var body := bucket.current;
      bucket := Next(bucket, Get(me, answered));
      if !answered || body.None? { return Failure(NotConfirmed); }
      report := if PayloadOf(body.value.body) != request then Failure(ContentDiffers) else Success(created);
    }

    /** The context has ended: the Put reports that. */
    method GiveUp(me: nat)
      requires Valid() && me < |bucket.puts|
      requires bucket.puts[me].phase.Reported? ==> bucket.puts[me].phase == Reported(Failure(NotConfirmed))
      modifies this
      ensures Valid() && |bucket.puts| == |old(bucket.puts)|
      ensures bucket.puts[me] == old(bucket.puts[me]).(phase := Reported(Failure(NotConfirmed)))
    {
      if !bucket.puts[me].phase.Reported? {
        NextKeepsInvariant(bucket, Cancel(me));
        bucket := Next(bucket, Cancel(me));
      }
    }

    /** Put: at most three create requests, repeated only after conditional conflicts. Success means that the key
        now holds exactly the requested content, by this Put's own hand if it says so. `errors` are the answers to
        the create requests. The caller's context lives through the first `survived` legs, where leg 2a is the
        request of attempt a and leg 2a + 1 the wait behind it. */
    method Put(request: Payload, survived: nat, headAnswered: bool, bodyAnswered: bool)
      returns (report: Report, ghost errors: seq<Option<S3Error>>)
      requires Valid()
      modifies this
      ensures Valid()
      ensures report.Success? ==> Holds(bucket, request)
      ensures report == Success(Some(true)) ==> bucket.creator == Some(|old(bucket.puts)|)
      ensures |old(bucket.puts)| < |bucket.puts|
      ensures bucket.puts[|old(bucket.puts)|].phase == Reported(report)
      ensures 1 <= |errors| <= 3
      ensures forall k :: 0 <= k < |errors| - 1 ==> errors[k].Some? && SaysConflict(errors[k].value)
      ensures forall k :: 0 <= k < |errors| - 1 ==> 2 * k + 1 < survived
      ensures Answer(errors).None? ==> report == Success(Some(true))
      ensures Answer(errors).Some? && survived <= 2 * (|errors| - 1) ==> report == Failure(NotConfirmed)
      ensures Answer(errors).Some? && survived > 2 * (|errors| - 1) ==>
        var answer := Answer(errors).value;
        if SaysItExists(answer) then
          && (headAnswered && bodyAnswered ==> Reported(report) == Verified(bucket, request, Some(false)))
          && (report.Success? ==> report.created == Some(false))
        else if SaysConflict(answer) then
          report == Failure(NotConfirmed) && (|errors| == 3 || survived == 2 * |errors| - 1)
        else if GotNoResponse(answer) then
          && (headAnswered && bodyAnswered && old(bucket.current).Some? ==>
                Reported(report) == Verified(bucket, request, None))
          && (report.Success? ==> report.created.None?)
        else report == Failure(NotConfirmed)
    {
      var me := |bucket.puts|;
      NextKeepsInvariant(bucket, Begin(request));
      bucket := Next(bucket, Begin(request));
      report := Failure(NotConfirmed);
      errors := [];
      for attempt := 0 to MAX_PUT_ATTEMPTS
        invariant Valid() && me < |bucket.puts| && bucket.puts[me].request == request
        invariant attempt < MAX_PUT_ATTEMPTS && bucket.puts[me].phase == Sending(attempt)
        invariant |errors| == attempt && forall k :: 0 <= k < |errors| ==> 2 * k + 1 < survived
        invariant forall k :: 0 <= k < |errors| ==> errors[k].Some? && SaysConflict(errors[k].value)
        invariant ObjectKept()
      {
        Environment(me);
        var error := PutOnce(me);
        errors := errors + [error];
        if error.None? { return Success(Some(true)), errors; }
        if survived <= 2 * attempt {
          GiveUp(me);
          return Failure(NotConfirmed), errors;
        }
        Environment(me);
        match Classify(error.value) {
          case Precondition =>
            report := VerifyExisting(me, request, Some(false), headAnswered, bodyAnswered);
            return;
          case ConditionalConflict =>
            if attempt + 1 == MAX_PUT_ATTEMPTS { return Failure(NotConfirmed), errors; }
            if survived <= 2 * attempt + 1 {
              GiveUp(me);
              return Failure(NotConfirmed), errors;
            }
          case Ambiguous =>
            report := VerifyExisting(me, request, None, headAnswered, bodyAnswered);
            return;
          case Definitive => return Failure(NotConfirmed), errors;
        }
      }
    }
  }

  /** The answer to the last create request. */
  function Answer(errors: seq<Option<S3Error>>): Option<S3Error> {
    if errors == [] then None else errors[|errors| - 1]
  }
}
