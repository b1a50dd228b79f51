/** Vocabulary shared by every part of the model. */
module Common {

  datatype Option<+T> = None | Some(value: T)

  datatype Result<+T> = Ok(value: T) | Err

  /** Instants are microseconds since the Unix epoch, the resolution PostgreSQL stores. */
  type Time = int

  newtype Byte = b: int | 0 <= b < 256

  /** SHA-256 as the model sees it: two digests are equal only if the bytes are. */
  datatype Digest = Sha256(preimage: seq<Byte>)

  // The states of an ingestion attempt, the same for service alerts and for GTFS imports. The archive status
  // 'legacy' belongs to attempts made before archives existed; nothing writes it.

  datatype RunStatus = Running | Succeeded | Failed | Skipped

  datatype ArchiveStatus = ArchivePending | Archived | ArchiveFailed

  datatype SkipCode = Stale | Duplicate

  /** Hash and length of a payload. */
  datatype Payload = Payload(hash: Digest, bytes: nat)

  function PayloadOf(body: seq<Byte>): Payload {
    Payload(Sha256(body), |body|)
  }

  datatype ObjectKey = ObjectKey(backend: string, key: string)

  /** What a successful Put to the archive reports. */
  datatype StoredObject = StoredObject(at: ObjectKey, content: Payload, version: string, created: Option<bool>)

  // How the database may answer a transaction.

  /** An undecided commit was sent and not reported, and the server has not decided it yet. */
  datatype CommitOutcome = Confirmed | AppliedUnreported | RolledBack | Undecided

  /** Whether the statements go through, the commit, and whether the status read that follows an unreported
      commit is answered. */
  datatype Answers = Answers(statements: bool, commit: CommitOutcome, status: bool)

  const CALM := Answers(true, Confirmed, true)

  datatype Outcome = Done | Rejected | Unknown

  /** The transaction has taken effect by the time its call returns. */
  predicate TakesEffect(answers: Answers) {
    answers.statements && (answers.commit == Confirmed || answers.commit == AppliedUnreported)
  }

  /** What the caller learns of a transaction sent to commit, if the server decides nothing before the status is
      read. */
  function Learned(answers: Answers): (r: Outcome)
    ensures answers.statements && r == Done ==> TakesEffect(answers)
    ensures r == Rejected ==> !TakesEffect(answers)
  {
    if answers.commit == Confirmed then Done
    else if !answers.status then Unknown
    else if answers.commit == AppliedUnreported then Done else Rejected
  }

  /** The result of a whole run: no error, a failure, or an error that says the outcome is unknown. */
  datatype RunResult = Finished(skipped: bool) | FailureReported | OutcomeUnknown

  const MICROS_PER_SECOND: int := 1_000_000

  lemma HasMember(s: set<int>)
    ensures s == {} || exists x: int :: x in s
  {
    if forall x: int :: x !in s { assert s == {}; }
  }

  lemma PrefixNext<T>(s: seq<T>, i: nat)
    requires i < |s|
    ensures s[..i + 1] == s[..i] + [s[i]]
  {
  }

  lemma KeyAdded<K, V>(m: map<K, V>, key: K, value: V)
    requires key !in m
    ensures m[key := value].Keys == m.Keys + {key} && |m[key := value]| == |m| + 1
  {
    assert m[key := value].Keys == m.Keys + {key};
  }

  /** Two sets related one to one have the same size. */
  lemma {:induction false} SameSize<A, B>(a: set<A>, b: set<B>, f: A -> B)
    requires forall x <- a :: f(x) in b
    requires forall y <- b :: exists x <- a :: f(x) == y
    requires forall x <- a, y <- a :: f(x) == f(y) ==> x == y
    ensures |a| == |b|
  {
    if a != {} {
      var x :| x in a;
      var a', b' := a - {x}, b - {f(x)};
      forall y <- b' ensures exists z <- a' :: f(z) == y {
        var z :| z in a && f(z) == y;
        assert z in a';
      }
      SameSize(a', b', f);
      assert |b| == |b'| + 1;
    } else {
      assert b == {};
    }
  }
}
