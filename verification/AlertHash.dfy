/** The content hash of an alert (internal/realtime/hash.go). JSON encoders and SHA-256 are taken to be
    injective; what is proved is that sorting makes the hash depend on every collection as a multiset. */
module AlertHash {
  import opened Common
  import opened AlertContent
  import opened Ordering

  /** Translations are compared by language, then by text. */
  function TranslationLess(): (Translation, Translation) -> bool {
    KeyedLess((t: Translation) => t.language, (t: Translation) => t.text)
  }

  lemma TranslationsOrdered()
    ensures StrictTotal(TranslationLess())
    ensures forall a: Translation, b: Translation ::
      StringLess(a.language, b.language) ==> TranslationLess()(a, b)
    ensures forall a: Translation, b: Translation ::
      a.language == b.language && StringLess(a.text, b.text) ==> TranslationLess()(a, b)
  {
    KeyedOrdered((t: Translation) => t.language, (t: Translation) => t.text);
    forall a: Translation, b: Translation | StringLess(a.language, b.language) ensures TranslationLess()(a, b) {
      StringLessTotal(a.language, b.language);
    }
  }

  ghost predicate Injective<A(!new), B>(encode: A -> B) {
    forall a, b :: encode(a) == encode(b) ==> a == b
  }

  /** Items are compared by their JSON texts. */
  function EncodedLess<T>(encode: T -> string): (T, T) -> bool {
    KeyedLess(encode, encode)
  }

  lemma EncodedOrdered<T(!new)>(encode: T -> string)
    requires Injective(encode)
    ensures StrictTotal(EncodedLess(encode))
  {
    KeyedOrdered(encode, encode);
  }

  datatype Canonical = Canonical(
    deleted: bool, cause: Option<string>, effect: Option<string>, severity: Option<string>,
    header: seq<Translation>, description: seq<Translation>, url: seq<Translation>,
    periods: seq<ActivePeriod>, entities: seq<InformedEntity>, unknownBytes: nat, unknownHash: string)

  datatype Encoders = Encoders(
    period: ActivePeriod -> string, entity: InformedEntity -> string, canonical: Canonical -> seq<Byte>)

  ghost predicate Faithful(encoders: Encoders) {
    Injective(encoders.period) && Injective(encoders.entity) && Injective(encoders.canonical)
  }

  function Canonicalised(encoders: Encoders, alert: AlertSummary): Canonical {
    Canonical(
      alert.deleted, alert.cause, alert.effect, alert.severity,
      Sort(TranslationLess(), alert.header), Sort(TranslationLess(), alert.description),
      Sort(TranslationLess(), alert.url),
      Sort(EncodedLess(encoders.period), alert.periods), Sort(EncodedLess(encoders.entity), alert.entities),
      alert.unknownBytes, alert.unknownHash)
  }

  /** The canonical form keeps every scalar and, sorted, every collection. */
  lemma CanonicalHolds(encoders: Encoders, alert: AlertSummary)
    requires Faithful(encoders)
    ensures var c := Canonicalised(encoders, alert);
      && c.deleted == alert.deleted && c.cause == alert.cause && c.effect == alert.effect
      && c.severity == alert.severity && c.unknownBytes == alert.unknownBytes && c.unknownHash == alert.unknownHash
      && multiset(c.header) == multiset(alert.header) && Sorted(TranslationLess(), c.header)
      && multiset(c.description) == multiset(alert.description) && Sorted(TranslationLess(), c.description)
      && multiset(c.url) == multiset(alert.url) && Sorted(TranslationLess(), c.url)
      && multiset(c.periods) == multiset(alert.periods) && Sorted(EncodedLess(encoders.period), c.periods)
      && multiset(c.entities) == multiset(alert.entities) && Sorted(EncodedLess(encoders.entity), c.entities)
  {
    TranslationsOrdered();
    EncodedOrdered(encoders.period);
    EncodedOrdered(encoders.entity);
    SortSorts(TranslationLess(), alert.header);
    SortSorts(TranslationLess(), alert.description);
    SortSorts(TranslationLess(), alert.url);
    SortSorts(EncodedLess(encoders.period), alert.periods);
    SortSorts(EncodedLess(encoders.entity), alert.entities);
  }

  function HashOf(encoders: Encoders, alert: AlertSummary): Digest {
    Sha256(encoders.canonical(Canonicalised(encoders, alert)))
  }

  /** The hashes of two alerts are equal exactly when scalars agree and collections agree as multisets. */
  lemma HashesAgreeExactly(encoders: Encoders, a: AlertSummary, b: AlertSummary)
    requires Faithful(encoders)
    ensures HashOf(encoders, a) == HashOf(encoders, b) <==> SaysTheSame(a, b)
    ensures HashOf(encoders, a) == HashOf(encoders, b) <==> Fingerprinted(a) == Fingerprinted(b)
  {
    TranslationsOrdered();
    EncodedOrdered(encoders.period);
    EncodedOrdered(encoders.entity);
    SortsAgree(TranslationLess(), a.header, b.header);
    SortsAgree(TranslationLess(), a.description, b.description);
    SortsAgree(TranslationLess(), a.url, b.url);
    SortsAgree(EncodedLess(encoders.period), a.periods, b.periods);
    SortsAgree(EncodedLess(encoders.entity), a.entities, b.entities);
  }

  /** Sorts a copy, so the alert keeps the order it came in. */
  method SortedCopy<T(!new)>(less: (T, T) -> bool, list: seq<T>) returns (sorted: seq<T>)
    requires StrictTotal(less)
    ensures sorted == Sort(less, list)
  {
    var copy := new T[|list|](i requires 0 <= i < |list| => list[i]);
    assert copy[..] == list;
    SortInPlace(less, copy);
    sorted := copy[..];
  }

  method HashAlert(encoders: Encoders, alert: AlertSummary) returns (r: Result<Digest>)
    requires Faithful(encoders)
    ensures r == if Hashable(alert) then Ok(HashOf(encoders, alert)) else Err
  {
    if alert.unknownBytes > 0 { return Err; }
    TranslationsOrdered();
    EncodedOrdered(encoders.period);
    EncodedOrdered(encoders.entity);
    var header := SortedCopy(TranslationLess(), alert.header);
    var description := SortedCopy(TranslationLess(), alert.description);
    var url := SortedCopy(TranslationLess(), alert.url);
    var periods := SortedCopy(EncodedLess(encoders.period), alert.periods);
    var entities := SortedCopy(EncodedLess(encoders.entity), alert.entities);
    var canonical := Canonical(
      alert.deleted, alert.cause, alert.effect, alert.severity, header, description, url, periods, entities,
      alert.unknownBytes, alert.unknownHash);
    r := Ok(Sha256(encoders.canonical(canonical)));
  }
}
