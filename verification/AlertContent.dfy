/** What one service alert says, as decoded from a feed (internal/realtime/decode.go). */
module AlertContent {
  import opened Common

  datatype Translation = Translation(text: string, language: string)

  /** Unix seconds; an absent bound is open. */
  datatype ActivePeriod = ActivePeriod(start: Option<nat>, end: Option<nat>)

  datatype InformedEntity = InformedEntity(
    agencyId: string, routeId: string, routeType: Option<int>, stopId: string,
    directionId: Option<nat>, tripId: string, tripRouteId: string, tripStartTime: string,
    tripStartDate: string, tripDirection: Option<nat>, tripSchedule: string)

  datatype AlertSummary = AlertSummary(
    entityId: string, deleted: bool,
    cause: Option<string>, effect: Option<string>, severity: Option<string>,
    header: seq<Translation>, description: seq<Translation>, url: seq<Translation>,
    periods: seq<ActivePeriod>, entities: seq<InformedEntity>,
    unknownBytes: nat, unknownHash: string)

  // ---- Cause and effect ----

  /** Alert.Cause and Alert.Effect of GTFS Realtime, numbered from 1. */
  const CAUSES: seq<string> := [
    "UNKNOWN_CAUSE", "OTHER_CAUSE", "TECHNICAL_PROBLEM", "STRIKE", "DEMONSTRATION", "ACCIDENT", "HOLIDAY", "WEATHER",
    "MAINTENANCE", "CONSTRUCTION", "POLICE_ACTIVITY", "MEDICAL_EMERGENCY"]

  const EFFECTS: seq<string> := [
    "NO_SERVICE", "REDUCED_SERVICE", "SIGNIFICANT_DELAYS", "DETOUR", "ADDITIONAL_SERVICE", "MODIFIED_SERVICE",
    "OTHER_EFFECT", "UNKNOWN_EFFECT", "STOP_MOVED", "NO_EFFECT", "ACCESSIBILITY_ISSUE"]

  function Digits(n: nat): (text: string)
    ensures text != [] && '0' <= text[0] <= '9'
  {
    if n < 10 then ["0123456789"[n]] else Digits(n / 10) + ["0123456789"[n % 10]]
  }

  /** The String method of a protobuf enum: the name of the value or, without one, its number. */
  function EnumText(names: seq<string>, number: int): string {
    if 1 <= number <= |names| then names[number - 1]
    else if number < 0 then "-" + Digits(-number) else Digits(number)
  }

  /** A known value reads as its name, any other as its number. */
  lemma EnumTextExactly(names: seq<string>, number: int)
    ensures 1 <= number <= |names| ==> EnumText(names, number) == names[number - 1]
    ensures number == 0 || number > |names| ==>
      EnumText(names, number)[0] != '-' && NumberOf(EnumText(names, number)) == number
    ensures number < 0 ==>
      EnumText(names, number)[0] == '-' && NumberOf(EnumText(names, number)[1..]) == -number
  {
    DigitsSpell(if number < 0 then -number else number);
    if number < 0 { assert EnumText(names, number)[1..] == Digits(-number); }
  }

  ghost predicate IsEnumText(names: seq<string>, value: Option<string>) {
    value.Some? ==> exists number: int :: value.value == EnumText(names, number)
  }

  /** What decoding makes of the optional fields. */
  ghost predicate Named(alert: AlertSummary) {
    IsEnumText(CAUSES, alert.cause) && IsEnumText(EFFECTS, alert.effect)
  }

  /** The label of an absent cause or effect. */
  const UNSPECIFIED := "UNSPECIFIED"

  /** The number that decimal digits spell. */
  function NumberOf(text: string): int {
    if text == "" then 0 else 10 * NumberOf(text[..|text| - 1]) + (text[|text| - 1] as int - '0' as int)
  }

  lemma {:induction false} DigitsSpell(n: nat)
    ensures NumberOf(Digits(n)) == n
  {
    if n >= 10 {
      DigitsSpell(n / 10);
      assert Digits(n)[..|Digits(n)| - 1] == Digits(n / 10);
    } else {
      assert Digits(n)[..0] == "";
    }
  }

  lemma NamesAreSpecified(number: int)
    ensures 1 <= number <= |CAUSES| ==> CAUSES[number - 1] != UNSPECIFIED
    ensures 1 <= number <= |EFFECTS| ==> EFFECTS[number - 1] != UNSPECIFIED
  {
    if 1 <= number <= |CAUSES| {
      assert |CAUSES[number - 1]| != 11 || CAUSES[number - 1][0] != 'U';
    }
    if 1 <= number <= |EFFECTS| {
      assert |EFFECTS[number - 1]| != 11;
    }
  }

  /** No decoded cause or effect reads like an absent one. */
  lemma NeverUnspecified(alert: AlertSummary)
    requires Named(alert)
    ensures alert.cause != Some(UNSPECIFIED) && alert.effect != Some(UNSPECIFIED)
  {
    if alert.cause.Some? {
      var number: int :| alert.cause.value == EnumText(CAUSES, number);
      NamesAreSpecified(number);
      assert UNSPECIFIED[0] == 'U';
    }
    if alert.effect.Some? {
      var number: int :| alert.effect.value == EnumText(EFFECTS, number);
      NamesAreSpecified(number);
      assert UNSPECIFIED[0] == 'U';
    }
  }

  // ---- Content ----

  /** Everything the content hash depends on. Collections count as multisets: AlertHash.HashesAgreeExactly
      shows that the code's hash of two alerts is equal exactly when their fingerprints are, so the
      model stores a fingerprint where the tables store content_sha256. */
  datatype Fingerprint = Fingerprint(
    deleted: bool, cause: Option<string>, effect: Option<string>, severity: Option<string>,
    header: multiset<Translation>, description: multiset<Translation>, url: multiset<Translation>,
    periods: multiset<ActivePeriod>, entities: multiset<InformedEntity>,
    unknownBytes: nat, unknownHash: string)

  function Fingerprinted(alert: AlertSummary): Fingerprint {
    Fingerprint(
      alert.deleted, alert.cause, alert.effect, alert.severity,
      multiset(alert.header), multiset(alert.description), multiset(alert.url),
      multiset(alert.periods), multiset(alert.entities), alert.unknownBytes, alert.unknownHash)
  }

  /** Two alerts say the same: equal scalars, and equal collections up to order. */
  predicate SaysTheSame(a: AlertSummary, b: AlertSummary) {
    && a.deleted == b.deleted && a.cause == b.cause && a.effect == b.effect && a.severity == b.severity
    && multiset(a.header) == multiset(b.header) && multiset(a.description) == multiset(b.description)
    && multiset(a.url) == multiset(b.url) && multiset(a.periods) == multiset(b.periods)
    && multiset(a.entities) == multiset(b.entities)
    && a.unknownBytes == b.unknownBytes && a.unknownHash == b.unknownHash
  }

  /** HashAlert refuses alerts that carry unknown protobuf fields. */
  predicate Hashable(alert: AlertSummary) {
    alert.unknownBytes == 0
  }

  const MAX_INT64: nat := 0x7FFF_FFFF_FFFF_FFFF

  predicate StorableTime(value: Option<nat>) {
    value.Some? ==> value.value <= MAX_INT64
  }

  /** What the alert tables accept: a non-empty identifier and period bounds that fit int64. */
  predicate Storable(alert: AlertSummary) {
    && alert.entityId != ""
    && StorablePeriods(alert)
  }

  predicate StorablePeriods(alert: AlertSummary) {
    forall period <- alert.periods :: StorableTime(period.start) && StorableTime(period.end)
  }
}
