/** The limit on CSV records (recordLimitReader in internal/gtfs/parse.go), byte by byte. A newline ends a record
    exactly when an even number of quote bytes precedes it; this is how section 2 of RFC 4180 delimits records. */
module RecordLimit {
  import opened Common

  const QUOTE: Byte := 34
  const NEWLINE: Byte := 10
  const RETURN: Byte := 13
  const COMMA: Byte := 44

  lemma ControlBytes()
    ensures QUOTE as int == '\"' as int && NEWLINE as int == '\n' as int
    ensures RETURN as int == '\r' as int && COMMA as int == ',' as int
  {
  }

  const MAX_RECORD_BYTES: nat := 0x10_0000

  // ---- Records of a stream ----

  function Quotes(s: seq<Byte>): nat {
    if s == [] then 0 else Quotes(s[..|s| - 1]) + if s[|s| - 1] == QUOTE then 1 else 0
  }

  predicate Even(s: seq<Byte>) {
    Quotes(s) % 2 == 0
  }

  predicate EndsRecord(s: seq<Byte>, i: int) {
    0 <= i < |s| && s[i] == NEWLINE && Even(s[..i])
  }

  /** Bytes `start` to `end` are a record, with the newline that ends it, or as much of one as the stream has. */
  ghost predicate IsRecord(s: seq<Byte>, start: int, end: int) {
    && 0 <= start <= end <= |s|
    && (start == 0 || EndsRecord(s, start - 1))
    && forall k :: start <= k < end - 1 ==> !EndsRecord(s, k)
  }

  ghost predicate Exceeds(s: seq<Byte>) {
    exists start, end :: IsRecord(s, start, end) && end - start > 1_048_576
  }

  /** Bytes since the last record ended. */
  function Current(s: seq<Byte>): (n: nat)
    ensures n <= |s|
  {
    if s == [] || EndsRecord(s, |s| - 1) then 0 else Current(s[..|s| - 1]) + 1
  }

  lemma EndsSame(s: seq<Byte>, b: Byte, i: int)
    requires i < |s|
    ensures EndsRecord(s + [b], i) <==> EndsRecord(s, i)
  {
    if 0 <= i { assert (s + [b])[..i] == s[..i]; }
  }

  lemma RecordSame(s: seq<Byte>, b: Byte, start: int, end: int)
    requires end <= |s|
    ensures IsRecord(s + [b], start, end) <==> IsRecord(s, start, end)
  {
    forall i | i < |s| ensures EndsRecord(s + [b], i) <==> EndsRecord(s, i) { EndsSame(s, b, i); }
  }

  /** The last bytes counted are the current record. */
  lemma {:induction false} CurrentIsRecord(s: seq<Byte>)
    ensures IsRecord(s, |s| - Current(s), |s|)
    ensures forall k :: |s| - Current(s) <= k < |s| ==> !EndsRecord(s, k)
  {
    if s != [] && !EndsRecord(s, |s| - 1) {
      var t, b := s[..|s| - 1], s[|s| - 1];
      assert s == t + [b];
      CurrentIsRecord(t);
      forall i | i < |t| ensures EndsRecord(s, i) <==> EndsRecord(t, i) { EndsSame(t, b, i); }
    }
  }

  /** One more byte is too many exactly when the current record is already full. */
  lemma ExceedsNext(s: seq<Byte>, b: Byte)
    requires !Exceeds(s)
    ensures Exceeds(s + [b]) <==> Current(s) + 1 > MAX_RECORD_BYTES
  {
    var t := s + [b];
    CurrentIsRecord(s);
    forall i | i < |s| ensures EndsRecord(t, i) <==> EndsRecord(s, i) { EndsSame(s, b, i); }
    assert IsRecord(t, |s| - Current(s), |t|);
    if Exceeds(t) {
      var start, end :| IsRecord(t, start, end) && end - start > MAX_RECORD_BYTES;
      if end <= |s| { RecordSame(s, b, start, end); }
      if start < |s| - Current(s) { assert EndsRecord(t, |s| - Current(s) - 1); }
    }
  }

  /** The same byte by byte: no byte comes when the current record is full. */
  predicate Fits(s: seq<Byte>) {
    s == [] || (Fits(s[..|s| - 1]) && Current(s[..|s| - 1]) < MAX_RECORD_BYTES)
  }

  /** Counting the bytes of the current record finds exactly the streams with a record that is too long. */
  lemma {:induction false} FitsExactly(s: seq<Byte>)
    ensures Fits(s) <==> !Exceeds(s)
  {
    if s != [] {
      var t, b := s[..|s| - 1], s[|s| - 1];
      assert s == t + [b];
      FitsExactly(t);
      if Fits(t) { ExceedsNext(t, b); } else { StaysExceeded(t, [b]); }
    }
  }

  lemma {:induction false} StaysExceeded(s: seq<Byte>, more: seq<Byte>)
    requires Exceeds(s)
    ensures Exceeds(s + more)
    decreases |more|
  {
    if more == [] {
      assert s + more == s;
    } else {
      var start, end :| IsRecord(s, start, end) && end - start > MAX_RECORD_BYTES;
      RecordSame(s, more[0], start, end);
      StaysExceeded(s + [more[0]], more[1..]);
      assert s + [more[0]] + more[1..] == s + more;
    }
  }

  lemma {:induction false} FitsBefore(s: seq<Byte>, more: seq<Byte>)
    requires Fits(s + more)
    ensures Fits(s)
    decreases |more|
  {
    if more == [] {
      assert s + more == s;
    } else {
      var n := |more| - 1;
      assert (s + more)[..|s + more| - 1] == s + more[..n];
      FitsBefore(s, more[..n]);
    }
  }

  // ---- The reader ----

  class RecordLimitReader {
    var remaining: int
    var failed: bool
    var inQuotes: bool
    var quotePending: bool
    /** The bytes taken in, up to and including the one that was too many. */
    ghost var taken: seq<Byte>

    ghost predicate Valid()
      reads this
    {
      && (failed <==> !Fits(taken))
      && (!failed ==>
            && remaining == MAX_RECORD_BYTES - Current(taken)
            && (inQuotes && !quotePending <==> !Even(taken))
            && (quotePending ==> inQuotes))
    }

    constructor ()
      ensures Valid() && !failed && taken == []
    {
      remaining, failed, inQuotes, quotePending, taken := MAX_RECORD_BYTES, false, false, false, [];
    }

    /** The body of the loop in Read. */
    method Take(value: Byte)
      requires Valid() && !failed
      modifies this
      ensures Valid() && taken == old(taken) + [value]
    {
      assert (taken + [value])[..|taken|] == taken;
      taken := taken + [value];
      remaining := remaining - 1;
      if remaining < 0 {
        failed := true;
        return;
      }
      if inQuotes {
        if quotePending {
          if value == QUOTE {
            quotePending := false;
            return;
          }
          inQuotes := false;
          quotePending := false;
        } else if value == QUOTE {
          quotePending := true;
          return;
        } else {
          return;
        }
      }
      if value == QUOTE {
        inQuotes := true;
      } else if value == NEWLINE {
        remaining := MAX_RECORD_BYTES;
      }
    }

    /** One Read that gets `buffer` from the underlying reader. It fails exactly when a record of the stream so
        far exceeds the limit, and then hands over the bytes up to the first that is too many. */
    method Read(buffer: seq<Byte>) returns (count: nat, ok: bool)
      requires Valid()
      modifies this
      ensures Valid() && ok == !failed
      ensures old(failed) ==> count == 0 && !ok && taken == old(taken)
      ensures !old(failed) ==> count <= |buffer| && taken == old(taken) + buffer[..count]
      ensures !old(failed) ==> (ok <==> Fits(old(taken) + buffer))
      ensures ok ==> count == |buffer|
      ensures !old(failed) && !ok ==> count > 0 && Fits(old(taken) + buffer[..count - 1])
    {
      if failed { return 0, false; }
      ghost var done := [];
      for index := 0 to |buffer|
        invariant Valid() && !failed
        invariant done == buffer[..index] && taken == old(taken) + done
      {
        PrefixNext(buffer, index);
        assert old(taken) + (done + [buffer[index]]) == old(taken) + done + [buffer[index]];
        Take(buffer[index]);
        done := done + [buffer[index]];
        if failed {
          assert taken + buffer[index + 1..] == old(taken) + buffer;
          if Fits(old(taken) + buffer) { FitsBefore(taken, buffer[index + 1..]); }
          return index + 1, false;
        }
      }
      assert done == buffer && buffer[..|buffer|] == buffer;
      return |buffer|, true;
    }
  }

  function Joined(buffers: seq<seq<Byte>>): seq<Byte> {
    if buffers == [] then [] else Joined(buffers[..|buffers| - 1]) + buffers[|buffers| - 1]
  }

  lemma {:induction false} JoinedFits(buffers: seq<seq<Byte>>, i: nat)
    requires i <= |buffers| && Fits(Joined(buffers))
    ensures Fits(Joined(buffers[..i]))
    decreases |buffers|
  {
    if i < |buffers| {
      var before := buffers[..|buffers| - 1];
      assert before[..i] == buffers[..i];
      FitsBefore(Joined(before), buffers[|buffers| - 1]);
      JoinedFits(before, i);
    } else {
      assert buffers[..i] == buffers;
    }
  }

  /** However a stream is cut into buffers, reading it through the limit fails exactly when one of its records
      exceeds the limit. */
  method ReadAll(buffers: seq<seq<Byte>>) returns (ok: bool)
    ensures ok <==> !Exceeds(Joined(buffers))
  {
    FitsExactly(Joined(buffers));
    var reader := new RecordLimitReader();
    for i := 0 to |buffers|
      invariant fresh(reader) && reader.Valid() && !reader.failed && reader.taken == Joined(buffers[..i])
    {
      var count;
      count, ok := reader.Read(buffers[i]);
      PrefixNext(buffers, i);
      assert buffers[..i + 1][..i] == buffers[..i];
      if !ok {
        if Fits(Joined(buffers)) { JoinedFits(buffers, i + 1); }
        return;
      }
      assert buffers[i][..count] == buffers[i];
    }
    assert buffers[..|buffers|] == buffers;
    ok := true;
  }

  // ---- Well-formed CSV, section 2 of RFC 4180 ----

  /** A field without quotes, commas or line breaks, or one enclosed in quotes, its own quotes doubled. */
  datatype Field = Bare(text: seq<Byte>) | Enclosed(text: seq<Byte>)

  datatype Record = Record(fields: seq<Field>, carriageReturn: bool)

  predicate PlainText(text: seq<Byte>) {
    QUOTE !in text && NEWLINE !in text && COMMA !in text && RETURN !in text
  }

  predicate WellFormed(record: Record) {
    PlainFields(record.fields)
  }

  function Doubled(text: seq<Byte>): seq<Byte> {
    if text == [] then []
    else
      var last := text[|text| - 1];
      Doubled(text[..|text| - 1]) + if last == QUOTE then [QUOTE, QUOTE] else [last]
  }

  function RenderField(field: Field): seq<Byte> {
    match field
    case Bare(text) => text
    case Enclosed(text) => [QUOTE] + Doubled(text) + [QUOTE]
  }

  function RenderFields(fields: seq<Field>): seq<Byte> {
    if fields == [] then []
    else
      var rest := fields[..|fields| - 1];
      (if rest == [] then [] else RenderFields(rest) + [COMMA]) + RenderField(fields[|fields| - 1])
  }

  function Render(record: Record): seq<Byte> {
    RenderFields(record.fields) + (if record.carriageReturn then [RETURN, NEWLINE] else [NEWLINE])
  }

  /** A file: records that end with a line break, and possibly a last one that does not. */
  datatype File = File(records: seq<Record>, last: Option<seq<Field>>)

  predicate PlainFields(fields: seq<Field>) {
    forall field <- fields :: field.Bare? ==> PlainText(field.text)
  }

  predicate WellFormedFile(file: File) {
    && (forall record <- file.records :: WellFormed(record))
    && (file.last.Some? ==> PlainFields(file.last.value))
  }

  /** What stands behind the last line break. */
  function Rest(file: File): seq<Byte> {
    if file.last.Some? then RenderFields(file.last.value) else []
  }

  function RenderFile(file: File): seq<Byte> {
    Joined(Rendered(file.records)) + Rest(file)
  }

  function Rendered(records: seq<Record>): seq<seq<Byte>> {
    if records == [] then [] else Rendered(records[..|records| - 1]) + [Render(records[|records| - 1])]
  }

  lemma {:induction false} QuotesAdd(a: seq<Byte>, b: seq<Byte>)
    ensures Quotes(a + b) == Quotes(a) + Quotes(b)
  {
    if b == [] {
      assert a + b == a;
    } else {
      assert (a + b)[..|a + b| - 1] == a + b[..|b| - 1];
      QuotesAdd(a, b[..|b| - 1]);
    }
  }

  lemma EndsInSecond(a: seq<Byte>, b: seq<Byte>, i: nat)
    requires Even(a)
    ensures EndsRecord(a + b, |a| + i) <==> EndsRecord(b, i)
  {
    if i < |b| {
      assert (a + b)[..|a| + i] == a + b[..i];
      QuotesAdd(a, b[..i]);
    }
  }

  lemma EndsInFirst(a: seq<Byte>, b: seq<Byte>, i: int)
    requires i < |a|
    ensures EndsRecord(a + b, i) <==> EndsRecord(a, i)
  {
    if 0 <= i { assert (a + b)[..i] == a[..i]; }
  }

  /** A part of a record that ends none, and leaves no quote open. */
  ghost predicate Neutral(s: seq<Byte>) {
    Even(s) && forall i :: 0 <= i < |s| ==> !EndsRecord(s, i)
  }

  lemma NeutralAppend(a: seq<Byte>, b: seq<Byte>)
    requires Neutral(a) && Neutral(b)
    ensures Neutral(a + b)
  {
    QuotesAdd(a, b);
    forall i | 0 <= i < |a + b| ensures !EndsRecord(a + b, i) {
      if i < |a| { EndsInFirst(a, b, i); } else { EndsInSecond(a, b, i - |a|); }
    }
  }

  lemma {:induction false} PlainIsNeutral(text: seq<Byte>)
    requires QUOTE !in text && NEWLINE !in text
    ensures Neutral(text)
  {
    if text != [] { PlainIsNeutral(text[..|text| - 1]); }
  }

  /** After an opening quote the doubled text keeps the count odd wherever a newline stands. */
  lemma {:induction false} InsideQuotes(text: seq<Byte>)
    ensures Even(Doubled(text))
    ensures forall i :: 0 <= i < |Doubled(text)| && Doubled(text)[i] == NEWLINE ==> Even(Doubled(text)[..i])
  {
    if text != [] {
      var before, last, d := Doubled(text[..|text| - 1]), text[|text| - 1], Doubled(text);
      InsideQuotes(text[..|text| - 1]);
      if last == QUOTE {
        assert Quotes([QUOTE, QUOTE]) == 2 by { assert [QUOTE, QUOTE][..1] == [QUOTE] && [QUOTE][..0] == []; }
        QuotesAdd(before, [QUOTE, QUOTE]);
        assert d == before + [QUOTE, QUOTE];
      } else {
        assert Quotes([last]) == 0 by { assert [last][..0] == []; }
        QuotesAdd(before, [last]);
        assert d == before + [last];
      }
      forall i | 0 <= i < |d| && d[i] == NEWLINE ensures Even(d[..i]) {
        assert i <= |before| && d[..i] == before[..i];
        if i == |before| { assert before[..i] == before; }
      }
    }
  }

  lemma EnclosedIsNeutral(text: seq<Byte>)
    ensures Neutral(RenderField(Enclosed(text)))
  {
    InsideQuotes(text);
    var d := Doubled(text);
    var s := [QUOTE] + d + [QUOTE];
    assert Quotes([QUOTE]) == 1 by { assert [QUOTE][..0] == []; }
    QuotesAdd([QUOTE] + d, [QUOTE]);
    QuotesAdd([QUOTE], d);
    forall i | 0 <= i < |s| ensures !EndsRecord(s, i) {
      if 0 < i <= |d| && s[i] == NEWLINE {
        assert s[..i] == [QUOTE] + d[..i - 1];
        QuotesAdd([QUOTE], d[..i - 1]);
        assert Even(d[..i - 1]);
      }
    }
  }

  lemma FieldIsNeutral(field: Field)
    requires field.Bare? ==> PlainText(field.text)
    ensures Neutral(RenderField(field))
  {
    match field
    case Bare(text) => PlainIsNeutral(text);
    case Enclosed(text) => EnclosedIsNeutral(text);
  }

  lemma {:induction false} FieldsAreNeutral(fields: seq<Field>)
    requires PlainFields(fields)
    ensures Neutral(RenderFields(fields))
  {
    if fields != [] {
      var rest, last := fields[..|fields| - 1], fields[|fields| - 1];
      FieldsAreNeutral(rest);
      FieldIsNeutral(last);
      if rest == [] {
        assert RenderFields(fields) == RenderField(last);
      } else {
        PlainIsNeutral([COMMA]);
        NeutralAppend(RenderFields(rest), [COMMA]);
        NeutralAppend(RenderFields(rest) + [COMMA], RenderField(last));
      }
    }
  }

  /** A part of the stream that is one whole record. */
  ghost predicate Whole(part: seq<Byte>) {
    && part != [] && Even(part)
    && forall i {:trigger EndsRecord(part, i)} :: 0 <= i < |part| ==> (EndsRecord(part, i) <==> i == |part| - 1)
  }

  lemma NewlineEnds(body: seq<Byte>)
    requires Neutral(body)
    ensures Whole(body + [NEWLINE])
  {
    var s := body + [NEWLINE];
    assert Quotes([NEWLINE]) == 0 by { assert [NEWLINE][..0] == []; }
    QuotesAdd(body, [NEWLINE]);
    forall i | 0 <= i < |s| ensures EndsRecord(s, i) <==> i == |s| - 1 {
      if i < |body| { EndsInFirst(body, [NEWLINE], i); } else { assert s[..i] == body; }
    }
  }

  /** A rendered record ends with its last byte and not before. */
  lemma RecordIsWhole(record: Record)
    requires WellFormed(record)
    ensures Whole(Render(record))
  {
    var body := RenderFields(record.fields);
    FieldsAreNeutral(record.fields);
    if record.carriageReturn {
      PlainIsNeutral([RETURN]);
      NeutralAppend(body, [RETURN]);
      NewlineEnds(body + [RETURN]);
      assert body + [RETURN] + [NEWLINE] == body + [RETURN, NEWLINE];
    } else {
      NewlineEnds(body);
    }
  }

  /** Behind whole records, one more ends where its last byte is. */
  lemma OneMoreRecord(head: seq<Byte>, tail: seq<Byte>)
    requires Even(head) && Whole(tail)
    ensures Even(head + tail)
    ensures forall i {:trigger EndsRecord(head + tail, i)} :: EndsRecord(head + tail, i) <==>
              (if i < |head| then EndsRecord(head, i) else i == |head + tail| - 1)
  {
    QuotesAdd(head, tail);
    forall i ensures EndsRecord(head + tail, i) <==>
                (if i < |head| then EndsRecord(head, i) else i == |head + tail| - 1)
    {
      if i < |head| {
        EndsInFirst(head, tail, i);
      } else {
        EndsInSecond(head, tail, i - |head|);
        var ends := EndsRecord(tail, i - |head|);
      }
    }
  }

  /** The last byte of part `m` in the joined stream. */
  function EndOf(parts: seq<seq<Byte>>, m: nat): int
    requires m < |parts|
  {
    |Joined(parts[..m + 1])| - 1
  }

  ghost predicate EndsAPart(parts: seq<seq<Byte>>, i: int) {
    exists m :: 0 <= m < |parts| && i == EndOf(parts, m)
  }

  lemma EndsAPartNext(parts: seq<seq<Byte>>, i: int)
    requires parts != []
    ensures EndsAPart(parts, i) <==> EndsAPart(parts[..|parts| - 1], i) || i == |Joined(parts)| - 1
  {
    var n := |parts| - 1;
    assert parts[..n + 1] == parts;
    forall m | 0 <= m < n ensures EndOf(parts[..n], m) == EndOf(parts, m) {
      assert parts[..n][..m + 1] == parts[..m + 1];
    }
    assert EndOf(parts, n) == |Joined(parts)| - 1;
    if EndsAPart(parts[..n], i) {
      var m :| 0 <= m < n && i == EndOf(parts[..n], m);
      assert i == EndOf(parts, m);
    }
  }

  lemma {:induction false} PartsEnd(parts: seq<seq<Byte>>, i: int)
    requires forall part <- parts :: Whole(part)
    ensures Even(Joined(parts))
    ensures EndsRecord(Joined(parts), i) <==> EndsAPart(parts, i)
    ensures EndsAPart(parts, i) ==> 0 <= i < |Joined(parts)|
  {
    if parts != [] {
      var before, last := parts[..|parts| - 1], parts[|parts| - 1];
      PartsEnd(before, i);
      OneMoreRecord(Joined(before), last);
      EndsAPartNext(parts, i);
      var ends := EndsRecord(Joined(before) + last, i);
    }
  }

  lemma {:induction false} RenderedWhole(records: seq<Record>)
    requires forall record <- records :: WellFormed(record)
    ensures forall part <- Rendered(records) :: Whole(part)
  {
    if records != [] {
      RenderedWhole(records[..|records| - 1]);
      RecordIsWhole(records[|records| - 1]);
    }
  }

  lemma RestIsNeutral(file: File)
    requires WellFormedFile(file)
    ensures Neutral(Rest(file))
  {
    if file.last.Some? { FieldsAreNeutral(file.last.value); }
  }

  /** Nothing ends in what follows the last line break. */
  lemma RestEndsNothing(head: seq<Byte>, rest: seq<Byte>, i: int)
    requires Even(head) && Neutral(rest)
    ensures EndsRecord(head + rest, i) <==> EndsRecord(head, i)
  {
    if i < |head| {
      EndsInFirst(head, rest, i);
    } else {
      EndsInSecond(head, rest, i - |head|);
      var ends := EndsRecord(rest, i - |head|);
    }
  }

  /** In a well-formed file the bytes that end a record are exactly the line breaks its records end with. */
  lemma RecordsEndWhereWritten(file: File, i: int)
    requires WellFormedFile(file)
    ensures EndsRecord(RenderFile(file), i) <==> EndsAPart(Rendered(file.records), i)
  {
    RenderedWhole(file.records);
    PartsEnd(Rendered(file.records), i);
    RestIsNeutral(file);
    RestEndsNothing(Joined(Rendered(file.records)), Rest(file), i);
  }

  lemma LastPartExceeds(head: seq<Byte>, tail: seq<Byte>)
    requires !Exceeds(head) && Even(head) && (head == [] || EndsRecord(head, |head| - 1)) && Whole(tail)
    ensures Exceeds(head + tail) <==> |tail| > MAX_RECORD_BYTES
  {
    var s := head + tail;
    OneMoreRecord(head, tail);
    assert IsRecord(s, |head|, |s|);
    if Exceeds(s) {
      var start, end :| IsRecord(s, start, end) && end - start > MAX_RECORD_BYTES;
      var before := EndsRecord(s, start - 1);
      if end <= |head| {
        forall k | start <= k < end - 1 ensures !EndsRecord(head, k) {
          var ends := EndsRecord(s, k);
        }
        assert IsRecord(head, start, end);
      } else if start < |head| {
        var ends := EndsRecord(s, |head| - 1);
      }
    }
  }

  lemma {:induction false} PartsExceed(parts: seq<seq<Byte>>)
    requires forall part <- parts :: Whole(part)
    ensures Exceeds(Joined(parts)) <==> exists part <- parts :: |part| > MAX_RECORD_BYTES
  {
    if parts != [] {
      var before, last := parts[..|parts| - 1], parts[|parts| - 1];
      var head := Joined(before);
      PartsExceed(before);
      PartsEnd(before, |head| - 1);
      LastPartEnds(before);
      assert parts == before + [last];
      if Exceeds(head) {
        StaysExceeded(head, last);
      } else {
        LastPartExceeds(head, last);
      }
    }
  }

  lemma LastPartEnds(parts: seq<seq<Byte>>)
    requires forall part <- parts :: Whole(part)
    ensures Joined(parts) == [] || EndsRecord(Joined(parts), |Joined(parts)| - 1)
  {
    PartsEnd(parts, |Joined(parts)| - 1);
    if parts != [] { EndsAPartNext(parts, |Joined(parts)| - 1); }
  }

  lemma {:induction false} RenderedLengths(records: seq<Record>, limit: nat)
    ensures (exists part <- Rendered(records) :: |part| > limit)
        <==> exists record <- records :: |Render(record)| > limit
  {
    if records != [] {
      var before, last := records[..|records| - 1], records[|records| - 1];
      RenderedLengths(before, limit);
      assert records == before + [last];
      assert Rendered(records) == Rendered(before) + [Render(last)];
    }
  }

  lemma RestExceeds(head: seq<Byte>, rest: seq<Byte>)
    requires !Exceeds(head) && Even(head) && (head == [] || EndsRecord(head, |head| - 1)) && Neutral(rest)
    ensures Exceeds(head + rest) <==> |rest| > MAX_RECORD_BYTES
  {
    var s := head + rest;
    forall i ensures EndsRecord(s, i) <==> EndsRecord(head, i) { RestEndsNothing(head, rest, i); }
    assert IsRecord(s, |head|, |s|);
    if Exceeds(s) {
      var start, end :| IsRecord(s, start, end) && end - start > MAX_RECORD_BYTES;
      var before := EndsRecord(s, start - 1);
      if end <= |head| {
        assert IsRecord(head, start, end);
      } else if start < |head| {
        var ends := EndsRecord(s, |head| - 1);
      }
    }
  }

  /** The limit refuses a well-formed file exactly when one of its records is longer, line break included where it
      has one. */
  lemma FileExceeds(file: File)
    requires WellFormedFile(file)
    ensures Exceeds(RenderFile(file)) <==>
              || (exists record <- file.records :: |Render(record)| > 1_048_576)
              || |Rest(file)| > 1_048_576
  {
    var parts := Rendered(file.records);
    var head := Joined(parts);
    RenderedWhole(file.records);
    PartsExceed(parts);
    RenderedLengths(file.records, MAX_RECORD_BYTES);
    if Exceeds(head) {
      StaysExceeded(head, Rest(file));
    } else {
      PartsEnd(parts, |head| - 1);
      LastPartEnds(parts);
      RestIsNeutral(file);
      RestExceeds(head, Rest(file));
    }
  }
}
