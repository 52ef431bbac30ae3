/**
  Reversing a partition key: rebuilding the (column name, column value)
  pairs a key was generated from, given the template that generated it.
*/
module PartitionKey {
  import opened Wrappers
  import opened KeyCodec
  import PT = PartitionTemplate

  /** The name of the time column. */
  const TIME_COLUMN_NAME: string := "time"

  /** The longest a key part may be after encoding, before it is truncated. */
  const PARTITION_KEY_MAX_PART_LEN: nat := 200

  /** The value of a column, reversed from a partition key. */
  datatype ColumnValue =
      /** Exactly the column value (UTF-8 bytes). */
    | Identity(value: seq<byte>)
      /** A prefix of the column value, from a truncated key part. */
    | Prefix(value: seq<byte>)
      /** The time range `[begin, end)` a time part stands for, in nanoseconds since the epoch. */
    | Datetime(begin: int, end: int)
      /** The bucket a bucketed column value was hashed to. */
    | Bucket(id: u32, numBuckets: u32)

  /** `ColumnValue == str`: only an exact value can equal a string. */
  predicate Equals(v: ColumnValue, other: seq<byte>)
    ensures Equals(v, other) <==>
      v.Identity? && IsPrefixMatchOf(v, other) && |other| == |v.value|
  {
    match v
    case Identity(s) => other == s
    case Prefix(_) => false
    case Datetime(_, _) => false
    case Bucket(_, _) => false
  }

  /** `is_prefix_match_of`: the value's bytes start `other`. */
  predicate IsPrefixMatchOf(v: ColumnValue, other: seq<byte>)
    ensures IsPrefixMatchOf(v, other) <==>
      (v.Identity? || v.Prefix?) && |v.value| <= |other| && other[..|v.value|] == v.value
  {
    match v
    case Identity(s) => s <= other
    case Prefix(s) => s <= other
    case Datetime(_, _) => false
    case Bucket(_, _) => false
  }

  /**
    An equal value is also a prefix match; nothing but an exact value is ever
    equal, and neither a time range nor a bucket ever matches a string.
  */
  lemma EqualsIsPrefixMatch(v: ColumnValue, other: seq<byte>)
    ensures Equals(v, other) ==> IsPrefixMatchOf(v, other)
    ensures !v.Identity? ==> !Equals(v, other)
    ensures v.Identity? ==> (Equals(v, other) <==> other == v.value)
    ensures (v.Identity? || v.Prefix?) ==> (IsPrefixMatchOf(v, other) <==> v.value <= other)
    ensures (v.Datetime? || v.Bucket?) ==> !IsPrefixMatchOf(v, other)
  {
  }

  /** The panics of `build_column_values` on a key the template did not generate. */
  datatype KeyPanic =
      /** A tag-value part that is not UTF-8 once percent-decoded. */
    | InvalidPartEncoding
      /** A bucket part that is not a 32-bit unsigned number. */
    | InvalidBucketEncoding
      /** A bucket id not below the part's bucket count. */
    | BucketIdOutOfRange(id: u32, numBuckets: u32)

  // ---------------------------------------------------------------------
  // Tag-value parts

  /**
    `parse_part_tag_value`: `^` stands for the empty value; otherwise the
    part is percent-decoded, and a part whose last encoded byte is `#` was
    truncated and gives a prefix without that marker.
  */
  function ParsePartTagValue(value: seq<byte>): (r: Result<ColumnValue, KeyPanic>)
    ensures r.Success? ==> (r.value.Identity? || r.value.Prefix?) && ValidUtf8(r.value.value)
    ensures r.Failure? ==> r.error == InvalidPartEncoding
  {
    var v := if value == PARTITION_KEY_VALUE_EMPTY_STR then [] else value;
    var decoded := PercentDecode(v);
    if !ValidUtf8(decoded) then Failure(InvalidPartEncoding)
    else if |v| > 0 && v[|v| - 1] == PARTITION_KEY_PART_TRUNCATED then
      TruncatedDecodesWithMarker(v);
      Success(Prefix(decoded[..|decoded| - 1]))
    else Success(Identity(decoded))
  }

  /**
    The marker survives decoding as the last byte, so removing it cuts the
    decoded value at a character boundary and leaves it well-formed.
  */
  lemma TruncatedDecodesWithMarker(v: seq<byte>)
    requires |v| > 0 && v[|v| - 1] == PARTITION_KEY_PART_TRUNCATED
    requires ValidUtf8(PercentDecode(v))
    ensures var d := PercentDecode(v);
      |d| > 0 && d[..|d| - 1] == PercentDecode(v[..|v| - 1]) && ValidUtf8(d[..|d| - 1])
  {
    var s := v[..|v| - 1];
    assert v == s + [PARTITION_KEY_PART_TRUNCATED];
    DecodeAppendLiteral(s, PARTITION_KEY_PART_TRUNCATED);
    var d := PercentDecode(v);
    assert d[..|d| - 1] == PercentDecode(s);
    ValidUtf8DropAscii(PercentDecode(s), PARTITION_KEY_PART_TRUNCATED);
  }

  /** The key part the generator writes for a present, untruncated tag value. */
  function EncodeTagValue(v: seq<byte>): (r: seq<byte>)
    ensures |r| > 0
  {
    if v == [] then PARTITION_KEY_VALUE_EMPTY_STR
    else
      EncodeLength(v);
      PercentEncode(v)
  }

  /** A present value never encodes to the NULL sentinel. */
  lemma EncodedTagValueNotNull(v: seq<byte>)
    ensures EncodeTagValue(v) != PARTITION_KEY_VALUE_NULL_STR
  {
    if v != [] {
      EncodeHasNoRawSentinel(v);
      assert EncodeTagValue(v)[0] != PARTITION_KEY_VALUE_NULL;
    }
  }

  /** A tag value written by the generator reads back as exactly that value. */
  lemma TagValueRoundTrip(v: seq<byte>)
    requires ValidUtf8(v)
    ensures ParsePartTagValue(EncodeTagValue(v)) == Success(Identity(v))
  {
    if v != [] {
      var e := PercentEncode(v);
      EncodeLength(v);
      EncodeHasNoRawSentinel(v);
      DecodeEncode(v);
      assert e[0] != PARTITION_KEY_VALUE_EMPTY;
      assert e[|e| - 1] != PARTITION_KEY_PART_TRUNCATED;
    }
  }

  /**
    A truncated key part (the encoding of a prefix, then `#`) reads back as
    that prefix, which prefix-matches the original value but equals nothing.
  */
  lemma TruncatedRoundTrip(p: seq<byte>, original: seq<byte>)
    requires ValidUtf8(p) && p <= original
    ensures ParsePartTagValue(PercentEncode(p) + [PARTITION_KEY_PART_TRUNCATED]) == Success(Prefix(p))
    ensures IsPrefixMatchOf(Prefix(p), original)
    ensures forall other :: !Equals(Prefix(p), other)
  {
    var k := PercentEncode(p) + [PARTITION_KEY_PART_TRUNCATED];
    TruncatedKeyIsNotEmptyMarker(p);
    TruncatedKeyDecodes(p);
    var d := PercentDecode(k);
    assert d[..|d| - 1] == p;
  }

  lemma TruncatedKeyIsNotEmptyMarker(p: seq<byte>)
    ensures PercentEncode(p) + [PARTITION_KEY_PART_TRUNCATED] != PARTITION_KEY_VALUE_EMPTY_STR
  {
    var k := PercentEncode(p) + [PARTITION_KEY_PART_TRUNCATED];
    if PercentEncode(p) == [] {
      assert k == [PARTITION_KEY_PART_TRUNCATED];
    } else {
      EncodeHasNoRawSentinel(p);
      assert k[0] == PercentEncode(p)[0];
    }
  }

  lemma TruncatedKeyDecodes(p: seq<byte>)
    requires ValidUtf8(p)
    ensures PercentDecode(PercentEncode(p) + [PARTITION_KEY_PART_TRUNCATED]) == p + [PARTITION_KEY_PART_TRUNCATED]
    ensures ValidUtf8(p + [PARTITION_KEY_PART_TRUNCATED])
  {
    DecodeEncodeAppend(p, [PARTITION_KEY_PART_TRUNCATED]);
    DecodeLiteral(PARTITION_KEY_PART_TRUNCATED);
    assert ValidUtf8([PARTITION_KEY_PART_TRUNCATED]);
    ValidUtf8Append(p, [PARTITION_KEY_PART_TRUNCATED]);
  }

  // ---------------------------------------------------------------------
  // Bucket parts

  /** `parse_part_bucket`: a decimal id, which must be below the bucket count. */
  function ParsePartBucket(value: seq<byte>, numBuckets: u32): (r: Result<ColumnValue, KeyPanic>)
    ensures r.Success? ==> r.value.Bucket? && r.value.numBuckets == numBuckets && r.value.id < numBuckets
    ensures r.Success? <==> ParseU32(value).Some? && ParseU32(value).value < numBuckets
    ensures r.Success? ==> r.value.id == ParseU32(value).value
    ensures ParseU32(value).None? ==> r == Failure(InvalidBucketEncoding)
    ensures ParseU32(value).Some? && ParseU32(value).value >= numBuckets ==>
      r == Failure(BucketIdOutOfRange(ParseU32(value).value, numBuckets))
  {
    match ParseU32(value)
    case None => Failure(InvalidBucketEncoding)
    case Some(id) =>
      if id < numBuckets then Success(Bucket(id, numBuckets)) else Failure(BucketIdOutOfRange(id, numBuckets))
  }

  /** The key part the generator writes for a present value of a bucketed column. */
  function EncodeBucket(hash: PT.IcebergHash, v: seq<byte>, numBuckets: u32): seq<byte>
    requires numBuckets > 0
  {
    Decimal(PT.BucketForTagValue(hash, v, numBuckets) as nat)
  }

  /** A bucket part written by the generator reads back as the bucket of the value. */
  lemma BucketRoundTrip(hash: PT.IcebergHash, v: seq<byte>, numBuckets: u32)
    requires numBuckets > 0
    ensures ParsePartBucket(EncodeBucket(hash, v, numBuckets), numBuckets)
      == Success(Bucket(PT.BucketForTagValue(hash, v, numBuckets), numBuckets))
  {
    ParseDecimal(PT.BucketForTagValue(hash, v, numBuckets));
  }

  // ---------------------------------------------------------------------
  // Time parts

  /** The fields of chrono's `Parsed` that implicit defaults read and fill. */
  datatype Parsed = Parsed(
    year: Option<int>,
    month: Option<int>,
    day: Option<int>,
    hourDiv12: Option<int>,
    hourMod12: Option<int>,
    minute: Option<int>,
    second: Option<int>,
    nanosecond: Option<int>)

  /**
    Whether the fields that are present pin down a time from the start of
    the year downwards, with no gap: a year, and each finer field only when
    every coarser one is there (both hour halves counting as one field).
  */
  predicate DefaultsApply(p: Parsed) {
    p.year.Some?
    && (p.month.None? ==> p.day.None?)
    && (p.day.None? ==> p.hourDiv12.None? && p.hourMod12.None?)
    && ((p.hourDiv12.None? || p.hourMod12.None?) ==> p.hourDiv12.None? && p.hourMod12.None? && p.minute.None?)
    && (p.minute.None? ==> p.second.None? && p.nanosecond.None?)
  }

  function OrElse(o: Option<int>, d: int): Option<int> {
    if o.Some? then o else Some(d)
  }

  /**
    The completed time: missing month and day become 1, missing hour and
    minute become 0; a time with a gap has no completion.
  */
  function WithDefaults(p: Parsed): Option<Parsed> {
    if !DefaultsApply(p) then None
    else Some(p.(month := OrElse(p.month, 1), day := OrElse(p.day, 1),
                 hourDiv12 := OrElse(p.hourDiv12, 0), hourMod12 := OrElse(p.hourMod12, 0),
                 minute := OrElse(p.minute, 0)))
  }

  /** `parsed_implicit_defaults`: fill the fields from the month down, bailing out on a gap. */
  method ParsedImplicitDefaults(p: Parsed) returns (r: Option<Parsed>)
    ensures r == WithDefaults(p)
  {
    var parsed := p;
    if parsed.year.None? {
      return None;
    }
    if parsed.month.None? {
      if parsed.day.Some? {
        return None;
      }
      parsed := parsed.(month := Some(1));
    }
    if parsed.day.None? {
      if parsed.hourDiv12.Some? || parsed.hourMod12.Some? {
        return None;
      }
      parsed := parsed.(day := Some(1));
    }
    if parsed.hourDiv12.None? || parsed.hourMod12.None? {
      if parsed.hourDiv12.Some? {
        return None;
      }
      if parsed.hourMod12.Some? {
        return None;
      }
      if parsed.minute.Some? {
        return None;
      }
      parsed := parsed.(hourDiv12 := Some(0), hourMod12 := Some(0));
    }
    if parsed.minute.None? {
      if parsed.second.Some? {
        return None;
      }
      if parsed.nanosecond.Some? {
        return None;
      }
      parsed := parsed.(minute := Some(0));
    }
    return Some(parsed);
  }

  /**
    A completion keeps every field that was present, has every field down to
    the minute, and is its own completion.
  */
  lemma WithDefaultsCompletes(p: Parsed)
    ensures WithDefaults(p).Some? ==>
      var q := WithDefaults(p).value;
      q.year == p.year && q.second == p.second && q.nanosecond == p.nanosecond
      && (p.month.Some? ==> q.month == p.month) && (p.day.Some? ==> q.day == p.day)
      && (p.hourDiv12.Some? ==> q.hourDiv12 == p.hourDiv12) && (p.hourMod12.Some? ==> q.hourMod12 == p.hourMod12)
      && (p.minute.Some? ==> q.minute == p.minute)
      && q.month.Some? && q.day.Some? && q.hourDiv12.Some? && q.hourMod12.Some? && q.minute.Some?
      && WithDefaults(q) == Some(q)
  {
  }

  /** No completion without a year, nor for a day without a month. */
  lemma WithDefaultsRejectsGaps(p: Parsed)
    ensures p.year.None? ==> WithDefaults(p).None?
    ensures p.day.Some? && p.month.None? ==> WithDefaults(p).None?
    ensures (p.hourDiv12.Some? || p.hourMod12.Some?) && p.day.None? ==> WithDefaults(p).None?
    ensures (p.second.Some? || p.nanosecond.Some?) && p.minute.None? ==> WithDefaults(p).None?
  {
  }

  /**
    The calendar side of chrono: parsing a key part with a strftime format,
    and turning a completed time into the `[begin, end)` range its finest
    field implies (`None` for formats with fields other than year, month or
    day, or that do not convert to a date).
  */
  datatype Chrono = Chrono(
    parse: (seq<byte>, string) -> Option<Parsed>,
    range: (Parsed, string) -> Option<(int, int)>)

  /** `parse_part_time_format`: parse, complete with defaults, then find the range. */
  function ParsePartTimeFormat(value: seq<byte>, format: string, chrono: Chrono): (r: Option<ColumnValue>)
    ensures r.Some? ==> r.value.Datetime?
    ensures r.Some? ==> chrono.parse(value, format).Some? && WithDefaults(chrono.parse(value, format).value).Some?
    ensures chrono.parse(value, format).Some? && WithDefaults(chrono.parse(value, format).value).Some? ==>
      var completed := WithDefaults(chrono.parse(value, format).value).value;
      (r.Some? <==> chrono.range(completed, format).Some?)
      && (r.Some? ==> r.value == Datetime(chrono.range(completed, format).value.0, chrono.range(completed, format).value.1))
  {
    match chrono.parse(value, format)
    case None => None
    case Some(parsed) =>
      match WithDefaults(parsed)
      case None => None
      case Some(completed) =>
        match chrono.range(completed, format)
        case None => None
        case Some((begin, end)) => Some(Datetime(begin, end))
  }

  // ---------------------------------------------------------------------
  // Whole keys

  /** The column a template part describes. */
  function ColumnName(part: PT.TemplatePart): string {
    match part
    case TagValue(name) => name
    case TimeFormat(_) => TIME_COLUMN_NAME
    case Bucket(name, _) => name
  }

  /**
    One non-NULL key part read through its template part: an entry, nothing
    (a time part that does not parse to a range), or a panic.
  */
  function ParsePart(part: PT.TemplatePart, value: seq<byte>, chrono: Chrono)
    : (r: Result<Option<(string, ColumnValue)>, KeyPanic>)
    ensures r.Success? && r.value.Some? ==> r.value.value.0 == ColumnName(part)
  {
    match part
    case TagValue(name) =>
      (match ParsePartTagValue(value)
       case Success(cv) => Success(Some((name, cv)))
       case Failure(e) => Failure(e))
    case TimeFormat(format) =>
      (match ParsePartTimeFormat(value, format, chrono)
       case Some(cv) => Success(Some((TIME_COLUMN_NAME, cv)))
       case None => Success(None))
    case Bucket(name, numBuckets) =>
      (match ParsePartBucket(value, numBuckets)
       case Success(cv) => Success(Some((name, cv)))
       case Failure(e) => Failure(e))
  }

  /**
    Template parts zipped with key parts (stopping at the shorter), NULL
    key parts skipped, entries kept in template order; the first panic wins.
  */
  function ZipParts(parts: seq<PT.TemplatePart>, keyParts: seq<seq<byte>>, chrono: Chrono)
    : (r: Result<seq<(string, ColumnValue)>, KeyPanic>)
    ensures r.Success? ==> |r.value| <= |parts| && |r.value| <= |keyParts|
    decreases |parts|
  {
    if parts == [] || keyParts == [] then Success([])
    else
      var rest := ZipParts(parts[1..], keyParts[1..], chrono);
      if keyParts[0] == PARTITION_KEY_VALUE_NULL_STR then rest
      else match ParsePart(parts[0], keyParts[0], chrono)
        case Failure(e) => Failure(e)
        case Success(None) => rest
        case Success(Some(entry)) =>
          if rest.Failure? then rest else Success([entry] + rest.value)
  }

  /** `build_column_values`, evaluated to the end. */
  function BuildColumnValues(template: PT.TablePartitionTemplateOverride, partitionKey: seq<byte>, chrono: Chrono)
    : (r: Result<seq<(string, ColumnValue)>, KeyPanic>)
    ensures r.Success? ==> |r.value| <= PT.Len(template)
    ensures r.Success? ==> |r.value| <= |Split(partitionKey, PARTITION_KEY_DELIMITER)|
  {
    ZipParts(PT.Parts(template), Split(partitionKey, PARTITION_KEY_DELIMITER), chrono)
  }

  function Shift(s: seq<nat>): (r: seq<nat>)
    ensures |r| == |s| && forall k :: 0 <= k < |s| ==> r[k] == s[k] + 1
  {
    seq(|s|, k requires 0 <= k < |s| => s[k] + 1)
  }

  /** The positions of a zip whose non-NULL key part parses to an entry. */
  predicate Emits(parts: seq<PT.TemplatePart>, keyParts: seq<seq<byte>>, chrono: Chrono, i: int) {
    0 <= i < |parts| && i < |keyParts| && keyParts[i] != PARTITION_KEY_VALUE_NULL_STR
    && ParsePart(parts[i], keyParts[i], chrono).Success? && ParsePart(parts[i], keyParts[i], chrono).value.Some?
  }

  lemma EmitsTail(parts: seq<PT.TemplatePart>, keyParts: seq<seq<byte>>, chrono: Chrono, i: int)
    requires |parts| > 0 && |keyParts| > 0 && i > 0
    ensures Emits(parts, keyParts, chrono, i) <==> Emits(parts[1..], keyParts[1..], chrono, i - 1)
  {
    if 0 < i < |parts| && i < |keyParts| {
      assert parts[1..][i - 1] == parts[i] && keyParts[1..][i - 1] == keyParts[i];
    }
  }

  /** Entry `k` of `out` is what the key part at position `idx[k]` parses to. */
  predicate EntriesFrom(parts: seq<PT.TemplatePart>, keyParts: seq<seq<byte>>, chrono: Chrono,
                        out: seq<(string, ColumnValue)>, idx: seq<nat>) {
    |idx| == |out|
    && forall k :: 0 <= k < |idx| ==>
         Emits(parts, keyParts, chrono, idx[k]) && ParsePart(parts[idx[k]], keyParts[idx[k]], chrono) == Success(Some(out[k]))
  }

  predicate Increasing(idx: seq<nat>) {
    forall k, l :: 0 <= k < l < |idx| ==> idx[k] < idx[l]
  }

  /** Every position that yields an entry is among `idx`. */
  predicate Covers(parts: seq<PT.TemplatePart>, keyParts: seq<seq<byte>>, chrono: Chrono, idx: seq<nat>) {
    forall i :: 0 <= i < |parts| && Emits(parts, keyParts, chrono, i) ==> i in idx
  }

  lemma ShiftEntries(parts: seq<PT.TemplatePart>, keyParts: seq<seq<byte>>, chrono: Chrono,
                     out: seq<(string, ColumnValue)>, tail: seq<nat>)
    requires |parts| > 0 && |keyParts| > 0
    requires EntriesFrom(parts[1..], keyParts[1..], chrono, out, tail) && Increasing(tail)
    requires Covers(parts[1..], keyParts[1..], chrono, tail)
    ensures EntriesFrom(parts, keyParts, chrono, out, Shift(tail)) && Increasing(Shift(tail))
    ensures forall i :: 0 < i < |parts| && Emits(parts, keyParts, chrono, i) ==> i in Shift(tail)
  {
    var shifted := Shift(tail);
    forall k | 0 <= k < |tail|
      ensures Emits(parts, keyParts, chrono, shifted[k])
      ensures ParsePart(parts[shifted[k]], keyParts[shifted[k]], chrono) == Success(Some(out[k]))
    {
      EmitsTail(parts, keyParts, chrono, shifted[k]);
      assert parts[1..][tail[k]] == parts[shifted[k]] && keyParts[1..][tail[k]] == keyParts[shifted[k]];
    }
    forall i | 0 < i < |parts| && Emits(parts, keyParts, chrono, i) ensures i in shifted {
      EmitsTail(parts, keyParts, chrono, i);
      var k :| 0 <= k < |tail| && tail[k] == i - 1;
      assert shifted[k] == i;
    }
  }

  lemma ConsEntries(parts: seq<PT.TemplatePart>, keyParts: seq<seq<byte>>, chrono: Chrono,
                    out: seq<(string, ColumnValue)>, idx: seq<nat>)
    requires Emits(parts, keyParts, chrono, 0)
    requires EntriesFrom(parts, keyParts, chrono, out, idx) && Increasing(idx)
    requires forall k :: 0 <= k < |idx| ==> idx[k] > 0
    ensures EntriesFrom(parts, keyParts, chrono, [ParsePart(parts[0], keyParts[0], chrono).value.value] + out, [0] + idx)
    ensures Increasing([0] + idx)
  {
    var e := ParsePart(parts[0], keyParts[0], chrono).value.value;
    var out' := [e] + out;
    var idx' := [0] + idx;
    forall k | 0 < k < |idx'| ensures idx'[k] == idx[k - 1] && out'[k] == out[k - 1] {
    }
  }

  /** One step of the zip: the head position contributes its entry exactly when it emits one. */
  lemma ZipStep(parts: seq<PT.TemplatePart>, keyParts: seq<seq<byte>>, chrono: Chrono)
    requires |parts| > 0 && |keyParts| > 0 && ZipParts(parts, keyParts, chrono).Success?
    ensures ZipParts(parts[1..], keyParts[1..], chrono).Success?
    ensures Emits(parts, keyParts, chrono, 0) ==>
      ZipParts(parts, keyParts, chrono).value
        == [ParsePart(parts[0], keyParts[0], chrono).value.value] + ZipParts(parts[1..], keyParts[1..], chrono).value
    ensures !Emits(parts, keyParts, chrono, 0) ==>
      ZipParts(parts, keyParts, chrono).value == ZipParts(parts[1..], keyParts[1..], chrono).value
  {
  }

  /**
    Every entry comes from a distinct position, in increasing order, whose
    key part is not NULL and which parses to that entry; and every such
    position yields an entry.
  */
  lemma {:induction false} ZipProvenance(parts: seq<PT.TemplatePart>, keyParts: seq<seq<byte>>, chrono: Chrono)
    returns (idx: seq<nat>)
    requires ZipParts(parts, keyParts, chrono).Success?
    ensures EntriesFrom(parts, keyParts, chrono, ZipParts(parts, keyParts, chrono).value, idx)
    ensures Increasing(idx) && Covers(parts, keyParts, chrono, idx)
    decreases |parts|
  {
    if parts == [] || keyParts == [] {
      idx := [];
    } else {
      ZipStep(parts, keyParts, chrono);
      var out := ZipParts(parts, keyParts, chrono).value;
      var rest := ZipParts(parts[1..], keyParts[1..], chrono).value;
      var tail := ZipProvenance(parts[1..], keyParts[1..], chrono);
      ShiftEntries(parts, keyParts, chrono, rest, tail);
      var shifted := Shift(tail);
      if Emits(parts, keyParts, chrono, 0) {
        ConsEntries(parts, keyParts, chrono, rest, shifted);
        idx := [0] + shifted;
      } else {
        idx := shifted;
      }
    }
  }

  /**
    A key fails to reverse exactly when some non-NULL key part within the
    zip fails to parse, and the panic is that of the first such part.
  */
  lemma {:induction false} ZipFailure(parts: seq<PT.TemplatePart>, keyParts: seq<seq<byte>>, chrono: Chrono)
    ensures ZipParts(parts, keyParts, chrono).Failure? <==>
      exists i :: 0 <= i < |parts| && i < |keyParts| && keyParts[i] != PARTITION_KEY_VALUE_NULL_STR
        && ParsePart(parts[i], keyParts[i], chrono).Failure?
    ensures ZipParts(parts, keyParts, chrono).Failure? ==>
      exists i :: 0 <= i < |parts| && i < |keyParts| && keyParts[i] != PARTITION_KEY_VALUE_NULL_STR
        && ParsePart(parts[i], keyParts[i], chrono) == Failure(ZipParts(parts, keyParts, chrono).error)
        && forall j :: 0 <= j < i && keyParts[j] != PARTITION_KEY_VALUE_NULL_STR ==>
             ParsePart(parts[j], keyParts[j], chrono).Success?
    decreases |parts|
  {
    if parts != [] && keyParts != [] {
      ZipFailure(parts[1..], keyParts[1..], chrono);
      var r := ZipParts(parts, keyParts, chrono);
      var rest := ZipParts(parts[1..], keyParts[1..], chrono);
      var head := keyParts[0] != PARTITION_KEY_VALUE_NULL_STR && ParsePart(parts[0], keyParts[0], chrono).Failure?;
      if head {
        assert r == Failure(ParsePart(parts[0], keyParts[0], chrono).error);
      } else {
        assert r.Failure? <==> rest.Failure?;
        if rest.Failure? {
          assert r.error == rest.error;
          var i :| 0 <= i < |parts[1..]| && i < |keyParts[1..]| && keyParts[1..][i] != PARTITION_KEY_VALUE_NULL_STR
            && ParsePart(parts[1..][i], keyParts[1..][i], chrono) == Failure(rest.error)
            && forall j :: 0 <= j < i && keyParts[1..][j] != PARTITION_KEY_VALUE_NULL_STR ==>
                 ParsePart(parts[1..][j], keyParts[1..][j], chrono).Success?;
          assert keyParts[i + 1] != PARTITION_KEY_VALUE_NULL_STR
            && ParsePart(parts[i + 1], keyParts[i + 1], chrono) == Failure(r.error);
          forall j | 0 <= j < i + 1 && keyParts[j] != PARTITION_KEY_VALUE_NULL_STR
            ensures ParsePart(parts[j], keyParts[j], chrono).Success?
          {
            if j > 0 { assert parts[1..][j - 1] == parts[j] && keyParts[1..][j - 1] == keyParts[j]; }
          }
        } else {
          forall i | 0 <= i < |parts| && i < |keyParts| && keyParts[i] != PARTITION_KEY_VALUE_NULL_STR
            ensures ParsePart(parts[i], keyParts[i], chrono).Success?
          {
            if i > 0 { assert parts[1..][i - 1] == parts[i] && keyParts[1..][i - 1] == keyParts[i]; }
          }
        }
      }
    }
  }

  // ---------------------------------------------------------------------
  // The generator's key format, and reversing it

  /** A template part the reference encoder covers: a tag value, or a bucket with at least one bucket. */
  predicate Encodable(part: PT.TemplatePart) {
    part.TagValue? || (part.Bucket? && part.numBuckets > 0)
  }

  /** The key part written for one template part and the row's value of its column (if any). */
  function EncodeKeyPart(part: PT.TemplatePart, value: Option<seq<byte>>, hash: PT.IcebergHash): (r: seq<byte>)
    requires Encodable(part)
    ensures r != PARTITION_KEY_VALUE_NULL_STR <==> value.Some?
    ensures PARTITION_KEY_DELIMITER !in r
  {
    match value
    case None => PARTITION_KEY_VALUE_NULL_STR
    case Some(v) =>
      if part.Bucket? then
        DecimalHasNoReserved(PT.BucketForTagValue(hash, v, part.numBuckets) as nat);
        EncodeBucket(hash, v, part.numBuckets)
      else
        EncodedTagValueNotNull(v);
        EncodeHasNoRawSentinel(v);
        EncodeTagValue(v)
  }

  function EncodeKeyParts(parts: seq<PT.TemplatePart>, values: seq<Option<seq<byte>>>, hash: PT.IcebergHash)
    : (r: seq<seq<byte>>)
    requires |parts| == |values| && forall i :: 0 <= i < |parts| ==> Encodable(parts[i])
    ensures |r| == |parts|
    ensures forall i :: 0 <= i < |r| ==> r[i] == EncodeKeyPart(parts[i], values[i], hash)
    decreases |parts|
  {
    if parts == [] then []
    else [EncodeKeyPart(parts[0], values[0], hash)] + EncodeKeyParts(parts[1..], values[1..], hash)
  }

  /** The partition key of a row: the key parts of the template, joined by `|`. */
  function GenerateKey(parts: seq<PT.TemplatePart>, values: seq<Option<seq<byte>>>, hash: PT.IcebergHash): seq<byte>
    requires 1 <= |parts| == |values| && forall i :: 0 <= i < |parts| ==> Encodable(parts[i])
  {
    Join(EncodeKeyParts(parts, values, hash), PARTITION_KEY_DELIMITER)
  }

  /** What a row's key should reverse to: one entry per present value, in template order. */
  function RowColumnValues(parts: seq<PT.TemplatePart>, values: seq<Option<seq<byte>>>, hash: PT.IcebergHash)
    : seq<(string, ColumnValue)>
    requires |parts| == |values| && forall i :: 0 <= i < |parts| ==> Encodable(parts[i])
    decreases |parts|
  {
    if parts == [] then []
    else
      var rest := RowColumnValues(parts[1..], values[1..], hash);
      match values[0]
      case None => rest
      case Some(v) =>
        assert Encodable(parts[0]);
        if parts[0].Bucket? then
          [(parts[0].tagName, Bucket(PT.BucketForTagValue(hash, v, parts[0].numBuckets), parts[0].numBuckets))] + rest
        else [(parts[0].tagName, Identity(v))] + rest
  }

  lemma {:induction false} ZipEncodedParts(parts: seq<PT.TemplatePart>, values: seq<Option<seq<byte>>>,
                                           hash: PT.IcebergHash, chrono: Chrono)
    requires |parts| == |values| && forall i :: 0 <= i < |parts| ==> Encodable(parts[i])
    requires forall i :: 0 <= i < |values| && values[i].Some? ==> ValidUtf8(values[i].value)
    ensures ZipParts(parts, EncodeKeyParts(parts, values, hash), chrono) == Success(RowColumnValues(parts, values, hash))
    decreases |parts|
  {
    if parts != [] {
      var keyParts := EncodeKeyParts(parts, values, hash);
      assert keyParts[1..] == EncodeKeyParts(parts[1..], values[1..], hash);
      ZipEncodedParts(parts[1..], values[1..], hash, chrono);
      if values[0].Some? {
        var v := values[0].value;
        assert Encodable(parts[0]);
        if parts[0].Bucket? {
          BucketRoundTrip(hash, v, parts[0].numBuckets);
        } else {
          TagValueRoundTrip(v);
        }
      }
    }
  }

  /**
    Reversing the key generated for a row gives back, in template order,
    every column the row has a value for: tag values exactly, bucketed
    columns as their bucket. (Time parts are left to chrono.)
  */
  lemma ReverseGeneratedKey(template: PT.TablePartitionTemplateOverride, values: seq<Option<seq<byte>>>,
                            hash: PT.IcebergHash, chrono: Chrono)
    requires var parts := PT.Parts(template);
      1 <= |parts| == |values| && forall i :: 0 <= i < |parts| ==> Encodable(parts[i])
    requires forall i :: 0 <= i < |values| && values[i].Some? ==> ValidUtf8(values[i].value)
    ensures BuildColumnValues(template, GenerateKey(PT.Parts(template), values, hash), chrono)
      == Success(RowColumnValues(PT.Parts(template), values, hash))
  {
    var parts := PT.Parts(template);
    var keyParts := EncodeKeyParts(parts, values, hash);
    SplitJoin(keyParts, PARTITION_KEY_DELIMITER);
    ZipEncodedParts(parts, values, hash, chrono);
  }

  /**
    With at most eight parts of at most 200 bytes each, a key is at most
    1607 bytes long.
  */
  lemma MaxKeyLength(keyParts: seq<seq<byte>>)
    requires 1 <= |keyParts| <= PT.MAXIMUM_NUMBER_OF_TEMPLATE_PARTS
    requires forall i :: 0 <= i < |keyParts| ==> |keyParts[i]| <= PARTITION_KEY_MAX_PART_LEN
    ensures |Join(keyParts, PARTITION_KEY_DELIMITER)| <= 1607
  {
    JoinLength(keyParts, PARTITION_KEY_DELIMITER);
    TotalLengthBound(keyParts, PARTITION_KEY_MAX_PART_LEN);
  }

  // ---------------------------------------------------------------------
  // The repository's examples

  // Keys and values are written as their ASCII bytes; the comment of each
  // lemma gives the text.

  lemma Join3(a: seq<byte>, b: seq<byte>, c: seq<byte>, d: byte)
    ensures Join([a, b, c], d) == a + [d] + b + [d] + c
  {
    assert [a, b, c][1..] == [b, c];
    assert [b, c][1..] == [c];
    assert Join([c], d) == c;
    assert Join([b, c], d) == b + [d] + c;
  }

  /** Three bucket parts zipped with three key parts. */
  lemma ZipThreeBuckets(a: (string, u32), b: (string, u32), c: (string, u32),
                        ka: seq<byte>, kb: seq<byte>, kc: seq<byte>, chrono: Chrono)
    requires ka != PARTITION_KEY_VALUE_NULL_STR && kb != PARTITION_KEY_VALUE_NULL_STR && kc != PARTITION_KEY_VALUE_NULL_STR
    ensures var ps := [PT.Bucket(a.0, a.1), PT.Bucket(b.0, b.1), PT.Bucket(c.0, c.1)];
      var ra, rb, rc := ParsePartBucket(ka, a.1), ParsePartBucket(kb, b.1), ParsePartBucket(kc, c.1);
      ZipParts(ps, [ka, kb, kc], chrono) ==
        if ra.Failure? then Failure(ra.error)
        else if rb.Failure? then Failure(rb.error)
        else if rc.Failure? then Failure(rc.error)
        else Success([(a.0, ra.value), (b.0, rb.value), (c.0, rc.value)])
  {
    var ps := [PT.Bucket(a.0, a.1), PT.Bucket(b.0, b.1), PT.Bucket(c.0, c.1)];
    var ks := [ka, kb, kc];
    var ra, rb, rc := ParsePartBucket(ka, a.1), ParsePartBucket(kb, b.1), ParsePartBucket(kc, c.1);
    assert ps[1..] == [PT.Bucket(b.0, b.1), PT.Bucket(c.0, c.1)] && ks[1..] == [kb, kc];
    assert ps[1..][1..] == [PT.Bucket(c.0, c.1)] && ks[1..][1..] == [kc];
    assert ps[1..][1..][1..] == [] && ks[1..][1..][1..] == [];
    assert [PT.Bucket(c.0, c.1)][1..] == [] && [kc][1..] == [];
    assert ZipParts([], [], chrono) == Success([]);
    assert ParsePart(PT.Bucket(c.0, c.1), kc, chrono) == if rc.Failure? then Failure(rc.error) else Success(Some((c.0, rc.value)));
    assert ParsePart(PT.Bucket(b.0, b.1), kb, chrono) == if rb.Failure? then Failure(rb.error) else Success(Some((b.0, rb.value)));
    assert ParsePart(PT.Bucket(a.0, a.1), ka, chrono) == if ra.Failure? then Failure(ra.error) else Success(Some((a.0, ra.value)));
    var z3 := ZipParts([PT.Bucket(c.0, c.1)], [kc], chrono);
    assert [PT.Bucket(c.0, c.1)][0] == PT.Bucket(c.0, c.1) && [kc][0] == kc;
    assert rc.Failure? ==> z3 == Failure(rc.error);
    if rc.Success? {
      assert [(c.0, rc.value)] + [] == [(c.0, rc.value)];
    }
    assert z3 == if rc.Failure? then Failure(rc.error) else Success([(c.0, rc.value)]);
    var z2 := ZipParts([PT.Bucket(b.0, b.1), PT.Bucket(c.0, c.1)], [kb, kc], chrono);
    assert z2 == if rb.Failure? then Failure(rb.error) else if z3.Failure? then z3 else Success([(b.0, rb.value)] + z3.value);
    if ra.Success? && rb.Success? && rc.Success? {
      assert [(a.0, ra.value)] + ([(b.0, rb.value)] + [(c.0, rc.value)]) == [(a.0, ra.value), (b.0, rb.value), (c.0, rc.value)];
    }
  }

  lemma SplitThree(a: seq<byte>, b: seq<byte>, c: seq<byte>)
    requires PARTITION_KEY_DELIMITER !in a && PARTITION_KEY_DELIMITER !in b && PARTITION_KEY_DELIMITER !in c
    ensures Split(a + [PARTITION_KEY_DELIMITER] + b + [PARTITION_KEY_DELIMITER] + c, PARTITION_KEY_DELIMITER) == [a, b, c]
  {
    Join3(a, b, c, PARTITION_KEY_DELIMITER);
    SplitJoin([a, b, c], PARTITION_KEY_DELIMITER);
  }

  /** Reading back a three-part key under a template of three bucket parts. */
  lemma BuildThreeBuckets(a: (string, u32), b: (string, u32), c: (string, u32),
                          ka: seq<byte>, kb: seq<byte>, kc: seq<byte>, chrono: Chrono)
    requires PARTITION_KEY_DELIMITER !in ka && PARTITION_KEY_DELIMITER !in kb && PARTITION_KEY_DELIMITER !in kc
    requires ka != PARTITION_KEY_VALUE_NULL_STR && kb != PARTITION_KEY_VALUE_NULL_STR && kc != PARTITION_KEY_VALUE_NULL_STR
    ensures var t := PT.TestTablePartitionOverride([PT.Bucket(a.0, a.1), PT.Bucket(b.0, b.1), PT.Bucket(c.0, c.1)]);
      var ra, rb, rc := ParsePartBucket(ka, a.1), ParsePartBucket(kb, b.1), ParsePartBucket(kc, c.1);
      BuildColumnValues(t, ka + [PARTITION_KEY_DELIMITER] + kb + [PARTITION_KEY_DELIMITER] + kc, chrono) ==
        if ra.Failure? then Failure(ra.error)
        else if rb.Failure? then Failure(rb.error)
        else if rc.Failure? then Failure(rc.error)
        else Success([(a.0, ra.value), (b.0, rb.value), (c.0, rc.value)])
  {
    PT.TestOverrideParts([PT.Bucket(a.0, a.1), PT.Bucket(b.0, b.1), PT.Bucket(c.0, c.1)]);
    SplitThree(ka, kb, kc);
    ZipThreeBuckets(a, b, c, ka, kb, kc, chrono);
  }

  /** `bucket_part_fixture`: under buckets of 41, 91 and 144 the key `1|2|3` reads back as the ids. */
  lemma BucketFixtureExample(chrono: Chrono)
    ensures BuildColumnValues(PT.TestTablePartitionOverride([PT.Bucket("a", 41), PT.Bucket("b", 91), PT.Bucket("c", 144)]),
                              [0x31, 0x7C, 0x32, 0x7C, 0x33], chrono)
      == Success([("a", Bucket(1, 41)), ("b", Bucket(2, 91)), ("c", Bucket(3, 144))])
  {
    var one, two, three: seq<byte> := [0x31], [0x32], [0x33];
    assert [0x31, 0x7C, 0x32, 0x7C, 0x33] == one + [PARTITION_KEY_DELIMITER] + two + [PARTITION_KEY_DELIMITER] + three;
    assert Decimal(1) == one && Decimal(2) == two && Decimal(3) == three;
    ParseDecimal(1); ParseDecimal(2); ParseDecimal(3);
    BuildThreeBuckets(("a", 41), ("b", 91), ("c", 144), one, two, three, chrono);
  }

  /** The key `1|1|43` under buckets of 42 panics: 43 is not a bucket id. */
  lemma BucketOutOfRangeExample(chrono: Chrono)
    ensures BuildColumnValues(PT.TestTablePartitionOverride([PT.Bucket("a", 42), PT.Bucket("b", 42), PT.Bucket("c", 42)]),
                              [0x31, 0x7C, 0x31, 0x7C, 0x34, 0x33], chrono)
      == Failure(BucketIdOutOfRange(43, 42))
  {
    var one, fortyThree: seq<byte> := [0x31], [0x34, 0x33];
    assert [0x31, 0x7C, 0x31, 0x7C, 0x34, 0x33] == one + [PARTITION_KEY_DELIMITER] + one + [PARTITION_KEY_DELIMITER] + fortyThree;
    assert Decimal(1) == one && Decimal(43) == fortyThree;
    ParseDecimal(1); ParseDecimal(43);
    BuildThreeBuckets(("a", 42), ("b", 42), ("c", 42), one, one, fortyThree, chrono);
  }

  /** The key `1|1|bananas` under buckets of 42 panics: `bananas` is not a number. */
  lemma BucketNotNumberExample(chrono: Chrono)
    ensures BuildColumnValues(PT.TestTablePartitionOverride([PT.Bucket("a", 42), PT.Bucket("b", 42), PT.Bucket("c", 42)]),
                              [0x31, 0x7C, 0x31, 0x7C, 0x62, 0x61, 0x6E, 0x61, 0x6E, 0x61, 0x73], chrono)
      == Failure(InvalidBucketEncoding)
  {
    var one, bananas: seq<byte> := [0x31], [0x62, 0x61, 0x6E, 0x61, 0x6E, 0x61, 0x73];
    assert [0x31, 0x7C, 0x31, 0x7C, 0x62, 0x61, 0x6E, 0x61, 0x6E, 0x61, 0x73]
        == one + [PARTITION_KEY_DELIMITER] + one + [PARTITION_KEY_DELIMITER] + bananas;
    ParseDecimal(1);
    ParseU32LeadingByte(bananas);
    BuildThreeBuckets(("a", 42), ("b", 42), ("c", 42), one, one, bananas, chrono);
  }

  lemma EncodeCons(c: byte, rest: seq<byte>)
    ensures PercentEncode([c] + rest) ==
      (if MustEncode(c) then [PERCENT, HexDigit(c as nat / 16), HexDigit(c as nat % 16)] else [c]) + PercentEncode(rest)
  {
    assert ([c] + rest)[1..] == rest;
  }

  /** The module documentation's first example, as bytes: `cat|dog` becomes `cat%7Cdog`. */
  lemma DelimiterEncodingExample()
    ensures EncodeTagValue([0x63, 0x61, 0x74, 0x7C, 0x64, 0x6F, 0x67])
         == [0x63, 0x61, 0x74, 0x25, 0x37, 0x43, 0x64, 0x6F, 0x67]
  {
    var cat: seq<byte> := [0x63, 0x61, 0x74];
    var dog: seq<byte> := [0x64, 0x6F, 0x67];
    assert [0x63, 0x61, 0x74, 0x7C, 0x64, 0x6F, 0x67] == cat + ([0x7C] + dog);
    EncodePlainPrefix(cat, [0x7C] + dog);
    EncodeCons(0x7C, dog);
    EncodePlainPrefix(dog, []);
    assert dog + [] == dog;
    assert HexDigit(7) == 0x37 && HexDigit(12) == 0x43;
    assert PercentEncode([0x7C] + dog) == [0x25, 0x37, 0x43] + dog;
  }

  /** Bytes that need no escape pass through the encoding unchanged. */
  lemma {:induction false} EncodePlainPrefix(p: seq<byte>, rest: seq<byte>)
    requires forall i :: 0 <= i < |p| ==> !MustEncode(p[i])
    ensures PercentEncode(p + rest) == p + PercentEncode(rest)
    decreases |p|
  {
    if p != [] {
      EncodePlainPrefix(p[1..], rest);
      assert p + rest == [p[0]] + (p[1..] + rest);
      EncodeCons(p[0], p[1..] + rest);
      assert p == [p[0]] + p[1..];
    } else {
      assert p + rest == rest;
    }
  }

  /**
    The module documentation's other examples, as bytes: `!` becomes `%21`,
    `%50` becomes `%2550`, and the empty value becomes `^`.
  */
  lemma SentinelEncodingExamples()
    ensures EncodeTagValue([0x21]) == [0x25, 0x32, 0x31]
    ensures EncodeTagValue([0x25, 0x35, 0x30]) == [0x25, 0x32, 0x35, 0x35, 0x30]
    ensures EncodeTagValue([]) == [0x5E]
  {
    EncodeCons(0x21, []);
    EncodeCons(0x30, []);
    EncodeCons(0x35, [0x30]);
    EncodeCons(0x25, [0x35, 0x30]);
  }

  /** A single NULL key part yields nothing. */
  lemma EmptyTagOnlyExample(chrono: Chrono)
    ensures BuildColumnValues(PT.TestTablePartitionOverride([PT.TagValue("a")]), PARTITION_KEY_VALUE_NULL_STR, chrono)
      == Success([])
  {
    PT.TestOverrideParts([PT.TagValue("a")]);
    SplitPiece(PARTITION_KEY_VALUE_NULL_STR, PARTITION_KEY_DELIMITER, []);
  }
}
