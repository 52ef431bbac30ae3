/**
  Partition templates: the validation of a user-supplied template, the
  table / namespace / default precedence rule, the flattened list of parts a
  template yields, and hash-bucket assignment of tag values.
*/
module PartitionTemplate {
  import opened Wrappers
  import opened KeyCodec

  /** At most this many parts in a custom template. */
  const MAXIMUM_NUMBER_OF_TEMPLATE_PARTS: nat := 8

  /** The reserved tag name of the time column. */
  const TAG_VALUE_KEY_TIME: string := "time"

  /** Allowed bucket counts are `ALLOWED_BUCKET_QUANTITIES_START <= n < ALLOWED_BUCKET_QUANTITIES_END`. */
  const ALLOWED_BUCKET_QUANTITIES_START: u32 := 1
  const ALLOWED_BUCKET_QUANTITIES_END: u32 := 100_000

  /** The strftime format of the default partitioning by day. */
  const DEFAULT_TIME_FORMAT: string := "%Y-%m-%d"

  /** The strftime directive that makes the formatter panic. */
  const FORBIDDEN_STRFTIME: string := "%#z"

  /** Reasons a user-specified partition template is not valid. */
  datatype ValidationError =
    | NoParts
    | TooManyParts(specified: nat)
    | InvalidStrftime(format: string)
    | InvalidTagValue(tag: string)
    | InvalidNumberOfBuckets(buckets: u32)
    | RepeatedTagValue(repeated: string)

  /**
    One part of a template: the `oneof` of the template-part message, and
    also the borrowed view `parts()` lends out (both have the same cases).
  */
  datatype TemplatePart =
    | TagValue(tagName: string)
    | TimeFormat(format: string)
    | Bucket(tagName: string, numBuckets: u32)

  /** The template-part message, whose `oneof` may be unset. */
  datatype ProtoTemplatePart = ProtoTemplatePart(part: Option<TemplatePart>)

  /** The partition-template message. */
  datatype ProtoPartitionTemplate = ProtoPartitionTemplate(parts: seq<ProtoTemplatePart>)

  /** A template that went through validation (or, in tests, around it). */
  datatype Wrapper = Wrapper(inner: ProtoPartitionTemplate)

  /** A namespace's template override; `None` means the default. */
  datatype NamespacePartitionTemplateOverride = NamespacePartitionTemplateOverride(wrapper: Option<Wrapper>)

  /** A table's template override; `None` means the default. */
  datatype TablePartitionTemplateOverride = TablePartitionTemplateOverride(wrapper: Option<Wrapper>)

  /**
    Whether chrono can format the current time with a strftime format; the
    source only finds out by trying, so the model takes it as a parameter.
  */
  type StrftimeCheck = string -> bool

  // ---------------------------------------------------------------------
  // String helpers

  predicate StartsWith(s: string, prefix: string) {
    |prefix| <= |s| && s[..|prefix|] == prefix
  }

  /** `str::contains` with a string pattern. */
  predicate Contains(s: string, sub: string)
    decreases |s|
  {
    StartsWith(s, sub) || (|s| > 0 && Contains(s[1..], sub))
  }

  /** A string cannot contain a pattern holding a character it does not hold. */
  lemma {:induction false} MissingCharNotContained(s: string, sub: string, c: char)
    requires c in sub && c !in s
    ensures !Contains(s, sub)
    decreases |s|
  {
    if |s| > 0 {
      MissingCharNotContained(s[1..], sub, c);
    }
  }

  // ---------------------------------------------------------------------
  // Validation

  /** The tag name a part claims, for the uniqueness rule. */
  function TagNameOf(p: Option<TemplatePart>): Option<string> {
    match p
    case Some(TagValue(name)) => Some(name)
    case Some(Bucket(name, _)) => Some(name)
    case _ => None
  }

  /** The tag names claimed by a list of parts. */
  function TagsOf(parts: seq<ProtoTemplatePart>): set<string>
    decreases |parts|
  {
    if parts == [] then {}
    else
      var last := parts[|parts| - 1];
      TagsOf(parts[..|parts| - 1]) + (if TagNameOf(last.part).Some? then {TagNameOf(last.part).value} else {})
  }

  /** The check of one part, given the tag names claimed by the parts before it. */
  function CheckPart(p: Option<TemplatePart>, seen: set<string>, strftimeOk: StrftimeCheck): (r: Option<ValidationError>)
    ensures r.Some? ==> p.Some? && !r.value.NoParts? && !r.value.TooManyParts?
    ensures r.Some? && r.value.InvalidStrftime? ==> p.value.TimeFormat?
    ensures r.Some? && r.value.InvalidNumberOfBuckets? ==>
      p.value.Bucket? && !(ALLOWED_BUCKET_QUANTITIES_START <= p.value.numBuckets < ALLOWED_BUCKET_QUANTITIES_END)
    ensures r.Some? && r.value.RepeatedTagValue? ==>
      TagNameOf(p) == Some(r.value.repeated) && r.value.repeated in seen
  {
    match p
    case Some(TimeFormat(fmt)) =>
      if fmt == [] then Some(InvalidStrftime(fmt))
      else if Contains(fmt, FORBIDDEN_STRFTIME) then Some(InvalidStrftime("%#z cannot be used"))
      else if !strftimeOk(fmt) then Some(InvalidStrftime(fmt))
      else None
    case Some(TagValue(value)) =>
      if value == [] then Some(InvalidTagValue(value))
      else if Contains(value, TAG_VALUE_KEY_TIME) then Some(InvalidTagValue("time cannot be used"))
      else if value in seen then Some(RepeatedTagValue(value))
      else None
    case Some(Bucket(tagName, numBuckets)) =>
      if tagName == [] then Some(InvalidTagValue(tagName))
      else if Contains(tagName, TAG_VALUE_KEY_TIME) then Some(InvalidTagValue("time cannot be used"))
      else if tagName in seen then Some(RepeatedTagValue(tagName))
      else if !(ALLOWED_BUCKET_QUANTITIES_START <= numBuckets < ALLOWED_BUCKET_QUANTITIES_END) then
        Some(InvalidNumberOfBuckets(numBuckets))
      else None
    case None => None
  }

  /** The first error among `parts`, scanning in order, with `seen` the names claimed before them. */
  function CheckParts(parts: seq<ProtoTemplatePart>, seen: set<string>, strftimeOk: StrftimeCheck): (r: Option<ValidationError>)
    ensures r.Some? ==> !r.value.NoParts? && !r.value.TooManyParts?
    decreases |parts|
  {
    if parts == [] then None
    else match CheckPart(parts[0].part, seen, strftimeOk)
      case Some(e) => Some(e)
      case None =>
        var claimed := if TagNameOf(parts[0].part).Some? then {TagNameOf(parts[0].part).value} else {};
        CheckParts(parts[1..], seen + claimed, strftimeOk)
  }

  /** What `Wrapper::try_from` returns for a template. */
  function Validate(t: ProtoPartitionTemplate, strftimeOk: StrftimeCheck): (r: Result<Wrapper, ValidationError>)
    ensures r.Success? ==> r.value == Wrapper(t) && 1 <= |t.parts| <= MAXIMUM_NUMBER_OF_TEMPLATE_PARTS
    ensures (r.Failure? && r.error.NoParts?) <==> |t.parts| == 0
    ensures (r.Failure? && r.error.TooManyParts?) <==> |t.parts| > MAXIMUM_NUMBER_OF_TEMPLATE_PARTS
    ensures |t.parts| > MAXIMUM_NUMBER_OF_TEMPLATE_PARTS ==> r == Failure(TooManyParts(|t.parts|))
  {
    if |t.parts| == 0 then Failure(NoParts)
    else if |t.parts| > MAXIMUM_NUMBER_OF_TEMPLATE_PARTS then Failure(TooManyParts(|t.parts|))
    else match CheckParts(t.parts, {}, strftimeOk)
      case Some(e) => Failure(e)
      case None => Success(Wrapper(t))
  }

  /**
    `Wrapper::try_from`: rejects an empty or over-long template, then checks
    the parts in order against one set of tag names shared by tag-value and
    bucket parts, returning at the first error.
  */
  method WrapperTryFrom(t: ProtoPartitionTemplate, strftimeOk: StrftimeCheck) returns (r: Result<Wrapper, ValidationError>)
    ensures r == Validate(t, strftimeOk)
  {
    if |t.parts| == 0 {
      return Failure(NoParts);
    }
    var specified := |t.parts|;
    if specified > MAXIMUM_NUMBER_OF_TEMPLATE_PARTS {
      return Failure(TooManyParts(specified));
    }
    var seenTags: set<string> := {};
    var i := 0;
    while i < |t.parts|
      invariant 0 <= i <= |t.parts|
      invariant CheckParts(t.parts, {}, strftimeOk) == CheckParts(t.parts[i..], seenTags, strftimeOk)
    {
      assert t.parts[i..][1..] == t.parts[i + 1..];
      ghost var claimed := if TagNameOf(t.parts[i].part).Some? then {TagNameOf(t.parts[i].part).value} else {};
      ghost var seenBefore := seenTags;
      assert CheckPart(t.parts[i].part, seenTags, strftimeOk) == None ==>
        CheckParts(t.parts[i..], seenTags, strftimeOk) == CheckParts(t.parts[i + 1..], seenTags + claimed, strftimeOk);
      match t.parts[i].part {
        case Some(TimeFormat(fmt)) =>
          if fmt == [] {
            return Failure(InvalidStrftime(fmt));
          }
          if Contains(fmt, FORBIDDEN_STRFTIME) {
            return Failure(InvalidStrftime("%#z cannot be used"));
          }
          if !strftimeOk(fmt) {
            return Failure(InvalidStrftime(fmt));
          }
        case Some(TagValue(value)) =>
          if value == [] {
            return Failure(InvalidTagValue(value));
          }
          if Contains(value, TAG_VALUE_KEY_TIME) {
            return Failure(InvalidTagValue("time cannot be used"));
          }
          if value in seenTags {
            return Failure(RepeatedTagValue(value));
          }
          seenTags := seenTags + {value};
        case Some(Bucket(tagName, numBuckets)) =>
          if tagName == [] {
            return Failure(InvalidTagValue(tagName));
          }
          if Contains(tagName, TAG_VALUE_KEY_TIME) {
            return Failure(InvalidTagValue("time cannot be used"));
          }
          if tagName in seenTags {
            return Failure(RepeatedTagValue(tagName));
          }
          seenTags := seenTags + {tagName};
          if !(ALLOWED_BUCKET_QUANTITIES_START <= numBuckets < ALLOWED_BUCKET_QUANTITIES_END) {
            return Failure(InvalidNumberOfBuckets(numBuckets));
          }
        case None =>
      }
      assert CheckPart(t.parts[i].part, seenBefore, strftimeOk) == None && seenTags == seenBefore + claimed;
      i := i + 1;
    }
    return Success(Wrapper(t));
  }

  /** A part that passes its check on its own, with no names claimed before it. */
  predicate PartValid(p: Option<TemplatePart>, strftimeOk: StrftimeCheck) {
    CheckPart(p, {}, strftimeOk) == None
  }

  /** No two parts claim the same tag name. */
  predicate DistinctTags(parts: seq<ProtoTemplatePart>) {
    forall i, j :: 0 <= i < j < |parts| && TagNameOf(parts[i].part).Some? ==>
      TagNameOf(parts[i].part) != TagNameOf(parts[j].part)
  }

  lemma CheckPartSeen(p: Option<TemplatePart>, seen: set<string>, strftimeOk: StrftimeCheck)
    ensures CheckPart(p, seen, strftimeOk) == None <==>
      PartValid(p, strftimeOk) && (TagNameOf(p).Some? ==> TagNameOf(p).value !in seen)
  {
  }

  /** The properties of parts that `CheckParts` accepts, with `seen` the names claimed before them. */
  predicate PartsAcceptable(parts: seq<ProtoTemplatePart>, seen: set<string>, strftimeOk: StrftimeCheck) {
    (forall i :: 0 <= i < |parts| ==> PartValid(parts[i].part, strftimeOk))
    && DistinctTags(parts)
    && (forall i :: 0 <= i < |parts| && TagNameOf(parts[i].part).Some? ==> TagNameOf(parts[i].part).value !in seen)
  }

  lemma {:induction false} CheckPartsSound(parts: seq<ProtoTemplatePart>, seen: set<string>, strftimeOk: StrftimeCheck)
    requires CheckParts(parts, seen, strftimeOk) == None
    ensures PartsAcceptable(parts, seen, strftimeOk)
    decreases |parts|
  {
    if parts != [] {
      var p := parts[0].part;
      var claimed := if TagNameOf(p).Some? then {TagNameOf(p).value} else {};
      var rest := parts[1..];
      assert CheckPart(p, seen, strftimeOk) == None;
      CheckPartSeen(p, seen, strftimeOk);
      CheckPartsSound(rest, seen + claimed, strftimeOk);
      forall i | 0 <= i < |parts| ensures PartValid(parts[i].part, strftimeOk) {
        if i > 0 { assert parts[i] == rest[i - 1]; }
      }
      forall i | 0 <= i < |parts| && TagNameOf(parts[i].part).Some?
        ensures TagNameOf(parts[i].part).value !in seen
      {
        if i > 0 { assert parts[i] == rest[i - 1]; }
      }
      forall i, j | 0 <= i < j < |parts| && TagNameOf(parts[i].part).Some?
        ensures TagNameOf(parts[i].part) != TagNameOf(parts[j].part)
      {
        assert parts[j] == rest[j - 1];
        if i > 0 {
          assert parts[i] == rest[i - 1];
        }
      }
    }
  }

  lemma {:induction false} CheckPartsComplete(parts: seq<ProtoTemplatePart>, seen: set<string>, strftimeOk: StrftimeCheck)
    requires PartsAcceptable(parts, seen, strftimeOk)
    ensures CheckParts(parts, seen, strftimeOk) == None
    decreases |parts|
  {
    if parts != [] {
      var p := parts[0].part;
      var claimed := if TagNameOf(p).Some? then {TagNameOf(p).value} else {};
      var rest := parts[1..];
      CheckPartSeen(p, seen, strftimeOk);
      assert CheckPart(p, seen, strftimeOk) == None;
      forall i | 0 <= i < |rest| ensures PartValid(rest[i].part, strftimeOk) {
        assert rest[i] == parts[i + 1];
      }
      forall i, j | 0 <= i < j < |rest| && TagNameOf(rest[i].part).Some?
        ensures TagNameOf(rest[i].part) != TagNameOf(rest[j].part)
      {
        assert rest[i] == parts[i + 1] && rest[j] == parts[j + 1];
      }
      forall i | 0 <= i < |rest| && TagNameOf(rest[i].part).Some?
        ensures TagNameOf(rest[i].part).value !in seen + claimed
      {
        assert rest[i] == parts[i + 1];
        assert TagNameOf(parts[0].part) != TagNameOf(parts[i + 1].part) || TagNameOf(parts[0].part).None?;
      }
      CheckPartsComplete(rest, seen + claimed, strftimeOk);
    }
  }

  /**
    A template is accepted exactly when it has one to eight parts, every part
    passes its own checks and no tag name is claimed twice; an accepted
    template is stored unchanged.
  */
  lemma ValidateAccepts(t: ProtoPartitionTemplate, strftimeOk: StrftimeCheck)
    ensures Validate(t, strftimeOk).Success? <==>
      1 <= |t.parts| <= MAXIMUM_NUMBER_OF_TEMPLATE_PARTS
      && (forall i :: 0 <= i < |t.parts| ==> PartValid(t.parts[i].part, strftimeOk))
      && DistinctTags(t.parts)
    ensures Validate(t, strftimeOk).Success? ==> Validate(t, strftimeOk).value == Wrapper(t)
  {
    if CheckParts(t.parts, {}, strftimeOk) == None {
      CheckPartsSound(t.parts, {}, strftimeOk);
    } else if PartsAcceptable(t.parts, {}, strftimeOk) {
      CheckPartsComplete(t.parts, {}, strftimeOk);
    }
  }

  /**
    The error of a rejected template is the error of its first failing part,
    checked against the tag names claimed by the parts before it.
  */
  lemma {:induction false} CheckPartsFirstError(parts: seq<ProtoTemplatePart>, seen: set<string>, strftimeOk: StrftimeCheck)
    returns (i: nat)
    requires CheckParts(parts, seen, strftimeOk).Some?
    ensures i < |parts|
    ensures forall j :: 0 <= j < i ==> CheckPart(parts[j].part, seen + TagsOf(parts[..j]), strftimeOk) == None
    ensures CheckPart(parts[i].part, seen + TagsOf(parts[..i]), strftimeOk) == CheckParts(parts, seen, strftimeOk)
    decreases |parts|
  {
    var p := parts[0].part;
    assert parts[..0] == [];
    match CheckPart(p, seen, strftimeOk)
    case Some(e) =>
      i := 0;
    case None =>
      var claimed := if TagNameOf(p).Some? then {TagNameOf(p).value} else {};
      var rest := parts[1..];
      var k := CheckPartsFirstError(rest, seen + claimed, strftimeOk);
      i := k + 1;
      forall j | 0 <= j <= i
        ensures seen + TagsOf(parts[..j]) == (if j == 0 then seen else seen + claimed + TagsOf(rest[..j - 1]))
      {
        if j > 0 { TagsOfCons(parts, j); }
      }
      forall j | 0 <= j < i
        ensures CheckPart(parts[j].part, seen + TagsOf(parts[..j]), strftimeOk) == None
      {
        if j > 0 { assert parts[j] == rest[j - 1]; }
      }
  }

  lemma {:induction false} TagsOfCons(parts: seq<ProtoTemplatePart>, j: nat)
    requires 0 < j <= |parts|
    ensures TagsOf(parts[..j]) ==
      (if TagNameOf(parts[0].part).Some? then {TagNameOf(parts[0].part).value} else {}) + TagsOf(parts[1..][..j - 1])
    decreases j
  {
    if j == 1 {
      assert parts[..1][..0] == [] && parts[1..][..0] == [];
    } else {
      TagsOfCons(parts, j - 1);
      assert parts[..j][..j - 1] == parts[..j - 1];
      assert parts[1..][..j - 1][..j - 2] == parts[1..][..j - 2];
    }
  }

  /** A repeated tag name is reported only when an earlier part claimed the same name. */
  lemma RepeatedMeansClaimedBefore(t: ProtoPartitionTemplate, strftimeOk: StrftimeCheck, name: string)
    requires Validate(t, strftimeOk) == Failure(RepeatedTagValue(name))
    ensures exists i, j :: (0 <= i < j < |t.parts| && TagNameOf(t.parts[i].part) == Some(name)
      && TagNameOf(t.parts[j].part) == Some(name))
  {
    var j := CheckPartsFirstError(t.parts, {}, strftimeOk);
    assert name in TagsOf(t.parts[..j]);
    var i := TagsOfWitness(t.parts[..j], name);
    assert t.parts[..j][i] == t.parts[i];
  }

  lemma {:induction false} TagsOfWitness(parts: seq<ProtoTemplatePart>, name: string) returns (i: nat)
    requires name in TagsOf(parts)
    ensures i < |parts| && TagNameOf(parts[i].part) == Some(name)
    decreases |parts|
  {
    var last := parts[|parts| - 1];
    if TagNameOf(last.part) == Some(name) {
      i := |parts| - 1;
    } else {
      i := TagsOfWitness(parts[..|parts| - 1], name);
    }
  }

  // Concrete rejections, as the repository's tests state them.

  function Tag(name: string): ProtoTemplatePart { ProtoTemplatePart(Some(TagValue(name))) }
  function Fmt(format: string): ProtoTemplatePart { ProtoTemplatePart(Some(TimeFormat(format))) }
  function Buckets(name: string, n: u32): ProtoTemplatePart { ProtoTemplatePart(Some(Bucket(name, n))) }

  /** Nine parts are too many, whatever they hold. */
  lemma NinePartsRejected(strftimeOk: StrftimeCheck)
    ensures var t := ProtoPartitionTemplate([Tag("region"), Fmt("year-%Y"), Tag("region"), Fmt("year-%Y"),
      Tag("region"), Fmt("year-%Y"), Tag("region"), Fmt("year-%Y"), Tag("region")]);
      Validate(t, strftimeOk) == Failure(TooManyParts(9))
  {
  }

  /** A name claimed twice is rejected, whether by tag-value parts, bucket parts or one of each. */
  lemma RepeatedBananasRejected(strftimeOk: StrftimeCheck)
    ensures Validate(ProtoPartitionTemplate([Tag("bananas"), Tag("bananas")]), strftimeOk)
      == Failure(RepeatedTagValue("bananas"))
    ensures Validate(ProtoPartitionTemplate([Buckets("bananas", 42), Buckets("bananas", 42)]), strftimeOk)
      == Failure(RepeatedTagValue("bananas"))
    ensures Validate(ProtoPartitionTemplate([Tag("bananas"), Buckets("bananas", 42)]), strftimeOk)
      == Failure(RepeatedTagValue("bananas"))
  {
    MissingCharNotContained("bananas", TAG_VALUE_KEY_TIME, 't');
  }

  /** Empty formats and the `%#z` directive are rejected before the formatter is tried. */
  lemma BadFormatsRejected(strftimeOk: StrftimeCheck)
    ensures Validate(ProtoPartitionTemplate([Fmt("")]), strftimeOk) == Failure(InvalidStrftime(""))
    ensures Validate(ProtoPartitionTemplate([Fmt("%#z")]), strftimeOk) == Failure(InvalidStrftime("%#z cannot be used"))
    ensures !strftimeOk("%3F") ==>
      Validate(ProtoPartitionTemplate([Fmt("%3F")]), strftimeOk) == Failure(InvalidStrftime("%3F"))
  {
    assert Contains("%#z", FORBIDDEN_STRFTIME) by { assert StartsWith("%#z", FORBIDDEN_STRFTIME); }
    MissingCharNotContained("%3F", FORBIDDEN_STRFTIME, '#');
  }

  /** Tag names that are empty or mention `time` are rejected, for tag-value and bucket parts alike. */
  lemma BadTagNamesRejected(strftimeOk: StrftimeCheck)
    ensures Validate(ProtoPartitionTemplate([Tag("")]), strftimeOk) == Failure(InvalidTagValue(""))
    ensures Validate(ProtoPartitionTemplate([Tag("time")]), strftimeOk) == Failure(InvalidTagValue("time cannot be used"))
    ensures Validate(ProtoPartitionTemplate([Buckets("", 42)]), strftimeOk) == Failure(InvalidTagValue(""))
    ensures Validate(ProtoPartitionTemplate([Buckets("time", 42)]), strftimeOk) == Failure(InvalidTagValue("time cannot be used"))
  {
    assert Contains("time", TAG_VALUE_KEY_TIME) by { assert StartsWith("time", TAG_VALUE_KEY_TIME); }
  }

  /** Bucket counts of 0 and of 100000 are both out of range. */
  lemma BadBucketCountsRejected(strftimeOk: StrftimeCheck)
    ensures Validate(ProtoPartitionTemplate([Buckets("arán", 0)]), strftimeOk) == Failure(InvalidNumberOfBuckets(0))
    ensures Validate(ProtoPartitionTemplate([Buckets("arán", 100_000)]), strftimeOk)
      == Failure(InvalidNumberOfBuckets(100_000))
  {
    MissingCharNotContained("arán", TAG_VALUE_KEY_TIME, 't');
  }

  // ---------------------------------------------------------------------
  // Overrides and the parts they yield

  /** The default template: one part, the day of the time column. */
  const PARTITION_BY_DAY_PROTO: ProtoPartitionTemplate :=
    ProtoPartitionTemplate([ProtoTemplatePart(Some(TimeFormat(DEFAULT_TIME_FORMAT)))])

  /** `NamespacePartitionTemplateOverride::try_from`: a validated namespace override. */
  function NamespaceTryFrom(t: ProtoPartitionTemplate, strftimeOk: StrftimeCheck)
    : (r: Result<NamespacePartitionTemplateOverride, ValidationError>)
    ensures r.Success? <==> Validate(t, strftimeOk).Success?
    ensures r.Success? ==> r.value.wrapper == Some(Wrapper(t))
  {
    match Validate(t, strftimeOk)
    case Success(w) => Success(NamespacePartitionTemplateOverride(Some(w)))
    case Failure(e) => Failure(e)
  }

  /**
    `TablePartitionTemplateOverride::try_new`: a custom table template wins
    (and must validate); otherwise the namespace override; otherwise none.
  */
  function TryNew(customTableTemplate: Option<ProtoPartitionTemplate>,
                  namespaceTemplate: NamespacePartitionTemplateOverride,
                  strftimeOk: StrftimeCheck): (r: Result<TablePartitionTemplateOverride, ValidationError>)
    ensures customTableTemplate.Some? ==>
      (r.Success? <==> Validate(customTableTemplate.value, strftimeOk).Success?)
    ensures customTableTemplate.Some? && r.Success? ==>
      r.value.wrapper == Some(Wrapper(customTableTemplate.value))
    ensures customTableTemplate.None? ==> r.Success? && r.value.wrapper == namespaceTemplate.wrapper
  {
    match (customTableTemplate, namespaceTemplate.wrapper)
    case (Some(tableProto), _) =>
      (match Validate(tableProto, strftimeOk)
       case Success(w) => Success(TablePartitionTemplateOverride(Some(w)))
       case Failure(e) => Failure(e))
    case (None, Some(namespaceWrapper)) => Success(TablePartitionTemplateOverride(Some(namespaceWrapper)))
    case (None, None) => Success(TablePartitionTemplateOverride(None))
  }

  /** The set parts of a template message, in order (unset parts are skipped). */
  function SetParts(parts: seq<ProtoTemplatePart>): (r: seq<TemplatePart>)
    ensures |r| <= |parts|
    ensures forall i :: 0 <= i < |parts| && parts[i].part.Some? ==> parts[i].part.value in r
    decreases |parts|
  {
    if parts == [] then []
    else match parts[0].part
      case Some(p) => [p] + SetParts(parts[1..])
      case None => SetParts(parts[1..])
  }

  /** `parts()`: the parts of the override, or of the default when there is none. */
  function Parts(t: TablePartitionTemplateOverride): (r: seq<TemplatePart>)
    ensures t.wrapper.None? ==> r == [TimeFormat(DEFAULT_TIME_FORMAT)]
    ensures t.wrapper.Some? ==> |r| <= |t.wrapper.value.inner.parts|
    ensures t.wrapper.Some? ==> var ps := t.wrapper.value.inner.parts;
      forall i :: 0 <= i < |ps| && ps[i].part.Some? ==> ps[i].part.value in r
  {
    var proto := match t.wrapper case Some(w) => w.inner case None => PARTITION_BY_DAY_PROTO;
    SetParts(proto.parts)
  }

  /** `len()`: the number of parts `parts()` yields. */
  function Len(t: TablePartitionTemplateOverride): (r: nat)
    ensures t.wrapper.None? ==> r == 1
    ensures t.wrapper.Some? ==> r <= |t.wrapper.value.inner.parts|
  {
    |Parts(t)|
  }

  /** `test_table_partition_override`: a table override built around validation. */
  function TestTablePartitionOverride(parts: seq<TemplatePart>): (t: TablePartitionTemplateOverride)
    ensures t.wrapper.Some? && |t.wrapper.value.inner.parts| == |parts|
  {
    TablePartitionTemplateOverride(Some(Wrapper(ProtoPartitionTemplate(seq(|parts|, i requires 0 <= i < |parts| => ProtoTemplatePart(Some(parts[i])))))))
  }

  lemma {:induction false} SetPartsAllSet(parts: seq<ProtoTemplatePart>, ps: seq<TemplatePart>)
    requires |parts| == |ps| && forall i :: 0 <= i < |parts| ==> parts[i].part == Some(ps[i])
    ensures SetParts(parts) == ps
    decreases |parts|
  {
    if parts != [] {
      SetPartsAllSet(parts[1..], ps[1..]);
      assert ps == [ps[0]] + ps[1..];
    }
  }

  /** A template built for tests yields exactly the parts it was built from. */
  lemma TestOverrideParts(ps: seq<TemplatePart>)
    ensures Parts(TestTablePartitionOverride(ps)) == ps
  {
    SetPartsAllSet(TestTablePartitionOverride(ps).wrapper.value.inner.parts, ps);
  }

  /** The resolution order: table template, else namespace template, else the default by day. */
  lemma TryNewPrecedence(custom: Option<ProtoPartitionTemplate>, ns: NamespacePartitionTemplateOverride, strftimeOk: StrftimeCheck)
    ensures custom.Some? ==>
      (TryNew(custom, ns, strftimeOk).Success? <==> Validate(custom.value, strftimeOk).Success?)
      && (TryNew(custom, ns, strftimeOk).Success? ==> TryNew(custom, ns, strftimeOk).value.wrapper == Some(Wrapper(custom.value)))
      && (TryNew(custom, ns, strftimeOk).Failure? ==> TryNew(custom, ns, strftimeOk).error == Validate(custom.value, strftimeOk).error)
    ensures custom.None? ==> TryNew(custom, ns, strftimeOk) == Success(TablePartitionTemplateOverride(ns.wrapper))
    ensures custom.None? && ns.wrapper.None? ==>
      Parts(TryNew(custom, ns, strftimeOk).value) == [TimeFormat("%Y-%m-%d")]
      && Len(TryNew(custom, ns, strftimeOk).value) == 1
  {
    if custom.Some? { ValidateAccepts(custom.value, strftimeOk); }
  }

  /** The parts of a concatenation are the parts of each side, in order. */
  lemma {:induction false} SetPartsAppend(a: seq<ProtoTemplatePart>, b: seq<ProtoTemplatePart>)
    ensures SetParts(a + b) == SetParts(a) + SetParts(b)
    decreases |a|
  {
    if a != [] {
      assert (a + b)[0] == a[0];
      assert (a + b)[1..] == a[1..] + b;
      SetPartsAppend(a[1..], b);
    } else {
      assert a + b == b;
    }
  }

  /** One proto part yields its part if it is set, and nothing otherwise. */
  lemma SetPartsSingle(x: ProtoTemplatePart)
    ensures SetParts([x]) == if x.part.Some? then [x.part.value] else []
  {
    assert [x][1..] == [];
  }

  lemma {:induction false} SetPartsFrom(parts: seq<ProtoTemplatePart>, k: nat) returns (i: nat)
    requires k < |SetParts(parts)|
    ensures i < |parts| && parts[i].part == Some(SetParts(parts)[k])
    decreases |parts|
  {
    match parts[0].part
    case Some(p) =>
      if k == 0 { i := 0; } else { var j := SetPartsFrom(parts[1..], k - 1); i := j + 1; }
    case None =>
      var j := SetPartsFrom(parts[1..], k);
      i := j + 1;
  }

  lemma {:induction false} SetPartsOrder(parts: seq<ProtoTemplatePart>, k: nat, l: nat) returns (i: nat, j: nat)
    requires k < l < |SetParts(parts)|
    ensures i < j < |parts| && parts[i].part == Some(SetParts(parts)[k]) && parts[j].part == Some(SetParts(parts)[l])
    decreases |parts|
  {
    match parts[0].part
    case Some(p) =>
      if k == 0 {
        var j' := SetPartsFrom(parts[1..], l - 1);
        i, j := 0, j' + 1;
      } else {
        var i', j' := SetPartsOrder(parts[1..], k - 1, l - 1);
        i, j := i' + 1, j' + 1;
      }
    case None =>
      var i', j' := SetPartsOrder(parts[1..], k, l);
      i, j := i' + 1, j' + 1;
  }

  /**
    Every part a table override yields after `try_new` is well formed: at
    most eight parts, each passing its checks, no tag name claimed twice,
    and no bucket part with a zero bucket count.
  */
  lemma TryNewPartsValid(custom: Option<ProtoPartitionTemplate>, ns: NamespacePartitionTemplateOverride,
                         strftimeOk: StrftimeCheck)
    requires ns.wrapper.Some? ==> Validate(ns.wrapper.value.inner, strftimeOk).Success?
    requires TryNew(custom, ns, strftimeOk).Success?
    ensures var ps := Parts(TryNew(custom, ns, strftimeOk).value);
      |ps| <= MAXIMUM_NUMBER_OF_TEMPLATE_PARTS
      && (forall k :: 0 <= k < |ps| ==> PartValid(Some(ps[k]), strftimeOk) || ps[k] == TimeFormat(DEFAULT_TIME_FORMAT))
      && (forall k :: 0 <= k < |ps| && ps[k].Bucket? ==> ps[k].numBuckets > 0)
      && (forall k, l :: 0 <= k < l < |ps| && TagNameOf(Some(ps[k])).Some? ==> TagNameOf(Some(ps[k])) != TagNameOf(Some(ps[l])))
  {
    var t := TryNew(custom, ns, strftimeOk).value;
    if t.wrapper.Some? {
      var proto := t.wrapper.value.inner;
      if custom.Some? {
        assert Validate(custom.value, strftimeOk).Success?;
      }
      assert Validate(proto, strftimeOk).Success?;
      ValidateAccepts(proto, strftimeOk);
      var ps := Parts(t);
      forall k | 0 <= k < |ps| ensures PartValid(Some(ps[k]), strftimeOk) {
        var i := SetPartsFrom(proto.parts, k);
      }
      forall k, l | 0 <= k < l < |ps| && TagNameOf(Some(ps[k])).Some?
        ensures TagNameOf(Some(ps[k])) != TagNameOf(Some(ps[l]))
      {
        var i, j := SetPartsOrder(proto.parts, k, l);
      }
    }
  }

  /**
    As written, the part-count check counts unset parts too: a template
    whose only part is unset passes validation and yields no parts, so its
    `len()` is 0.
  */
  lemma UnsetOnlyTemplateHasNoParts(strftimeOk: StrftimeCheck)
    ensures var t := ProtoPartitionTemplate([ProtoTemplatePart(None)]);
      Validate(t, strftimeOk) == Success(Wrapper(t))
      && Len(TablePartitionTemplateOverride(Some(Wrapper(t)))) == 0
  {
  }

  // ---------------------------------------------------------------------
  // Hash buckets

  /**
    The 32-bit murmur3 hash of a tag value's bytes (seed 0), as an unsigned
    32-bit value.
  */
  type IcebergHash = seq<byte> -> u32

  /** `hash & i32::MAX`: the hash with bit 31 cleared. */
  function ClearSignBit(h: u32): (r: u32)
    ensures r < 0x8000_0000
    ensures r as int == h as int % 0x8000_0000
  {
    if h >= 0x8000_0000 then h - 0x8000_0000 else h
  }

  /**
    `bucket_for_tag_value`: the hash with its sign bit cleared, modulo the
    number of buckets. The source panics on zero buckets, which validation
    rules out.
  */
  function BucketForTagValue(hash: IcebergHash, tagValue: seq<byte>, numBuckets: u32): (r: u32)
    requires numBuckets > 0
    ensures r < numBuckets
    ensures r as int == (hash(tagValue) as int % 0x8000_0000) % numBuckets as int
  {
    (ClearSignBit(hash(tagValue)) as int % numBuckets as int) as u32
  }
}
