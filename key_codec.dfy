/**
  The byte-level encoding of partition key parts: the reserved characters,
  the percent-encoding of column values, UTF-8 well-formedness of decoded
  values, splitting a key on the part delimiter, and decimal bucket ids.

  Partition keys are strings in the source; here they are the sequence of
  their UTF-8 bytes, since every operation on them is byte-wise.
*/
module KeyCodec {
  import opened Wrappers

  newtype byte = x: int | 0 <= x < 256

  newtype u32 = x: int | 0 <= x < 0x1_0000_0000

  /** `|`, the delimiter between key parts. */
  const PARTITION_KEY_DELIMITER: byte := 0x7C
  /** `^`, a key part for an empty value. */
  const PARTITION_KEY_VALUE_EMPTY: byte := 0x5E
  /** `!`, a key part for a missing (NULL) value. */
  const PARTITION_KEY_VALUE_NULL: byte := 0x21
  /** `#`, appended to a key part that was truncated. */
  const PARTITION_KEY_PART_TRUNCATED: byte := 0x23
  /** `%`, the escape byte of percent-encoding. */
  const PERCENT: byte := 0x25
  const PLUS: byte := 0x2B

  const PARTITION_KEY_VALUE_EMPTY_STR: seq<byte> := [PARTITION_KEY_VALUE_EMPTY]
  const PARTITION_KEY_VALUE_NULL_STR: seq<byte> := [PARTITION_KEY_VALUE_NULL]

  /** The reserved bytes of a key: the four sentinels and `%`. */
  predicate IsReserved(b: byte) {
    b == PARTITION_KEY_DELIMITER || b == PARTITION_KEY_VALUE_NULL || b == PARTITION_KEY_VALUE_EMPTY
    || b == PARTITION_KEY_PART_TRUNCATED || b == PERCENT
  }

  /**
    Membership in ENCODED_PARTITION_KEY_CHARS extended by every non-ASCII
    byte: the ASCII control bytes, 0x7F, the reserved bytes, and all bytes
    from 0x80 up (the percent-encoder always escapes those).
  */
  predicate MustEncode(b: byte) {
    b < 0x20 || b >= 0x7F || IsReserved(b)
  }

  // ---------------------------------------------------------------------
  // Hexadecimal digits

  predicate IsHexDigit(b: byte) {
    (0x30 <= b <= 0x39) || (0x41 <= b <= 0x46) || (0x61 <= b <= 0x66)
  }

  function HexValue(b: byte): (v: nat)
    requires IsHexDigit(b)
    ensures v < 16
  {
    if b <= 0x39 then (b - 0x30) as nat
    else if b <= 0x46 then (b - 0x41) as nat + 10
    else (b - 0x61) as nat + 10
  }

  /** The upper-case hexadecimal digit of `v`, as the encoder writes it. */
  function HexDigit(v: nat): (b: byte)
    requires v < 16
    ensures IsHexDigit(b) && HexValue(b) == v
  {
    if v < 10 then (0x30 + v) as byte else (0x41 + v - 10) as byte
  }

  // ---------------------------------------------------------------------
  // Percent-encoding

  /** Percent-encodes every byte for which `MustEncode` holds, as `%XX`. */
  function PercentEncode(s: seq<byte>): (r: seq<byte>)
    ensures |r| <= 3 * |s|
    decreases |s|
  {
    if s == [] then []
    else if MustEncode(s[0]) then
      [PERCENT, HexDigit(s[0] as nat / 16), HexDigit(s[0] as nat % 16)] + PercentEncode(s[1..])
    else [s[0]] + PercentEncode(s[1..])
  }

  /**
    Reverses percent-encoding: `%` followed by two hexadecimal digits (of
    either case) becomes the byte they denote; every other byte, including a
    `%` not followed by two hexadecimal digits, is kept.
  */
  function PercentDecode(s: seq<byte>): (r: seq<byte>)
    ensures |r| <= |s|
    decreases |s|
  {
    if s == [] then []
    else if s[0] == PERCENT && |s| >= 3 && IsHexDigit(s[1]) && IsHexDigit(s[2]) then
      [(HexValue(s[1]) * 16 + HexValue(s[2])) as byte] + PercentDecode(s[3..])
    else [s[0]] + PercentDecode(s[1..])
  }

  lemma {:induction false} EncodeLength(s: seq<byte>)
    ensures |PercentEncode(s)| >= |s|
    ensures PercentEncode(s) == [] <==> s == []
    decreases |s|
  {
    if s != [] { EncodeLength(s[1..]); }
  }

  /** No reserved byte other than the `%` of an escape survives encoding. */
  lemma {:induction false} EncodeHasNoRawSentinel(s: seq<byte>)
    ensures forall i :: 0 <= i < |PercentEncode(s)| ==>
      PercentEncode(s)[i] != PARTITION_KEY_DELIMITER && PercentEncode(s)[i] != PARTITION_KEY_VALUE_NULL
      && PercentEncode(s)[i] != PARTITION_KEY_VALUE_EMPTY && PercentEncode(s)[i] != PARTITION_KEY_PART_TRUNCATED
    ensures forall i :: 0 <= i < |PercentEncode(s)| && PercentEncode(s)[i] == PERCENT ==>
      i + 2 < |PercentEncode(s)| && IsHexDigit(PercentEncode(s)[i + 1]) && IsHexDigit(PercentEncode(s)[i + 2])
    decreases |s|
  {
    if s != [] {
      EncodeHasNoRawSentinel(s[1..]);
      var e := PercentEncode(s[1..]);
      if MustEncode(s[0]) {
        var head := [PERCENT, HexDigit(s[0] as nat / 16), HexDigit(s[0] as nat % 16)];
        assert PercentEncode(s) == head + e;
        forall i | 3 <= i < |PercentEncode(s)|
          ensures PercentEncode(s)[i] == e[i - 3]
        {
        }
      } else {
        assert PercentEncode(s) == [s[0]] + e;
        assert s[0] != PERCENT;
        forall i | 1 <= i < |PercentEncode(s)|
          ensures PercentEncode(s)[i] == e[i - 1]
        {
        }
      }
    }
  }

  lemma DecodeEscape(hi: byte, lo: byte, rest: seq<byte>)
    requires IsHexDigit(hi) && IsHexDigit(lo)
    ensures PercentDecode([PERCENT, hi, lo] + rest)
         == [(HexValue(hi) * 16 + HexValue(lo)) as byte] + PercentDecode(rest)
  {
    assert ([PERCENT, hi, lo] + rest)[3..] == rest;
  }

  lemma DecodePlain(b: byte, rest: seq<byte>)
    requires b != PERCENT
    ensures PercentDecode([b] + rest) == [b] + PercentDecode(rest)
  {
    assert ([b] + rest)[1..] == rest;
  }

  /** The escape written for a byte decodes to that byte. */
  lemma EscapeRoundTrip(b: byte, rest: seq<byte>)
    ensures PercentDecode([PERCENT, HexDigit(b as nat / 16), HexDigit(b as nat % 16)] + rest)
         == [b] + PercentDecode(rest)
  {
    var x := b as nat;
    var hi, lo := HexDigit(x / 16), HexDigit(x % 16);
    DecodeEscape(hi, lo, rest);
    assert HexValue(hi) * 16 + HexValue(lo) == x;
  }

  lemma EncodeStep(s: seq<byte>, tail: seq<byte>)
    requires s != []
    ensures PercentDecode(PercentEncode(s) + tail) == [s[0]] + PercentDecode(PercentEncode(s[1..]) + tail)
  {
    var rest := PercentEncode(s[1..]) + tail;
    if MustEncode(s[0]) {
      var x := s[0] as nat;
      assert PercentEncode(s) + tail == [PERCENT, HexDigit(x / 16), HexDigit(x % 16)] + rest;
      EscapeRoundTrip(s[0], rest);
    } else {
      assert PercentEncode(s) + tail == [s[0]] + rest;
      DecodePlain(s[0], rest);
    }
  }

  /** Decoding an encoded prefix gives back the prefix, whatever follows it. */
  lemma {:induction false} DecodeEncodeAppend(s: seq<byte>, tail: seq<byte>)
    ensures PercentDecode(PercentEncode(s) + tail) == s + PercentDecode(tail)
    decreases |s|
  {
    if s == [] {
      assert PercentEncode(s) + tail == tail;
    } else {
      EncodeStep(s, tail);
      DecodeEncodeAppend(s[1..], tail);
      assert [s[0]] + (s[1..] + PercentDecode(tail)) == s + PercentDecode(tail);
    }
  }

  /** Percent-decoding reverses percent-encoding. */
  lemma DecodeEncode(s: seq<byte>)
    ensures PercentDecode(PercentEncode(s)) == s
  {
    DecodeEncodeAppend(s, []);
    assert PercentEncode(s) + [] == PercentEncode(s);
  }

  /**
    A final byte that can be neither an escape nor one of its digits decodes
    to itself, without changing how the bytes before it decode.
  */
  lemma {:induction false} DecodeAppendLiteral(s: seq<byte>, b: byte)
    requires b != PERCENT && !IsHexDigit(b)
    ensures PercentDecode(s + [b]) == PercentDecode(s) + [b]
    decreases |s|
  {
    var t := s + [b];
    if s == [] {
      assert t == [b];
      DecodeLiteral(b);
    } else if s[0] == PERCENT && |s| >= 3 && IsHexDigit(s[1]) && IsHexDigit(s[2]) {
      assert t[3..] == s[3..] + [b];
      DecodeAppendLiteral(s[3..], b);
    } else {
      assert t[0] == s[0];
      NoEscapeBeforeLiteral(s, b);
      assert t[1..] == s[1..] + [b];
      DecodeAppendLiteral(s[1..], b);
    }
  }

  lemma DecodeLiteral(b: byte)
    requires b != PERCENT
    ensures PercentDecode([b]) == [b]
  {
    assert [b][1..] == [];
  }

  /** An escape that does not start `s` does not start `s + [b]` either, when `b` is no hex digit. */
  lemma NoEscapeBeforeLiteral(s: seq<byte>, b: byte)
    requires |s| > 0 && !IsHexDigit(b)
    requires !(s[0] == PERCENT && |s| >= 3 && IsHexDigit(s[1]) && IsHexDigit(s[2]))
    ensures var t := s + [b]; !(t[0] == PERCENT && |t| >= 3 && IsHexDigit(t[1]) && IsHexDigit(t[2]))
  {
    var t := s + [b];
    if |s| < 3 && t[0] == PERCENT && |t| >= 3 {
      assert t[|s|] == b;
    }
  }

  // ---------------------------------------------------------------------
  // UTF-8 well-formedness (what `decode_utf8` accepts)

  predicate IsContinuation(b: byte) { 0x80 <= b <= 0xBF }

  /**
    The length of the well-formed UTF-8 sequence at the start of `s`, or 0
    when `s` does not start with one (the table of well-formed byte
    sequences of the Unicode standard, section 3.9).
  */
  function Utf8SeqLen(s: seq<byte>): (n: nat)
    ensures n <= |s| && n <= 4
  {
    if s == [] then 0
    else if s[0] < 0x80 then 1
    else if 0xC2 <= s[0] <= 0xDF then
      if |s| >= 2 && IsContinuation(s[1]) then 2 else 0
    else if 0xE0 <= s[0] <= 0xEF then
      var lo: byte := if s[0] == 0xE0 then 0xA0 else 0x80;
      var hi: byte := if s[0] == 0xED then 0x9F else 0xBF;
      if |s| >= 3 && lo <= s[1] <= hi && IsContinuation(s[2]) then 3 else 0
    else if 0xF0 <= s[0] <= 0xF4 then
      var lo: byte := if s[0] == 0xF0 then 0x90 else 0x80;
      var hi: byte := if s[0] == 0xF4 then 0x8F else 0xBF;
      if |s| >= 4 && lo <= s[1] <= hi && IsContinuation(s[2]) && IsContinuation(s[3]) then 4 else 0
    else 0
  }

  predicate ValidUtf8(s: seq<byte>)
    decreases |s|
  {
    s == [] || (Utf8SeqLen(s) > 0 && ValidUtf8(s[Utf8SeqLen(s)..]))
  }

  lemma Utf8SeqLenPrefix(a: seq<byte>, b: seq<byte>)
    requires Utf8SeqLen(a) > 0
    ensures Utf8SeqLen(a + b) == Utf8SeqLen(a)
  {
    assert (a + b)[0] == a[0];
    if |a| >= 2 { assert (a + b)[1] == a[1]; }
    if |a| >= 3 { assert (a + b)[2] == a[2]; }
    if |a| >= 4 { assert (a + b)[3] == a[3]; }
  }

  /** Well-formed UTF-8 is closed under concatenation. */
  lemma {:induction false} ValidUtf8Append(a: seq<byte>, b: seq<byte>)
    requires ValidUtf8(a) && ValidUtf8(b)
    ensures ValidUtf8(a + b)
    decreases |a|
  {
    if a == [] {
      assert a + b == b;
    } else {
      var n := Utf8SeqLen(a);
      Utf8SeqLenPrefix(a, b);
      assert (a + b)[n..] == a[n..] + b;
      ValidUtf8Append(a[n..], b);
    }
  }

  lemma Utf8SeqLenDropAscii(a: seq<byte>, b: byte)
    requires b < 0x80 && |a| > 0 && Utf8SeqLen(a + [b]) > 0
    ensures Utf8SeqLen(a + [b]) <= |a| && Utf8SeqLen(a) == Utf8SeqLen(a + [b])
  {
    var s := a + [b];
    assert s[0] == a[0];
    assert s[|a|] == b;
    if |a| >= 2 { assert s[1] == a[1]; }
    if |a| >= 3 { assert s[2] == a[2]; }
    if |a| >= 4 { assert s[3] == a[3]; }
  }

  /** Removing a final ASCII byte from well-formed UTF-8 leaves it well formed. */
  lemma {:induction false} ValidUtf8DropAscii(a: seq<byte>, b: byte)
    requires b < 0x80 && ValidUtf8(a + [b])
    ensures ValidUtf8(a)
    decreases |a|
  {
    if a != [] {
      var n := Utf8SeqLen(a + [b]);
      Utf8SeqLenDropAscii(a, b);
      assert (a + [b])[n..] == a[n..] + [b];
      ValidUtf8DropAscii(a[n..], b);
    }
  }

  // ---------------------------------------------------------------------
  // Splitting on the delimiter, as `str::split` does

  /**
    The pieces of `s` between occurrences of `d`: one more piece than there
    are occurrences, so an empty `s` gives one empty piece.
  */
  function Split(s: seq<byte>, d: byte): (r: seq<seq<byte>>)
    ensures |r| >= 1
    decreases |s|
  {
    if s == [] then [[]]
    else
      var rest := Split(s[1..], d);
      if s[0] == d then [[]] + rest else [[s[0]] + rest[0]] + rest[1..]
  }

  /** The inverse of `Split`: pieces joined with `d` between them. */
  function Join(parts: seq<seq<byte>>, d: byte): seq<byte>
    requires |parts| >= 1
    decreases |parts|
  {
    if |parts| == 1 then parts[0] else parts[0] + [d] + Join(parts[1..], d)
  }

  /** The total length of some pieces. */
  function TotalLength(parts: seq<seq<byte>>): nat
    decreases |parts|
  {
    if parts == [] then 0 else |parts[0]| + TotalLength(parts[1..])
  }

  /** A join is as long as its pieces plus one delimiter between each two. */
  lemma {:induction false} JoinLength(parts: seq<seq<byte>>, d: byte)
    requires |parts| >= 1
    ensures |Join(parts, d)| == TotalLength(parts) + |parts| - 1
    decreases |parts|
  {
    if |parts| > 1 {
      JoinLength(parts[1..], d);
    } else {
      assert parts[1..] == [];
    }
  }

  /** Pieces of at most `m` bytes each add up to at most `m` per piece. */
  lemma {:induction false} TotalLengthBound(parts: seq<seq<byte>>, m: nat)
    requires forall i :: 0 <= i < |parts| ==> |parts[i]| <= m
    ensures TotalLength(parts) <= |parts| * m
    decreases |parts|
  {
    if parts != [] {
      TotalLengthBound(parts[1..], m);
    }
  }

  lemma {:induction false} SplitPiece(p: seq<byte>, d: byte, rest: seq<byte>)
    requires d !in p
    ensures Split(p + [d] + rest, d) == [p] + Split(rest, d)
    ensures Split(p, d) == [p]
    decreases |p|
  {
    if p == [] {
      assert p + [d] + rest == [d] + rest;
      assert ([d] + rest)[1..] == rest;
    } else {
      assert (p + [d] + rest)[1..] == p[1..] + [d] + rest;
      SplitPiece(p[1..], d, rest);
      assert [p[0]] + p[1..] == p;
    }
  }

  /** Splitting a join gives back the pieces, provided no piece holds `d`. */
  lemma {:induction false} SplitJoin(parts: seq<seq<byte>>, d: byte)
    requires |parts| >= 1
    requires forall i :: 0 <= i < |parts| ==> d !in parts[i]
    ensures Split(Join(parts, d), d) == parts
    decreases |parts|
  {
    if |parts| == 1 {
      SplitPiece(parts[0], d, []);
    } else {
      SplitJoin(parts[1..], d);
      SplitPiece(parts[0], d, Join(parts[1..], d));
      assert [parts[0]] + parts[1..] == parts;
    }
  }

  // ---------------------------------------------------------------------
  // Decimal numbers, as `u32::from_str` reads them and `Display` writes them

  predicate IsDigit(b: byte) { 0x30 <= b <= 0x39 }

  predicate AllDigits(s: seq<byte>) {
    forall i :: 0 <= i < |s| ==> IsDigit(s[i])
  }

  function DigitsValue(s: seq<byte>): nat
    requires AllDigits(s)
    decreases |s|
  {
    if s == [] then 0
    else
      assert IsDigit(s[|s| - 1]);
      DigitsValue(s[..|s| - 1]) * 10 + (s[|s| - 1] as int - 0x30)
  }

  /**
    `u32::from_str`: an optional leading `+`, then one or more decimal
    digits whose value fits in 32 bits.
  */
  function ParseU32(s: seq<byte>): (r: Option<u32>)
    ensures r.Some? ==> |s| > 0 && IsDigit(s[|s| - 1])
  {
    var digits := if |s| > 0 && s[0] == PLUS then s[1..] else s;
    if |digits| == 0 || !AllDigits(digits) then None
    else
      var v := DigitsValue(digits);
      if v < 0x1_0000_0000 then Some(v as u32) else None
  }

  /** A number starts with a digit or `+`. */
  lemma ParseU32LeadingByte(s: seq<byte>)
    requires |s| > 0 && s[0] != PLUS && !IsDigit(s[0])
    ensures ParseU32(s) == None
  {
    assert !AllDigits(s);
  }

  /** The decimal rendering of `n`, without sign or leading zeros. */
  function Decimal(n: nat): (r: seq<byte>)
    ensures |r| >= 1 && forall i :: 0 <= i < |r| ==> IsDigit(r[i])
    decreases n
  {
    if n < 10 then [(0x30 + n) as byte] else Decimal(n / 10) + [(0x30 + n % 10) as byte]
  }

  lemma {:induction false} DigitsValueDecimal(n: nat)
    ensures DigitsValue(Decimal(n)) == n
    decreases n
  {
    if n >= 10 {
      DigitsValueDecimal(n / 10);
      var d := Decimal(n);
      assert d[..|d| - 1] == Decimal(n / 10);
    }
  }

  /** Reading back a written bucket id gives the id. */
  lemma ParseDecimal(n: u32)
    ensures ParseU32(Decimal(n as nat)) == Some(n)
  {
    DigitsValueDecimal(n as nat);
    var d := Decimal(n as nat);
    assert d[0] != PLUS;
  }

  /** A decimal number never contains a reserved byte. */
  lemma DecimalHasNoReserved(n: nat)
    ensures forall i :: 0 <= i < |Decimal(n)| ==> !IsReserved(Decimal(n)[i])
  {
  }
}
