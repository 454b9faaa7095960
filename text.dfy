/** .NET strings as sequences of UTF-16 code units, and the UTF-8 transcoding
    the pipeline relies on (`Encoding.UTF8.GetByteCount`, `GetBytes`,
    `GetString`), following section 3 of RFC 3629.  An unpaired surrogate is
    encoded as U+FFFD, as the .NET encoder's replacement fallback does. */
module Text {

  /** One UTF-16 code unit, the element of a .NET `string`. */
  newtype Char16 = x: int | 0 <= x < 0x1_0000

  /** One octet. */
  newtype Byte = x: int | 0 <= x < 0x100

  type String16 = seq<Char16>

  const ReplacementChar: int := 0xFFFD

  predicate IsHighSurrogate(c: Char16) { 0xD800 <= c <= 0xDBFF }

  predicate IsLowSurrogate(c: Char16) { 0xDC00 <= c <= 0xDFFF }

  predicate IsSurrogate(c: Char16) { 0xD800 <= c <= 0xDFFF }

  /** A Unicode scalar value: a code point that is not a surrogate. */
  predicate IsScalar(cp: int) { 0 <= cp <= 0x10_FFFF && !(0xD800 <= cp <= 0xDFFF) }

  /** The string starts with a high surrogate immediately followed by a low one. */
  predicate StartsWithPair(s: String16) {
    |s| >= 2 && IsHighSurrogate(s[0]) && IsLowSurrogate(s[1])
  }

  /** Every surrogate in `s` is part of a pair: `s` spells a sequence of
      Unicode scalar values. */
  predicate WellFormed(s: String16)
    decreases |s|
  {
    if s == [] then true
    else if StartsWithPair(s) then WellFormed(s[2..])
    else !IsSurrogate(s[0]) && WellFormed(s[1..])
  }

  /** The number of code units the first scalar of `s` occupies. */
  function HeadWidth(s: String16): (n: nat)
    requires s != []
    ensures 1 <= n <= |s|
  {
    if StartsWithPair(s) then 2 else 1
  }

  /** The scalar value that the first code unit(s) of `s` stand for; an
      unpaired surrogate stands for U+FFFD. */
  function HeadScalar(s: String16): (cp: int)
    requires s != []
    ensures IsScalar(cp)
    ensures cp >= 0x1_0000 <==> StartsWithPair(s)
  {
    if StartsWithPair(s) then 0x1_0000 + (s[0] as int - 0xD800) * 0x400 + (s[1] as int - 0xDC00)
    else if IsSurrogate(s[0]) then ReplacementChar
    else s[0] as int
  }

  /** The UTF-16 spelling of a scalar value. */
  function Utf16Of(cp: int): (r: String16)
    requires IsScalar(cp)
    ensures |r| == if cp < 0x1_0000 then 1 else 2
  {
    if cp < 0x1_0000 then [cp as Char16]
    else [(0xD800 + (cp - 0x1_0000) / 0x400) as Char16, (0xDC00 + (cp - 0x1_0000) % 0x400) as Char16]
  }

  /** The number of UTF-8 bytes of one scalar value (section 3 of RFC 3629). */
  function ScalarWidth(cp: int): (n: nat)
    requires IsScalar(cp)
    ensures 1 <= n <= 4
  {
    if cp < 0x80 then 1 else if cp < 0x800 then 2 else if cp < 0x1_0000 then 3 else 4
  }

  predicate IsContinuation(b: Byte) { 0x80 <= b <= 0xBF }

  /** The UTF-8 encoding of one scalar value. */
  function EncodeScalar(cp: int): (r: seq<Byte>)
    requires IsScalar(cp)
    ensures |r| == ScalarWidth(cp)
  {
    if cp < 0x80 then [cp as Byte]
    else if cp < 0x800 then
      [(0xC0 + cp / 0x40) as Byte, (0x80 + cp % 0x40) as Byte]
    else if cp < 0x1_0000 then
      [(0xE0 + cp / 0x1000) as Byte, (0x80 + (cp / 0x40) % 0x40) as Byte, (0x80 + cp % 0x40) as Byte]
    else
      [(0xF0 + cp / 0x4_0000) as Byte, (0x80 + (cp / 0x1000) % 0x40) as Byte,
       (0x80 + (cp / 0x40) % 0x40) as Byte, (0x80 + cp % 0x40) as Byte]
  }

  /** `Encoding.UTF8.GetBytes`: scalar by scalar, unpaired surrogates as U+FFFD. */
  function Utf8Encode(s: String16): (r: seq<Byte>)
    decreases |s|
  {
    if s == [] then []
    else EncodeScalar(HeadScalar(s)) + Utf8Encode(s[HeadWidth(s)..])
  }

  /** `Encoding.UTF8.GetByteCount`, counted code unit by code unit: one byte
      below U+0080, two below U+0800, four for a surrogate pair and three for
      anything else (an unpaired surrogate included). */
  function Utf8ByteCount(s: String16): (n: nat)
    decreases |s|
  {
    if s == [] then 0
    else if StartsWithPair(s) then 4 + Utf8ByteCount(s[2..])
    else if s[0] < 0x80 then 1 + Utf8ByteCount(s[1..])
    else if s[0] < 0x800 then 2 + Utf8ByteCount(s[1..])
    else 3 + Utf8ByteCount(s[1..])
  }

  /** The byte count is the length of the encoding. */
  lemma {:induction false} ByteCountIsEncodedLength(s: String16)
    ensures |Utf8Encode(s)| == Utf8ByteCount(s)
    decreases |s|
  {
    if s != [] {
      ByteCountIsEncodedLength(s[HeadWidth(s)..]);
    }
  }

  /** Every code unit costs at least one byte and at most three. */
  lemma {:induction false} ByteCountBounds(s: String16)
    ensures |s| <= Utf8ByteCount(s) <= 3 * |s|
    decreases |s|
  {
    if s != [] {
      if StartsWithPair(s) { ByteCountBounds(s[2..]); } else { ByteCountBounds(s[1..]); }
    }
  }

  /** Lengthening a string never shrinks its byte count, even when the
      appended text completes a surrogate pair that was unpaired before. */
  lemma {:induction false} ByteCountMonotone(s: String16, t: String16)
    ensures Utf8ByteCount(s) <= Utf8ByteCount(s + t)
    decreases |s|
  {
    if s != [] {
      var st := s + t;
      if StartsWithPair(s) {
        assert StartsWithPair(st) && st[2..] == s[2..] + t;
        ByteCountMonotone(s[2..], t);
      } else if |s| == 1 && StartsWithPair(st) {
        assert Utf8ByteCount(s) == 3 by { assert s[1..] == []; }
      } else {
        assert !StartsWithPair(st) && st[0] == s[0] && st[1..] == s[1..] + t;
        ByteCountMonotone(s[1..], t);
      }
    }
  }

  /** The number of bytes of the well-formed sequences a byte can start
      (RFC 3629, section 4): 0 for a byte that starts none. */
  function SequenceLength(b0: Byte): (n: nat)
    ensures n <= 4
  {
    if b0 < 0x80 then 1
    else if 0xC2 <= b0 <= 0xDF then 2
    else if 0xE0 <= b0 <= 0xEF then 3
    else if 0xF0 <= b0 <= 0xF4 then 4
    else 0
  }

  /** The second byte after lead `b0`: the ranges of RFC 3629, section 4,
      that rule out overlong forms, surrogates and code points above
      U+10FFFF. */
  predicate SecondInRange(b0: Byte, b1: Byte) {
    if b0 == 0xE0 then 0xA0 <= b1 <= 0xBF
    else if b0 == 0xED then 0x80 <= b1 <= 0x9F
    else if b0 == 0xF0 then 0x90 <= b1 <= 0xBF
    else if b0 == 0xF4 then 0x80 <= b1 <= 0x8F
    else IsContinuation(b1)
  }

  /** The length of the longest prefix of `bs` that begins some well-formed
      sequence, and at least 1: the "maximal subpart" that the decoder
      replaces by a single U+FFFD when it is not a whole sequence. */
  function MaximalSubpart(bs: seq<Byte>): (m: nat)
    requires bs != []
    ensures 1 <= m <= |bs| && m <= 4
    ensures SequenceLength(bs[0]) >= 1 ==> m <= SequenceLength(bs[0])
  {
    var n := SequenceLength(bs[0]);
    if n <= 1 || |bs| < 2 || !SecondInRange(bs[0], bs[1]) then 1
    else if n == 2 || |bs| < 3 || !IsContinuation(bs[2]) then 2
    else if n == 3 || |bs| < 4 || !IsContinuation(bs[3]) then 3
    else 4
  }

  /** Decodes the scalar at the head of `bs`: a well-formed UTF-8 sequence
      gives its scalar and length; otherwise the maximal subpart gives one
      U+FFFD, as the .NET decoder's replacement fallback does. */
  function DecodeScalar(bs: seq<Byte>): (r: (int, nat))
    requires bs != []
    ensures IsScalar(r.0) && 1 <= r.1 <= |bs|
    ensures r.1 == MaximalSubpart(bs)
    ensures r.1 < SequenceLength(bs[0]) || SequenceLength(bs[0]) == 0 ==> r.0 == ReplacementChar
  {
    var b0 := bs[0];
    var m := MaximalSubpart(bs);
    if m < SequenceLength(b0) || SequenceLength(b0) == 0 then (ReplacementChar, m)
    else if b0 < 0x80 then (b0 as int, 1)
    else if b0 <= 0xDF then
      ((b0 as int - 0xC0) * 0x40 + (bs[1] as int - 0x80), 2)
    else if b0 <= 0xEF then
      ((b0 as int - 0xE0) * 0x1000 + (bs[1] as int - 0x80) * 0x40 + (bs[2] as int - 0x80), 3)
    else
      ((b0 as int - 0xF0) * 0x4_0000 + (bs[1] as int - 0x80) * 0x1000
        + (bs[2] as int - 0x80) * 0x40 + (bs[3] as int - 0x80), 4)
  }

  /** `Encoding.UTF8.GetString`. */
  function Utf8Decode(bs: seq<Byte>): (r: String16)
    decreases |bs|
  {
    if bs == [] then []
    else
      var (cp, n) := DecodeScalar(bs);
      Utf16Of(cp) + Utf8Decode(bs[n..])
  }

  lemma EncodeScalar2(cp: int, rest: seq<Byte>)
    requires IsScalar(cp) && 0x80 <= cp < 0x800
    ensures DecodeScalar(EncodeScalar(cp) + rest) == (cp, 2)
  {
    var bs := EncodeScalar(cp) + rest;
    assert bs[0] as int == 0xC0 + cp / 0x40 && bs[1] as int == 0x80 + cp % 0x40;
  }

  lemma EncodeScalar3(cp: int, rest: seq<Byte>)
    requires IsScalar(cp) && 0x800 <= cp < 0x1_0000
    ensures DecodeScalar(EncodeScalar(cp) + rest) == (cp, 3)
  {
    var bs := EncodeScalar(cp) + rest;
    var q := cp / 0x40;
    assert cp == q * 0x40 + cp % 0x40;
    assert q == (q / 0x40) * 0x40 + q % 0x40;
    assert q / 0x40 == cp / 0x1000;
    assert bs[0] as int == 0xE0 + cp / 0x1000;
    assert bs[1] as int == 0x80 + q % 0x40 && bs[2] as int == 0x80 + cp % 0x40;
  }

  lemma EncodeScalar4(cp: int, rest: seq<Byte>)
    requires IsScalar(cp) && 0x1_0000 <= cp
    ensures DecodeScalar(EncodeScalar(cp) + rest) == (cp, 4)
  {
    var bs := EncodeScalar(cp) + rest;
    var q1 := cp / 0x40;
    var q2 := q1 / 0x40;
    assert cp == q1 * 0x40 + cp % 0x40;
    assert q1 == q2 * 0x40 + q1 % 0x40;
    assert q2 == (q2 / 0x40) * 0x40 + q2 % 0x40;
    assert q2 == cp / 0x1000;
    assert q2 / 0x40 == cp / 0x4_0000;
    assert bs[0] as int == 0xF0 + q2 / 0x40;
    assert bs[1] as int == 0x80 + q2 % 0x40 && bs[2] as int == 0x80 + q1 % 0x40 && bs[3] as int == 0x80 + cp % 0x40;
  }

  /** Decoding the encoding of a scalar gives the scalar back and consumes
      exactly its bytes, whatever follows. */
  lemma DecodeEncodeScalar(cp: int, rest: seq<Byte>)
    requires IsScalar(cp)
    ensures DecodeScalar(EncodeScalar(cp) + rest) == (cp, |EncodeScalar(cp)|)
  {
    if cp < 0x80 {
    } else if cp < 0x800 {
      EncodeScalar2(cp, rest);
    } else if cp < 0x1_0000 {
      EncodeScalar3(cp, rest);
    } else {
      EncodeScalar4(cp, rest);
    }
  }

  /** In a well-formed string the head scalar is spelt by exactly the head code units. */
  lemma HeadSpelling(s: String16)
    requires s != [] && WellFormed(s)
    ensures Utf16Of(HeadScalar(s)) == s[..HeadWidth(s)]
  {
    if StartsWithPair(s) {
      var d := (s[0] as int - 0xD800) * 0x400 + (s[1] as int - 0xDC00);
      assert d / 0x400 == s[0] as int - 0xD800 && d % 0x400 == s[1] as int - 0xDC00;
    }
  }

  /** Decoding undoes encoding for every string of Unicode scalar values. */
  lemma {:induction false} DecodeEncode(s: String16)
    requires WellFormed(s)
    ensures Utf8Decode(Utf8Encode(s)) == s
    decreases |s|
  {
    if s != [] {
      var cp, n := HeadScalar(s), HeadWidth(s);
      var tail := Utf8Encode(s[n..]);
      var bs := EncodeScalar(cp) + tail;
      assert Utf8Encode(s) == bs;
      DecodeEncodeScalar(cp, tail);
      assert bs[|EncodeScalar(cp)|..] == tail;
      assert WellFormed(s[n..]);
      DecodeEncode(s[n..]);
      HeadSpelling(s);
      assert s == s[..n] + s[n..];
    }
  }

  /** A truncated three-byte sequence followed by `A` decodes to one U+FFFD
      and the `A`: the invalid run is replaced once, not byte by byte. */
  lemma TruncatedSequenceIsOneReplacement()
    ensures Utf8Decode([0xE0, 0xA0, 0x41]) == [0xFFFD, 0x41]
  {
    var bs: seq<Byte> := [0xE0, 0xA0, 0x41];
    assert MaximalSubpart(bs) == 2;
    assert bs[2..] == [0x41];
    assert Utf8Decode(bs[2..]) == [0x41] by {
      assert bs[2..][1..] == [];
    }
  }

  /** A four-byte sequence cut short after three bytes is one U+FFFD. */
  lemma TruncatedFourByteSequence()
    ensures Utf8Decode([0xF0, 0x90, 0x80]) == [0xFFFD]
  {
    var bs: seq<Byte> := [0xF0, 0x90, 0x80];
    assert MaximalSubpart(bs) == 3;
    assert bs[3..] == [];
  }

  /** A byte no sequence starts with, and a second byte outside its lead's
      range, are replaced one byte at a time. */
  lemma StrayBytesAreReplacedSingly()
    ensures Utf8Decode([0x80, 0xE0, 0x80]) == [0xFFFD, 0xFFFD, 0xFFFD]
  {
    var bs: seq<Byte> := [0x80, 0xE0, 0x80];
    assert MaximalSubpart(bs) == 1;
    assert bs[1..] == [0xE0, 0x80];
    assert MaximalSubpart(bs[1..]) == 1;
    var last := bs[1..][1..];
    assert last == [0x80] && last[1..] == [];
    assert Utf8Decode(last) == [0xFFFD];
    assert Utf8Decode(bs[1..]) == [0xFFFD] + Utf8Decode(last);
  }

  /** `char.IsWhiteSpace` for one UTF-16 code unit: the Unicode White_Space set. */
  predicate IsWhiteSpace(c: Char16) {
    || 0x09 <= c <= 0x0D || c == 0x20 || c == 0x85 || c == 0xA0 || c == 0x1680
    || 0x2000 <= c <= 0x200A || c == 0x2028 || c == 0x2029 || c == 0x202F
    || c == 0x205F || c == 0x3000
  }

  /** `string.IsNullOrWhiteSpace` (a null string is modelled as empty). */
  predicate IsNullOrWhiteSpace(s: String16) {
    forall i :: 0 <= i < |s| ==> IsWhiteSpace(s[i])
  }
}
