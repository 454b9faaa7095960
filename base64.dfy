/** The Base64 encoding of section 4 of RFC 4648 (standard alphabet, `=`
    padding), as `Convert.ToBase64String` and `Convert.FromBase64String`
    apply it. */
module Base64 {
  import opened Wrappers
  import opened Text

  const Pad: Char16 := 0x3D  // '='

  /** The alphabet of section 4 of RFC 4648: A-Z, a-z, 0-9, '+', '/'. */
  function AlphabetChar(i: int): (c: Char16)
    requires 0 <= i < 64
  {
    if i < 26 then (0x41 + i) as Char16
    else if i < 52 then (0x61 + i - 26) as Char16
    else if i < 62 then (0x30 + i - 52) as Char16
    else if i == 62 then 0x2B as Char16
    else 0x2F as Char16
  }

  /** The value of an alphabet character, or None for any other character. */
  function AlphabetIndex(c: Char16): (r: Option<int>)
    ensures r.Some? ==> 0 <= r.value < 64 && AlphabetChar(r.value) == c
  {
    if 0x41 <= c <= 0x5A then Some(c as int - 0x41)
    else if 0x61 <= c <= 0x7A then Some(c as int - 0x61 + 26)
    else if 0x30 <= c <= 0x39 then Some(c as int - 0x30 + 52)
    else if c == 0x2B then Some(62)
    else if c == 0x2F then Some(63)
    else None
  }

  lemma IndexOfAlphabetChar(i: int)
    requires 0 <= i < 64
    ensures AlphabetIndex(AlphabetChar(i)) == Some(i)
  {
  }

  /** The four characters of one full three-byte group. */
  function EncodeGroup(b0: Byte, b1: Byte, b2: Byte): (r: String16)
    ensures |r| == 4
  {
    [AlphabetChar(b0 as int / 4), AlphabetChar((b0 as int % 4) * 16 + b1 as int / 16),
     AlphabetChar((b1 as int % 16) * 4 + b2 as int / 64), AlphabetChar(b2 as int % 64)]
  }

  /** `Convert.ToBase64String`. */
  function Encode(bs: seq<Byte>): (r: String16)
    ensures |r| % 4 == 0
    ensures bs != [] ==> |r| >= 4
    decreases |bs|
  {
    if |bs| == 0 then []
    else if |bs| == 1 then
      [AlphabetChar(bs[0] as int / 4), AlphabetChar((bs[0] as int % 4) * 16), Pad, Pad]
    else if |bs| == 2 then
      [AlphabetChar(bs[0] as int / 4), AlphabetChar((bs[0] as int % 4) * 16 + bs[1] as int / 16),
       AlphabetChar((bs[1] as int % 16) * 4), Pad]
    else EncodeGroup(bs[0], bs[1], bs[2]) + Encode(bs[3..])
  }

  /** The characters `Convert.FromBase64String` skips: space, tab, CR, LF. */
  predicate IsSkipped(c: Char16) { c == 0x20 || c == 0x09 || c == 0x0D || c == 0x0A }

  function RemoveSkipped(t: String16): (r: String16)
    ensures |r| <= |t|
    ensures forall i :: 0 <= i < |r| ==> !IsSkipped(r[i])
  {
    if t == [] then []
    else if IsSkipped(t[0]) then RemoveSkipped(t[1..])
    else [t[0]] + RemoveSkipped(t[1..])
  }

  /** Three bytes from four alphabet characters. */
  function DecodeGroup(q: String16): (r: Option<seq<Byte>>)
    requires |q| == 4
    ensures r.Some? ==> |r.value| == 3
  {
    match (AlphabetIndex(q[0]), AlphabetIndex(q[1]), AlphabetIndex(q[2]), AlphabetIndex(q[3]))
    case (Some(s0), Some(s1), Some(s2), Some(s3)) =>
      Some([(s0 * 4 + s1 / 16) as Byte, ((s1 % 16) * 16 + s2 / 4) as Byte, ((s2 % 4) * 64 + s3) as Byte])
    case _ => None
  }

  /** The last group, which may end in one or two padding characters; the
      bits that padding leaves over are ignored. */
  function DecodeLastGroup(q: String16): (r: Option<seq<Byte>>)
    requires |q| == 4
  {
    if q[2] == Pad && q[3] == Pad then
      match (AlphabetIndex(q[0]), AlphabetIndex(q[1]))
      case (Some(s0), Some(s1)) => Some([(s0 * 4 + s1 / 16) as Byte])
      case _ => None
    else if q[3] == Pad then
      match (AlphabetIndex(q[0]), AlphabetIndex(q[1]), AlphabetIndex(q[2]))
      case (Some(s0), Some(s1), Some(s2)) =>
        Some([(s0 * 4 + s1 / 16) as Byte, ((s1 % 16) * 16 + s2 / 4) as Byte])
      case _ => None
    else DecodeGroup(q)
  }

  function DecodeGroups(u: String16): (r: Option<seq<Byte>>)
    requires |u| % 4 == 0
    decreases |u|
  {
    if u == [] then Some([])
    else if |u| == 4 then DecodeLastGroup(u)
    else
      match DecodeGroup(u[..4])
      case None => None
      case Some(head) =>
        match DecodeGroups(u[4..])
        case None => None
        case Some(tail) => Some(head + tail)
  }

  /** `Convert.FromBase64String`: None where .NET throws `FormatException`. */
  function Decode(t: String16): (r: Option<seq<Byte>>) {
    var u := RemoveSkipped(t);
    if |u| % 4 != 0 then None else DecodeGroups(u)
  }

  lemma GroupRoundTrip(b0: Byte, b1: Byte, b2: Byte)
    ensures DecodeGroup(EncodeGroup(b0, b1, b2)) == Some([b0, b1, b2])
  {
    var s0, s1 := b0 as int / 4, (b0 as int % 4) * 16 + b1 as int / 16;
    var s2, s3 := (b1 as int % 16) * 4 + b2 as int / 64, b2 as int % 64;
    IndexOfAlphabetChar(s0); IndexOfAlphabetChar(s1);
    IndexOfAlphabetChar(s2); IndexOfAlphabetChar(s3);
    assert s1 / 16 == b0 as int % 4 && s1 % 16 == b1 as int / 16;
    assert s2 / 4 == b1 as int % 16 && s2 % 4 == b2 as int / 64;
  }

  lemma {:induction false} EncodeHasNoSkipped(bs: seq<Byte>)
    ensures forall i :: 0 <= i < |Encode(bs)| ==> !IsSkipped(Encode(bs)[i])
    decreases |bs|
  {
    AlphabetNotSkipped();
    if |bs| > 2 {
      EncodeHasNoSkipped(bs[3..]);
      var g, rest := EncodeGroup(bs[0], bs[1], bs[2]), Encode(bs[3..]);
      var r := Encode(bs);
      assert r == g + rest;
      forall i | 0 <= i < |r| ensures !IsSkipped(r[i]) {
        if i < 4 {
          assert r[i] == g[i];
        } else {
          assert r[i] == rest[i - 4];
        }
      }
    }
  }

  /** No alphabet character is one that decoding skips. */
  lemma AlphabetNotSkipped()
    ensures forall i :: 0 <= i < 64 ==> !IsSkipped(AlphabetChar(i))
  {
  }

  lemma {:induction false} RemoveSkippedIdentity(t: String16)
    requires forall i :: 0 <= i < |t| ==> !IsSkipped(t[i])
    ensures RemoveSkipped(t) == t
  {
    if t != [] {
      RemoveSkippedIdentity(t[1..]);
    }
  }

  lemma OneByteRoundTrip(b0: Byte)
    ensures DecodeLastGroup(Encode([b0])) == Some([b0])
  {
    var s0, s1 := b0 as int / 4, (b0 as int % 4) * 16;
    IndexOfAlphabetChar(s0);
    IndexOfAlphabetChar(s1);
    assert s1 / 16 == b0 as int % 4;
  }

  lemma TwoBytesRoundTrip(b0: Byte, b1: Byte)
    ensures DecodeLastGroup(Encode([b0, b1])) == Some([b0, b1])
  {
    var r := Encode([b0, b1]);
    var s0, s1 := b0 as int / 4, (b0 as int % 4) * 16 + b1 as int / 16;
    var s2 := (b1 as int % 16) * 4;
    IndexOfAlphabetChar(s0);
    IndexOfAlphabetChar(s1);
    IndexOfAlphabetChar(s2);
    assert r[2] == AlphabetChar(s2) != Pad;
    assert s1 / 16 == b0 as int % 4 && s1 % 16 == b1 as int / 16;
    assert s2 / 4 == b1 as int % 16;
  }

  lemma EncodeFirstGroup(bs: seq<Byte>)
    requires |bs| >= 3
    ensures Encode(bs) == EncodeGroup(bs[0], bs[1], bs[2]) + Encode(bs[3..])
  {
  }

  lemma LastGroupRoundTrip(b0: Byte, b1: Byte, b2: Byte)
    ensures DecodeGroups(EncodeGroup(b0, b1, b2)) == Some([b0, b1, b2])
  {
    var g := EncodeGroup(b0, b1, b2);
    GroupRoundTrip(b0, b1, b2);
    assert g[3] != Pad;
    assert DecodeGroups(g) == DecodeLastGroup(g);
  }

  lemma {:induction false} GroupsRoundTrip(bs: seq<Byte>)
    ensures DecodeGroups(Encode(bs)) == Some(bs)
    decreases |bs|
  {
    if |bs| > 3 {
      GroupsRoundTrip(bs[3..]);
      FirstGroupRoundTrip(bs);
    } else if |bs| == 3 {
      ThreeBytesGroups(bs);
    } else if |bs| == 2 {
      TwoBytesGroups(bs);
    } else if |bs| == 1 {
      OneByteGroups(bs);
    }
  }

  /** One byte: a group with two padding characters. */
  lemma OneByteGroups(bs: seq<Byte>)
    requires |bs| == 1
    ensures DecodeGroups(Encode(bs)) == Some(bs)
  {
    assert bs == [bs[0]];
    OneByteRoundTrip(bs[0]);
  }

  /** Two bytes: a group with one padding character. */
  lemma TwoBytesGroups(bs: seq<Byte>)
    requires |bs| == 2
    ensures DecodeGroups(Encode(bs)) == Some(bs)
  {
    assert bs == [bs[0], bs[1]];
    TwoBytesRoundTrip(bs[0], bs[1]);
  }

  /** Three bytes: one group without padding. */
  lemma ThreeBytesGroups(bs: seq<Byte>)
    requires |bs| == 3
    ensures DecodeGroups(Encode(bs)) == Some(bs)
  {
    EncodeThree(bs);
    LastGroupRoundTrip(bs[0], bs[1], bs[2]);
    assert bs == [bs[0], bs[1], bs[2]];
  }

  /** Three bytes make one unpadded group. */
  lemma EncodeThree(bs: seq<Byte>)
    requires |bs| == 3
    ensures Encode(bs) == EncodeGroup(bs[0], bs[1], bs[2])
  {
    EncodeFirstGroup(bs);
    assert Encode(bs[3..]) == [];
  }

  /** A full first group followed by more bytes whose encoding decodes back. */
  lemma FirstGroupRoundTrip(bs: seq<Byte>)
    requires |bs| > 3 && DecodeGroups(Encode(bs[3..])) == Some(bs[3..])
    ensures DecodeGroups(Encode(bs)) == Some(bs)
  {
    SplitFirstThree(bs);
    var g, u := EncodeGroup(bs[0], bs[1], bs[2]), Encode(bs[3..]);
    EncodeFirstGroup(bs);
    GroupRoundTrip(bs[0], bs[1], bs[2]);
    DecodeGroupsCons(g, u, [bs[0], bs[1], bs[2]], bs[3..]);
  }

  lemma SplitFirstThree<T>(s: seq<T>)
    requires |s| >= 3
    ensures s == [s[0], s[1], s[2]] + s[3..]
  {
  }

  /** A group that decodes, followed by more groups that decode, decodes to
      the two results one after the other. */
  lemma DecodeGroupsCons(g: String16, u: String16, h: seq<Byte>, rest: seq<Byte>)
    requires |g| == 4 && u != [] && |u| % 4 == 0
    requires DecodeGroup(g) == Some(h) && DecodeGroups(u) == Some(rest)
    ensures DecodeGroups(g + u) == Some(h + rest)
  {
    var r := g + u;
    assert r[..4] == g && r[4..] == u;
  }

  /** Every started group of three bytes gives four characters. */
  lemma {:induction false} EncodedLength(bs: seq<Byte>)
    ensures |Encode(bs)| == 4 * ((|bs| + 2) / 3)
    decreases |bs|
  {
    if |bs| > 2 {
      EncodedLength(bs[3..]);
      assert (|bs| + 2) / 3 == (|bs[3..]| + 2) / 3 + 1;
    }
  }

  /** Decoding undoes encoding for every byte sequence. */
  lemma RoundTrip(bs: seq<Byte>)
    ensures Decode(Encode(bs)) == Some(bs)
  {
    EncodeHasNoSkipped(bs);
    RemoveSkippedIdentity(Encode(bs));
    GroupsRoundTrip(bs);
  }
}
