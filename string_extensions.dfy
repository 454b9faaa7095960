/** `StringExtensions`: truncation with a suffix, the JSON-safe rewriting of
    a string, and Base64 over the UTF-8 bytes of a string. A null string is
    modelled as the empty one, which every operation returns unchanged. */
module StringExtensions {
  import opened Wrappers
  import opened Text
  import Base64

  const Ellipsis: String16 := [0x2E, 0x2E, 0x2E]  // "..."

  /** `TruncateIfNeeded`: a string no longer than `maxLength` is returned as
      it is; a longer one keeps its first `maxLength - |suffix|` characters
      followed by the suffix. When the suffix alone does not fit, the result
      is the first `maxLength` characters of the suffix, and a negative
      `maxLength` makes `Substring` throw. A null suffix (`None`) is only
      touched when the string has to be cut, and then its `Length` throws
      before anything else is checked. */
  function TruncateIfNeeded(value: String16, maxLength: int, suffix: Option<String16> := Some(Ellipsis)): (r: Result<String16>)
    ensures value == [] || |value| <= maxLength ==> r == Ok(value)
    ensures value != [] && |value| > maxLength && suffix.None? ==> r == Err(NullReference)
    ensures |value| > maxLength && maxLength < 0 && value != [] && suffix.Some? ==> r == Err(ArgumentOutOfRange)
    ensures |value| > maxLength >= 0 && suffix.Some? ==> r.Ok? && |r.value| == maxLength
    ensures suffix.Some? && |value| > maxLength > |suffix.value| ==>
              r.Ok? && r.value == value[..maxLength - |suffix.value|] + suffix.value
    ensures suffix.Some? && |value| > maxLength && 0 <= maxLength <= |suffix.value| ==>
              r.Ok? && r.value == suffix.value[..maxLength]
  {
    if value == [] || |value| <= maxLength then Ok(value)
    else if suffix.None? then Err(NullReference)
    else
      var keep := maxLength - |suffix.value|;
      if keep <= 0 then
        if maxLength < 0 then Err(ArgumentOutOfRange) else Ok(suffix.value[..maxLength])
      else Ok(value[..keep] + suffix.value)
  }

  /** Truncating what was truncated changes nothing: the result is never
      longer than `maxLength` unless it is the input itself. */
  lemma TruncateIdempotent(value: String16, maxLength: int, suffix: Option<String16>)
    requires TruncateIfNeeded(value, maxLength, suffix).Ok?
    ensures var once := TruncateIfNeeded(value, maxLength, suffix).value;
            once == value || |once| <= maxLength
    ensures var once := TruncateIfNeeded(value, maxLength, suffix).value;
            TruncateIfNeeded(once, maxLength, suffix) == Ok(once)
  {
  }

  const Backslash: Char16 := 0x5C
  const Quote: Char16 := 0x22

  /** The characters the regular expression `[\u0000-\u001F\u007F-\u009F]`
      matches. */
  predicate IsControl(c: Char16) {
    c <= 0x1F || 0x7F <= c <= 0x9F
  }

  /** `Regex.Replace` of the control characters with nothing: exactly the
      other characters are kept, and a string without control characters is
      returned as it is. */
  function StripControl(s: String16): (r: String16)
    ensures |r| <= |s|
    ensures forall c :: c in r <==> c in s && !IsControl(c)
    ensures (forall i :: 0 <= i < |s| ==> !IsControl(s[i])) ==> r == s
  {
    if s == [] then []
    else
      assert forall c :: c in s <==> c == s[0] || c in s[1..];
      (if IsControl(s[0]) then [] else [s[0]]) + StripControl(s[1..])
  }

  /** Stripping works piece by piece, so the characters that are kept stay
      in their order. */
  lemma {:induction false} StripControlAppend(a: String16, b: String16)
    ensures StripControl(a + b) == StripControl(a) + StripControl(b)
    decreases |a|
  {
    if a != [] {
      assert (a + b)[1..] == a[1..] + b;
      StripControlAppend(a[1..], b);
    } else {
      assert a + b == b;
    }
  }

  /** `Replace("\\", "\\\\")`. */
  function DoubleBackslashes(s: String16): String16 {
    if s == [] then []
    else (if s[0] == Backslash then [Backslash, Backslash] else [s[0]]) + DoubleBackslashes(s[1..])
  }

  /** `Replace("\"", "\\\"")`. */
  function EscapeQuotes(s: String16): String16 {
    if s == [] then []
    else (if s[0] == Quote then [Backslash, Quote] else [s[0]]) + EscapeQuotes(s[1..])
  }

  /** `ToSafeJson`: control characters deleted, then every backslash
      doubled, then every quote prefixed with a backslash. The result is the
      one-pass escape of the input without its control characters. */
  function ToSafeJson(value: String16): (r: String16)
    ensures r == EscapeChars(StripControl(value))
  {
    if value == [] then value
    else
      ReplacementsCompose(StripControl(value));
      EscapeQuotes(DoubleBackslashes(StripControl(value)))
  }

  /** The two replacements together, character by character: a backslash
      becomes two, a quote gets a backslash in front, anything else stays. */
  function EscapeChars(s: String16): String16 {
    if s == [] then []
    else
      (if s[0] == Backslash then [Backslash, Backslash]
       else if s[0] == Quote then [Backslash, Quote]
       else [s[0]]) + EscapeChars(s[1..])
  }

  lemma {:induction false} EscapeQuotesAppend(a: String16, b: String16)
    ensures EscapeQuotes(a + b) == EscapeQuotes(a) + EscapeQuotes(b)
    decreases |a|
  {
    if a != [] {
      assert (a + b)[1..] == a[1..] + b;
      EscapeQuotesAppend(a[1..], b);
    } else {
      assert a + b == b;
    }
  }

  /** Doubling the backslashes first and escaping the quotes second is the
      character-by-character rewriting: the backslash the second step adds
      is not doubled. */
  lemma {:induction false} ReplacementsCompose(s: String16)
    ensures EscapeQuotes(DoubleBackslashes(s)) == EscapeChars(s)
    decreases |s|
  {
    if s != [] {
      var head := if s[0] == Backslash then [Backslash, Backslash] else [s[0]];
      EscapeQuotesAppend(head, DoubleBackslashes(s[1..]));
      ReplacementsCompose(s[1..]);
    }
  }

  /** Reading the escapes back: a backslash takes the next character
      literally. */
  function Unescape(t: String16): String16
    decreases |t|
  {
    if t == [] then []
    else if t[0] == Backslash && |t| >= 2 then [t[1]] + Unescape(t[2..])
    else [t[0]] + Unescape(t[1..])
  }

  lemma {:induction false} UnescapeEscapeChars(s: String16)
    ensures Unescape(EscapeChars(s)) == s
    decreases |s|
  {
    if s != [] {
      var head := if s[0] == Backslash then [Backslash, Backslash]
                  else if s[0] == Quote then [Backslash, Quote] else [s[0]];
      var t := head + EscapeChars(s[1..]);
      UnescapeEscapeChars(s[1..]);
      if |head| == 2 {
        assert t[2..] == EscapeChars(s[1..]);
      } else {
        assert t[1..] == EscapeChars(s[1..]);
      }
      assert s == [s[0]] + s[1..];
    }
  }

  /** Reading the escapes of `ToSafeJson`'s output back gives the input
      without its control characters: the rewriting loses nothing else. */
  lemma SafeJsonUnescapes(value: String16)
    ensures Unescape(ToSafeJson(value)) == StripControl(value)
  {
    if value != [] {
      ReplacementsCompose(StripControl(value));
      UnescapeEscapeChars(StripControl(value));
    }
  }

  /** Every quote of the rewriting follows a backslash, and the rewriting
      adds no control character. */
  lemma {:induction false} EscapeCharsShape(s: String16)
    requires forall i :: 0 <= i < |s| ==> !IsControl(s[i])
    ensures forall i :: 0 <= i < |EscapeChars(s)| ==> !IsControl(EscapeChars(s)[i])
    ensures forall i :: 0 <= i < |EscapeChars(s)| && EscapeChars(s)[i] == Quote ==>
              i > 0 && EscapeChars(s)[i - 1] == Backslash
    decreases |s|
  {
    if s != [] {
      var head := if s[0] == Backslash then [Backslash, Backslash]
                  else if s[0] == Quote then [Backslash, Quote] else [s[0]];
      var rest := EscapeChars(s[1..]);
      EscapeCharsShape(s[1..]);
      var t := head + rest;
      forall i | 0 <= i < |t| ensures !IsControl(t[i]) && (t[i] == Quote ==> i > 0 && t[i - 1] == Backslash) {
        if i < |head| {
          assert !IsControl(s[0]) && !IsControl(Backslash) && !IsControl(Quote);
          assert t[i] == head[i];
          if i == 1 { assert t[0] == head[0] == Backslash; }
          if i == 0 { assert head[0] != Quote; }
        } else {
          var k := i - |head|;
          assert t[i] == rest[k];
          if k > 0 {
            assert t[i - 1] == rest[k - 1];
          }
        }
      }
    }
  }

  /** The output of `ToSafeJson` holds no control character, and every
      quote in it is immediately preceded by a backslash. */
  lemma SafeJsonShape(value: String16)
    ensures forall i :: 0 <= i < |ToSafeJson(value)| ==> !IsControl(ToSafeJson(value)[i])
    ensures forall i :: 0 <= i < |ToSafeJson(value)| && ToSafeJson(value)[i] == Quote ==>
              i > 0 && ToSafeJson(value)[i - 1] == Backslash
  {
    if value != [] {
      var kept := StripControl(value);
      assert forall i :: 0 <= i < |kept| ==> kept[i] in kept;
      ReplacementsCompose(kept);
      EscapeCharsShape(kept);
    } else {
      assert ToSafeJson(value) == [];
    }
  }

  /** `ToBase64`: the Base64 text of the string's UTF-8 bytes. */
  function ToBase64(value: String16): (r: String16)
    ensures value == [] ==> r == []
    ensures value != [] ==> |r| % 4 == 0 && |r| >= 4
  {
    if value == [] then value
    else
      ByteCountIsEncodedLength(value);
      ByteCountBounds(value);
      Base64.Encode(Utf8Encode(value))
  }

  /** `FromBase64`: the string the Base64 text's bytes decode to; text that
      is not Base64 is returned unchanged. */
  function FromBase64(value: String16): (r: String16)
    ensures value != [] && Base64.Decode(value).None? ==> r == value
  {
    if value == [] then value
    else match Base64.Decode(value)
      case None => value
      case Some(bytes) => Utf8Decode(bytes)
  }

  /** Base64 of bytes that are not well-formed UTF-8 ("4KBB" holds a
      three-byte sequence cut short before an `A`) decodes with the invalid
      run replaced by a single U+FFFD. */
  lemma FromBase64OfTruncatedSequence()
    ensures Base64.Encode([0xE0, 0xA0, 0x41]) == [0x34, 0x4B, 0x42, 0x42]
    ensures FromBase64([0x34, 0x4B, 0x42, 0x42]) == [0xFFFD, 0x41]
  {
    var bytes: seq<Byte> := [0xE0, 0xA0, 0x41];
    Base64.RoundTrip(bytes);
    TruncatedSequenceIsOneReplacement();
  }

  /** Decoding undoes encoding for every string of Unicode scalar values
      (no unpaired surrogate). */
  lemma Base64RoundTrip(value: String16)
    requires WellFormed(value)
    ensures FromBase64(ToBase64(value)) == value
  {
    if value != [] {
      Base64.RoundTrip(Utf8Encode(value));
      DecodeEncode(value);
    }
  }
}
