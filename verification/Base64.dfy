/**
 Go's `encoding/base64`, as the secret envelope uses it: the unpadded URL alphabet for the two
 binary fields of an envelope and the padded standard alphabet for configured root keys
 (sections 4 and 5 of RFC 4648).  Go's decoders skip carriage returns and line feeds and do not
 insist that unused trailing bits are zero.
 */
module Base64 {
  import opened Prelude

  datatype Alphabet = Url | Std

  type sextet = x: int | 0 <= x < 64

  function Digit(a: Alphabet, x: sextet): byte {
    if x < 26 then 65 + x
    else if x < 52 then 97 + (x - 26)
    else if x < 62 then 48 + (x - 52)
    else if x == 62 then (if a.Url? then 45 else 43)
    else (if a.Url? then 95 else 47)
  }

  function Value(a: Alphabet, c: byte): Option<sextet> {
    if 65 <= c <= 90 then Some(c - 65)
    else if 97 <= c <= 122 then Some(c - 97 + 26)
    else if 48 <= c <= 57 then Some(c - 48 + 52)
    else if c == (if a.Url? then 45 else 43) then Some(62)
    else if c == (if a.Url? then 95 else 47) then Some(63)
    else None
  }

  /** The digits are those of tables 1 and 2 of RFC 4648. */
  lemma AlphabetsAreStandard(a: Alphabet, x: sextet)
    ensures x < 26 ==> Digit(a, x) == 'A' as int + x
    ensures 26 <= x < 52 ==> Digit(a, x) == 'a' as int + x - 26
    ensures 52 <= x < 62 ==> Digit(a, x) == '0' as int + x - 52
    ensures Digit(Url, 62) == '-' as int && Digit(Url, 63) == '_' as int
    ensures Digit(Std, 62) == '+' as int && Digit(Std, 63) == '/' as int
  {
  }

  /** The encodings of "foo" and of the bytes 251 and 255: bits are taken from the top, and nothing is padded. */
  lemma EncodingVectors()
    ensures EncodeRaw(Std, Ascii("foo")) == EncodeRaw(Url, Ascii("foo")) == Ascii("Zm9v")
    ensures EncodeRaw(Url, [251, 255]) == Ascii("-_8") && EncodeRaw(Std, [251, 255]) == Ascii("+/8")
  {
    assert Ascii("foo") == [102, 111, 111];
  }

  /** `RawURLEncoding.EncodeToString`, for either alphabet. */
  function EncodeRaw(a: Alphabet, src: Bytes): Bytes {
    if |src| == 0 then []
    else if |src| == 1 then
      [Digit(a, src[0] / 4), Digit(a, src[0] % 4 * 16)]
    else if |src| == 2 then
      [Digit(a, src[0] / 4), Digit(a, src[0] % 4 * 16 + src[1] / 16), Digit(a, src[1] % 16 * 4)]
    else
      [Digit(a, src[0] / 4), Digit(a, src[0] % 4 * 16 + src[1] / 16),
       Digit(a, src[1] % 16 * 4 + src[2] / 64), Digit(a, src[2] % 64)]
      + EncodeRaw(a, src[3..])
  }

  /** Drops carriage returns and line feeds. */
  function SkipNewlines(s: Bytes): Bytes {
    if s == [] then []
    else if s[0] == 10 || s[0] == 13 then SkipNewlines(s[1..])
    else [s[0]] + SkipNewlines(s[1..])
  }

  /** Decodes groups of four digits and a last group of two or three. */
  function DecodeGroups(a: Alphabet, s: Bytes): Option<Bytes> {
    if |s| == 0 then Some([])
    else if |s| == 1 then None
    else
      match (Value(a, s[0]), Value(a, s[1]))
      case (Some(w), Some(x)) =>
        if |s| == 2 then Some([w * 4 + x / 16])
        else
          (match Value(a, s[2])
           case Some(y) =>
             if |s| == 3 then Some([w * 4 + x / 16, x % 16 * 16 + y / 4])
             else
               (match (Value(a, s[3]), DecodeGroups(a, s[4..]))
                case (Some(z), Some(rest)) =>
                  Some([w * 4 + x / 16, x % 16 * 16 + y / 4, y % 4 * 64 + z] + rest)
                case _ => None)
           case None => None)
      case _ => None
  }

  /** `RawURLEncoding.DecodeString`, for either alphabet. */
  function DecodeRaw(a: Alphabet, s: Bytes): Option<Bytes> {
    DecodeGroups(a, SkipNewlines(s))
  }

  /** `StdEncoding.DecodeString`: whole groups of four, the last one padded with one or two `=`. */
  function DecodePadded(a: Alphabet, s: Bytes): Option<Bytes> {
    var t := SkipNewlines(s);
    if |t| % 4 != 0 then None
    else if |t| > 0 && t[|t| - 1] == 61 then
      if t[|t| - 2] == 61 then DecodeGroups(a, t[..|t| - 2])
      else DecodeGroups(a, t[..|t| - 1])
    else DecodeGroups(a, t)
  }

  lemma ValueOfDigit(a: Alphabet, x: sextet)
    ensures Value(a, Digit(a, x)) == Some(x)
  {
  }

  predicate IsDigit(a: Alphabet, c: byte) {
    Value(a, c).Some?
  }

  /** Encoded text consists of digits of the alphabet: no separator, padding or newline. */
  lemma {:induction false} EncodedTextIsDigits(a: Alphabet, src: Bytes)
    ensures forall i :: 0 <= i < |EncodeRaw(a, src)| ==> IsDigit(a, EncodeRaw(a, src)[i])
  {
    forall x: sextet ensures IsDigit(a, Digit(a, x)) {
      ValueOfDigit(a, x);
    }
    if |src| > 2 {
      EncodedTextIsDigits(a, src[3..]);
    }
  }

  lemma {:induction false} DigitsHaveNoNewlines(a: Alphabet, s: Bytes)
    requires forall i :: 0 <= i < |s| ==> IsDigit(a, s[i])
    ensures SkipNewlines(s) == s
  {
    if s != [] {
      DigitsHaveNoNewlines(a, s[1..]);
    }
  }

  /** Cutting three bytes into four sextets loses nothing. */
  lemma SextetsOfBytes(b0: byte, b1: byte, b2: byte)
    ensures b0 / 4 * 4 + (b0 % 4 * 16 + b1 / 16) / 16 == b0
    ensures (b0 % 4 * 16 + b1 / 16) % 16 * 16 + (b1 % 16 * 4 + b2 / 64) / 4 == b1
    ensures (b1 % 16 * 4 + b2 / 64) % 4 * 64 + b2 % 64 == b2
  {
  }

  lemma ShortGroupsRoundTrip(a: Alphabet, src: Bytes)
    requires |src| <= 2
    ensures DecodeGroups(a, EncodeRaw(a, src)) == Some(src)
  {
    if |src| == 1 {
      ValueOfDigit(a, src[0] / 4);
      ValueOfDigit(a, src[0] % 4 * 16);
      SextetsOfBytes(src[0], 0, 0);
      assert src == [src[0]];
    } else if |src| == 2 {
      ValueOfDigit(a, src[0] / 4);
      ValueOfDigit(a, src[0] % 4 * 16 + src[1] / 16);
      ValueOfDigit(a, src[1] % 16 * 4);
      SextetsOfBytes(src[0], src[1], 0);
      assert src == [src[0], src[1]];
    }
  }

  lemma FullGroupRoundTrip(a: Alphabet, w: sextet, x: sextet, y: sextet, z: sextet, t: Bytes, src: Bytes)
    requires |src| >= 3 && DecodeGroups(a, t) == Some(src[3..])
    requires w * 4 + x / 16 == src[0] && x % 16 * 16 + y / 4 == src[1] && y % 4 * 64 + z == src[2]
    ensures DecodeGroups(a, [Digit(a, w), Digit(a, x), Digit(a, y), Digit(a, z)] + t) == Some(src)
  {
    ValueOfDigit(a, w);
    ValueOfDigit(a, x);
    ValueOfDigit(a, y);
    ValueOfDigit(a, z);
    assert ([Digit(a, w), Digit(a, x), Digit(a, y), Digit(a, z)] + t)[4..] == t;
    assert src == [src[0], src[1], src[2]] + src[3..];
  }

  lemma {:induction false} GroupsRoundTrip(a: Alphabet, src: Bytes)
    ensures DecodeGroups(a, EncodeRaw(a, src)) == Some(src)
  {
    if |src| <= 2 {
      ShortGroupsRoundTrip(a, src);
    } else {
      GroupsRoundTrip(a, src[3..]);
      SextetsOfBytes(src[0], src[1], src[2]);
      FullGroupRoundTrip(a, src[0] / 4, src[0] % 4 * 16 + src[1] / 16, src[1] % 16 * 4 + src[2] / 64, src[2] % 64,
                         EncodeRaw(a, src[3..]), src);
    }
  }

  /** Decoding undoes encoding, for every byte string and both alphabets. */
  lemma DecodeUndoesEncode(a: Alphabet, src: Bytes)
    ensures DecodeRaw(a, EncodeRaw(a, src)) == Some(src)
  {
    EncodedTextIsDigits(a, src);
    DigitsHaveNoNewlines(a, EncodeRaw(a, src));
    GroupsRoundTrip(a, src);
  }

  lemma {:induction false} GroupsDecodeIff(a: Alphabet, s: Bytes)
    ensures DecodeGroups(a, s).Some? <==> |s| % 4 != 1 && forall i :: 0 <= i < |s| ==> IsDigit(a, s[i])
  {
    if |s| >= 4 {
      GroupsDecodeIff(a, s[4..]);
      assert forall i :: 4 <= i < |s| ==> s[i] == s[4..][i - 4];
    }
  }

  predicate IsNewline(c: byte) {
    c == 10 || c == 13
  }

  /** Skipping newlines leaves the other characters. */
  lemma {:induction false} SkippedAreDigitsIff(a: Alphabet, s: Bytes)
    ensures (forall i :: 0 <= i < |SkipNewlines(s)| ==> IsDigit(a, SkipNewlines(s)[i]))
       <==> (forall i :: 0 <= i < |s| ==> IsNewline(s[i]) || IsDigit(a, s[i]))
  {
    if s != [] {
      hide IsDigit;
      var rest, t := s[1..], SkipNewlines(s[1..]);
      SkippedAreDigitsIff(a, rest);
      assert forall i :: 1 <= i < |s| ==> s[i] == rest[i - 1];
      if IsNewline(s[0]) {
        assert SkipNewlines(s) == t;
      } else {
        var u := SkipNewlines(s);
        assert u[0] == s[0] && forall i :: 1 <= i < |u| ==> u[i] == t[i - 1];
        assert forall i :: 0 <= i < |t| ==> t[i] == u[i + 1];
      }
      assert forall i :: 0 <= i < |rest| ==> rest[i] == s[i + 1];
    }
  }

  /** Exactly the texts of digits and newlines decode whose digits do not leave a single one over. */
  lemma DecodesIff(a: Alphabet, s: Bytes)
    ensures DecodeRaw(a, s).Some?
       <==> |SkipNewlines(s)| % 4 != 1 && forall i :: 0 <= i < |s| ==> IsNewline(s[i]) || IsDigit(a, s[i])
  {
    hide DecodeGroups, SkipNewlines, IsDigit;
    GroupsDecodeIff(a, SkipNewlines(s));
    SkippedAreDigitsIff(a, s);
  }

  /** The padded encoding of section 4 of RFC 4648, in which root keys are configured. */
  function EncodePadded(a: Alphabet, src: Bytes): Bytes {
    EncodeRaw(a, src) + Padding(|src|)
  }

  lemma {:induction false} EncodedLength(a: Alphabet, src: Bytes)
    ensures |EncodeRaw(a, src)| == |src| / 3 * 4 + if |src| % 3 == 0 then 0 else |src| % 3 + 1
  {
    if |src| > 2 {
      EncodedLength(a, src[3..]);
    }
  }

  lemma {:induction false} SkipNewlinesConcat(s: Bytes, t: Bytes)
    ensures SkipNewlines(s + t) == SkipNewlines(s) + SkipNewlines(t)
  {
    if s == [] {
      assert s + t == t;
    } else {
      assert (s + t)[1..] == s[1..] + t;
      SkipNewlinesConcat(s[1..], t);
    }
  }

  function Padding(n: nat): Bytes {
    if n % 3 == 1 then [61, 61] else if n % 3 == 2 then [61] else []
  }

  lemma PaddedTextHasNoNewlines(a: Alphabet, src: Bytes)
    ensures SkipNewlines(EncodePadded(a, src)) == EncodePadded(a, src)
  {
    EncodedTextIsDigits(a, src);
    DigitsHaveNoNewlines(a, EncodeRaw(a, src));
    SkipNewlinesConcat(EncodeRaw(a, src), Padding(|src|));
    var two: Bytes := [61, 61];
    assert two[1..] == [61];
  }

  /** Decoding the padded form undoes encoding it. */
  lemma PaddedRoundTrip(a: Alphabet, src: Bytes)
    ensures DecodePadded(a, EncodePadded(a, src)) == Some(src)
  {
    var raw, text := EncodeRaw(a, src), EncodePadded(a, src);
    PaddedTextHasNoNewlines(a, src);
    EncodedTextIsDigits(a, src);
    EncodedLength(a, src);
    GroupsRoundTrip(a, src);
    hide EncodeRaw, DecodeGroups, SkipNewlines;
    assert |text| % 4 == 0;
    if |src| % 3 == 0 {
      assert text == raw;
      assert raw != [] ==> IsDigit(a, raw[|raw| - 1]);
    } else if |src| % 3 == 1 {
      assert text[|text| - 1] == 61 && text[|text| - 2] == 61 && text[..|text| - 2] == raw;
    } else {
      assert text[|text| - 1] == 61 && text[|text| - 2] == raw[|raw| - 1] && text[..|text| - 1] == raw;
      assert IsDigit(a, raw[|raw| - 1]);
    }
  }

  /** The decoder is not strict: distinct texts can decode to the same bytes. */
  lemma DecoderIsNotInjective()
    ensures exists s: Bytes, t: Bytes :: s != t && DecodeRaw(Url, s) == DecodeRaw(Url, t) && DecodeRaw(Url, s).Some?
  {
    var s: Bytes, t: Bytes := [65, 65], [65, 66];
    assert SkipNewlines(s) == s by { DigitsHaveNoNewlines(Url, s); }
    assert SkipNewlines(t) == t by { DigitsHaveNoNewlines(Url, t); }
    assert DecodeRaw(Url, s) == Some([0]) == DecodeRaw(Url, t);
  }
  /** A character has a value exactly if it is the digit of that value. */
  lemma ValueMeans(a: Alphabet, c: byte)
    ensures forall x: sextet :: Value(a, c) == Some(x) <==> Digit(a, x) == c
  {
  }

  /** The padded decoder takes whole groups of four that end in at most two padding characters, and nothing else. */
  lemma PaddedDecodesIff(a: Alphabet, s: Bytes)
    ensures var t := SkipNewlines(s);
            DecodePadded(a, s).Some?
            <==> |t| % 4 == 0 && exists k :: 0 <= k <= 2 && k <= |t| && IsPaddedBy(a, t, k)
  {
    hide DecodeGroups, SkipNewlines, Value;
    var t := SkipNewlines(s);
    if |t| % 4 == 0 && |t| > 0 {
      GroupsDecodeIff(a, t);
      GroupsDecodeIff(a, t[..|t| - 1]);
      GroupsDecodeIff(a, t[..|t| - 2]);
      PaddingIsNoDigit(a);
      PaddedByEnds(a, t);
      assert AllDigits(a, t) ==> IsDigit(a, t[|t| - 1]);
      assert AllDigits(a, t[..|t| - 1]) ==> IsDigit(a, t[..|t| - 1][|t| - 2]);
      hide IsPaddedBy;
    } else if |t| % 4 == 0 {
      GroupsDecodeIff(a, t);
      assert IsPaddedBy(a, t, 0);
    }
  }

  /** All but the last `k` characters are digits, and those are padding. */
  ghost predicate IsPaddedBy(a: Alphabet, t: Bytes, k: nat) {
    && (forall i :: 0 <= i < |t| - k ==> IsDigit(a, t[i]))
    && (forall i :: |t| - k <= i < |t| && 0 <= i ==> t[i] == '=' as int)
  }

  lemma PaddingIsNoDigit(a: Alphabet)
    ensures !IsDigit(a, 61)
  {
  }

  ghost predicate AllDigits(a: Alphabet, t: Bytes) {
    forall i :: 0 <= i < |t| ==> IsDigit(a, t[i])
  }

  lemma PaddedByEnds(a: Alphabet, t: Bytes)
    requires |t| >= 4
    ensures IsPaddedBy(a, t, 0) <==> AllDigits(a, t)
    ensures IsPaddedBy(a, t, 1) <==> t[|t| - 1] == 61 && AllDigits(a, t[..|t| - 1])
    ensures IsPaddedBy(a, t, 2) <==> t[|t| - 1] == 61 && t[|t| - 2] == 61 && AllDigits(a, t[..|t| - 2])
  {
    hide IsDigit;
    assert forall i :: 0 <= i < |t| - 1 ==> t[..|t| - 1][i] == t[i];
    assert forall i :: 0 <= i < |t| - 2 ==> t[..|t| - 2][i] == t[i];
  }
}
