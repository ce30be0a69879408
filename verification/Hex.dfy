/** Hexadecimal text: the encoder, the strict decoder, and the looser decoder the
    approval path uses for digests. */
module Hex {
  import opened Common

  predicate IsHexDigit(c: char) {
    '0' <= c <= '9' || 'a' <= c <= 'f' || 'A' <= c <= 'F'
  }

  function Nibble(c: char): (r: int)
    requires IsHexDigit(c)
    ensures 0 <= r < 16
  {
    if '0' <= c <= '9' then c as int - '0' as int
    else if 'a' <= c <= 'f' then c as int - 'a' as int + 10
    else c as int - 'A' as int + 10
  }

  function Digit(n: int): (c: char)
    requires 0 <= n < 16
    ensures IsHexDigit(c) && Nibble(c) == n && ToLower(c) == c
  {
    if n < 10 then ('0' as int + n) as char else ('a' as int + n - 10) as char
  }

  function ToLower(c: char): char {
    if 'A' <= c <= 'Z' then (c as int + 32) as char else c
  }

  function Lower(s: string): (r: string)
    ensures |r| == |s| && forall i :: 0 <= i < |s| ==> r[i] == ToLower(s[i])
  {
    seq(|s|, i requires 0 <= i < |s| => ToLower(s[i]))
  }

  predicate AllHex(s: string) {
    forall i :: 0 <= i < |s| ==> IsHexDigit(s[i])
  }

  function Encode(bytes: seq<Byte>): (s: string)
    ensures |s| == 2 * |bytes| && AllHex(s)
  {
    if bytes == [] then ""
    else [Digit(bytes[0] / 16), Digit(bytes[0] % 16)] + Encode(bytes[1..])
  }

  /** Pairs of hex digits, or nothing at the first character that is not one. */
  function Decode(s: string): (r: Option<seq<Byte>>)
    ensures r.Some? ==> |s| == 2 * |r.value|
  {
    if s == "" then Some([])
    else if |s| == 1 || !IsHexDigit(s[0]) || !IsHexDigit(s[1]) then None
    else
      match Decode(s[2..])
      case None => None
      case Some(rest) => Some([16 * Nibble(s[0]) + Nibble(s[1])] + rest)
  }

  function Decode32(s: string): Option<seq<Byte>> {
    if |s| != 64 then None else Decode(s)
  }

  lemma {:induction false} DecodeEncode(bytes: seq<Byte>)
    ensures Decode(Encode(bytes)) == Some(bytes)
  {
    if bytes != [] {
      assert Encode(bytes)[2..] == Encode(bytes[1..]);
      DecodeEncode(bytes[1..]);
      assert bytes == [bytes[0]] + bytes[1..];
    }
  }

  /** The strict decoder accepts exactly an even number of hex digits of either case. */
  lemma {:induction false} DecodeAccepts(s: string)
    ensures Decode(s).Some? <==> |s| % 2 == 0 && AllHex(s)
    ensures AllHex(s) <==>
            forall i :: 0 <= i < |s| ==> '0' <= s[i] <= '9' || 'a' <= s[i] <= 'f' || 'A' <= s[i] <= 'F'
  {
    if |s| >= 2 {
      var tail := s[2..];
      DecodeAccepts(tail);
      assert forall i :: 0 <= i < |tail| ==> tail[i] == s[i + 2];
      if AllHex(tail) && IsHexDigit(s[0]) && IsHexDigit(s[1]) {
        forall i | 0 <= i < |s| ensures IsHexDigit(s[i]) {
          assert i >= 2 ==> s[i] == tail[i - 2];
        }
      }
    }
  }

  lemma DigitText(n: int)
    requires 0 <= n < 16
    ensures Digit(n) == "0123456789abcdef"[n]
  {
    assert "0123456789abcdef" == ['0', '1', '2', '3', '4', '5', '6', '7', '8', '9', 'a', 'b', 'c', 'd', 'e', 'f'];
  }

  /** Byte by byte, the high digit first. */
  lemma {:induction false} EncodeIsPositional(bytes: seq<Byte>, i: nat)
    requires i < |bytes|
    ensures Encode(bytes)[2 * i] == "0123456789abcdef"[bytes[i] / 16]
    ensures Encode(bytes)[2 * i + 1] == "0123456789abcdef"[bytes[i] % 16]
  {
    if i == 0 {
      DigitText(bytes[0] / 16);
      DigitText(bytes[0] % 16);
    } else {
      EncodeIsPositional(bytes[1..], i - 1);
    }
  }

  lemma EncodeCons(b: Byte, rest: seq<Byte>)
    ensures Encode([b] + rest) == [Digit(b / 16), Digit(b % 16)] + Encode(rest)
  {
    assert ([b] + rest)[1..] == rest;
  }

  lemma LowerCons(a: char, b: char, tail: string)
    ensures Lower([a, b] + tail) == [ToLower(a), ToLower(b)] + Lower(tail)
  {
  }

  lemma PairDigits(a: char, b: char)
    requires IsHexDigit(a) && IsHexDigit(b)
    ensures var byte := 16 * Nibble(a) + Nibble(b);
            Digit(byte / 16) == ToLower(a) && Digit(byte % 16) == ToLower(b)
  {
    var byte := 16 * Nibble(a) + Nibble(b);
    assert byte / 16 == Nibble(a) && byte % 16 == Nibble(b);
    DigitOfNibble(a);
    DigitOfNibble(b);
  }

  /** Encoding what was decoded loses only the case of the digits. */
  lemma {:induction false} EncodeDecode(s: string)
    requires Decode(s).Some?
    ensures Encode(Decode(s).value) == Lower(s)
  {
    if s != "" {
      var tail := s[2..];
      EncodeDecode(tail);
      EncodeCons(16 * Nibble(s[0]) + Nibble(s[1]), Decode(tail).value);
      PairDigits(s[0], s[1]);
      LowerCons(s[0], s[1], tail);
      assert s == [s[0], s[1]] + tail;
    }
  }

  lemma DigitOfNibble(c: char)
    requires IsHexDigit(c)
    ensures Digit(Nibble(c)) == ToLower(c)
  {
  }

  // ------------------------------------------------- digests on the approval path

  /** One pair, read as the standard library's radix parser reads it: a leading
      plus sign is allowed. */
  predicate DigestPair(a: char, b: char) {
    (IsHexDigit(a) || a == '+') && IsHexDigit(b)
  }

  function DecodePairs(s: string): (r: Option<seq<Byte>>)
    ensures r.Some? ==> |s| == 2 * |r.value|
  {
    if s == "" then Some([])
    else if |s| == 1 || !DigestPair(s[0], s[1]) then None
    else
      match DecodePairs(s[2..])
      case None => None
      case Some(rest) => Some([(if s[0] == '+' then 0 else 16 * Nibble(s[0])) + Nibble(s[1])] + rest)
  }

  function DecodeDigest(s: string): (r: Option<seq<Byte>>)
    ensures r.Some? ==> |r.value| == 32
  {
    if |s| != 64 then None else DecodePairs(s)
  }

  ghost predicate AllDigestPairs(s: string) {
    forall i :: 0 <= i < |s| / 2 ==> DigestPair(s[2 * i], s[2 * i + 1])
  }

  lemma {:induction false} DigestAccepts(s: string)
    ensures DecodePairs(s).Some? <==> |s| % 2 == 0 && AllDigestPairs(s)
  {
    if |s| >= 2 {
      var tail := s[2..];
      DigestAccepts(tail);
      if AllDigestPairs(s) {
        assert DigestPair(s[2 * 0], s[2 * 0 + 1]);
        forall i | 0 <= i < |tail| / 2 ensures DigestPair(tail[2 * i], tail[2 * i + 1]) {
          assert DigestPair(s[2 * (i + 1)], s[2 * (i + 1) + 1]);
        }
      }
      if AllDigestPairs(tail) && DigestPair(s[0], s[1]) {
        forall i | 0 <= i < |s| / 2 ensures DigestPair(s[2 * i], s[2 * i + 1]) {
          assert i > 0 ==> DigestPair(tail[2 * (i - 1)], tail[2 * (i - 1) + 1]);
        }
      }
    }
  }

  lemma {:induction false} DigestExtendsStrict(s: string)
    requires Decode(s).Some?
    ensures DecodePairs(s) == Decode(s)
  {
    if s != "" {
      DigestExtendsStrict(s[2..]);
    }
  }

  /** Each accepted pair gives its byte, a plus sign counting as no digit. */
  lemma {:induction false} PairsArePositional(s: string, i: nat)
    requires DecodePairs(s).Some? && i < |s| / 2
    ensures DigestPair(s[2 * i], s[2 * i + 1])
    ensures DecodePairs(s).value[i] == (if s[2 * i] == '+' then 0 else 16 * Nibble(s[2 * i])) + Nibble(s[2 * i + 1])
  {
    if i > 0 {
      PairsArePositional(s[2..], i - 1);
    }
  }

  /** The digest decoder is documented to refuse any character that is not a hex
      digit. On every text it agrees with the strict decoder exactly when it refuses
      or no pair starts with a plus sign. */
  lemma DigestDecoderIsStrictUnlessPlus(s: string)
    ensures DecodeDigest(s) == Decode32(s) <==>
            |s| != 64 || !AllDigestPairs(s) || forall i :: 0 <= i < 32 ==> s[2 * i] != '+'
  {
    if |s| == 64 {
      DigestAccepts(s);
      DecodeAccepts(s);
      if AllHex(s) {
        DigestExtendsStrict(s);
      } else if DecodeDigest(s).Some? {
        var j :| 0 <= j < |s| && !IsHexDigit(s[j]);
        var i := j / 2;
        assert DigestPair(s[2 * i], s[2 * i + 1]);
        assert s[2 * i] == '+';
      }
    }
  }

  /** Sixty-four characters that the digest decoder takes, with 15 as their first
      byte, and the strict decoder does not. */
  lemma PlusIsAccepted() returns (s: string)
    ensures |s| == 64 && s[0] == '+' && Decode32(s).None?
    ensures DecodeDigest(s).Some? && DecodeDigest(s).value[0] == 15
  {
    s := "+f" + seq(62, _ => '0');
    assert AllDigestPairs(s);
    DigestAccepts(s);
    DecodeAccepts(s);
    assert !IsHexDigit(s[0]);
  }
}
