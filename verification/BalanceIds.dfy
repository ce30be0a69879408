/** Claimable-balance ids: one 32-byte hash with three textual forms. The strkey
    codec belongs to another library and is a parameter with its own laws. */
module BalanceIds {
  import opened Common
  import opened Text
  import Hex

  const ZERO_HASH: seq<Byte> := [
    0, 0, 0, 0, 0, 0, 0, 0, 0, 0, 0, 0, 0, 0, 0, 0,
    0, 0, 0, 0, 0, 0, 0, 0, 0, 0, 0, 0, 0, 0, 0, 0]

  type Hash = h: seq<Byte> | |h| == 32 witness ZERO_HASH

  const V0_DISCRIMINANT: string := "00000000"

  datatype Strkey = Strkey(encode: Hash -> string, decode: string -> Option<Hash>) {
    /** Every hash has a 58-character base32 text that decodes to it. */
    ghost predicate Pairs(h: Hash) {
      && decode(encode(h)) == Some(h)
      && |encode(h)| == 58 && forall i :: 0 <= i < 58 ==> 'A' <= encode(h)[i] <= 'Z' || '2' <= encode(h)[i] <= '7'
    }

    /** And no other text decodes to it: SEP-23 decoders refuse other spellings. */
    ghost predicate Canonical(s: string) {
      decode(s).Some? ==> encode(decode(s).value) == s
    }

    ghost predicate Lawful() {
      (forall h: Hash :: Pairs(h)) && (forall s: string :: Canonical(s))
    }
  }

  datatype Refusal = NotAscii | WrongDiscriminant | BadHash | UnknownForm(length: nat)

  predicate Ascii(s: string) {
    forall i :: 0 <= i < |s| ==> s[i] < '\U{0080}'
  }

  function HashOf(hex: string): Result<Hash, Refusal>
    requires |hex| == 64
  {
    match Hex.Decode32(hex)
    case Some(bytes) => Ok(bytes)
    case None => Err(BadHash)
  }

  function Parse(k: Strkey, input: string): Result<Hash, Refusal> {
    var t := Trim(input);
    match k.decode(t)
    case Some(h) => Ok(h)
    case None =>
      if !Ascii(t) then Err(NotAscii)
      else if |t| == 72 then
        (if t[..8] != V0_DISCRIMINANT then Err(WrongDiscriminant) else HashOf(t[8..]))
      else if |t| == 64 then HashOf(t)
      else Err(UnknownForm(|t|))
  }

  function ToHex64(h: Hash): string {
    Hex.Encode(h)
  }

  function ToHex72(h: Hash): string {
    V0_DISCRIMINANT + Hex.Encode(h)
  }

  function ToStrkey(k: Strkey, h: Hash): string {
    k.encode(h)
  }

  // ------------------------------------------------------------------------ proofs

  lemma HashOfAccepts(hex: string, h: Hash)
    requires |hex| == 64
    ensures HashOf(hex) == Ok(h) <==> Hex.Lower(hex) == Hex.Encode(h)
  {
    Hex.DecodeAccepts(hex);
    if Hex.Decode(hex).Some? {
      Hex.EncodeDecode(hex);
      Hex.DecodeEncode(Hex.Decode(hex).value);
    }
    if Hex.Lower(hex) == Hex.Encode(h) {
      forall i | 0 <= i < |hex| ensures Hex.IsHexDigit(hex[i]) {
        assert Hex.IsHexDigit(Hex.Encode(h)[i]);
        assert Hex.Lower(hex)[i] == Hex.ToLower(hex[i]);
      }
      Hex.DecodeEncode(h);
    }
    Hex.DecodeEncode(h);
  }

  lemma LowerOfPrefix(t: string, h: Hash)
    requires |t| == 72
    ensures Hex.Lower(t) == ToHex72(h) <==> t[..8] == V0_DISCRIMINANT && Hex.Lower(t[8..]) == Hex.Encode(h)
  {
    assert Hex.Lower(t) == Hex.Lower(t[..8]) + Hex.Lower(t[8..]);
    assert Hex.Lower(t[..8]) == V0_DISCRIMINANT <==> t[..8] == V0_DISCRIMINANT by {
      if Hex.Lower(t[..8]) == V0_DISCRIMINANT {
        forall i | 0 <= i < 8 ensures t[..8][i] == V0_DISCRIMINANT[i] {
          assert Hex.Lower(t[..8])[i] == Hex.ToLower(t[i]) == '0';
        }
      }
    }
    if Hex.Lower(t) == ToHex72(h) {
      assert Hex.Lower(t)[..8] == Hex.Lower(t[..8]) && ToHex72(h)[..8] == V0_DISCRIMINANT;
      assert Hex.Lower(t)[8..] == Hex.Lower(t[8..]) && ToHex72(h)[8..] == Hex.Encode(h);
    }
  }

  lemma HexIsAscii(t: string, s: string)
    requires Hex.Lower(t) == s && Hex.AllHex(s)
    ensures Ascii(t)
  {
    forall i | 0 <= i < |t| ensures t[i] < '\U{0080}' {
      assert s[i] == Hex.ToLower(t[i]);
      assert Hex.IsHexDigit(s[i]);
    }
  }

  /** What is accepted, and as what: surrounded by any white space, exactly the
      strkey of the hash, or its 64 or 72 hex digits in either case. */
  lemma ParseAccepts(k: Strkey, input: string, h: Hash)
    requires k.Lawful()
    ensures Parse(k, input) == Ok(h) <==>
              || Trim(input) == ToStrkey(k, h)
              || Hex.Lower(Trim(input)) == ToHex64(h)
              || Hex.Lower(Trim(input)) == ToHex72(h)
  {
    var t := Trim(input);
    assert k.Canonical(t) && k.Pairs(h);
    if |t| == 64 {
      HashOfAccepts(t, h);
    } else if |t| == 72 {
      HashOfAccepts(t[8..], h);
      LowerOfPrefix(t, h);
    }
    if Hex.Lower(t) == ToHex64(h) {
      HexIsAscii(t, ToHex64(h));
    }
    if Hex.Lower(t) == ToHex72(h) {
      assert Hex.AllHex(ToHex72(h));
      HexIsAscii(t, ToHex72(h));
    }
    if k.decode(t).Some? {
      assert k.Pairs(k.decode(t).value);
    }
  }

  /** The text is one of the three renderings of the hash, up to the case of hex. */
  ghost predicate Renders(k: Strkey, text: string, h: Hash) {
    text == ToStrkey(k, h) || Hex.Lower(text) == ToHex64(h) || Hex.Lower(text) == ToHex72(h)
  }

  ghost predicate RendersWithin(k: Strkey, input: string, a: string, text: string, b: string, h: Hash) {
    Around(input, a, text, b) && Renders(k, text, h)
  }

  /** An accepted input is one of the renderings with white space around it. */
  lemma AcceptedIsRendering(k: Strkey, input: string, h: Hash)
    requires k.Lawful() && Parse(k, input) == Ok(h)
    ensures exists a, text, b :: RendersWithin(k, input, a, text, b, h)
  {
    ParseAccepts(k, input, h);
    TrimIsMiddle(input);
    var a, b :| Around(input, a, Trim(input), b);
    assert RendersWithin(k, input, a, Trim(input), b, h);
  }

  lemma LowerEncode(h: Hash)
    ensures Hex.Lower(ToHex64(h)) == ToHex64(h) && Hex.Lower(ToHex72(h)) == ToHex72(h)
  {
    Hex.DecodeEncode(h);
    Hex.EncodeDecode(Hex.Encode(h));
    assert Hex.Lower(ToHex72(h)) == Hex.Lower(V0_DISCRIMINANT) + Hex.Lower(Hex.Encode(h));
    assert Hex.Lower(V0_DISCRIMINANT) == V0_DISCRIMINANT;
  }

  lemma NoSpaceInside(s: string)
    requires forall i :: 0 <= i < |s| ==> '0' <= s[i] <= 'z'
    ensures Trimmed(s)
  {
  }

  /** Each of the three renderings, with any white space around it, parses back. */
  lemma RenderingsRoundTrip(k: Strkey, h: Hash, a: string, b: string)
    requires k.Lawful() && AllSpace(a) && AllSpace(b)
    ensures Parse(k, a + ToStrkey(k, h) + b) == Ok(h)
    ensures Parse(k, a + ToHex64(h) + b) == Ok(h)
    ensures Parse(k, a + ToHex72(h) + b) == Ok(h)
  {
    assert k.Pairs(h);
    assert Hex.AllHex(ToHex64(h)) && Hex.AllHex(ToHex72(h));
    NoSpaceInside(ToStrkey(k, h));
    NoSpaceInside(ToHex64(h));
    NoSpaceInside(ToHex72(h));
    TrimFinds(a, ToStrkey(k, h), b);
    TrimFinds(a, ToHex64(h), b);
    TrimFinds(a, ToHex72(h), b);
    LowerEncode(h);
    ParseAccepts(k, a + ToStrkey(k, h) + b, h);
    ParseAccepts(k, a + ToHex64(h) + b, h);
    ParseAccepts(k, a + ToHex72(h) + b, h);
  }

  /** A 72-digit id of another type is refused, never read as its last 64 digits; and the
      long form is eight zeros and the short one. */
  lemma OtherDiscriminantIsRefused(k: Strkey, input: string, h: Hash)
    requires k.Lawful()
    ensures |Trim(input)| == 72 && Ascii(Trim(input)) && Trim(input)[..8] != "00000000" ==>
              Parse(k, input) == Err(WrongDiscriminant)
    ensures ToHex72(h) == "00000000" + ToHex64(h)
  {
    var t := Trim(input);
    assert k.Canonical(t);
    assert k.decode(t).Some? ==> k.Pairs(k.decode(t).value);
  }

  /** Which refusal an input gets that is no strkey: by its characters, its length and
      its first eight digits, in this order. */
  lemma RefusalsExact(k: Strkey, input: string)
    requires k.decode(Trim(input)).None?
    ensures var t, r := Trim(input), Parse(k, input);
            var ascii := forall i :: 0 <= i < |t| ==> t[i] as int < 128;
            && (r == Err(NotAscii) <==> !ascii)
            && (r == Err(UnknownForm(|t|)) <==> ascii && |t| != 64 && |t| != 72)
            && (r == Err(WrongDiscriminant) <==> ascii && |t| == 72 && t[..8] != "00000000")
            && (r == Err(BadHash) <==>
                  && ascii && (|t| == 64 || (|t| == 72 && t[..8] == "00000000"))
                  && !Hex.AllHex(t[|t| - 64..]))
            && (r.Err? && r.error.UnknownForm? ==> r.error.length == |t|)
  {
    var t := Trim(input);
    if |t| == 64 || |t| == 72 {
      Hex.DecodeAccepts(t[|t| - 64..]);
    }
    if |t| == 64 {
      assert t[0..] == t;
    }
  }
}
