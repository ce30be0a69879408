/** Session tokens in cookies: the hex codec, the issued header, and the scan of
    the request header. */
module Sessions {
  import opened Common
  import opened Text
  import Hex

  const SESSION_COOKIE_NAME: string := "stellar_agent_remote_approval_session"

  // ------------------------------------------------------------------------- token

  function ToHex(token: seq<Byte>): string {
    Hex.Encode(token)
  }

  function FromHex(s: string): Option<seq<Byte>> {
    if |s| != 64 || !Hex.AllHex(s) then None
    else
      match Hex.Decode(s)
      case Some(bytes) => if |bytes| == 32 then Some(bytes) else None
      case None => None
  }

  /** Exactly the 64-digit hex strings are tokens, and reading undoes writing. */
  lemma TokenCodec(s: string, token: seq<Byte>)
    requires |token| == 32
    ensures FromHex(s).Some? <==> |s| == 64 && Hex.AllHex(s)
    ensures FromHex(ToHex(token)) == Some(token)
    ensures FromHex(s) == Some(token) <==> Hex.Lower(s) == ToHex(token)
  {
    Hex.DecodeAccepts(s);
    Hex.DecodeEncode(token);
    if FromHex(s).Some? {
      Hex.EncodeDecode(s);
      Hex.DecodeEncode(FromHex(s).value);
    }
    if Hex.Lower(s) == ToHex(token) {
      forall i | 0 <= i < |s| ensures Hex.IsHexDigit(s[i]) {
        assert Hex.IsHexDigit(ToHex(token)[i]);
        assert Hex.Lower(s)[i] == Hex.ToLower(s[i]);
      }
    }
  }

  // ------------------------------------------------------------------------ cookies

  /** The value a cookie pair carries for the session, if that is its name. */
  function PairValue(pair: string): Option<string> {
    match SplitOnce(Trim(pair), '=')
    case Some(p) => if Trim(p.0) == SESSION_COOKIE_NAME then Some(Trim(p.1)) else None
    case None => None
  }

  /** The first session value among the pairs. */
  function FirstValue(pairs: seq<string>): Option<string> {
    if pairs == [] then None
    else if PairValue(pairs[0]).Some? then PairValue(pairs[0])
    else FirstValue(pairs[1..])
  }

  /** The pair, white space aside, is the session cookie's name, an equals sign, and
      this value. */
  ghost predicate Carries(pair: string, value: string) {
    exists name, text ::
      Trim(pair) == name + "=" + text && '=' !in name
      && Trim(name) == "stellar_agent_remote_approval_session" && Trim(text) == value
  }

  lemma PairValueExact(pair: string, value: string)
    ensures PairValue(pair) == Some(value) <==> Carries(pair, value)
  {
    var parts := SplitOnce(Trim(pair), '=');
    if PairValue(pair) == Some(value) {
      assert Trim(pair) == parts.value.0 + "=" + parts.value.1;
    }
    if Carries(pair, value) {
      var name, text :| Trim(pair) == name + "=" + text && '=' !in name
        && Trim(name) == "stellar_agent_remote_approval_session" && Trim(text) == value;
      SplitOnceFinds(name, '=', text);
    }
  }

  /** The value found is that of the first pair that carries one. */
  lemma {:induction false} FirstValueExact(pairs: seq<string>)
    ensures FirstValue(pairs).None? <==> forall i :: 0 <= i < |pairs| ==> PairValue(pairs[i]).None?
    ensures FirstValue(pairs).Some? ==>
              exists i :: 0 <= i < |pairs| && PairValue(pairs[i]) == FirstValue(pairs)
                          && forall j :: 0 <= j < i ==> PairValue(pairs[j]).None?
  {
    if pairs != [] && PairValue(pairs[0]).None? {
      var rest := pairs[1..];
      assert forall i :: 0 < i < |pairs| ==> pairs[i] == rest[i - 1];
      FirstValueExact(rest);
      if FirstValue(rest).Some? {
        var i :| 0 <= i < |rest| && PairValue(rest[i]) == FirstValue(rest) && forall j :: 0 <= j < i ==> PairValue(rest[j]).None?;
        assert PairValue(pairs[i + 1]) == FirstValue(pairs);
      }
    }
  }

  /** Scans the request's cookie header; none when the request has none. */
  method SessionCookieValue(header: Option<string>) returns (r: Option<string>)
    ensures r == if header.Some? then FirstValue(Split(header.value, ';')) else None
  {
    if header.None? {
      return None;
    }
    var pairs := Split(header.value, ';');
    var i := 0;
    while i < |pairs|
      invariant 0 <= i <= |pairs|
      invariant FirstValue(pairs) == FirstValue(pairs[i..])
    {
      var pair := Trim(pairs[i]);
      var named := SplitOnce(pair, '=');
      if named.Some? && Trim(named.value.0) == SESSION_COOKIE_NAME {
        return Some(Trim(named.value.1));
      }
      assert pairs[i..][1..] == pairs[i + 1..];
      i := i + 1;
    }
    assert pairs[i..] == [];
    return None;
  }

  /** The name=value part of the issued header. */
  function IssuedPair(hex: string): string {
    SESSION_COOKIE_NAME + "=" + hex
  }

  function SetCookieHeader(hex: string): string {
    Join([IssuedPair(hex), " HttpOnly", " Secure", " SameSite=Strict", " Path=/"], ";")
  }

  lemma {:induction false} SplitOfJoin(parts: seq<string>)
    requires parts != [] && forall i :: 0 <= i < |parts| ==> ';' !in parts[i]
    ensures Split(Join(parts, ";"), ';') == parts
  {
    SplitNone(parts[0], ';');
    if |parts| > 1 {
      SplitOfJoin(parts[1..]);
      SplitAround(parts[0], Join(parts[1..], ";"), ';');
    }
  }

  /** The issued header: the session's pair, then its four attributes and nothing else. */
  lemma IssuedPairIsFirst(hex: string)
    requires ';' !in hex
    ensures IssuedPair(hex) == "stellar_agent_remote_approval_session" + "=" + hex
    ensures Split(SetCookieHeader(hex), ';') == [IssuedPair(hex), " HttpOnly", " Secure", " SameSite=Strict", " Path=/"]
  {
    NoSemicolon(hex);
    var parts := [IssuedPair(hex), " HttpOnly", " Secure", " SameSite=Strict", " Path=/"];
    assert ';' !in parts[0] && ';' !in parts[1] && ';' !in parts[2] && ';' !in parts[3] && ';' !in parts[4];
    SplitOfJoin(parts);
  }

  lemma NoSemicolon(hex: string)
    requires ';' !in hex
    ensures ';' !in IssuedPair(hex)
  {
  }

  lemma TrimmedWithin(t: string)
    requires Trimmed(t)
    ensures Trim(t) == t && Trim(" " + t) == t
  {
    TrimFinds("", t, "");
    TrimFinds(" ", t, "");
    assert "" + t + "" == t && " " + t + "" == " " + t;
  }

  lemma IssuedPairValue(hex: string)
    requires |hex| == 64 && Hex.AllHex(hex)
    ensures PairValue(IssuedPair(hex)) == Some(hex) && PairValue(" " + IssuedPair(hex)) == Some(hex)
  {
    var pair := IssuedPair(hex);
    assert pair[0] == 's' && pair[|pair| - 1] == hex[63];
    assert Trimmed(pair) && Trimmed(hex) && Trimmed(SESSION_COOKIE_NAME);
    TrimmedWithin(pair);
    TrimmedWithin(hex);
    TrimmedWithin(SESSION_COOKIE_NAME);
    NameHasNoEquals();
    SplitOnceFinds(SESSION_COOKIE_NAME, '=', hex);
  }

  lemma NameHasNoEquals()
    ensures '=' !in SESSION_COOKIE_NAME
  {
  }

  /** A cookie pair of some other name, or no pair at all. */
  predicate Foreign(pair: string) {
    ';' !in pair && PairValue(pair).None?
  }

  lemma LeadingSpaceIgnored(pair: string)
    ensures PairValue(" " + pair) == PairValue(pair)
  {
    assert (" " + pair)[1..] == pair;
  }

  /** Any cookie with another name is foreign, whatever its value. */
  lemma OtherNameIsForeign(name: string, value: string)
    requires name != "" && name != SESSION_COOKIE_NAME && Trimmed(name)
    requires '=' !in name && ';' !in name && ';' !in value
    ensures Foreign(name + "=" + value)
  {
    var b := TrimEndParts(value);
    var kept := name + "=" + TrimEnd(value);
    assert name + "=" + value == kept + b;
    TrimStartSkips("", name + "=" + value);
    assert "" + (name + "=" + value) == name + "=" + value;
    TrimEndSkips(kept, b);
    SplitOnceFinds(name, '=', TrimEnd(value));
    TrimmedWithin(name);
  }

  /** Pairs as a browser sends them: separated by a semicolon and a space. */
  function Spaced(pairs: seq<string>): seq<string> {
    if pairs == [] then [] else [" " + pairs[0]] + Spaced(pairs[1..])
  }

  lemma {:induction false} SplitJoined(first: string, pairs: seq<string>)
    requires ';' !in first && forall i :: 0 <= i < |pairs| ==> ';' !in pairs[i]
    ensures Split(Join([first] + pairs, "; "), ';') == [first] + Spaced(pairs)
    decreases |pairs|
  {
    if pairs == [] {
      SplitNone(first, ';');
      assert [first] + pairs == [first];
    } else {
      var tail := Join(pairs, "; ");
      assert ([first] + pairs)[1..] == pairs;
      assert Join([first] + pairs, "; ") == first + [';'] + (" " + tail);
      SplitAround(first, " " + tail, ';');
      SplitNone(first, ';');
      SplitJoined(" " + pairs[0], pairs[1..]);
      assert [pairs[0]] + pairs[1..] == pairs;
      JoinHead(" ", pairs);
    }
  }

  lemma JoinHead(space: string, pairs: seq<string>)
    requires pairs != []
    ensures Join([space + pairs[0]] + pairs[1..], "; ") == space + Join(pairs, "; ")
  {
    var moved := [space + pairs[0]] + pairs[1..];
    assert moved[1..] == pairs[1..];
  }

  lemma {:induction false} FirstValueSkips(others: seq<string>, rest: seq<string>)
    requires forall i :: 0 <= i < |others| ==> PairValue(others[i]).None?
    ensures FirstValue(others + rest) == FirstValue(rest)
  {
    if others == [] {
      assert others + rest == rest;
    } else {
      assert (others + rest)[1..] == others[1..] + rest;
      FirstValueSkips(others[1..], rest);
    }
  }

  lemma {:induction false} SpacedConcat(a: seq<string>, b: seq<string>)
    ensures Spaced(a + b) == Spaced(a) + Spaced(b)
    ensures |Spaced(a)| == |a| && forall i :: 0 <= i < |a| ==> Spaced(a)[i] == " " + a[i]
  {
    if a == [] {
      assert a + b == b;
    } else {
      assert (a + b)[1..] == a[1..] + b;
      SpacedConcat(a[1..], b);
    }
  }

  /** What the scan sees of a header that joins these pairs. */
  lemma SplitHeader(pair: string, before: seq<string>, after: seq<string>)
    requires ';' !in pair && before != []
    requires forall i :: 0 <= i < |before| ==> ';' !in before[i]
    requires forall i :: 0 <= i < |after| ==> ';' !in after[i]
    ensures Split(Join(before + [pair] + after, "; "), ';')
         == ([before[0]] + Spaced(before[1..])) + ([" " + pair] + Spaced(after))
  {
    var rest := before[1..] + ([pair] + after);
    assert before + [pair] + after == [before[0]] + rest;
    SplitJoined(before[0], rest);
    SpacedConcat(before[1..], [pair] + after);
    assert ([pair] + after)[1..] == after;
  }

  lemma ForeignSkipped(before: seq<string>, rest: seq<string>)
    requires before != [] && forall i :: 0 <= i < |before| ==> Foreign(before[i])
    ensures FirstValue(([before[0]] + Spaced(before[1..])) + rest) == FirstValue(rest)
  {
    var skipped := [before[0]] + Spaced(before[1..]);
    SpacedConcat(before[1..], []);
    forall i | 0 <= i < |skipped| ensures PairValue(skipped[i]).None? {
      assert Foreign(before[i]);
      assert i > 0 ==> skipped[i] == " " + before[1..][i - 1];
      LeadingSpaceIgnored(before[i]);
    }
    FirstValueSkips(skipped, rest);
  }

  /** The issued cookie, sent back among any other cookies, is the one that is found
      and it decodes to the token it was issued for. */
  lemma CookieRoundTrip(token: seq<Byte>, before: seq<string>, after: seq<string>)
    requires |token| == 32
    requires forall i :: 0 <= i < |before| ==> Foreign(before[i])
    requires forall i :: 0 <= i < |after| ==> Foreign(after[i])
    ensures var header := Join(before + [IssuedPair(ToHex(token))] + after, "; ");
            && FirstValue(Split(header, ';')) == Some(ToHex(token))
            && FromHex(FirstValue(Split(header, ';')).value) == Some(token)
  {
    var hex := ToHex(token);
    TokenCodec(hex, token);
    FoundAmong(hex, before, after);
  }

  lemma FoundAmong(hex: string, before: seq<string>, after: seq<string>)
    requires |hex| == 64 && Hex.AllHex(hex)
    requires forall i :: 0 <= i < |before| ==> Foreign(before[i])
    requires forall i :: 0 <= i < |after| ==> Foreign(after[i])
    ensures FirstValue(Split(Join(before + [IssuedPair(hex)] + after, "; "), ';')) == Some(hex)
  {
    var pair := IssuedPair(hex);
    HexHasNoSemicolon(hex);
    NoSemicolon(hex);
    IssuedPairValue(hex);
    if before == [] {
      assert before + [pair] + after == [pair] + after;
      SplitJoined(pair, after);
    } else {
      SplitHeader(pair, before, after);
      ForeignSkipped(before, [" " + pair] + Spaced(after));
    }
  }

  lemma HexHasNoSemicolon(hex: string)
    requires Hex.AllHex(hex)
    ensures ';' !in hex
  {
  }
}
