/** JSON values and a reader of JSON texts written from the grammar of RFC 8259. */
module JsonTexts {
  import opened Common
  import Hex

  // ------------------------------------------------------------------------- numbers

  predicate IsDigit(c: char) {
    '0' <= c <= '9'
  }

  function DropDigits(s: string): string {
    if s != "" && IsDigit(s[0]) then DropDigits(s[1..]) else s
  }

  predicate ExponentOrEnd(s: string) {
    || s == ""
    || ((s[0] == 'e' || s[0] == 'E')
        && var d := if |s| > 1 && (s[1] == '+' || s[1] == '-') then s[2..] else s[1..];
           d != "" && IsDigit(d[0]) && DropDigits(d) == "")
  }

  /** Section 6: an optional minus, an integer without leading zeros, an optional
      fraction, an optional exponent. */
  predicate IsNumber(s: string) {
    var a := if s != "" && s[0] == '-' then s[1..] else s;
    && a != "" && IsDigit(a[0])
    && var b := if a[0] == '0' then a[1..] else DropDigits(a);
       if b != "" && b[0] == '.' then |b| > 1 && IsDigit(b[1]) && ExponentOrEnd(DropDigits(b[1..])) else ExponentOrEnd(b)
  }

  predicate NumberChar(c: char) {
    IsDigit(c) || c == '-' || c == '+' || c == '.' || c == 'e' || c == 'E'
  }

  predicate AllNumberChars(s: string) {
    forall i :: 0 <= i < |s| ==> NumberChar(s[i])
  }

  lemma {:induction false} DigitsDropped(s: string)
    requires AllNumberChars(DropDigits(s))
    ensures AllNumberChars(s)
  {
    if s != "" && IsDigit(s[0]) {
      DigitsDropped(s[1..]);
      assert s == [s[0]] + s[1..];
    }
  }

  lemma ExponentChars(s: string)
    requires ExponentOrEnd(s)
    ensures AllNumberChars(s)
  {
    if s != "" {
      var k := if |s| > 1 && (s[1] == '+' || s[1] == '-') then 2 else 1;
      DigitsDropped(s[k..]);
      assert s == s[..k] + s[k..];
    }
  }

  /** A number is written with number characters only, and starts with one that
      starts nothing else. */
  lemma NumberChars(s: string)
    requires IsNumber(s)
    ensures s != "" && AllNumberChars(s) && (IsDigit(s[0]) || s[0] == '-')
  {
    var a := if s[0] == '-' then s[1..] else s;
    var b := if a[0] == '0' then a[1..] else DropDigits(a);
    if b != "" && b[0] == '.' {
      ExponentChars(DropDigits(b[1..]));
      DigitsDropped(b[1..]);
      assert b == [b[0]] + b[1..];
    } else {
      ExponentChars(b);
    }
    if a[0] == '0' {
      assert a == [a[0]] + a[1..];
    } else {
      DigitsDropped(a);
    }
    if s[0] == '-' {
      assert s == [s[0]] + a;
    }
  }

  // -------------------------------------------------------------------------- values

  type NumberText = t: string | IsNumber(t) witness "0"

  datatype Json =
    | Null
    | Bool(value: bool)
    | Number(text: NumberText)
    | Str(chars: string)
    | Arr(items: seq<Json>)
    | Obj(members: seq<Member>)

  datatype Member = Member(key: string, value: Json)

  // -------------------------------------------------------------------------- reading

  /** Section 2: insignificant white space. */
  function SkipSpace(s: string): (r: string)
    ensures |r| <= |s|
  {
    if s != "" && (s[0] == ' ' || s[0] == '\t' || s[0] == '\n' || s[0] == '\r') then SkipSpace(s[1..]) else s
  }

  /** Four hex digits. */
  function ReadHex4(s: string): (r: Option<int>)
    ensures r.Some? ==> |s| >= 4 && 0 <= r.value < 0x1_0000
  {
    if |s| < 4 || !Hex.AllHex(s[..4]) then None
    else
      assert Hex.IsHexDigit(s[..4][0]) && Hex.IsHexDigit(s[..4][1]) && Hex.IsHexDigit(s[..4][2]) && Hex.IsHexDigit(s[..4][3]);
      Some(((Hex.Nibble(s[0]) * 16 + Hex.Nibble(s[1])) * 16 + Hex.Nibble(s[2])) * 16 + Hex.Nibble(s[3]))
  }

  /** Section 7, after `\u`: a character of the basic plane, or a surrogate pair. */
  function ReadUnicode(s: string): (r: Option<(char, string)>)
    ensures r.Some? ==> |r.value.1| < |s|
  {
    match ReadHex4(s)
    case None => None
    case Some(code) =>
      if code < 0xD800 || 0xE000 <= code then Some((code as char, s[4..]))
      else if code < 0xDC00 && |s| >= 6 && s[4..6] == "\\u" && ReadHex4(s[6..]).Some? then
        var low := ReadHex4(s[6..]).value;
        if 0xDC00 <= low < 0xE000 then Some(((0x1_0000 + (code - 0xD800) * 0x400 + (low - 0xDC00)) as char, s[10..]))
        else None
      else None
  }

  /** One character of a string, escaped or not. */
  function ReadChar(s: string): (r: Option<(char, string)>)
    ensures r.Some? ==> |r.value.1| < |s|
  {
    if s == "" || s[0] < ' ' || s[0] == '"' then None
    else if s[0] != '\\' then Some((s[0], s[1..]))
    else if |s| < 2 then None
    else
      match s[1]
      case '"' => Some(('"', s[2..]))
      case '\\' => Some(('\\', s[2..]))
      case '/' => Some(('/', s[2..]))
      case 'b' => Some(('\U{0008}', s[2..]))
      case 'f' => Some(('\U{000C}', s[2..]))
      case 'n' => Some(('\n', s[2..]))
      case 'r' => Some(('\r', s[2..]))
      case 't' => Some(('\t', s[2..]))
      case 'u' => ReadUnicode(s[2..])
      case _ => None
  }

  /** The rest of a string after its opening quote. */
  function ReadChars(s: string): (r: Option<(string, string)>)
    ensures r.Some? ==> |r.value.1| < |s|
    decreases |s|
  {
    if s == "" then None
    else if s[0] == '"' then Some(("", s[1..]))
    else
      match ReadChar(s)
      case None => None
      case Some(p) =>
        match ReadChars(p.1)
        case None => None
        case Some(q) => Some(([p.0] + q.0, q.1))
  }

  /** The longest run of number characters. */
  function TakeNumber(s: string): (r: string)
    ensures |r| <= |s|
  {
    if s != "" && NumberChar(s[0]) then [s[0]] + TakeNumber(s[1..]) else ""
  }

  predicate StartsWith(s: string, word: string) {
    |word| <= |s| && s[..|word|] == word
  }

  function ReadNumber(s: string): (r: Option<(Json, string)>)
    ensures r.Some? ==> |r.value.1| < |s|
  {
    var text := TakeNumber(s);
    if IsNumber(text) then
      NumberChars(text);
      Some((Number(text), s[|text|..]))
    else None
  }

  /** A value, and what follows it. */
  function ReadValue(input: string): (r: Option<(Json, string)>)
    ensures r.Some? ==> |r.value.1| < |input|
    decreases |input|, 0
  {
    var s := SkipSpace(input);
    if StartsWith(s, "null") then Some((Null, s[4..]))
    else if StartsWith(s, "true") then Some((Bool(true), s[4..]))
    else if StartsWith(s, "false") then Some((Bool(false), s[5..]))
    else if s == "" then None
    else if s[0] == '"' then
      (match ReadChars(s[1..])
       case None => None
       case Some(p) => Some((Str(p.0), p.1)))
    else if s[0] == '[' then
      var t := SkipSpace(s[1..]);
      if StartsWith(t, "]") then Some((Arr([]), t[1..]))
      else
        (match ReadItems(t)
         case None => None
         case Some(p) => Some((Arr(p.0), p.1)))
    else if s[0] == '{' then
      var t := SkipSpace(s[1..]);
      if StartsWith(t, "}") then Some((Obj([]), t[1..]))
      else
        (match ReadMembers(t)
         case None => None
         case Some(p) => Some((Obj(p.0), p.1)))
    else ReadNumber(s)
  }

  function ReadItems(s: string): (r: Option<(seq<Json>, string)>)
    ensures r.Some? ==> |r.value.1| < |s|
    decreases |s|, 1
  {
    match ReadValue(s)
    case None => None
    case Some(p) =>
      var t := SkipSpace(p.1);
      if StartsWith(t, "]") then Some(([p.0], t[1..]))
      else if !StartsWith(t, ",") then None
      else
        match ReadItems(t[1..])
        case None => None
        case Some(q) => Some(([p.0] + q.0, q.1))
  }

  function ReadMember(input: string): (r: Option<(Member, string)>)
    ensures r.Some? ==> |r.value.1| < |input|
    decreases |input|, 1
  {
    var s := SkipSpace(input);
    if !StartsWith(s, "\"") then None
    else
      match ReadChars(s[1..])
      case None => None
      case Some(k) =>
        var t := SkipSpace(k.1);
        if !StartsWith(t, ":") then None
        else
          match ReadValue(t[1..])
          case None => None
          case Some(p) => Some((Member(k.0, p.0), p.1))
  }

  function ReadMembers(s: string): (r: Option<(seq<Member>, string)>)
    ensures r.Some? ==> |r.value.1| < |s|
    decreases |s|, 2
  {
    match ReadMember(s)
    case None => None
    case Some(p) =>
      var t := SkipSpace(p.1);
      if StartsWith(t, "}") then Some(([p.0], t[1..]))
      else if !StartsWith(t, ",") then None
      else
        match ReadMembers(t[1..])
        case None => None
        case Some(q) => Some(([p.0] + q.0, q.1))
  }

  /** A whole text: one value, with white space around it. */
  function Parse(s: string): Option<Json> {
    match ReadValue(s)
    case None => None
    case Some(p) => if SkipSpace(p.1) == "" then Some(p.0) else None
  }
}
