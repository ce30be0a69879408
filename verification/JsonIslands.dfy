/** The JSON data island: a serialized value in which `<`, `>` and `&` are replaced
    by their escapes, so that it can stand inside a script element. */
module JsonIslands {
  import opened Common
  import opened JsonTexts
  import Hex

  // -------------------------------------------------------------------- serializer

  function EscapeChar(c: char): string {
    if c == '"' then "\\\""
    else if c == '\\' then "\\\\"
    else if c == '\U{0008}' then "\\b"
    else if c == '\U{000C}' then "\\f"
    else if c == '\n' then "\\n"
    else if c == '\r' then "\\r"
    else if c == '\t' then "\\t"
    else if c < ' ' then "\\u00" + [Hex.Digit(c as int / 16), Hex.Digit(c as int % 16)]
    else [c]
  }

  function Chars(escape: char -> string, s: string): string {
    if s == "" then "" else escape(s[0]) + Chars(escape, s[1..])
  }

  function Quoted(escape: char -> string, s: string): string {
    "\"" + Chars(escape, s) + "\""
  }

  /** Compact text, with each string character written by `escape`. */
  function Serialize(escape: char -> string, v: Json): string
    decreases v, 0
  {
    match v
    case Null => "null"
    case Bool(b) => if b then "true" else "false"
    case Number(text) => text
    case Str(s) => Quoted(escape, s)
    case Arr(items) => "[" + Items(escape, items) + "]"
    case Obj(members) => "{" + Members(escape, members) + "}"
  }

  function Items(escape: char -> string, items: seq<Json>): string
    decreases items, 1
  {
    if items == [] then ""
    else if |items| == 1 then Serialize(escape, items[0])
    else Serialize(escape, items[0]) + "," + Items(escape, items[1..])
  }

  function MemberText(escape: char -> string, m: Member): string
    decreases m, 1
  {
    Quoted(escape, m.key) + ":" + Serialize(escape, m.value)
  }

  function Members(escape: char -> string, members: seq<Member>): string
    decreases members, 2
  {
    if members == [] then ""
    else if |members| == 1 then MemberText(escape, members[0])
    else MemberText(escape, members[0]) + "," + Members(escape, members[1..])
  }

  // ------------------------------------------------------------------ replacements

  function Replace(s: string, c: char, with: string): string {
    if s == "" then "" else (if s[0] == c then with else [s[0]]) + Replace(s[1..], c, with)
  }

  function Thrice(s: string): string {
    Replace(Replace(Replace(s, '<', "\\u003c"), '>', "\\u003e"), '&', "\\u0026")
  }

  function JsonDataIsland(v: Json): string {
    Thrice(Serialize(EscapeChar, v))
  }

  // ------------------------------------------------------- one pass instead of three

  function Safe(c: char): string {
    if c == '<' then "\\u003c" else if c == '>' then "\\u003e" else if c == '&' then "\\u0026" else [c]
  }

  function AllSafe(s: string): string {
    if s == "" then "" else Safe(s[0]) + AllSafe(s[1..])
  }

  lemma {:induction false} ReplaceConcat(a: string, b: string, c: char, with: string)
    ensures Replace(a + b, c, with) == Replace(a, c, with) + Replace(b, c, with)
  {
    if a == "" {
      assert a + b == b;
    } else {
      assert (a + b)[1..] == a[1..] + b;
      ReplaceConcat(a[1..], b, c, with);
    }
  }

  lemma {:induction false} ReplaceNone(s: string, c: char, with: string)
    requires c !in s
    ensures Replace(s, c, with) == s
  {
    if s != "" {
      assert s[0] in s && forall x :: x in s[1..] ==> x in s;
      ReplaceNone(s[1..], c, with);
    }
  }

  lemma ThriceConcat(a: string, b: string)
    ensures Thrice(a + b) == Thrice(a) + Thrice(b)
  {
    ReplaceConcat(a, b, '<', "\\u003c");
    var a1, b1 := Replace(a, '<', "\\u003c"), Replace(b, '<', "\\u003c");
    ReplaceConcat(a1, b1, '>', "\\u003e");
    ReplaceConcat(Replace(a1, '>', "\\u003e"), Replace(b1, '>', "\\u003e"), '&', "\\u0026");
  }

  lemma ReplaceOne(c: char, d: char, with: string)
    ensures Replace([c], d, with) == if c == d then with else [c]
  {
    assert [c][1..] == "";
  }

  lemma ThriceOne(c: char)
    ensures Thrice([c]) == Safe(c)
  {
    ReplaceOne(c, '<', "\\u003c");
    ReplaceOne(c, '>', "\\u003e");
    ReplaceOne(c, '&', "\\u0026");
    ReplaceNone("\\u003c", '>', "\\u003e");
    ReplaceNone("\\u003c", '&', "\\u0026");
    ReplaceNone("\\u003e", '&', "\\u0026");
  }

  /** The three replacements do not interfere: together they act on each character
      of the text once. */
  lemma {:induction false} ThriceIsOnePass(s: string)
    ensures Thrice(s) == AllSafe(s)
  {
    if s != "" {
      assert s == [s[0]] + s[1..];
      ThriceConcat([s[0]], s[1..]);
      ThriceOne(s[0]);
      ThriceIsOnePass(s[1..]);
    }
  }

  predicate Inert(s: string) {
    '<' !in s && '>' !in s && '&' !in s
  }

  lemma {:induction false} AllSafeIsInert(s: string)
    ensures Inert(AllSafe(s))
  {
    if s != "" {
      AllSafeIsInert(s[1..]);
      assert Inert(Safe(s[0]));
    }
  }

  lemma {:induction false} AllSafeConcat(a: string, b: string)
    ensures AllSafe(a + b) == AllSafe(a) + AllSafe(b)
  {
    if a == "" {
      assert a + b == b;
    } else {
      assert (a + b)[1..] == a[1..] + b;
      AllSafeConcat(a[1..], b);
    }
  }

  lemma {:induction false} InertIsKept(s: string)
    requires Inert(s)
    ensures AllSafe(s) == s
  {
    if s != "" {
      assert s[0] in s && forall x :: x in s[1..] ==> x in s;
      InertIsKept(s[1..]);
    }
  }

  // ------------------------------------------------- the island is a serialization

  /** How the island writes one string character. */
  function SafeEscape(c: char): string {
    AllSafe(EscapeChar(c))
  }

  lemma {:induction false} SafeChars(s: string)
    ensures AllSafe(Chars(EscapeChar, s)) == Chars(SafeEscape, s)
  {
    if s != "" {
      AllSafeConcat(EscapeChar(s[0]), Chars(EscapeChar, s[1..]));
      SafeChars(s[1..]);
    }
  }

  lemma SafeAround(open: string, middle: string, close: string)
    requires Inert(open) && Inert(close)
    ensures AllSafe(open + middle + close) == open + AllSafe(middle) + close
  {
    AllSafeConcat(open + middle, close);
    AllSafeConcat(open, middle);
    InertIsKept(open);
    InertIsKept(close);
  }

  lemma SafeBetween(left: string, middle: string, right: string)
    requires Inert(middle)
    ensures AllSafe(left + middle + right) == AllSafe(left) + middle + AllSafe(right)
  {
    AllSafeConcat(left + middle, right);
    AllSafeConcat(left, middle);
    InertIsKept(middle);
  }

  lemma SafeQuoted(s: string)
    ensures AllSafe(Quoted(EscapeChar, s)) == Quoted(SafeEscape, s)
  {
    SafeAround("\"", Chars(EscapeChar, s), "\"");
    SafeChars(s);
  }

  lemma NumberIsInert(text: string)
    requires IsNumber(text)
    ensures Inert(text)
  {
    NumberChars(text);
  }

  /** Rewriting the text is the same as having escaped those characters in the first
      place: they occur nowhere but inside strings. */
  lemma {:induction false} IslandIsSerialization(v: Json)
    ensures AllSafe(Serialize(EscapeChar, v)) == Serialize(SafeEscape, v)
    decreases v, 0
  {
    match v
    case Null => InertIsKept("null");
    case Bool(b) => InertIsKept(if b then "true" else "false");
    case Number(text) =>
      NumberIsInert(text);
      InertIsKept(text);
    case Str(s) => SafeQuoted(s);
    case Arr(items) =>
      SafeAround("[", Items(EscapeChar, items), "]");
      SafeItems(items);
    case Obj(members) =>
      SafeAround("{", Members(EscapeChar, members), "}");
      SafeMembers(members);
  }

  lemma {:induction false} SafeItems(items: seq<Json>)
    ensures AllSafe(Items(EscapeChar, items)) == Items(SafeEscape, items)
    decreases items, 1
  {
    if items != [] {
      IslandIsSerialization(items[0]);
      if |items| > 1 {
        SafeBetween(Serialize(EscapeChar, items[0]), ",", Items(EscapeChar, items[1..]));
        SafeItems(items[1..]);
      }
    }
  }

  lemma {:induction false} SafeMember(m: Member)
    ensures AllSafe(MemberText(EscapeChar, m)) == MemberText(SafeEscape, m)
    decreases m, 1
  {
    SafeBetween(Quoted(EscapeChar, m.key), ":", Serialize(EscapeChar, m.value));
    SafeQuoted(m.key);
    IslandIsSerialization(m.value);
  }

  lemma {:induction false} SafeMembers(members: seq<Member>)
    ensures AllSafe(Members(EscapeChar, members)) == Members(SafeEscape, members)
    decreases members, 2
  {
    if members != [] {
      SafeMember(members[0]);
      if |members| > 1 {
        SafeBetween(MemberText(EscapeChar, members[0]), ",", Members(EscapeChar, members[1..]));
        SafeMembers(members[1..]);
      }
    }
  }

  // ----------------------------------------------------------------------- reading back

  /** The reader takes `escape(c)` for `c`, whatever follows. */
  ghost predicate ReadsAs(escape: char -> string, c: char, rest: string) {
    && escape(c) != "" && escape(c)[0] != '"'
    && ReadChar(escape(c) + rest).Some?
    && ReadChar(escape(c) + rest).value.0 == c && ReadChar(escape(c) + rest).value.1 == rest
  }

  ghost predicate Readable(escape: char -> string) {
    forall c: char, rest: string :: ReadsAs(escape, c, rest)
  }

  lemma UnicodeEscapeReads(h: char, l: char, rest: string)
    requires Hex.IsHexDigit(h) && Hex.IsHexDigit(l)
    ensures var s := "\\u00" + [h, l] + rest;
            ReadChar(s).Some? && ReadChar(s).value.0 as int == 16 * Hex.Nibble(h) + Hex.Nibble(l) && ReadChar(s).value.1 == rest
  {
    var t := "00" + [h, l] + rest;
    assert ("\\u00" + [h, l] + rest)[2..] == t;
    assert t[..4] == "00" + [h, l];
    assert Hex.Nibble('0') == 0;
    assert t[4..] == rest;
  }

  lemma ShortEscapeReads(c: char, rest: string)
    requires c == '"' || c == '\\' || c == '\U{0008}' || c == '\U{000C}' || c == '\n' || c == '\r' || c == '\t'
    ensures ReadsAs(SafeEscape, c, rest) && ReadsAs(EscapeChar, c, rest)
  {
    assert Inert(EscapeChar(c));
    InertIsKept(EscapeChar(c));
    var s := EscapeChar(c) + rest;
    assert s[0] == '\\' && s[2..] == rest;
  }

  /** Every character, however it is escaped, reads back as itself. */
  lemma SafeEscapeReads(c: char, rest: string)
    ensures ReadsAs(SafeEscape, c, rest)
  {
    if c == '"' || c == '\\' || c == '\U{0008}' || c == '\U{000C}' || c == '\n' || c == '\r' || c == '\t' {
      ShortEscapeReads(c, rest);
    } else if c < ' ' {
      var h, l := Hex.Digit(c as int / 16), Hex.Digit(c as int % 16);
      assert EscapeChar(c) == "\\u00" + [h, l];
      assert Inert(EscapeChar(c));
      InertIsKept(EscapeChar(c));
      UnicodeEscapeReads(h, l, rest);
    } else {
      assert AllSafe([c]) == Safe(c) by {
        assert [c][1..] == "";
      }
      if c == '<' {
        UnicodeEscapeReads('3', 'c', rest);
        assert "\\u00" + ['3', 'c'] == "\\u003c";
      } else if c == '>' {
        UnicodeEscapeReads('3', 'e', rest);
        assert "\\u00" + ['3', 'e'] == "\\u003e";
      } else if c == '&' {
        UnicodeEscapeReads('2', '6', rest);
        assert "\\u00" + ['2', '6'] == "\\u0026";
      } else {
        assert ([c] + rest)[1..] == rest;
      }
    }
  }

  lemma {:induction false} CharsRead(escape: char -> string, s: string, rest: string)
    requires Readable(escape)
    ensures ReadChars(Chars(escape, s) + "\"" + rest) == Some((s, rest))
  {
    var text := Chars(escape, s) + "\"" + rest;
    if s == "" {
      assert text == "\"" + rest;
      assert text[1..] == rest;
    } else {
      var tail := Chars(escape, s[1..]) + "\"" + rest;
      assert text == escape(s[0]) + tail;
      assert ReadsAs(escape, s[0], tail);
      CharsRead(escape, s[1..], rest);
      assert [s[0]] + s[1..] == s;
    }
  }

  /** What may follow a value without changing where a number ends. */
  predicate Stops(rest: string) {
    rest == "" || !NumberChar(rest[0])
  }

  lemma {:induction false} NumberTaken(text: string, rest: string)
    requires AllNumberChars(text) && Stops(rest)
    ensures TakeNumber(text + rest) == text
  {
    if text == "" {
      assert text + rest == rest;
    } else {
      assert (text + rest)[1..] == text[1..] + rest;
      NumberTaken(text[1..], rest);
    }
  }

  lemma OtherWord(s: string, word: string)
    requires s != "" && word != "" && s[0] != word[0]
    ensures !StartsWith(s, word)
  {
    if |word| <= |s| {
      assert s[..|word|][0] == s[0];
    }
  }

  lemma Bracket(s: string)
    requires s != "" && (s[0] == '[' || s[0] == '{')
    ensures SkipSpace(s) == s && !StartsWith(s, "null") && !StartsWith(s, "true") && !StartsWith(s, "false")
  {
    OtherWord(s, "null");
    OtherWord(s, "true");
    OtherWord(s, "false");
  }

  lemma ReadArr(t: string, items: seq<Json>, rest: string)
    requires StartsValue(t) && ReadItems(t) == Some((items, rest))
    ensures ReadValue("[" + t) == Some((Arr(items), rest))
  {
    Bracket("[" + t);
    OtherWord(t, "]");
    assert ("[" + t)[1..] == t;
    assert SkipSpace(t) == t;
  }

  lemma ReadObj(t: string, members: seq<Member>, rest: string)
    requires StartsValue(t) && ReadMembers(t) == Some((members, rest))
    ensures ReadValue("{" + t) == Some((Obj(members), rest))
  {
    Bracket("{" + t);
    OtherWord(t, "}");
    assert ("{" + t)[1..] == t;
    assert SkipSpace(t) == t;
  }

  lemma ReadEmptyArr(rest: string)
    ensures ReadValue("[" + "]" + rest) == Some((Arr([]), rest))
  {
    var s, t := "[" + "]" + rest, "]" + rest;
    Bracket(s);
    assert s[1..] == t && t[1..] == rest && t[..1] == "]";
    assert SkipSpace(t) == t;
  }

  lemma ReadEmptyObj(rest: string)
    ensures ReadValue("{" + "}" + rest) == Some((Obj([]), rest))
  {
    var s, t := "{" + "}" + rest, "}" + rest;
    Bracket(s);
    assert s[1..] == t && t[1..] == rest && t[..1] == "}";
    assert SkipSpace(t) == t;
  }

  lemma ReadLiterals(rest: string)
    ensures ReadValue("null" + rest) == Some((Null, rest))
    ensures ReadValue("true" + rest) == Some((Bool(true), rest))
    ensures ReadValue("false" + rest) == Some((Bool(false), rest))
  {
    var n, t, f := "null" + rest, "true" + rest, "false" + rest;
    assert n[..4] == "null" && n[4..] == rest;
    assert t[..4] == "true" && t[4..] == rest && t[0] == 't';
    assert f[..5] == "false" && f[5..] == rest && f[0] == 'f';
  }

  /** A text that starts like a number is read as one. */
  lemma Numeral(s: string)
    requires s != "" && NumberChar(s[0]) && s[0] != 'e' && s[0] != 'E'
    ensures ReadValue(s) == ReadNumber(s)
  {
    OtherWord(s, "null");
    OtherWord(s, "true");
    OtherWord(s, "false");
  }

  lemma ReadNumeral(text: NumberText, rest: string)
    requires Stops(rest)
    ensures ReadValue(text + rest) == Some((Number(text), rest))
  {
    var s := text + rest;
    NumberChars(text);
    NumberTaken(text, rest);
    assert s[0] == text[0];
    Numeral(s);
    assert s[|text|..] == rest;
  }

  /** Every serialized value reads back, whatever follows it. */
  lemma {:induction false} ValueReads(escape: char -> string, v: Json, rest: string)
    requires Readable(escape) && Stops(rest)
    ensures ReadValue(Serialize(escape, v) + rest) == Some((v, rest))
    decreases v, 0
  {
    match v
    case Null => ReadLiterals(rest);
    case Bool(_) => ReadLiterals(rest);
    case Number(text) => ReadNumeral(text, rest);
    case Str(chars) => QuotedReads(escape, chars, rest);
    case Arr(items) => ArrReads(escape, items, rest);
    case Obj(members) => ObjReads(escape, members, rest);
  }

  lemma {:induction false} ArrReads(escape: char -> string, items: seq<Json>, rest: string)
    requires Readable(escape)
    ensures ReadValue("[" + Items(escape, items) + "]" + rest) == Some((Arr(items), rest))
    decreases items, 2
  {
    Enclosed("[", Items(escape, items), "]", rest);
    if items == [] {
      ReadEmptyArr(rest);
    } else {
      ItemsRead(escape, items, rest);
      ItemsStart(escape, items);
      ReadArr(Items(escape, items) + "]" + rest, items, rest);
    }
  }

  lemma {:induction false} ObjReads(escape: char -> string, members: seq<Member>, rest: string)
    requires Readable(escape)
    ensures ReadValue("{" + Members(escape, members) + "}" + rest) == Some((Obj(members), rest))
    decreases members, 3
  {
    Enclosed("{", Members(escape, members), "}", rest);
    if members == [] {
      ReadEmptyObj(rest);
    } else {
      MembersRead(escape, members, rest);
      MembersStart(escape, members);
      ReadObj(Members(escape, members) + "}" + rest, members, rest);
    }
  }

  lemma Enclosed(open: string, middle: string, close: string, rest: string)
    ensures open + middle + close + rest == open + (middle + close + rest)
    ensures middle == "" ==> open + middle + close + rest == open + close + rest
  {
  }

  lemma MembersStart(escape: char -> string, members: seq<Member>)
    requires members != []
    ensures StartsValue(Members(escape, members))
  {
    assert MemberText(escape, members[0])[0] == '"';
  }

  lemma QuotedReads(escape: char -> string, chars: string, rest: string)
    requires Readable(escape)
    ensures ReadValue(Quoted(escape, chars) + rest) == Some((Str(chars), rest))
  {
    var s := Quoted(escape, chars) + rest;
    assert s[0] == '"';
    assert s[1..] == Chars(escape, chars) + "\"" + rest;
    CharsRead(escape, chars, rest);
  }

  /** A value starts with neither white space nor a closing bracket. */
  predicate StartsValue(s: string) {
    s != "" && s[0] != ' ' && s[0] != '\t' && s[0] != '\n' && s[0] != '\r' && s[0] != ']' && s[0] != '}'
  }

  lemma ValueStarts(escape: char -> string, v: Json)
    ensures StartsValue(Serialize(escape, v))
  {
    if v.Number? {
      NumberChars(v.text);
    }
  }

  lemma ItemsStart(escape: char -> string, items: seq<Json>)
    requires items != []
    ensures StartsValue(Items(escape, items))
  {
    ValueStarts(escape, items[0]);
  }

  lemma ReadLastItem(s: string, v: Json, rest: string)
    requires ReadValue(s) == Some((v, "]" + rest))
    ensures ReadItems(s) == Some(([v], rest))
  {
    var t := "]" + rest;
    assert t[..1] == "]" && t[1..] == rest;
  }

  lemma ReadMoreItems(s: string, v: Json, tail: string, vs: seq<Json>, rest: string)
    requires ReadValue(s) == Some((v, "," + tail)) && ReadItems(tail) == Some((vs, rest))
    ensures ReadItems(s) == Some(([v] + vs, rest))
  {
    var t := "," + tail;
    assert t[..1] == "," && t[1..] == tail;
  }

  lemma Listed(first: string, more: string, close: string, rest: string)
    ensures first + "," + more + close + rest == first + ("," + (more + close + rest))
  {
  }

  lemma Regroup(a: string, b: string, c: string)
    ensures a + b + c == a + (b + c)
  {
  }

  lemma {:induction false} ItemsRead(escape: char -> string, items: seq<Json>, rest: string)
    requires Readable(escape) && items != []
    ensures ReadItems(Items(escape, items) + "]" + rest) == Some((items, rest))
    decreases items, 1
  {
    var s := Items(escape, items) + "]" + rest;
    var first := Serialize(escape, items[0]);
    if |items| == 1 {
      Regroup(first, "]", rest);
      assert s == first + ("]" + rest);
      ValueReads(escape, items[0], "]" + rest);
      ReadLastItem(s, items[0], rest);
      assert items == [items[0]];
    } else {
      var tail := Items(escape, items[1..]) + "]" + rest;
      Listed(first, Items(escape, items[1..]), "]", rest);
      ValueReads(escape, items[0], "," + tail);
      ItemsRead(escape, items[1..], rest);
      ReadMoreItems(s, items[0], tail, items[1..], rest);
      assert items == [items[0]] + items[1..];
    }
  }

  lemma ReadMemberOf(body: string, key: string, value: string, v: Json, rest: string)
    requires ReadChars(body) == Some((key, ":" + value)) && ReadValue(value) == Some((v, rest))
    ensures ReadMember("\"" + body) == Some((Member(key, v), rest))
  {
    var s, t := "\"" + body, ":" + value;
    assert s[..1] == "\"" && s[1..] == body;
    assert t[..1] == ":" && t[1..] == value;
  }

  lemma {:induction false} MemberReads(escape: char -> string, m: Member, rest: string)
    requires Readable(escape) && Stops(rest)
    ensures ReadMember(MemberText(escape, m) + rest) == Some((m, rest))
    decreases m, 1
  {
    var value := Serialize(escape, m.value) + rest;
    var body := Chars(escape, m.key) + "\"" + (":" + value);
    MemberParts(Chars(escape, m.key), Serialize(escape, m.value), rest);
    CharsRead(escape, m.key, ":" + value);
    ValueReads(escape, m.value, rest);
    ReadMemberOf(body, m.key, value, m.value, rest);
  }

  lemma MemberParts(chars: string, value: string, rest: string)
    ensures "\"" + chars + "\"" + ":" + value + rest == "\"" + (chars + "\"" + (":" + (value + rest)))
  {
  }

  lemma ReadLastMember(s: string, m: Member, rest: string)
    requires ReadMember(s) == Some((m, "}" + rest))
    ensures ReadMembers(s) == Some(([m], rest))
  {
    var t := "}" + rest;
    assert t[..1] == "}" && t[1..] == rest;
  }

  lemma ReadMoreMembers(s: string, m: Member, tail: string, ms: seq<Member>, rest: string)
    requires ReadMember(s) == Some((m, "," + tail)) && ReadMembers(tail) == Some((ms, rest))
    ensures ReadMembers(s) == Some(([m] + ms, rest))
  {
    var t := "," + tail;
    assert t[..1] == "," && t[1..] == tail;
  }

  lemma {:induction false} MembersRead(escape: char -> string, members: seq<Member>, rest: string)
    requires Readable(escape) && members != []
    ensures ReadMembers(Members(escape, members) + "}" + rest) == Some((members, rest))
    decreases members, 2
  {
    var s := Members(escape, members) + "}" + rest;
    var first := MemberText(escape, members[0]);
    if |members| == 1 {
      Regroup(first, "}", rest);
      assert s == first + ("}" + rest);
      MemberReads(escape, members[0], "}" + rest);
      ReadLastMember(s, members[0], rest);
      assert members == [members[0]];
    } else {
      var tail := Members(escape, members[1..]) + "}" + rest;
      Listed(first, Members(escape, members[1..]), "}", rest);
      MemberReads(escape, members[0], "," + tail);
      MembersRead(escape, members[1..], rest);
      ReadMoreMembers(s, members[0], tail, members[1..], rest);
      assert members == [members[0]] + members[1..];
    }
  }

  /** For every value, the island holds none of the three characters and is a JSON
      text of that very value. */
  lemma IslandRoundTrip(v: Json)
    ensures Inert(JsonDataIsland(v))
    ensures Parse(JsonDataIsland(v)) == Some(v)
  {
    ThriceIsOnePass(Serialize(EscapeChar, v));
    AllSafeIsInert(Serialize(EscapeChar, v));
    IslandIsSerialization(v);
    forall c: char, rest: string ensures ReadsAs(SafeEscape, c, rest) {
      SafeEscapeReads(c, rest);
    }
    ValueReads(SafeEscape, v, "");
    assert Serialize(SafeEscape, v) + "" == Serialize(SafeEscape, v);
  }

  // ----------------------------------------------------------------- and nothing more

  /** What is escaped at all: quotes, backslashes, control characters and the three; in
      two characters where JSON has a short form, else in six. */
  lemma EscapesExact(c: char)
    ensures var text := SafeEscape(c);
            && (text == [c] <==> 32 <= c as int && c != '"' && c != '\\' && c != '<' && c != '>' && c != '&')
            && (|text| == 2 <==> c == '"' || c == '\\' || c as int in {8, 9, 10, 12, 13})
            && (|text| == 1 || |text| == 2 || |text| == 6)
  {
    if Inert(EscapeChar(c)) {
      InertIsKept(EscapeChar(c));
    } else {
      assert EscapeChar(c) == [c];
      assert AllSafe([c]) == Safe(c) by {
        assert [c][1..] == "";
      }
    }
  }

  ghost predicate SpaceFree(s: string) {
    forall i :: 0 <= i < |s| ==> s[i] != ' ' && s[i] != '\t' && s[i] != '\n' && s[i] != '\r'
  }

  lemma SpaceFreeConcat(a: string, b: string)
    ensures SpaceFree(a + b) <==> SpaceFree(a) && SpaceFree(b)
  {
    var all := a + b;
    assert forall i :: 0 <= i < |a| ==> all[i] == a[i];
    assert forall i :: 0 <= i < |b| ==> all[i + |a|] == b[i];
    assert forall i :: |a| <= i < |all| ==> all[i] == b[i - |a|];
  }

  /** No string in the value holds a space. */
  ghost predicate Spaceless(v: Json)
    decreases v
  {
    match v
    case Str(s) => ' ' !in s
    case Arr(items) => forall i :: 0 <= i < |items| ==> Spaceless(items[i])
    case Obj(members) => forall i :: 0 <= i < |members| ==> ' ' !in members[i].key && Spaceless(members[i].value)
    case _ => true
  }

  lemma {:induction false} CharsSpaceFree(s: string)
    requires ' ' !in s
    ensures SpaceFree(Chars(EscapeChar, s))
  {
    if s != "" {
      assert s[0] in s && forall x :: x in s[1..] ==> x in s;
      CharsSpaceFree(s[1..]);
      assert SpaceFree(EscapeChar(s[0]));
      SpaceFreeConcat(EscapeChar(s[0]), Chars(EscapeChar, s[1..]));
    }
  }

  lemma QuotedSpaceFree(s: string)
    requires ' ' !in s
    ensures SpaceFree(Quoted(EscapeChar, s))
  {
    CharsSpaceFree(s);
    SpaceFreeConcat("\"" + Chars(EscapeChar, s), "\"");
    SpaceFreeConcat("\"", Chars(EscapeChar, s));
  }

  /** The text is compact: it has no white space but the spaces inside strings. */
  lemma {:induction false} CompactText(v: Json)
    requires Spaceless(v)
    ensures SpaceFree(Serialize(EscapeChar, v))
    decreases v, 0
  {
    match v
    case Number(text) => NumberChars(text);
    case Str(s) => QuotedSpaceFree(s);
    case Arr(items) =>
      CompactItems(items);
      SpaceFreeConcat("[" + Items(EscapeChar, items), "]");
      SpaceFreeConcat("[", Items(EscapeChar, items));
    case Obj(members) =>
      CompactMembers(members);
      SpaceFreeConcat("{" + Members(EscapeChar, members), "}");
      SpaceFreeConcat("{", Members(EscapeChar, members));
    case _ =>
  }

  lemma {:induction false} CompactItems(items: seq<Json>)
    requires forall i :: 0 <= i < |items| ==> Spaceless(items[i])
    ensures SpaceFree(Items(EscapeChar, items))
    decreases items, 1
  {
    if items != [] {
      CompactText(items[0]);
      CompactItems(items[1..]);
      SpaceFreeConcat(Serialize(EscapeChar, items[0]) + ",", Items(EscapeChar, items[1..]));
      SpaceFreeConcat(Serialize(EscapeChar, items[0]), ",");
    }
  }

  lemma {:induction false} CompactMember(m: Member)
    requires ' ' !in m.key && Spaceless(m.value)
    ensures SpaceFree(MemberText(EscapeChar, m))
    decreases m, 1
  {
    QuotedSpaceFree(m.key);
    CompactText(m.value);
    SpaceFreeConcat(Quoted(EscapeChar, m.key) + ":", Serialize(EscapeChar, m.value));
    SpaceFreeConcat(Quoted(EscapeChar, m.key), ":");
  }

  lemma {:induction false} CompactMembers(members: seq<Member>)
    requires forall i :: 0 <= i < |members| ==> ' ' !in members[i].key && Spaceless(members[i].value)
    ensures SpaceFree(Members(EscapeChar, members))
    decreases members, 2
  {
    if members != [] {
      CompactMember(members[0]);
      CompactMembers(members[1..]);
      SpaceFreeConcat(MemberText(EscapeChar, members[0]) + ",", Members(EscapeChar, members[1..]));
      SpaceFreeConcat(MemberText(EscapeChar, members[0]), ",");
    }
  }
}
