/** JSON values as text: the printer behind `json.dumps(..., ensure_ascii=False)` and a parser
    in the manner of `json.loads` (sections 2 to 7 of RFC 8259). Text is a sequence of Unicode
    scalar values; its UTF-8 encoding is not part of this model. */
module JsonText {

  /** Object members keep their insertion order, as in a Python dict. Finite floats are known by
      their shortest decimal text. */
  datatype Json =
    | Null
    | Bool(b: bool)
    | Int(n: int)
    | Float(text: string)
    | Str(s: string)
    | Arr(items: seq<Json>)
    | Obj(members: seq<Member>)

  datatype Member = Member(key: string, value: Json)

  datatype Parsed<+T> = Failed | Done(value: T, rest: string)

  // ---------- characters ----------

  predicate IsDigit(c: char) {
    '0' <= c <= '9'
  }

  predicate NumberChar(c: char) {
    IsDigit(c) || c == '-' || c == '+' || c == '.' || c == 'e' || c == 'E'
  }

  predicate IsSpace(c: char) {
    c == ' ' || c == '\n' || c == '\r' || c == '\t'
  }

  /** Text with a fraction or an exponent, as Python writes floats. */
  predicate FloatText(s: string) {
    && s != "" && (IsDigit(s[0]) || s[0] == '-')
    && (forall c <- s :: NumberChar(c))
    && ('.' in s || 'e' in s || 'E' in s)
  }

  predicate WellFormed(v: Json)
    decreases v
  {
    match v
    case Float(text) => FloatText(text)
    case Arr(items) => forall i <- items :: WellFormed(i)
    case Obj(members) => forall m <- members :: WellFormed(m.value)
    case _ => true
  }

  // ---------- strings ----------

  function HexDigit(d: nat): char
    requires d < 16
  {
    "0123456789abcdef"[d]
  }

  function HexValue(c: char): int {
    if '0' <= c <= '9' then c as int - '0' as int
    else if 'a' <= c <= 'f' then c as int - 'a' as int + 10
    else if 'A' <= c <= 'F' then c as int - 'A' as int + 10
    else -1
  }

  const BACKSPACE: char := 8 as char
  const FORM_FEED: char := 12 as char

  function EscapeChar(c: char): string {
    if c == '"' then "\\\""
    else if c == '\\' then "\\\\"
    else if c == '\n' then "\\n"
    else if c == '\r' then "\\r"
    else if c == '\t' then "\\t"
    else if c == BACKSPACE then "\\b"
    else if c == FORM_FEED then "\\f"
    else if c < ' ' then "\\u00" + [HexDigit(c as int / 16), HexDigit(c as int % 16)]
    else [c]
  }

  /** The escapes of section 7 of RFC 8259 that are used, and no others: the two characters that must
      be escaped, five control characters by letter, the rest by four hexadecimal digits. */
  lemma EscapesInUse(c: char)
    ensures c == '"' ==> EscapeChar(c) == ['\\', '"']
    ensures c == '\\' ==> EscapeChar(c) == ['\\', '\\']
    ensures c as int == 8 ==> EscapeChar(c) == ['\\', 'b']
    ensures c as int == 9 ==> EscapeChar(c) == ['\\', 't']
    ensures c as int == 10 ==> EscapeChar(c) == ['\\', 'n']
    ensures c as int == 12 ==> EscapeChar(c) == ['\\', 'f']
    ensures c as int == 13 ==> EscapeChar(c) == ['\\', 'r']
    ensures (c as int < 8 || c as int == 11 || 14 <= c as int < 32) ==>
              exists high: char, low: char :: EscapeChar(c) == ['\\', 'u', '0', '0', high, low]
                && (c as int < 16 ==> high == '0') && (c as int >= 16 ==> high == '1')
                && (c as int % 16 < 10 ==> low as int == '0' as int + c as int % 16)
                && (c as int % 16 >= 10 ==> low as int == 'a' as int + c as int % 16 - 10)
    ensures c as int >= 32 && c != '"' && c != '\\' ==> EscapeChar(c) == [c]
  {
    if c < ' ' && |EscapeChar(c)| == 6 {
      var e := EscapeChar(c);
      assert e == ['\\', 'u', '0', '0', e[4], e[5]];
    }
  }

  function Escape(s: string): string {
    if s == "" then "" else EscapeChar(s[0]) + Escape(s[1..])
  }

  function Quoted(s: string): string {
    "\"" + Escape(s) + "\""
  }

  /** The character after a backslash, for the escapes of one letter. */
  function Unescaped(c: char): (r: string) {
    if c == '"' || c == '\\' || c == '/' then [c]
    else if c == 'n' then "\n"
    else if c == 'r' then "\r"
    else if c == 't' then "\t"
    else if c == 'b' then [BACKSPACE]
    else if c == 'f' then [FORM_FEED]
    else ""
  }

  function CodePoint(s: string): int
    requires |s| == 4
  {
    if HexValue(s[0]) < 0 || HexValue(s[1]) < 0 || HexValue(s[2]) < 0 || HexValue(s[3]) < 0 then -1
    else ((HexValue(s[0]) * 16 + HexValue(s[1])) * 16 + HexValue(s[2])) * 16 + HexValue(s[3])
  }

  /** The rest of a string literal, after its opening quote. Escaped surrogates are refused. */
  function ScanString(s: string): (r: Parsed<string>)
    ensures r.Done? ==> |r.rest| < |s|
    decreases |s|
  {
    if s == "" then Failed
    else if s[0] == '"' then Done("", s[1..])
    else if s[0] < ' ' then Failed
    else if s[0] != '\\' then Prepend([s[0]], ScanString(s[1..]))
    else if |s| < 2 then Failed
    else if s[1] == 'u' then
      if |s| < 6 || CodePoint(s[2..6]) < 0 || 0xD800 <= CodePoint(s[2..6]) < 0xE000 then Failed
      else Prepend([CodePoint(s[2..6]) as char], ScanString(s[6..]))
    else if Unescaped(s[1]) == "" then Failed
    else Prepend(Unescaped(s[1]), ScanString(s[2..]))
  }

  function Prepend(c: string, p: Parsed<string>): Parsed<string> {
    if p.Done? then Done(c + p.value, p.rest) else Failed
  }

  lemma ScanControl(c: char, tail: string)
    requires c < ' '
    ensures var escape := "\\u00" + [HexDigit(c as int / 16), HexDigit(c as int % 16)];
            ScanString(escape + tail) == Prepend([c], ScanString(tail))
  {
  }

  lemma ScanEscaped(c: char, tail: string)
    ensures ScanString(EscapeChar(c) + tail) == Prepend([c], ScanString(tail))
  {
    var s := EscapeChar(c) + tail;
    if |EscapeChar(c)| == 1 {
      assert s[1..] == tail;
    } else if |EscapeChar(c)| == 2 {
      assert s[2..] == tail;
    } else {
      ScanControl(c, tail);
    }
  }

  lemma ScanStep(c: char, tail: string, v: string, rest: string)
    requires ScanString(tail) == Done(v, rest)
    ensures ScanString(EscapeChar(c) + tail) == Done([c] + v, rest)
  {
    ScanEscaped(c, tail);
  }

  lemma ScanEnd(rest: string)
    ensures ScanString(Escape("") + "\"" + rest) == Done("", rest)
  {
    var end := "\"" + rest;
    assert Escape("") + "\"" + rest == end && end[1..] == rest;
  }

  lemma EscapeText(s: string, tail: string)
    requires s != ""
    ensures Escape(s) + "\"" + tail == EscapeChar(s[0]) + (Escape(s[1..]) + "\"" + tail)
  {
  }

  lemma {:induction false} ScanQuoted(s: string, rest: string)
    ensures ScanString(Escape(s) + "\"" + rest) == Done(s, rest)
  {
    if s == "" {
      ScanEnd(rest);
    } else {
      var tail := Escape(s[1..]) + "\"" + rest;
      assert ScanString(EscapeChar(s[0]) + tail) == Done([s[0]] + s[1..], rest) by {
        ScanQuoted(s[1..], rest);
        ScanStep(s[0], tail, s[1..], rest);
      }
      assert [s[0]] + s[1..] == s;
      EscapeText(s, rest);
    }
  }

  // ---------- numbers ----------

  function Digits(n: nat): string {
    if n < 10 then [HexDigit(n)] else Digits(n / 10) + [HexDigit(n % 10)]
  }

  function DigitsValue(s: string): int {
    if s == "" then 0 else 10 * DigitsValue(s[..|s| - 1]) + HexValue(s[|s| - 1])
  }

  function IntText(n: int): string {
    if n < 0 then "-" + Digits(-n) else Digits(n)
  }

  lemma {:induction false} DigitsBack(n: nat)
    ensures DigitsValue(Digits(n)) == n && Digits(n) != "" && forall c <- Digits(n) :: IsDigit(c)
  {
    if n >= 10 {
      DigitsBack(n / 10);
      assert Digits(n)[..|Digits(n)| - 1] == Digits(n / 10);
    } else {
      assert Digits(n)[..|Digits(n)| - 1] == "";
      assert DigitsValue("") == 0;
    }
  }

  /** Decimal numerals: the last character is the digit of the units, the ones before it are the
      numeral of the tens, and only zero begins with a zero. */
  lemma {:induction false} NumeralByPlaces(n: nat)
    ensures var d := Digits(n);
            && d != "" && d[|d| - 1] as int == '0' as int + n % 10
            && d[..|d| - 1] == (if n < 10 then "" else Digits(n / 10))
            && (n > 0 ==> d[0] != '0')
  {
    if n >= 10 {
      NumeralByPlaces(n / 10);
    }
  }

  /** The length of the longest run of number characters at the front. */
  function NumberLength(s: string): (n: nat)
    ensures n <= |s|
  {
    if s == "" || !NumberChar(s[0]) then 0 else 1 + NumberLength(s[1..])
  }

  function NumberOf(text: string): Json
    requires text != ""
  {
    if '.' in text || 'e' in text || 'E' in text then Float(text)
    else if text[0] == '-' then Int(-DigitsValue(text[1..]))
    else Int(DigitsValue(text))
  }

  /** A number ends where its text ends, or before a character that no number contains. */
  predicate Ends(rest: string) {
    rest != "" ==> !NumberChar(rest[0])
  }

  lemma {:induction false} NumberSpan(text: string, rest: string)
    requires (forall c <- text :: NumberChar(c)) && Ends(rest)
    ensures NumberLength(text + rest) == |text|
  {
    if text == "" {
      assert text + rest == rest;
    } else {
      assert (text + rest)[1..] == text[1..] + rest;
      NumberSpan(text[1..], rest);
    }
  }

  lemma NoPoint(text: string)
    requires forall c <- text :: IsDigit(c) || c == '-'
    ensures '.' !in text && 'e' !in text && 'E' !in text
  {
  }

  lemma IntTextBack(n: int)
    ensures IntText(n) != "" && (forall c <- IntText(n) :: NumberChar(c))
    ensures NumberOf(IntText(n)) == Int(n) && (IsDigit(IntText(n)[0]) || IntText(n)[0] == '-')
  {
    var digits := Digits(if n < 0 then -n else n);
    DigitsBack(if n < 0 then -n else n);
    assert digits[0] in digits;
    NoPoint(IntText(n));
    if n < 0 {
      assert IntText(n)[1..] == digits;
    }
  }

  // ---------- values ----------

  /** The text of a value, with `gap` after every comma and colon. */
  function Print(v: Json, gap: string): string
    decreases v, 0
  {
    match v
    case Null => "null"
    case Bool(b) => if b then "true" else "false"
    case Int(n) => IntText(n)
    case Float(text) => text
    case Str(s) => Quoted(s)
    case Arr(items) => "[" + PrintItems(items, gap) + "]"
    case Obj(members) => "{" + PrintMembers(members, gap) + "}"
  }

  function PrintItems(items: seq<Json>, gap: string): string
    decreases items, 1
  {
    if items == [] then ""
    else if |items| == 1 then Print(items[0], gap)
    else Print(items[0], gap) + "," + gap + PrintItems(items[1..], gap)
  }

  function PrintMembers(members: seq<Member>, gap: string): string
    decreases members, 1
  {
    if members == [] then ""
    else
      var first := Quoted(members[0].key) + ":" + gap + Print(members[0].value, gap);
      if |members| == 1 then first else first + "," + gap + PrintMembers(members[1..], gap)
  }

  function Skip(s: string): (r: string)
    ensures |r| <= |s|
  {
    if s != "" && IsSpace(s[0]) then Skip(s[1..]) else s
  }

  function ParseWord(s: string, word: string, v: Json): (r: Parsed<Json>)
    requires word != ""
    ensures r.Done? ==> |r.rest| < |s|
  {
    if |word| <= |s| && s[..|word|] == word then Done(v, s[|word|..]) else Failed
  }

  function ParseValue(s: string): (r: Parsed<Json>)
    ensures r.Done? ==> |r.rest| < |s|
    decreases |s|, 0
  {
    if s == "" then Failed
    else if s[0] == 'n' then ParseWord(s, "null", Null)
    else if s[0] == 't' then ParseWord(s, "true", Bool(true))
    else if s[0] == 'f' then ParseWord(s, "false", Bool(false))
    else if s[0] == '"' then
      var p := ScanString(s[1..]);
      if p.Done? then Done(Str(p.value), p.rest) else Failed
    else if s[0] == '[' then
      var t := Skip(s[1..]);
      if t != "" && t[0] == ']' then Done(Arr([]), t[1..])
      else
        var p := ParseItems(t);
        if p.Done? then Done(Arr(p.value), p.rest) else Failed
    else if s[0] == '{' then
      var t := Skip(s[1..]);
      if t != "" && t[0] == '}' then Done(Obj([]), t[1..])
      else
        var p := ParseMembers(t);
        if p.Done? then Done(Obj(p.value), p.rest) else Failed
    else if IsDigit(s[0]) || s[0] == '-' then
      var n := NumberLength(s);
      Done(NumberOf(s[..n]), s[n..])
    else Failed
  }

  /** Items up to and including the closing bracket. */
  function ParseItems(s: string): (r: Parsed<seq<Json>>)
    ensures r.Done? ==> |r.rest| < |s|
    decreases |s|, 1
  {
    var first := ParseValue(s);
    if first.Failed? then Failed else ItemsAfter(first.value, Skip(first.rest))
  }

  /** After an item, a closing bracket or a comma and more items. */
  function ItemsAfter(first: Json, t: string): (r: Parsed<seq<Json>>)
    ensures r.Done? ==> |r.rest| < |t|
    decreases |t|, 2
  {
    if t == "" then Failed
    else if t[0] == ']' then Done([first], t[1..])
    else if t[0] != ',' then Failed
    else
      var others := ParseItems(Skip(t[1..]));
      if others.Done? then Done([first] + others.value, others.rest) else Failed
  }

  function ParseMember(s: string): (r: Parsed<Member>)
    ensures r.Done? ==> |r.rest| < |s|
    decreases |s|, 1
  {
    if s == "" || s[0] != '"' then Failed
    else
      var key := ScanString(s[1..]);
      if key.Failed? then Failed
      else
        var t := Skip(key.rest);
        if t == "" || t[0] != ':' then Failed
        else
          var value := ParseValue(Skip(t[1..]));
          if value.Failed? then Failed else Done(Member(key.value, value.value), value.rest)
  }

  /** Members up to and including the closing brace. */
  function ParseMembers(s: string): (r: Parsed<seq<Member>>)
    ensures r.Done? ==> |r.rest| < |s|
    decreases |s|, 2
  {
    var first := ParseMember(s);
    if first.Failed? then Failed else MembersAfter(first.value, Skip(first.rest))
  }

  function MembersAfter(first: Member, t: string): (r: Parsed<seq<Member>>)
    ensures r.Done? ==> |r.rest| < |t|
    decreases |t|, 3
  {
    if t == "" then Failed
    else if t[0] == '}' then Done([first], t[1..])
    else if t[0] != ',' then Failed
    else
      var others := ParseMembers(Skip(t[1..]));
      if others.Done? then Done([first] + others.value, others.rest) else Failed
  }

  // ---------- the round trip ----------

  predicate Gap(gap: string) {
    forall c <- gap :: c == ' '
  }

  lemma {:induction false} SkipGap(gap: string, rest: string)
    requires Gap(gap)
    ensures Skip(gap + rest) == Skip(rest)
  {
    if gap == "" {
      assert gap + rest == rest;
    } else {
      assert (gap + rest)[1..] == gap[1..] + rest;
      assert gap[0] in gap && forall c <- gap[1..] :: c in gap;
      SkipGap(gap[1..], rest);
    }
  }

  /** The first character of a printed value is never a space or a closing bracket. */
  lemma PrintHead(v: Json, gap: string)
    requires WellFormed(v)
    ensures Print(v, gap) != "" && !IsSpace(Print(v, gap)[0]) && Print(v, gap)[0] != ']'
  {
    if v.Int? {
      IntTextBack(v.n);
    }
  }

  lemma Reassociate<T>(a: seq<T>, b: seq<T>, c: seq<T>, d: seq<T>, e: seq<T>)
    ensures a + b + c + d + e == a + (b + (c + (d + e)))
    ensures a + b + c + d + e == a + b + c + (d + e)
  {
  }

  // One step of the parser for each shape of value.

  lemma NumberRead(text: string, rest: string)
    requires text != "" && (IsDigit(text[0]) || text[0] == '-') && (forall c <- text :: NumberChar(c)) && Ends(rest)
    ensures ParseValue(text + rest) == Done(NumberOf(text), rest)
  {
    NumberSpan(text, rest);
    var s := text + rest;
    assert s[..|text|] == text && s[|text|..] == rest;
    assert s[0] == text[0];
  }

  lemma QuotedRead(str: string, rest: string)
    ensures var s := Quoted(str) + rest; s != "" && s[0] == '"' && ScanString(s[1..]) == Done(str, rest)
  {
    var s := Quoted(str) + rest;
    assert s[1..] == Escape(str) + "\"" + rest;
    ScanQuoted(str, rest);
  }

  lemma StringRead(str: string, rest: string)
    ensures ParseValue(Quoted(str) + rest) == Done(Str(str), rest)
  {
    var s := Quoted(str) + rest;
    assert s[0] == '"' && ScanString(s[1..]) == Done(str, rest) by {
      QuotedRead(str, rest);
    }
  }

  lemma ArrayRead(t: string)
    requires t != "" && !IsSpace(t[0])
    ensures t[0] == ']' ==> ParseValue("[" + t) == Done(Arr([]), t[1..])
    ensures t[0] != ']' && ParseItems(t).Done? ==>
              ParseValue("[" + t) == Done(Arr(ParseItems(t).value), ParseItems(t).rest)
  {
    var s := "[" + t;
    assert s[0] == '[' && s[1..] == t;
  }

  lemma ObjectRead(t: string)
    requires t != "" && !IsSpace(t[0])
    ensures t[0] == '}' ==> ParseValue("{" + t) == Done(Obj([]), t[1..])
    ensures t[0] != '}' && ParseMembers(t).Done? ==>
              ParseValue("{" + t) == Done(Obj(ParseMembers(t).value), ParseMembers(t).rest)
  {
    var s := "{" + t;
    assert s[0] == '{' && s[1..] == t;
  }

  lemma LastItem(s: string, v: Json, rest: string)
    requires ParseValue(s) == Done(v, "]" + rest)
    ensures ParseItems(s) == Done([v], rest)
  {
  }

  lemma MoreItems(s: string, v: Json, gap: string, t: string)
    requires ParseValue(s) == Done(v, "," + gap + t) && Gap(gap) && t != "" && !IsSpace(t[0])
    ensures ParseItems(t).Done? ==> ParseItems(s) == Done([v] + ParseItems(t).value, ParseItems(t).rest)
  {
    var u := "," + gap + t;
    assert Skip(u) == u && u[1..] == gap + t;
    SkipGap(gap, t);
    assert Skip(ParseValue(s).rest) == u && u[0] == ',' && Skip(u[1..]) == t;
  }

  lemma ColonValueRead(v: Json, gap: string, text: string, rest: string)
    requires Gap(gap) && text != "" && !IsSpace(text[0]) && ParseValue(text + rest) == Done(v, rest)
    ensures var t := ":" + (gap + (text + rest)); t[0] == ':' && ParseValue(Skip(t[1..])) == Done(v, rest)
  {
    SkipGap(gap, text + rest);
    assert (":" + (gap + (text + rest)))[1..] == gap + (text + rest);
  }

  lemma KeyRead(m: Member, tail: string, rest: string)
    requires tail != "" && tail[0] == ':' && ParseValue(Skip(tail[1..])) == Done(m.value, rest)
    ensures ParseMember(Quoted(m.key) + tail) == Done(m, rest)
  {
    var s := Quoted(m.key) + tail;
    assert s != "" && s[0] == '"' && ScanString(s[1..]) == Done(m.key, tail) by {
      QuotedRead(m.key, tail);
    }
    assert Skip(tail) == tail;
  }

  lemma MemberRead(m: Member, gap: string, text: string, rest: string)
    requires Gap(gap) && text != "" && !IsSpace(text[0]) && ParseValue(text + rest) == Done(m.value, rest)
    ensures ParseMember(Quoted(m.key) + ":" + gap + text + rest) == Done(m, rest)
  {
    var tail := ":" + (gap + (text + rest));
    ColonValueRead(m.value, gap, text, rest);
    KeyRead(m, tail, rest);
    Reassociate(Quoted(m.key), ":", gap, text, rest);
  }

  lemma LastMember(s: string, m: Member, rest: string)
    requires ParseMember(s) == Done(m, "}" + rest)
    ensures ParseMembers(s) == Done([m], rest)
  {
  }

  lemma MoreMembers(s: string, m: Member, gap: string, t: string)
    requires ParseMember(s) == Done(m, "," + gap + t) && Gap(gap) && t != "" && !IsSpace(t[0])
    ensures ParseMembers(t).Done? ==> ParseMembers(s) == Done([m] + ParseMembers(t).value, ParseMembers(t).rest)
  {
    var u := "," + gap + t;
    assert Skip(u) == u && u[1..] == gap + t;
    SkipGap(gap, t);
    assert Skip(u[1..]) == t && u[0] == ',';
  }

  /** Parsing what was printed gives the value back and leaves the rest of the text. */
  lemma {:induction false} ParsePrinted(v: Json, gap: string, rest: string)
    requires WellFormed(v) && Gap(gap) && Ends(rest)
    ensures ParseValue(Print(v, gap) + rest) == Done(v, rest)
    decreases v, 0
  {
    match v
    case Null => WordRead("null", rest);
    case Bool(b) => WordRead(if b then "true" else "false", rest);
    case Int(n) =>
      IntTextBack(n);
      NumberRead(IntText(n), rest);
    case Float(text) => NumberRead(text, rest);
    case Str(str) => StringRead(str, rest);
    case Arr(items) =>
      if items != [] {
        ParseItemsPrinted(items, gap, rest);
      }
      ArrayPrinted(items, gap, rest);
    case Obj(members) =>
      if members != [] {
        ParseMembersPrinted(members, gap, rest);
      }
      ObjectPrinted(members, gap, rest);
  }

  lemma ArrayPrinted(items: seq<Json>, gap: string, rest: string)
    requires forall i <- items :: WellFormed(i)
    requires items != [] ==> ParseItems(PrintItems(items, gap) + "]" + rest) == Done(items, rest)
    ensures ParseValue("[" + PrintItems(items, gap) + "]" + rest) == Done(Arr(items), rest)
  {
    var t := PrintItems(items, gap) + "]" + rest;
    assert "[" + PrintItems(items, gap) + "]" + rest == "[" + t;
    if items == [] {
      assert t[0] == ']' && t[1..] == rest;
    } else {
      PrintHead(items[0], gap);
      assert t[0] == Print(items[0], gap)[0];
    }
    ArrayRead(t);
  }

  lemma ObjectPrinted(members: seq<Member>, gap: string, rest: string)
    requires members != [] ==> ParseMembers(PrintMembers(members, gap) + "}" + rest) == Done(members, rest)
    ensures ParseValue("{" + PrintMembers(members, gap) + "}" + rest) == Done(Obj(members), rest)
  {
    var t := PrintMembers(members, gap) + "}" + rest;
    assert "{" + PrintMembers(members, gap) + "}" + rest == "{" + t;
    if members == [] {
      assert t[0] == '}' && t[1..] == rest;
    } else {
      assert t[0] == '"';
    }
    ObjectRead(t);
  }

  lemma WordRead(word: string, rest: string)
    requires word == "null" || word == "true" || word == "false"
    ensures ParseValue(word + rest) == Done(if word == "null" then Null else Bool(word == "true"), rest)
  {
  }

  lemma ItemsText(items: seq<Json>, gap: string, rest: string)
    requires items != []
    ensures |items| == 1 ==> PrintItems(items, gap) + "]" + rest == Print(items[0], gap) + ("]" + rest)
    ensures |items| > 1 ==>
              PrintItems(items, gap) + "]" + rest
              == Print(items[0], gap) + ("," + gap + (PrintItems(items[1..], gap) + "]" + rest))
  {
    if |items| > 1 {
      Regroup(Print(items[0], gap), ",", gap, PrintItems(items[1..], gap), "]", rest);
    }
  }

  lemma ItemsHead(items: seq<Json>, gap: string, rest: string)
    requires items != [] && WellFormed(items[0])
    ensures var t := PrintItems(items, gap) + "]" + rest; t != "" && !IsSpace(t[0])
  {
    PrintHead(items[0], gap);
  }

  lemma {:induction false} OneItemPrinted(item: Json, gap: string, rest: string)
    requires WellFormed(item) && Gap(gap)
    ensures ParseItems(PrintItems([item], gap) + "]" + rest) == Done([item], rest)
    decreases item, 1
  {
    ItemsText([item], gap, rest);
    ParsePrinted(item, gap, "]" + rest);
    LastItem(PrintItems([item], gap) + "]" + rest, item, rest);
  }

  lemma {:induction false} FirstItemRead(items: seq<Json>, gap: string, others: string)
    requires items != [] && (forall i <- items :: WellFormed(i)) && Gap(gap)
    ensures ParseValue(Print(items[0], gap) + ("," + gap + others)) == Done(items[0], "," + gap + others)
    decreases items, 0
  {
    ParsePrinted(items[0], gap, "," + gap + others);
  }

  lemma {:induction false} ManyItemsPrinted(items: seq<Json>, gap: string, rest: string)
    requires |items| > 1 && (forall i <- items :: WellFormed(i)) && Gap(gap)
    ensures ParseItems(PrintItems(items, gap) + "]" + rest) == Done(items, rest)
    decreases items, 1
  {
    var others := PrintItems(items[1..], gap) + "]" + rest;
    var s := Print(items[0], gap) + ("," + gap + others);
    FirstItemRead(items, gap, others);
    assert ParseItems(s) == Done([items[0]] + items[1..], rest) by {
      ParseItemsPrinted(items[1..], gap, rest);
      MoreItems(s, items[0], gap, others);
    }
    assert PrintItems(items, gap) + "]" + rest == s by {
      ItemsText(items, gap, rest);
    }
    assert items == [items[0]] + items[1..];
  }

  lemma {:induction false} ParseItemsPrinted(items: seq<Json>, gap: string, rest: string)
    requires items != [] && (forall i <- items :: WellFormed(i)) && Gap(gap)
    ensures ParseItems(PrintItems(items, gap) + "]" + rest) == Done(items, rest)
    ensures var t := PrintItems(items, gap) + "]" + rest; t != "" && !IsSpace(t[0])
    decreases items, 2
  {
    ItemsHead(items, gap, rest);
    if |items| == 1 {
      assert items == [items[0]];
      OneItemPrinted(items[0], gap, rest);
    } else {
      ManyItemsPrinted(items, gap, rest);
    }
  }

  lemma {:induction false} OneMemberPrinted(m: Member, gap: string, rest: string)
    requires WellFormed(m.value) && Gap(gap)
    ensures ParseMembers(PrintMembers([m], gap) + "}" + rest) == Done([m], rest)
    decreases m.value, 1
  {
    var text := Print(m.value, gap);
    PrintHead(m.value, gap);
    ParsePrinted(m.value, gap, "}" + rest);
    Reassociate(Quoted(m.key) + ":", gap, text, "}", rest);
    MemberRead(m, gap, text, "}" + rest);
    LastMember(PrintMembers([m], gap) + "}" + rest, m, rest);
  }

  lemma MembersHead(members: seq<Member>, gap: string, rest: string)
    requires members != []
    ensures var t := PrintMembers(members, gap) + "}" + rest; t != "" && t[0] == '"'
  {
  }

  lemma {:induction false} FirstMemberRead(members: seq<Member>, gap: string, others: string)
    requires members != [] && (forall m <- members :: WellFormed(m.value)) && Gap(gap)
    ensures var m := members[0];
            ParseMember(Quoted(m.key) + ":" + gap + Print(m.value, gap) + ("," + gap + others))
            == Done(m, "," + gap + others)
    decreases members, 0
  {
    var m := members[0];
    PrintHead(m.value, gap);
    ParsePrinted(m.value, gap, "," + gap + others);
    MemberRead(m, gap, Print(m.value, gap), "," + gap + others);
  }

  lemma {:induction false} ManyMembersPrinted(members: seq<Member>, gap: string, rest: string)
    requires |members| > 1 && (forall m <- members :: WellFormed(m.value)) && Gap(gap)
    ensures ParseMembers(PrintMembers(members, gap) + "}" + rest) == Done(members, rest)
    decreases members, 1
  {
    var m := members[0];
    var others := PrintMembers(members[1..], gap) + "}" + rest;
    var s := Quoted(m.key) + ":" + gap + Print(m.value, gap) + ("," + gap + others);
    FirstMemberRead(members, gap, others);
    assert ParseMembers(s) == Done([m] + members[1..], rest) by {
      ParseMembersPrinted(members[1..], gap, rest);
      MoreMembers(s, m, gap, others);
    }
    assert PrintMembers(members, gap) + "}" + rest == s by {
      MembersText(members, gap, rest);
    }
    assert members == [m] + members[1..];
  }

  lemma {:induction false} ParseMembersPrinted(members: seq<Member>, gap: string, rest: string)
    requires members != [] && (forall m <- members :: WellFormed(m.value)) && Gap(gap)
    ensures ParseMembers(PrintMembers(members, gap) + "}" + rest) == Done(members, rest)
    ensures var t := PrintMembers(members, gap) + "}" + rest; t != "" && t[0] == '"'
    decreases members, 2
  {
    MembersHead(members, gap, rest);
    if |members| == 1 {
      assert members == [members[0]];
      OneMemberPrinted(members[0], gap, rest);
    } else {
      ManyMembersPrinted(members, gap, rest);
    }
  }

  lemma MembersText(members: seq<Member>, gap: string, rest: string)
    requires |members| > 1
    ensures PrintMembers(members, gap) + "}" + rest
         == Quoted(members[0].key) + ":" + gap + Print(members[0].value, gap)
            + ("," + gap + (PrintMembers(members[1..], gap) + "}" + rest))
  {
    var first := Quoted(members[0].key) + ":" + gap + Print(members[0].value, gap);
    assert PrintMembers(members, gap) == first + "," + gap + PrintMembers(members[1..], gap);
    Regroup(first, ",", gap, PrintMembers(members[1..], gap), "}", rest);
  }

  lemma Regroup<T>(a: seq<T>, b: seq<T>, c: seq<T>, d: seq<T>, e: seq<T>, f: seq<T>)
    ensures a + b + c + d + e + f == a + (b + c + (d + e + f))
  {
  }
}
