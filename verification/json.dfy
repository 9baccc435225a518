/** The JSON of documents: how it is printed and how it is read (RFC 8259).  Text is a string of bytes. */
module Json {
  import opened Options
  import opened StringUtil
  import opened Numerals

  datatype Member = Member(key: string, value: Json)

  datatype Json =
    | Str(s: string)
    | Num(token: string)
    | Bool(b: bool)
    | Null
    | Obj(members: seq<Member>)
    | Arr(items: seq<Json>)

  // ---------------------------------------------------------------- numbers (section 6)

  predicate NumChar(c: char) {
    IsDigit(c) || c == '-' || c == '+' || c == '.' || c == 'e' || c == 'E'
  }

  function SkipDigits(s: string): (r: string)
    ensures |r| <= |s|
  {
    if s != [] && IsDigit(s[0]) then SkipDigits(s[1..]) else s
  }

  predicate StartsDigit(s: string) {
    s != [] && IsDigit(s[0])
  }

  predicate IsExponent(s: string) {
    s == [] ||
    ((s[0] == 'e' || s[0] == 'E') &&
     var t := if |s| > 1 && (s[1] == '+' || s[1] == '-') then s[2..] else s[1..];
     StartsDigit(t) && SkipDigits(t) == [])
  }

  predicate IsFraction(s: string) {
    if s != [] && s[0] == '.' then StartsDigit(s[1..]) && IsExponent(SkipDigits(s[1..])) else IsExponent(s)
  }

  predicate IsNumber(s: string) {
    && s != [] && (forall i :: 0 <= i < |s| ==> NumChar(s[i]))
    && var t := if s[0] == '-' then s[1..] else s;
       StartsDigit(t) && IsFraction(if t[0] == '0' then t[1..] else SkipDigits(t))
  }

  lemma {:induction false} AllDigits(s: string)
    requires forall i :: 0 <= i < |s| ==> IsDigit(s[i])
    ensures SkipDigits(s) == []
  {
    if s != [] { AllDigits(s[1..]); }
  }

  lemma {:induction false} IntIsNumber(i: int)
    ensures IsNumber(IntText(i))
  {
    var d := Decimal(if i < 0 then -i else i);
    AllDigits(d);
    assert IntText(i) == d || (IntText(i) == "-" + d && IntText(i)[1..] == d);
    assert d[0] == '0' ==> d[1..] == [];
  }

  // ---------------------------------------------------------------- printing

  /** Section 7: only the quotation mark, the backslash and the control characters are escaped. */
  function Escape(c: char): string {
    if c == '"' then "\\\""
    else if c == '\\' then "\\\\"
    else if c == '\U{0008}' then "\\b"
    else if c == '\U{000C}' then "\\f"
    else if c == '\n' then "\\n"
    else if c == '\r' then "\\r"
    else if c == '\t' then "\\t"
    else if c < ' ' then "\\u00" + [HexDigit(c as nat / 16), HexDigit(c as nat % 16)]
    else [c]
  }

  function Escaped(s: string): string {
    if s == [] then [] else Escape(s[0]) + Escaped(s[1..])
  }

  function PrintStr(s: string): string {
    "\"" + Escaped(s) + "\""
  }

  function Print(j: Json): string
    decreases j
  {
    match j
    case Str(s) => PrintStr(s)
    case Num(token) => token
    case Bool(b) => if b then "true" else "false"
    case Null => "null"
    case Obj(members) => "{" + PrintMembers(members) + "}"
    case Arr(items) => "[" + PrintItems(items) + "]"
  }

  function PrintMember(m: Member): string
    decreases m
  {
    PrintStr(m.key) + ":" + Print(m.value)
  }

  function PrintMembers(ms: seq<Member>): string
    decreases ms
  {
    if ms == [] then []
    else PrintMember(ms[0]) + (if |ms| == 1 then [] else "," + PrintMembers(ms[1..]))
  }

  function PrintItems(js: seq<Json>): string
    decreases js
  {
    if js == [] then []
    else Print(js[0]) + (if |js| == 1 then [] else "," + PrintItems(js[1..]))
  }

  // ---------------------------------------------------------------- reading

  datatype Parsed<+T> = Ok(value: T, rest: string) | Error

  function SkipWs(s: string): (r: string)
    ensures |r| <= |s|
  {
    if s != [] && (s[0] == ' ' || s[0] == '\n' || s[0] == '\r' || s[0] == '\t') then SkipWs(s[1..]) else s
  }

  predicate IsHexDigit(c: char) {
    '0' <= c <= '9' || 'A' <= c <= 'F' || 'a' <= c <= 'f'
  }

  function HexValue(c: char): (v: nat)
    requires IsHexDigit(c)
    ensures v < 16
  {
    if c <= '9' then (c - '0') as nat else if c <= 'F' then (c - 'A') as nat + 10 else (c - 'a') as nat + 10
  }

  /** Four hexadecimal digits. */
  function Hex4(s: string): (r: Parsed<nat>)
    ensures r.Ok? ==> |s| >= 4 && r.rest == s[4..] && r.value < 0x10000
  {
    if |s| >= 4 && IsHexDigit(s[0]) && IsHexDigit(s[1]) && IsHexDigit(s[2]) && IsHexDigit(s[3])
    then Ok(HexValue(s[0]) * 4096 + HexValue(s[1]) * 256 + HexValue(s[2]) * 16 + HexValue(s[3]), s[4..])
    else Error
  }

  /** The bytes of a code point in UTF-8. */
  function Utf8(u: nat): string
    requires u < 0x110000
  {
    if u < 0x80 then [u as char]
    else if u < 0x800 then [(0xC0 + u / 0x40) as char, (0x80 + u % 0x40) as char]
    else if u < 0x10000 then
      [(0xE0 + u / 0x1000) as char, (0x80 + u / 0x40 % 0x40) as char, (0x80 + u % 0x40) as char]
    else
      [(0xF0 + u / 0x40000) as char, (0x80 + u / 0x1000 % 0x40) as char,
       (0x80 + u / 0x40 % 0x40) as char, (0x80 + u % 0x40) as char]
  }

  /** What follows a backslash: the bytes it stands for. */
  function ParseEscape(s: string): (r: Parsed<string>)
    ensures r.Ok? ==> |r.rest| < |s|
  {
    if s == [] then Error
    else if s[0] == '"' || s[0] == '\\' || s[0] == '/' then Ok([s[0]], s[1..])
    else if s[0] == 'b' then Ok(['\U{0008}'], s[1..])
    else if s[0] == 'f' then Ok(['\U{000C}'], s[1..])
    else if s[0] == 'n' then Ok("\n", s[1..])
    else if s[0] == 'r' then Ok("\r", s[1..])
    else if s[0] == 't' then Ok("\t", s[1..])
    else if s[0] == 'u' then
      match Hex4(s[1..])
      case Error => Error
      case Ok(u, rest) =>
        if u < 0xD800 || u >= 0xE000 then Ok(Utf8(u), rest)
        else if u >= 0xDC00 || |rest| < 2 || rest[0] != '\\' || rest[1] != 'u' then Error
        else
          match Hex4(rest[2..])
          case Error => Error
          case Ok(v, rest') =>
            if 0xDC00 <= v < 0xE000
            then Ok(Utf8(0x10000 + (u - 0xD800) * 0x400 + (v - 0xDC00)), rest')
            else Error
    else Error
  }

  /** What follows an opening quotation mark. */
  function ParseStr(s: string): (r: Parsed<string>)
    ensures r.Ok? ==> |r.rest| < |s|
    decreases |s|
  {
    if s == [] then Error
    else if s[0] == '"' then Ok([], s[1..])
    else if s[0] == '\\' then
      match ParseEscape(s[1..])
      case Error => Error
      case Ok(c, rest) =>
        (match ParseStr(rest)
         case Error => Error
         case Ok(t, rest') => Ok(c + t, rest'))
    else if s[0] < ' ' then Error
    else
      match ParseStr(s[1..])
      case Error => Error
      case Ok(t, rest) => Ok([s[0]] + t, rest)
  }

  /** How many characters at the beginning of `s` can be part of a number. */
  function NumLength(s: string): (n: nat)
    ensures n <= |s| && forall i :: 0 <= i < n ==> NumChar(s[i])
    ensures n < |s| ==> !NumChar(s[n])
  {
    if s != [] && NumChar(s[0]) then 1 + NumLength(s[1..]) else 0
  }

  function ParseNum(s: string): (r: Parsed<Json>)
    ensures r.Ok? ==> |r.rest| < |s|
  {
    var n := NumLength(s);
    if IsNumber(s[..n]) then Ok(Num(s[..n]), s[n..]) else Error
  }

  function ParseWord(s: string, word: string, j: Json): (r: Parsed<Json>)
    ensures r.Ok? && word != [] ==> |r.rest| < |s|
  {
    if word <= s then Ok(j, s[|word|..]) else Error
  }

  function ParseValue(s: string): (r: Parsed<Json>)
    ensures r.Ok? ==> |r.rest| < |s|
    decreases |s|, 2
  {
    var t := SkipWs(s);
    if t == [] then Error
    else if t[0] == '"' then
      (match ParseStr(t[1..])
       case Error => Error
       case Ok(v, rest) => Ok(Str(v), rest))
    else if t[0] == '{' then
      (match ParseMembers(t[1..], true)
       case Error => Error
       case Ok(ms, rest) => Ok(Obj(ms), rest))
    else if t[0] == '[' then
      (match ParseItems(t[1..], true)
       case Error => Error
       case Ok(js, rest) => Ok(Arr(js), rest))
    else if t[0] == 't' then ParseWord(t, "true", Bool(true))
    else if t[0] == 'f' then ParseWord(t, "false", Bool(false))
    else if t[0] == 'n' then ParseWord(t, "null", Null)
    else ParseNum(t)
  }

  /** One member of an object, from its opening quotation mark. */
  function ParseMember(s: string): (r: Parsed<Member>)
    ensures r.Ok? ==> |r.rest| < |s|
    decreases |s|, 0
  {
    if s == [] || s[0] != '"' then Error
    else
      match ParseStr(s[1..])
      case Error => Error
      case Ok(key, afterKey) =>
        var u := SkipWs(afterKey);
        if u == [] || u[0] != ':' then Error
        else
          match ParseValue(u[1..])
          case Error => Error
          case Ok(value, rest) => Ok(Member(key, value), rest)
  }

  /** What follows an opening brace, or a comma between members. */
  function ParseMembers(s: string, first: bool): (r: Parsed<seq<Member>>)
    ensures r.Ok? ==> |r.rest| < |s|
    decreases |s|, 1
  {
    var t := SkipWs(s);
    if first && t != [] && t[0] == '}' then Ok([], t[1..])
    else
      match ParseMember(t)
      case Error => Error
      case Ok(m, afterMember) =>
        var w := SkipWs(afterMember);
        if w != [] && w[0] == '}' then Ok([m], w[1..])
        else if w == [] || w[0] != ',' then Error
        else
          match ParseMembers(w[1..], false)
          case Error => Error
          case Ok(ms, rest) => Ok([m] + ms, rest)
  }

  function ParseItems(s: string, first: bool): (r: Parsed<seq<Json>>)
    ensures r.Ok? ==> |r.rest| < |s|
    decreases |s|, 3
  {
    var t := SkipWs(s);
    if first && t != [] && t[0] == ']' then Ok([], t[1..])
    else
      match ParseValue(s)
      case Error => Error
      case Ok(value, afterValue) =>
        var w := SkipWs(afterValue);
        if w != [] && w[0] == ']' then Ok([value], w[1..])
        else if w == [] || w[0] != ',' then Error
        else
          match ParseItems(w[1..], false)
          case Error => Error
          case Ok(js, rest) => Ok([value] + js, rest)
  }

  /** Reading a whole text, up to its first NUL. */
  function Parse(s: string): Option<Json> {
    match ParseValue(CStr(s))
    case Error => None
    case Ok(j, rest) => if SkipWs(rest) == [] then Some(j) else None
  }

  // ---------------------------------------------------------------- values

  /** Every number in the value is one. */
  ghost predicate WellFormed(j: Json)
    decreases j
  {
    && (j.Num? ==> IsNumber(j.token))
    && (j.Obj? ==> forall i :: 0 <= i < |j.members| ==> WellFormed(j.members[i].value))
    && (j.Arr? ==> forall i :: 0 <= i < |j.items| ==> WellFormed(j.items[i]))
  }

  lemma {:induction false} EscapedNulFree(s: string)
    ensures NulFree(Escaped(s))
  {
    if s != [] { EscapedNulFree(s[1..]); }
  }

  /** What is printed contains no NUL. */
  lemma {:induction false} PrintNulFree(j: Json)
    requires WellFormed(j)
    ensures NulFree(Print(j))
    decreases j, 1
  {
    match j
    case Str(s) => EscapedNulFree(s);
    case Num(_) =>
    case Bool(_) =>
    case Null =>
    case Obj(members) => MembersNulFree(members);
    case Arr(items) => ItemsNulFree(items);
  }

  lemma {:induction false} MembersNulFree(ms: seq<Member>)
    requires forall i :: 0 <= i < |ms| ==> WellFormed(ms[i].value)
    ensures NulFree(PrintMembers(ms))
    decreases ms, 0
  {
    if ms != [] {
      EscapedNulFree(ms[0].key);
      PrintNulFree(ms[0].value);
      MembersNulFree(ms[1..]);
    }
  }

  lemma {:induction false} ItemsNulFree(js: seq<Json>)
    requires forall i :: 0 <= i < |js| ==> WellFormed(js[i])
    ensures NulFree(PrintItems(js))
    decreases js, 0
  {
    if js != [] {
      PrintNulFree(js[0]);
      ItemsNulFree(js[1..]);
    }
  }

  /** Every number in a value that was read is one. */
  lemma {:induction false} ParsedNumbers(s: string)
    ensures ParseValue(s).Ok? ==> WellFormed(ParseValue(s).value)
    decreases |s|, 2
  {
    var t := SkipWs(s);
    if t != [] && t[0] == '{' {
      ParsedMembers(t[1..], true);
    } else if t != [] && t[0] == '[' {
      ParsedItems(t[1..], true);
    }
  }

  lemma {:induction false} ParsedMember(s: string)
    ensures ParseMember(s).Ok? ==> WellFormed(ParseMember(s).value.value)
    decreases |s|, 0
  {
    if s != [] && s[0] == '"' && ParseStr(s[1..]).Ok? {
      var u := SkipWs(ParseStr(s[1..]).rest);
      if u != [] && u[0] == ':' { ParsedNumbers(u[1..]); }
    }
  }

  lemma {:induction false} ParsedMembers(s: string, first: bool)
    ensures var r := ParseMembers(s, first);
            r.Ok? ==> forall i :: 0 <= i < |r.value| ==> WellFormed(r.value[i].value)
    decreases |s|, 1
  {
    var t := SkipWs(s);
    ParsedMember(t);
    if ParseMember(t).Ok? {
      var w := SkipWs(ParseMember(t).rest);
      if w != [] { ParsedMembers(w[1..], false); }
    }
  }

  lemma {:induction false} ParsedItems(s: string, first: bool)
    ensures var r := ParseItems(s, first);
            r.Ok? ==> forall i :: 0 <= i < |r.value| ==> WellFormed(r.value[i])
    decreases |s|, 3
  {
    ParsedNumbers(s);
    if ParseValue(s).Ok? {
      var w := SkipWs(ParseValue(s).rest);
      if w != [] { ParsedItems(w[1..], false); }
    }
  }
}
