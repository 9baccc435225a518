/** The words of JSON (RFC 8259): white space, the spellings of a character, strings, and numbers; and that the reader
    takes exactly these. */
module JsonTokens {
  import opened Numerals
  import opened Json

  // ---------------------------------------------------------------- white space (section 2)

  predicate Ws(w: string) {
    forall c :: c in w ==> c as int in {0x20, 0x09, 0x0A, 0x0D}
  }

  /** No white space comes first. */
  predicate Solid(s: string) {
    s == [] || s[0] as int !in {0x20, 0x09, 0x0A, 0x0D}
  }

  /** White space before anything is skipped, all of it and nothing else. */
  lemma {:induction false} SkipsWs(w: string, s: string)
    requires Ws(w) && Solid(s)
    ensures SkipWs(w + s) == s
  {
    if w == [] {
      assert w + s == s;
    } else {
      assert (w + s)[1..] == w[1..] + s && w[0] in w;
      assert forall c :: c in w[1..] ==> c in w;
      SkipsWs(w[1..], s);
    }
  }

  lemma {:induction false} WsSkipped(s: string) returns (w: string)
    ensures Ws(w) && s == w + SkipWs(s) && Solid(SkipWs(s))
  {
    if SkipWs(s) == s {
      w := [];
    } else {
      w := WsSkipped(s[1..]);
      w := [s[0]] + w;
    }
  }

  // ---------------------------------------------------------------- strings (section 7)

  predicate IsHex4(h: string) {
    |h| == 4 && forall i :: 0 <= i < 4 ==> IsHexDigit(h[i])
  }

  function Hex4Value(h: string): nat
    requires IsHex4(h)
  {
    HexValue(h[0]) * 0x1000 + HexValue(h[1]) * 0x100 + HexValue(h[2]) * 0x10 + HexValue(h[3])
  }

  /** How one character of a string is spelled: as itself, by a letter after a backslash, or by its number in one or
      two groups of four digits. */
  datatype Unit = Plain(c: char) | Short(c: char) | Code(h: string) | Pair(high: string, low: string) {

    predicate Valid() {
      match this
      case Plain(c) => c as int >= 0x20 && c != '"' && c != '\\'
      case Short(c) => c in "\"\\/bfnrt"
      case Code(h) => IsHex4(h) && !(0xD800 <= Hex4Value(h) < 0xE000)
      case Pair(high, low) =>
        IsHex4(high) && IsHex4(low) && 0xD800 <= Hex4Value(high) < 0xDC00 && 0xDC00 <= Hex4Value(low) < 0xE000
    }

    function Text(): string {
      match this
      case Plain(c) => [c]
      case Short(c) => ['\\', c]
      case Code(h) => "\\u" + h
      case Pair(high, low) => "\\u" + high + "\\u" + low
    }

    /** The bytes of the character. */
    function Means(): string
      requires Valid()
    {
      match this
      case Plain(c) => [c]
      case Short(c) =>
        [match c
         case 'b' => 0x08 as char
         case 'f' => 0x0C as char
         case 'n' => 0x0A as char
         case 'r' => 0x0D as char
         case 't' => 0x09 as char
         case _ => c]
      case Code(h) => Utf8(Hex4Value(h))
      case Pair(high, low) => Utf8(0x10000 + (Hex4Value(high) - 0xD800) * 0x400 + (Hex4Value(low) - 0xDC00))
    }
  }

  ghost predicate AllValid(us: seq<Unit>) {
    forall u :: u in us ==> u.Valid()
  }

  function Spelled(us: seq<Unit>): string {
    if us == [] then [] else us[0].Text() + Spelled(us[1..])
  }

  function Meant(us: seq<Unit>): string
    requires AllValid(us)
  {
    if us == [] then [] else us[0].Means() + Meant(us[1..])
  }

  lemma {:induction false} HexParses(h: string, rest: string)
    requires IsHex4(h)
    ensures Hex4(h + rest) == Ok(Hex4Value(h), rest)
  {
    assert (h + rest)[4..] == rest;
  }

  lemma {:induction false} Regrouped(a: string, b: string, c: string, d: string)
    ensures a + b + c + d == a + (b + c + d)
  {
  }

  lemma {:induction false} EscapeText(h: string, rest: string)
    ensures ("\\u" + h + rest)[1..] == "u" + h + rest && ("u" + h + rest)[1..] == h + rest
    ensures ("\\u" + h + rest)[2..] == h + rest
  {
  }

  lemma {:induction false} PairText(high: string, low: string, rest: string)
    ensures ("\\u" + high + "\\u" + low + rest)[1..] == "u" + high + ("\\u" + low + rest)
    ensures ("u" + high + ("\\u" + low + rest))[1..] == high + ("\\u" + low + rest)
    ensures ("\\u" + low + rest)[2..] == low + rest
  {
    EscapeText(low, rest);
    EscapeText(high, "\\u" + low + rest);
    Regrouped("\\u" + high, "\\u", low, rest);
  }

  lemma {:induction false} ShortParses(u: Unit, rest: string)
    requires u.Valid() && u.Short?
    ensures ParseEscape([u.c] + rest) == Ok(u.Means(), rest)
  {
    assert ([u.c] + rest)[1..] == rest;
  }

  lemma {:induction false} CodeParses(u: Unit, rest: string)
    requires u.Valid() && u.Code?
    ensures ParseEscape("u" + u.h + rest) == Ok(u.Means(), rest)
  {
    assert ("u" + u.h + rest)[1..] == u.h + rest;
    HexParses(u.h, rest);
  }

  lemma {:induction false} PairParses(u: Unit, rest: string)
    requires u.Valid() && u.Pair?
    ensures ParseEscape("u" + u.high + ("\\u" + u.low + rest)) == Ok(u.Means(), rest)
  {
    PairText(u.high, u.low, rest);
    HexParses(u.high, "\\u" + u.low + rest);
    HexParses(u.low, rest);
  }

  lemma {:induction false} EscapeParses(u: Unit, rest: string)
    requires u.Valid() && !u.Plain?
    ensures (u.Text() + rest)[0] == '\\' && ParseEscape((u.Text() + rest)[1..]) == Ok(u.Means(), rest)
  {
    match u
    case Short(c) =>
      assert (u.Text() + rest)[1..] == [c] + rest;
      ShortParses(u, rest);
    case Code(h) =>
      assert (u.Text() + rest)[1..] == "u" + h + rest;
      CodeParses(u, rest);
    case Pair(high, low) =>
      PairText(high, low, rest);
      PairParses(u, rest);
  }

  lemma {:induction false} UnitParses(u: Unit, tail: string, s: string, rest: string)
    requires u.Valid() && ParseStr(tail) == Ok(s, rest)
    ensures ParseStr(u.Text() + tail) == Ok(u.Means() + s, rest)
  {
    if u.Plain? {
      assert (u.Text() + tail)[1..] == tail;
    } else {
      EscapeParses(u, tail);
    }
  }

  lemma {:induction false} EndParses(s: string, rest: string)
    requires s == "\"" + rest
    ensures ParseStr(s) == Ok([], rest)
  {
    assert s[1..] == rest;
  }

  lemma {:induction false} Spells(us: seq<Unit>, rest: string, tail: string)
    requires us != [] && tail == Spelled(us[1..]) + "\"" + rest
    ensures Spelled(us) + "\"" + rest == us[0].Text() + tail
  {
  }

  /** A string in any spelling is read as what it stands for. */
  lemma {:induction false} StringParses(us: seq<Unit>, rest: string)
    requires AllValid(us)
    ensures ParseStr(Spelled(us) + "\"" + rest) == Ok(Meant(us), rest)
  {
    if us == [] {
      EndParses(Spelled(us) + "\"" + rest, rest);
    } else {
      var tail := Spelled(us[1..]) + "\"" + rest;
      StringParses(us[1..], rest);
      UnitParses(us[0], tail, Meant(us[1..]), rest);
      Spells(us, rest, tail);
    }
  }

  lemma {:induction false} Hex4Taken(s: string) returns (h: string)
    requires Hex4(s).Ok?
    ensures IsHex4(h) && s == h + Hex4(s).rest && Hex4Value(h) == Hex4(s).value
  {
    h := s[..4];
  }

  lemma {:induction false} EscapeLaid(s: string) returns (u: Unit)
    requires ParseEscape(s).Ok?
    ensures u.Valid() && !u.Plain? && "\\" + s == u.Text() + ParseEscape(s).rest && u.Means() == ParseEscape(s).value
  {
    if s[0] == 'u' {
      u := CodeLaid(s);
    } else {
      u := Short(s[0]);
    }
  }

  lemma {:induction false} PairLaid(s: string, high: string, rest: string) returns (u: Unit)
    requires ParseEscape(s).Ok? && s[0] == 'u' && IsHex4(high) && s[1..] == high + rest
    requires Hex4(s[1..]) == Ok(Hex4Value(high), rest) && 0xD800 <= Hex4Value(high) < 0xE000
    ensures u.Valid() && !u.Plain? && u.Means() == ParseEscape(s).value
    ensures rest == "\\u" + u.low + ParseEscape(s).rest && u.Pair? && u.high == high
  {
    var low := Hex4Taken(rest[2..]);
    u := Pair(high, low);
    assert rest == "\\u" + rest[2..];
  }

  lemma {:induction false} PairGlued(h: string, low: string, rest: string)
    ensures "\\u" + (h + ("\\u" + low + rest)) == "\\u" + h + "\\u" + low + rest
    ensures "\\u" + (h + rest) == "\\u" + h + rest
  {
  }

  lemma {:induction false} CodeLaid(s: string) returns (u: Unit)
    requires ParseEscape(s).Ok? && s[0] == 'u'
    ensures u.Valid() && !u.Plain? && "\\" + s == u.Text() + ParseEscape(s).rest && u.Means() == ParseEscape(s).value
  {
    var h := Hex4Taken(s[1..]);
    var rest := Hex4(s[1..]).rest;
    assert s == "u" + s[1..] && "\\" + s == "\\u" + s[1..];
    PairGlued(h, "", rest);
    if Hex4Value(h) < 0xD800 || Hex4Value(h) >= 0xE000 {
      u := Code(h);
    } else {
      u := PairLaid(s, h, rest);
      PairGlued(h, u.low, ParseEscape(s).rest);
    }
  }

  lemma {:induction false} UnitLaid(s: string) returns (u: Unit, rest: string)
    requires ParseStr(s).Ok? && s[0] != '"'
    ensures u.Valid() && |rest| < |s| && s == u.Text() + rest && ParseStr(rest).Ok?
    ensures ParseStr(s) == Ok(u.Means() + ParseStr(rest).value, ParseStr(rest).rest)
  {
    if s[0] == '\\' {
      u := EscapeLaid(s[1..]);
      rest := ParseEscape(s[1..]).rest;
      assert s == "\\" + s[1..];
    } else {
      u, rest := Plain(s[0]), s[1..];
    }
  }

  lemma {:induction false} UnitFirst(u: Unit, us: seq<Unit>)
    requires u.Valid() && AllValid(us)
    ensures AllValid([u] + us) && Spelled([u] + us) == u.Text() + Spelled(us)
    ensures Meant([u] + us) == u.Means() + Meant(us)
  {
    assert ([u] + us)[1..] == us;
  }

  lemma {:induction false} StringLaid(s: string) returns (us: seq<Unit>)
    requires ParseStr(s).Ok?
    ensures AllValid(us) && s == Spelled(us) + "\"" + ParseStr(s).rest && Meant(us) == ParseStr(s).value
    decreases |s|
  {
    if s[0] == '"' {
      us := [];
    } else {
      var u, rest := UnitLaid(s);
      var more := StringLaid(rest);
      UnitFirst(u, more);
      us := [u] + more;
      FourParts(u.Text(), Spelled(more), "\"", ParseStr(rest).rest);
    }
  }

  // ---------------------------------------------------------------- the characters printed

  function UnitOf(c: char): Unit {
    if c == '"' || c == '\\' then Short(c)
    else if c == 0x08 as char then Short('b')
    else if c == 0x0C as char then Short('f')
    else if c == 0x0A as char then Short('n')
    else if c == 0x0D as char then Short('r')
    else if c == 0x09 as char then Short('t')
    else if c as int < 0x20 then Code("00" + Hex([c]))
    else Plain(c)
  }

  lemma {:induction false} UnitOfIs(c: char)
    ensures UnitOf(c).Valid() && UnitOf(c).Text() == Escape(c) && UnitOf(c).Means() == [c]
  {
    if UnitOf(c).Code? {
      assert Hex([c]) == [HexDigit(c as nat / 16), HexDigit(c as nat % 16)] + Hex([c][1..]);
      assert [c][1..] == [];
      var h := UnitOf(c).h;
      assert h == ['0', '0', HexDigit(c as nat / 16), HexDigit(c as nat % 16)];
    }
  }

  /** A character is printed in the shortest way it can be spelled; where that is by its number, in capital digits. */
  lemma {:induction false} EscapeShortest(c: char)
    ensures UnitOf(c).Valid() && UnitOf(c).Text() == Escape(c) && UnitOf(c).Means() == [c]
    ensures forall u: Unit :: u.Valid() && u.Means() == [c] ==> |Escape(c)| <= |u.Text()|
    ensures |Escape(c)| == 6 ==> Bytes([c]) && Escape(c) == "\\u00" + Hex([c])
  {
    UnitOfIs(c);
  }

  function Spell(s: string): seq<Unit> {
    seq(|s|, i requires 0 <= i < |s| => UnitOf(s[i]))
  }

  lemma {:induction false} SpellIs(s: string)
    ensures AllValid(Spell(s)) && Spelled(Spell(s)) == Escaped(s) && Meant(Spell(s)) == s
  {
    if s != [] {
      SpellIs(s[1..]);
      UnitOfIs(s[0]);
      UnitFirst(UnitOf(s[0]), Spell(s[1..]));
      assert Spell(s) == [UnitOf(s[0])] + Spell(s[1..]);
    }
  }

  // ---------------------------------------------------------------- numbers (section 6)

  predicate AllIn(s: string, chars: string) {
    forall c :: c in s ==> c in chars
  }

  predicate Digits(s: string) {
    s != [] && AllIn(s, "0123456789")
  }

  /** An optional minus, an integer without a leading zero, an optional fraction, an optional exponent. */
  predicate NumberOf(s: string, minus: string, whole: string, frac: string, exp: string) {
    && s == minus + whole + frac + exp
    && (minus == "" || minus == "-")
    && Digits(whole) && (whole[0] == '0' ==> whole == "0")
    && (frac == "" || (frac[0] == '.' && Digits(frac[1..])))
    && Exponent(exp)
  }

  predicate Exponent(s: string) {
    s == "" || (s[0] in "eE" && Digits(if |s| > 1 && s[1] in "+-" then s[2..] else s[1..]))
  }

  lemma {:induction false} DigitChars(c: char)
    ensures IsDigit(c) <==> c in "0123456789"
  {
    if c in "0123456789" { assert IsDigit(c); }
    if IsDigit(c) { assert "0123456789"[c as int - 48] == c; }
  }

  lemma {:induction false} SkipsDigits(d: string, rest: string)
    requires AllIn(d, "0123456789") && !StartsDigit(rest)
    ensures SkipDigits(d + rest) == rest
  {
    if d == [] {
      assert d + rest == rest;
    } else {
      DigitChars(d[0]);
      assert (d + rest)[1..] == d[1..] + rest;
      assert AllIn(d[1..], "0123456789");
      SkipsDigits(d[1..], rest);
    }
  }

  lemma {:induction false} DigitsSkipped(s: string) returns (d: string)
    ensures AllIn(d, "0123456789") && s == d + SkipDigits(s) && !StartsDigit(SkipDigits(s))
    ensures StartsDigit(s) ==> d != [] && d[0] == s[0]
  {
    if StartsDigit(s) {
      DigitChars(s[0]);
      d := DigitsSkipped(s[1..]);
      d := [s[0]] + d;
    } else {
      d := [];
    }
  }

  lemma {:induction false} DigitsIff(s: string)
    ensures Digits(s) <==> StartsDigit(s) && SkipDigits(s) == []
  {
    if Digits(s) {
      SkipsDigits(s, []);
      assert s + [] == s && s[0] in s;
      DigitChars(s[0]);
    }
    var d := DigitsSkipped(s);
    assert d + [] == d;
  }

  lemma {:induction false} ExponentIff(s: string)
    ensures IsExponent(s) <==> Exponent(s)
  {
    if s != [] {
      DigitsIff(if |s| > 1 && s[1] in "+-" then s[2..] else s[1..]);
    }
  }

  lemma {:induction false} FractionIs(frac: string, exp: string)
    requires (frac == "" || (frac[0] == '.' && Digits(frac[1..]))) && Exponent(exp)
    ensures IsFraction(frac + exp)
  {
    ExponentIff(exp);
    assert !StartsDigit(exp);
    if frac != "" {
      assert (frac + exp)[1..] == frac[1..] + exp;
      DigitsIff(frac[1..]);
      SkipsDigits(frac[1..], exp);
    } else {
      assert frac + exp == exp;
    }
  }

  lemma {:induction false} FractionSplit(s: string) returns (frac: string, exp: string)
    requires IsFraction(s)
    ensures s == frac + exp && (frac == "" || (frac[0] == '.' && Digits(frac[1..]))) && Exponent(exp)
  {
    if s != [] && s[0] == '.' {
      var d := DigitsSkipped(s[1..]);
      frac, exp := "." + d, SkipDigits(s[1..]);
      assert frac[1..] == d;
    } else {
      frac, exp := "", s;
    }
    ExponentIff(exp);
  }

  lemma {:induction false} PartsNumChars(s: string, minus: string, whole: string, frac: string, exp: string)
    requires NumberOf(s, minus, whole, frac, exp)
    ensures forall i :: 0 <= i < |s| ==> NumChar(s[i])
  {
    forall c | c in s ensures NumChar(c) {
      DigitChars(c);
      assert c in minus || c in whole || c in frac || c in exp;
      if c in frac { assert c == frac[0] || c in frac[1..]; }
      if c in exp { assert c == exp[0] || c in exp[1..]; }
      if c in exp[|exp|..] {}
      if exp != [] && c in exp[1..] && |exp| > 1 { assert c == exp[1] || c in exp[2..]; }
    }
  }

  lemma {:induction false} NoDigitFirst(frac: string, exp: string)
    requires (frac == "" || frac[0] == '.') && Exponent(exp)
    ensures !StartsDigit(frac + exp)
  {
    if frac == "" { assert frac + exp == exp; }
  }

  lemma {:induction false} WholeIs(whole: string, rest: string)
    requires Digits(whole) && (whole[0] == '0' ==> whole == "0") && !StartsDigit(rest)
    ensures StartsDigit(whole + rest)
    ensures if whole[0] == '0' then (whole + rest)[1..] == rest else SkipDigits(whole + rest) == rest
  {
    DigitChars(whole[0]);
    if whole[0] != '0' { SkipsDigits(whole, rest); }
  }

  lemma {:induction false} NumberIs(s: string, minus: string, whole: string, frac: string, exp: string)
    requires NumberOf(s, minus, whole, frac, exp)
    ensures IsNumber(s)
  {
    PartsNumChars(s, minus, whole, frac, exp);
    assert s == minus + (whole + (frac + exp));
    DigitChars(whole[0]);
    assert whole + (frac + exp) == if s[0] == '-' then s[1..] else s;
    FractionIs(frac, exp);
    NoDigitFirst(frac, exp);
    WholeIs(whole, frac + exp);
  }

  lemma {:induction false} FourParts(a: string, b: string, c: string, d: string)
    ensures a + (b + (c + d)) == a + b + c + d == a + (b + c + d)
  {
  }

  lemma {:induction false} WholeSplit(t: string) returns (whole: string, rest: string)
    requires StartsDigit(t)
    ensures t == whole + rest && Digits(whole) && (whole[0] == '0' ==> whole == "0")
    ensures rest == if t[0] == '0' then t[1..] else SkipDigits(t)
  {
    DigitChars(t[0]);
    if t[0] == '0' {
      whole, rest := "0", t[1..];
    } else {
      whole := DigitsSkipped(t);
      rest := SkipDigits(t);
    }
  }

  lemma {:induction false} NumberSplit(s: string) returns (minus: string, whole: string, frac: string, exp: string)
    requires IsNumber(s)
    ensures NumberOf(s, minus, whole, frac, exp)
  {
    var t := if s[0] == '-' then s[1..] else s;
    minus := if s[0] == '-' then "-" else "";
    assert s == minus + t;
    var rest;
    whole, rest := WholeSplit(t);
    frac, exp := FractionSplit(rest);
    FourParts(minus, whole, frac, exp);
  }

  /** The number tokens are those of the grammar. */
  lemma {:induction false} NumberIff(s: string)
    ensures IsNumber(s) <==> exists minus, whole, frac, exp :: NumberOf(s, minus, whole, frac, exp)
  {
    if IsNumber(s) {
      var minus, whole, frac, exp := NumberSplit(s);
    }
    if minus, whole, frac, exp :| NumberOf(s, minus, whole, frac, exp) {
      NumberIs(s, minus, whole, frac, exp);
    }
  }

  // ---------------------------------------------------------------- digits and bytes

  /** A hexadecimal digit is worth its place among the digits, small or capital. */
  lemma {:induction false} HexDigits(i: nat)
    requires i < 16
    ensures IsHexDigit("0123456789ABCDEF"[i]) && HexValue("0123456789ABCDEF"[i]) == i
    ensures IsHexDigit("0123456789abcdef"[i]) && HexValue("0123456789abcdef"[i]) == i
  {
  }

  predicate Continues(c: char) {
    0x80 <= c as int < 0xC0
  }

  lemma {:induction false} Sixths(u: nat)
    ensures u == u / 0x40 * 0x40 + u % 0x40
    ensures u == u / 0x1000 * 0x1000 + u / 0x40 % 0x40 * 0x40 + u % 0x40
    ensures u == u / 0x40000 * 0x40000 + u / 0x1000 % 0x40 * 0x1000 + u / 0x40 % 0x40 * 0x40 + u % 0x40
  {
    var v, w := u / 0x40, u / 0x1000;
    assert v / 0x40 == w && w / 0x40 == u / 0x40000;
    assert v == v / 0x40 * 0x40 + v % 0x40 && w == w / 0x40 * 0x40 + w % 0x40;
  }

  /** The number that bytes of UTF-8 stand for: the first says how many there are, and each has its share of the bits
      (section 3 of RFC 3629). */
  function CodePoint(s: string): int {
    if |s| == 1 then s[0] as int
    else if |s| == 2 then (s[0] as int - 0xC0) * 0x40 + (s[1] as int - 0x80)
    else if |s| == 3 then (s[0] as int - 0xE0) * 0x1000 + (s[1] as int - 0x80) * 0x40 + (s[2] as int - 0x80)
    else if |s| == 4 then
      (s[0] as int - 0xF0) * 0x40000 + (s[1] as int - 0x80) * 0x1000 + (s[2] as int - 0x80) * 0x40 +
      (s[3] as int - 0x80)
    else -1
  }

  /** They are as few as there can be, and all but the first are marked as such. */
  lemma {:induction false} Utf8Is(u: nat)
    requires u < 0x110000
    ensures CodePoint(Utf8(u)) == u
    ensures |Utf8(u)| == if u < 0x80 then 1 else if u < 0x800 then 2 else if u < 0x10000 then 3 else 4
    ensures forall i :: 0 < i < |Utf8(u)| ==> Continues(Utf8(u)[i])
    ensures Utf8(u)[0] as int < 0x80 || 0xC0 <= Utf8(u)[0] as int < 0xF8
  {
    Sixths(u);
  }
}
