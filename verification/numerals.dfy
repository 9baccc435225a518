/** Numbers as text: the decimal counts that frame messages, the identifiers of documents, and digests in
    hexadecimal. */
module Numerals {

  predicate IsDigit(c: char) {
    '0' <= c <= '9'
  }

  predicate IsCount(s: string) {
    s != [] && forall i :: 0 <= i < |s| ==> IsDigit(s[i])
  }

  function Digit(d: nat): (c: char)
    requires d < 10
    ensures IsDigit(c)
  {
    '0' + d as char
  }

  function DigitValue(c: char): nat
    requires IsDigit(c)
  {
    (c - '0') as nat
  }

  /** std::to_string of a size. */
  function Decimal(n: nat): (s: string)
    ensures IsCount(s)
    ensures s[0] == '0' ==> n == 0 && |s| == 1
  {
    if n < 10 then [Digit(n)] else Decimal(n / 10) + [Digit(n % 10)]
  }

  /** std::stoul of digits. */
  function Stoul(s: string): nat
    requires IsCount(s)
  {
    var last := DigitValue(s[|s|-1]);
    if |s| == 1 then last else Stoul(s[..|s|-1]) * 10 + last
  }

  /** A count is read as it was written. */
  lemma {:induction false} CountRoundTrip(n: nat)
    ensures Stoul(Decimal(n)) == n
  {
    if n >= 10 {
      CountRoundTrip(n / 10);
      var s := Decimal(n);
      assert s[..|s|-1] == Decimal(n / 10);
    }
  }

  lemma {:induction false} DecimalInjective(n: nat, m: nat)
    requires Decimal(n) == Decimal(m)
    ensures n == m
  {
    CountRoundTrip(n);
    CountRoundTrip(m);
  }

  /** Ten times a number and one more digit: its text is that of the number and then the digit. */
  lemma {:induction false} DecimalText(n: nat, d: nat)
    requires d < 10
    ensures Decimal(d) == ["0123456789"[d]]
    ensures n > 0 ==> Decimal(10 * n + d) == Decimal(n) + ["0123456789"[d]]
  {
    assert (10 * n + d) / 10 == n && (10 * n + d) % 10 == d;
  }

  /** A digit more makes a count ten times what it was and the digit. */
  lemma {:induction false} StoulText(s: string, d: nat)
    requires d < 10
    ensures IsCount(["0123456789"[d]]) && Stoul(["0123456789"[d]]) == d
    ensures IsCount(s) ==> IsCount(s + ["0123456789"[d]]) && Stoul(s + ["0123456789"[d]]) == 10 * Stoul(s) + d
  {
    if IsCount(s) {
      assert (s + ["0123456789"[d]])[..|s|] == s;
    }
  }

  lemma {:induction false} StoulPositive(s: string)
    requires IsCount(s) && s[0] != '0'
    ensures Stoul(s) > 0
  {
    if |s| > 1 {
      assert s[..|s|-1][0] == s[0];
      StoulPositive(s[..|s|-1]);
    }
  }

  lemma {:induction false} DecimalMore(n: nat, c: char)
    requires n > 0 && IsDigit(c)
    ensures Decimal(n * 10 + DigitValue(c)) == Decimal(n) + [c]
  {
    var m := n * 10 + DigitValue(c);
    assert m / 10 == n && m % 10 == DigitValue(c);
  }

  /** A count without needless zeros is what its number is printed as. */
  lemma {:induction false} CountIsDecimal(s: string)
    requires IsCount(s) && (s[0] == '0' ==> |s| == 1)
    ensures Decimal(Stoul(s)) == s
  {
    if |s| > 1 {
      var front, c := s[..|s|-1], s[|s|-1];
      assert front[0] == s[0] && s == front + [c];
      StoulPositive(front);
      CountIsDecimal(front);
      DecimalMore(Stoul(front), c);
    }
  }

  // ---------------------------------------------------------------- signed

  function IntText(i: int): string {
    if i < 0 then "-" + Decimal(-i) else Decimal(i)
  }

  predicate IsInt(s: string) {
    IsCount(s) || (s != [] && s[0] == '-' && IsCount(s[1..]))
  }

  function IntValue(s: string): int
    requires IsInt(s)
  {
    if IsCount(s) then Stoul(s) else -(Stoul(s[1..]) as int)
  }

  lemma {:induction false} IntRoundTrip(i: int)
    ensures IsInt(IntText(i)) && IntValue(IntText(i)) == i
  {
    CountRoundTrip(if i < 0 then -i else i);
    if i < 0 {
      assert IntText(i)[1..] == Decimal(-i) && !IsDigit(IntText(i)[0]);
    }
  }

  /** The text of an integer is its decimal digits, after a minus if it is negative. */
  lemma {:induction false} IntTextIs(i: int)
    ensures i >= 0 ==> IsCount(IntText(i)) && Stoul(IntText(i)) == i
    ensures i < 0 ==> IntText(i)[0] == '-' && IsCount(IntText(i)[1..]) && Stoul(IntText(i)[1..]) == -i
  {
    CountRoundTrip(if i < 0 then -i else i);
    assert i < 0 ==> IntText(i)[1..] == Decimal(-i);
  }

  // ---------------------------------------------------------------- hexadecimal

  /** A string of bytes. */
  predicate Bytes(s: string) {
    forall i :: 0 <= i < |s| ==> s[i] as int < 256
  }

  function HexDigit(d: nat): char
    requires d < 16
  {
    if d < 10 then '0' + d as char else 'A' + (d - 10) as char
  }

  /** hex(): two upper-case digits a byte (section 8 of RFC 4648). */
  function Hex(s: string): (r: string)
    requires Bytes(s)
    ensures |r| == 2 * |s|
  {
    if s == [] then []
    else [HexDigit(s[0] as nat / 16), HexDigit(s[0] as nat % 16)] + Hex(s[1..])
  }

  lemma {:induction false} HexDigitInjective(d: nat, e: nat)
    requires d < 16 && e < 16 && HexDigit(d) == HexDigit(e)
    ensures d == e
  {
  }

  lemma {:induction false} HexInjective(s: string, t: string)
    requires Bytes(s) && Bytes(t) && Hex(s) == Hex(t)
    ensures s == t
  {
    if s != [] {
      assert Hex(s)[0] == Hex(t)[0] && Hex(s)[1] == Hex(t)[1];
      HexDigitInjective(s[0] as nat / 16, t[0] as nat / 16);
      HexDigitInjective(s[0] as nat % 16, t[0] as nat % 16);
      assert s[0] as nat == t[0] as nat;
      assert Hex(s)[2..] == Hex(s[1..]) && Hex(t)[2..] == Hex(t[1..]);
      HexInjective(s[1..], t[1..]);
    }
  }

  /** Every byte stands as its two digits, the sixteens first, in capitals. */
  lemma {:induction false} HexAt(s: string, i: nat)
    requires Bytes(s) && i < |s|
    ensures Hex(s)[2*i] == "0123456789ABCDEF"[s[i] as nat / 16] && Hex(s)[2*i+1] == "0123456789ABCDEF"[s[i] as nat % 16]
  {
    if i == 0 {
      HexDigitIs(s[0] as nat / 16);
      HexDigitIs(s[0] as nat % 16);
    } else {
      HexAt(s[1..], i - 1);
      assert Hex(s)[2..] == Hex(s[1..]);
      assert Hex(s)[2*i] == Hex(s)[2..][2*(i-1)] && Hex(s)[2*i+1] == Hex(s)[2..][2*(i-1)+1];
    }
  }

  lemma {:induction false} HexDigitIs(d: nat)
    requires d < 16
    ensures HexDigit(d) == "0123456789ABCDEF"[d]
  {
  }
}
