/** Decimal and hexadecimal digits: the port number of a URL, IPv4 octets and
    percent-escapes. */
module Digits {

  predicate IsDigit(c: char)
  {
    '0' <= c <= '9'
  }

  predicate AllDigits(s: string)
  {
    forall i :: 0 <= i < |s| ==> IsDigit(s[i])
  }

  function DigitValue(c: char): (d: nat)
    requires IsDigit(c)
    ensures d < 10
  {
    c as int - '0' as int
  }

  function DigitChar(d: nat): (c: char)
    requires d < 10
    ensures IsDigit(c) && DigitValue(c) == d
  {
    (d + '0' as int) as char
  }

  /** The number a string of decimal digits denotes (leading zeros allowed). */
  function ValueOf(s: string): nat
    requires AllDigits(s)
    decreases |s|
  {
    if s == [] then 0 else ValueOf(s[..|s| - 1]) * 10 + DigitValue(s[|s| - 1])
  }

  /** The shortest decimal notation of `n`, as the URL serializer writes a port. */
  function FromNat(n: nat): (s: string)
    ensures |s| >= 1 && AllDigits(s)
    ensures ValueOf(s) == n
    ensures s[0] == '0' ==> s == "0"
    decreases n
  {
    if n < 10 then [DigitChar(n)]
    else
      var s := FromNat(n / 10) + [DigitChar(n % 10)];
      assert s[..|s| - 1] == FromNat(n / 10);
      s
  }

  /** A digit string without superfluous leading zeros is the notation of its value. */
  lemma {:induction false} FromNatValueOf(s: string)
    requires |s| >= 1 && AllDigits(s)
    requires s[0] == '0' ==> s == "0"
    ensures FromNat(ValueOf(s)) == s
    decreases |s|
  {
    var init, last := s[..|s| - 1], s[|s| - 1];
    var d := DigitValue(last);
    DigitCharValue(last);
    if init == [] {
      assert s == [last];
    } else {
      assert init[0] == s[0];
      FromNatValueOf(init);
      ValueOfPositive(init);
      var m := ValueOf(init);
      DivMod10(m, d);
      calc {
        FromNat(ValueOf(s));
        FromNat(m * 10 + d);
        FromNat(m) + [DigitChar(d)];
        init + [last];
        s;
      }
    }
  }

  lemma DivMod10(m: nat, d: nat)
    requires m > 0 && d < 10
    ensures (m * 10 + d) / 10 == m && (m * 10 + d) % 10 == d && m * 10 + d >= 10
  {
  }

  lemma DigitCharValue(c: char)
    requires IsDigit(c)
    ensures DigitChar(DigitValue(c)) == c
  {
  }

  /** A digit string that does not start with '0' denotes a positive number. */
  lemma {:induction false} ValueOfPositive(s: string)
    requires |s| >= 1 && AllDigits(s) && s[0] != '0'
    ensures ValueOf(s) > 0
    decreases |s|
  {
    if |s| > 1 {
      assert s[..|s| - 1][0] == s[0];
      ValueOfPositive(s[..|s| - 1]);
    }
  }

  predicate IsHexDigit(c: char)
  {
    IsDigit(c) || 'a' <= c <= 'f' || 'A' <= c <= 'F'
  }

  function HexValue(c: char): (d: nat)
    requires IsHexDigit(c)
    ensures d < 16
  {
    if IsDigit(c) then DigitValue(c)
    else if 'a' <= c <= 'f' then c as int - 'a' as int + 10
    else c as int - 'A' as int + 10
  }

  /** Upper-case hexadecimal digit, as percent-encoding writes it. */
  function HexDigitUpper(d: nat): (c: char)
    requires d < 16
    ensures IsHexDigit(c) && HexValue(c) == d
    ensures !('a' <= c <= 'z')
  {
    if d < 10 then DigitChar(d) else (d - 10 + 'A' as int) as char
  }
}
