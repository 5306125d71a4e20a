/**
 * The exceptions the modelled code throws. Each constructor stands for one
 * .NET or KSI exception class and carries its message; a number the source
 * splices into a message is written in decimal, as .NET's string
 * concatenation and string.Format("{0}") write a non-negative integer.
 */
module Exceptions {

  datatype Error =
    | ArgumentNull(parameter: string)       // System.ArgumentNullException
    | Argument(message: string)             // System.ArgumentException
    | Format(message: string)               // System.FormatException
    | Tlv(message: string)                  // TlvException
    | Ksi(message: string)                  // KsiException
    | KsiVerification(message: string)      // KsiVerificationException
    | SignatureFailure(message: string)     // KsiSignatureException
    | NotImplemented                        // System.NotImplementedException
    | Plain(message: string)                // System.Exception

  predicate IsDigit(ch: char) {
    '0' as int <= ch as int <= '9' as int
  }

  function DigitChar(d: nat): (ch: char)
    requires d < 10
    ensures IsDigit(ch) && ch as int - '0' as int == d
  {
    ('0' as int + d) as char
  }

  /** The decimal text of a non-negative integer: digits only, with no leading zero. */
  function Decimal(n: nat): (r: string)
    ensures |r| > 0
    ensures forall i :: 0 <= i < |r| ==> IsDigit(r[i])
    ensures |r| > 1 ==> r[0] != '0'
  {
    if n < 10 then [DigitChar(n)] else Decimal(n / 10) + [DigitChar(n % 10)]
  }

  /** The number a string of decimal digits denotes: an independent reading of Decimal's output. */
  function DecimalValue(s: string): nat
    requires forall i :: 0 <= i < |s| ==> IsDigit(s[i])
  {
    if |s| == 0 then 0
    else
      var last := s[|s| - 1];
      assert IsDigit(last);
      DecimalValue(s[..|s| - 1]) * 10 + (last as int - '0' as int)
  }

  /** Reading back the decimal text of n gives n. */
  lemma {:induction false} DecimalRoundTrip(n: nat)
    ensures DecimalValue(Decimal(n)) == n
  {
    if n >= 10 {
      DecimalRoundTrip(n / 10);
      var s := Decimal(n);
      assert s[..|s| - 1] == Decimal(n / 10);
    }
  }

  /** Different numbers have different decimal texts, so a message that splices one in names it. */
  lemma DecimalInjective(m: nat, n: nat)
    requires Decimal(m) == Decimal(n)
    ensures m == n
  {
    DecimalRoundTrip(m);
    DecimalRoundTrip(n);
  }

  /** A message made of a fixed prefix, a number and a fixed suffix determines the number. */
  lemma SplicedNumberDetermined(prefix: string, m: nat, n: nat, suffix: string)
    requires prefix + Decimal(m) + suffix == prefix + Decimal(n) + suffix
    ensures m == n
  {
    var a := prefix + Decimal(m) + suffix;
    var b := prefix + Decimal(n) + suffix;
    assert |Decimal(m)| == |Decimal(n)|;
    assert Decimal(m) == a[|prefix|..|a| - |suffix|];
    assert Decimal(n) == b[|prefix|..|b| - |suffix|];
    DecimalInjective(m, n);
  }
}
