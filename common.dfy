/** Option and Result, used for the source's null returns and thrown errors. */
module Wrappers {
  datatype Option<+T> = None | Some(value: T)

  datatype Result<+R, +E> = Success(value: R) | Failure(error: E)
}

/** The byte buffers and browser `File` objects the modules pass around. */
module Files {
  /** One element of a `Uint8ClampedArray` or of a blob. */
  type byte = x: int | 0 <= x < 256

  /** A browser `File`: its name, its MIME type and the bytes of the blob it wraps. */
  datatype File = File(name: string, mimeType: string, content: seq<byte>)

  const PngType: string := "image/png"
}

/**
 * The decimal text that `${n}` produces for the page and image numbers used
 * in file names, and its inverse.
 */
module Decimal {
  predicate IsDigit(c: char) {
    '0' <= c <= '9'
  }

  predicate AllDigits(s: string) {
    forall i :: 0 <= i < |s| ==> IsDigit(s[i])
  }

  function DigitChar(d: nat): (c: char)
    requires d < 10
    ensures IsDigit(c)
  {
    (('0' as int) + d) as char
  }

  function DigitValue(c: char): (d: nat)
    requires IsDigit(c)
    ensures d < 10
  {
    (c as int) - ('0' as int)
  }

  /** The shortest decimal numeral of `n`: digits only, no leading zero. */
  function FromNat(n: nat): (s: string)
    ensures |s| >= 1
    ensures AllDigits(s)
    ensures s[0] == '0' ==> n == 0
    decreases n
  {
    if n < 10 then [DigitChar(n)] else FromNat(n / 10) + [DigitChar(n % 10)]
  }

  /** The value of a numeral, read most significant digit first. */
  function ToNat(s: string): nat
    requires AllDigits(s)
  {
    if s == [] then 0 else 10 * ToNat(s[..|s| - 1]) + DigitValue(s[|s| - 1])
  }

  /** Reading back the numeral of `n` gives `n`. */
  lemma {:induction false} ToNatFromNat(n: nat)
    ensures ToNat(FromNat(n)) == n
    decreases n
  {
    var s := FromNat(n);
    if n < 10 {
      assert s[..|s| - 1] == [];
    } else {
      ToNatFromNat(n / 10);
      assert s[..|s| - 1] == FromNat(n / 10);
    }
  }

  /** Distinct numbers have distinct numerals. */
  lemma FromNatInjective(a: nat, b: nat)
    ensures FromNat(a) == FromNat(b) ==> a == b
  {
    ToNatFromNat(a);
    ToNatFromNat(b);
  }

  /** The numeral can be read back out of a name built around it. */
  lemma NumeralBetween(prefix: string, suffix: string, n: nat)
    ensures var s := prefix + FromNat(n) + suffix;
      s[..|prefix|] == prefix && s[|s| - |suffix|..] == suffix &&
      AllDigits(s[|prefix|..|s| - |suffix|]) && ToNat(s[|prefix|..|s| - |suffix|]) == n
  {
    ToNatFromNat(n);
    var s := prefix + FromNat(n) + suffix;
    assert s[|prefix|..|s| - |suffix|] == FromNat(n);
  }

  /**
   * Two names built from the same prefix and suffix around a numeral are
   * equal only when the numbers are: a numeral never swallows part of the
   * suffix, because the suffix is the same on both sides.
   */
  lemma DelimitedInjective(prefix: string, suffix: string, a: nat, b: nat)
    ensures prefix + FromNat(a) + suffix == prefix + FromNat(b) + suffix ==> a == b
  {
    var x, y := prefix + FromNat(a) + suffix, prefix + FromNat(b) + suffix;
    if x == y {
      var lo, hi := |prefix|, |x| - |suffix|;
      assert x[lo..hi] == FromNat(a);
      assert y[lo..hi] == FromNat(b);
      FromNatInjective(a, b);
    }
  }
}
