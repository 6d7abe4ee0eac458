/**
 * The wall clock as the store sees it. Every entity reads `Date.now()` twice,
 * once for its id (rendered with `toString()`) and once for its timestamp, so
 * an operation receives both readings as explicit parameters.
 */
module Clock {

  /** The two millisecond readings one creation takes: id first, timestamp second. */
  datatype Reads = Reads(idMs: nat, stampMs: nat)

  predicate IsDigit(c: char) {
    '0' <= c <= '9'
  }

  function DigitChar(d: nat): (c: char)
    requires d < 10
    ensures IsDigit(c)
    ensures c as int - '0' as int == d
  {
    ('0' as int + d) as char
  }

  function DigitValue(c: char): (d: nat)
    requires IsDigit(c)
    ensures d < 10
  {
    c as int - '0' as int
  }

  /**
   * `n.toString()` for a non-negative integer number: its decimal digits,
   * most significant first, with no leading zero.
   */
  function ToString(n: nat): (s: string)
    ensures |s| >= 1
    ensures forall i :: 0 <= i < |s| ==> IsDigit(s[i])
    ensures s[0] == '0' ==> n == 0
    decreases n
  {
    if n < 10 then [DigitChar(n)] else ToString(n / 10) + [DigitChar(n % 10)]
  }

  /** Reads a string of decimal digits back as a number (the inverse of ToString). */
  function ParseDecimal(s: string): nat
    requires forall i :: 0 <= i < |s| ==> IsDigit(s[i])
  {
    if |s| == 0 then 0 else ParseDecimal(s[..|s| - 1]) * 10 + DigitValue(s[|s| - 1])
  }

  /** Rendering a clock reading and reading it back yields the same number. */
  lemma {:induction false} ParseToString(n: nat)
    ensures ParseDecimal(ToString(n)) == n
  {
    if n >= 10 {
      var s := ToString(n);
      assert s[..|s| - 1] == ToString(n / 10);
      ParseToString(n / 10);
    }
  }

  /**
   * Two ids are equal exactly when the clock readings they were made from are
   * equal: ids collide precisely for entities created in the same millisecond.
   */
  lemma IdsCollideIffSameMillisecond(a: nat, b: nat)
    ensures ToString(a) == ToString(b) <==> a == b
  {
    if ToString(a) == ToString(b) {
      ParseToString(a);
      ParseToString(b);
    }
  }
}
