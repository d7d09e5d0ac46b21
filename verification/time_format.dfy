/**
  Rendering of the countdown as `m:ss`, with JavaScript's arithmetic and
  string conventions written out, and a parser that reads the rendering
  back.
 */
module TimeFormat {
  import opened Options

  /** `Math.floor(a / b)` for a positive divisor. */
  function FloorDiv(a: int, b: int): (q: int)
    requires b > 0
    ensures q * b <= a < (q + 1) * b
  {
    a / b
  }

  /** JavaScript's `%`: truncating, so the remainder takes the sign of `a`. */
  function JsRem(a: int, b: int): (r: int)
    requires b > 0
    ensures -b < r < b
    ensures a >= 0 ==> 0 <= r && r == a % b
    ensures a < 0 ==> r <= 0
    ensures exists q: int {:trigger q * b} :: a == q * b + r
  {
    var q := if a >= 0 then a / b else -((-a) / b);
    var r := if a >= 0 then a % b else -((-a) % b);
    assert a == q * b + r;
    r
  }

  predicate IsDigit(c: char) {
    '0' <= c <= '9'
  }

  predicate AllDigits(s: string) {
    forall i :: 0 <= i < |s| ==> IsDigit(s[i])
  }

  function DigitChar(d: int): (c: char)
    requires 0 <= d < 10
    ensures IsDigit(c) && c as int - '0' as int == d
  {
    ('0' as int + d) as char
  }

  /** Decimal digits of a natural number, without leading zeros. */
  function NatToString(n: nat): (s: string)
    ensures |s| > 0 && AllDigits(s)
    ensures n < 10 <==> |s| == 1
    ensures s[0] == '0' ==> n == 0
  {
    if n < 10 then [DigitChar(n)] else NatToString(n / 10) + [DigitChar(n % 10)]
  }

  /**
    `Number.prototype.toString()` on an integer of magnitude below 10^21
    that a JavaScript number holds exactly: a minus sign exactly for
    negative numbers, then the decimal digits of the magnitude, with no
    leading zero.
   */
  function IntToString(n: int): (r: string)
    ensures |r| > 0 && (r[0] == '-' <==> n < 0)
    ensures n >= 0 ==> AllDigits(r) && DigitsValue(r) == n
    ensures n < 0 ==> AllDigits(r[1..]) && DigitsValue(r[1..]) == -n
    ensures n >= 0 && r[0] == '0' ==> n == 0
    ensures n < 0 ==> |r| > 1 && r[1] != '0'
  {
    DigitsValueOfNatToString(if n < 0 then -n else n);
    if n < 0 then
      var r := "-" + NatToString(-n);
      assert r[1..] == NatToString(-n);
      r
    else NatToString(n)
  }

  /** `String.prototype.padStart(len, fill)` with a one-character filler. */
  function PadStart(s: string, len: nat, fill: char): (r: string)
    ensures |s| >= len ==> r == s
    ensures |s| < len ==> |r| == len && r[len - |s|..] == s
    ensures forall i :: 0 <= i < |r| - |s| ==> r[i] == fill
  {
    if |s| >= len then s else seq(len - |s|, _ => fill) + s
  }

  /**
    `formatTime(seconds)`: minutes, a colon, and the seconds padded to two
    places. For a non-negative count that is mins = seconds / 60 in plain
    decimal and ss = seconds % 60 in exactly two digits; a negative count
    renders with a leading minus.
   */
  function FormatTime(seconds: int): (r: string)
    ensures seconds >= 0 ==>
      r == NatToString(seconds / 60) + ":" + [DigitChar(seconds % 60 / 10), DigitChar(seconds % 60 % 10)]
    ensures seconds < 0 ==> |r| > 0 && r[0] == '-'
  {
    SecondsField(seconds % 60);
    IntToString(FloorDiv(seconds, 60)) + ":" + PadStart(IntToString(JsRem(seconds, 60)), 2, '0')
  }

  /** The value of a string of decimal digits. */
  function DigitsValue(s: string): nat
    requires AllDigits(s)
  {
    if s == [] then 0 else DigitsValue(s[..|s| - 1]) * 10 + (s[|s| - 1] as int - '0' as int)
  }

  /** Position of the first `c` in `s`, or `|s|` when there is none. */
  function IndexOf(s: string, c: char): (k: nat)
    ensures k <= |s|
    ensures k < |s| ==> s[k] == c
    ensures forall i :: 0 <= i < k ==> s[i] != c
  {
    if s == [] then 0 else if s[0] == c then 0 else 1 + IndexOf(s[1..], c)
  }

  /**
    Reads an `m:ss` rendering back into seconds: digits, one colon, exactly
    two digits. Anything else is rejected.
   */
  function ParseTime(s: string): (r: Option<nat>)
    ensures r.Some? ==> exists k :: 0 < k < |s| && s[k] == ':'
  {
    var k := IndexOf(s, ':');
    if k == |s| then None
    else
      var mins, secs := s[..k], s[k + 1..];
      if mins != [] && AllDigits(mins) && |secs| == 2 && AllDigits(secs)
      then Some(DigitsValue(mins) * 60 + DigitsValue(secs))
      else None
  }

  lemma {:induction false} DigitsValueOfNatToString(n: nat)
    ensures DigitsValue(NatToString(n)) == n
  {
    var s := NatToString(n);
    if n >= 10 {
      DigitsValueOfNatToString(n / 10);
      assert s[..|s| - 1] == NatToString(n / 10);
    }
  }

  /** Below 60 the seconds field is exactly two digits: tens, then units. */
  lemma SecondsField(r: nat)
    requires r < 60
    ensures PadStart(IntToString(r), 2, '0') == [DigitChar(r / 10), DigitChar(r % 10)]
  {
    if r >= 10 {
      assert NatToString(r) == NatToString(r / 10) + [DigitChar(r % 10)];
    }
  }

  /** Parsing the rendering of a non-negative count gives the count back. */
  lemma FormatTimeRoundTrip(seconds: nat)
    ensures ParseTime(FormatTime(seconds)) == Some(seconds)
  {
    var mins := NatToString(seconds / 60);
    var secs := [DigitChar(seconds % 60 / 10), DigitChar(seconds % 60 % 10)];
    var s := mins + ":" + secs;
    assert IndexOf(s, ':') == |mins| by {
      assert s == mins + (":" + secs);
      IndexOfAfterDigits(mins, ":" + secs);
    }
    assert s[..|mins|] == mins;
    assert s[|mins| + 1..] == secs;
    DigitsValueOfNatToString(seconds / 60);
    assert DigitsValue(secs) == seconds % 60 by {
      var r := seconds % 60;
      assert secs[..1] == [DigitChar(r / 10)];
      assert [DigitChar(r / 10)][..0] == [];
      assert DigitsValue([DigitChar(r / 10)]) == r / 10;
    }
  }

  lemma {:induction false} IndexOfAfterDigits(a: string, b: string)
    requires AllDigits(a) && b != [] && b[0] == ':'
    ensures IndexOf(a + b, ':') == |a|
  {
    if a != [] {
      assert (a + b)[1..] == a[1..] + b;
      IndexOfAfterDigits(a[1..], b);
    }
  }

  /** The rendering of one minute, as it shows at the start of every exercise. */
  lemma OneMinute()
    ensures FormatTime(60) == "1:00"
  {
  }
}
