/** Go's `fmtDuration` helper, which main.go defines but never calls: a
    `time.Duration` (signed 64-bit nanoseconds) rounded to the minute and
    printed as hours and minutes, each at least two characters wide. */
module Duration {

  /** Go's int64, the representation of `time.Duration`. */
  newtype int64 = x: int | -0x8000_0000_0000_0000 <= x < 0x8000_0000_0000_0000

  const MaxDuration: int64 := 0x7fff_ffff_ffff_ffff
  const MinDuration: int64 := -0x8000_0000_0000_0000
  const Minute: int64 := 60_000_000_000
  const Hour: int64 := 3_600_000_000_000

  /** Two's-complement wrap-around of an int64 sum. */
  function Wrap(x: int): (r: int64)
    ensures MinDuration as int <= x <= MaxDuration as int ==> r as int == x
    ensures (r as int - x) % 0x1_0000_0000_0000_0000 == 0
  {
    ((x + 0x8000_0000_0000_0000) % 0x1_0000_0000_0000_0000 - 0x8000_0000_0000_0000) as int64
  }

  /** Euclidean division of a natural number by a positive one. */
  lemma DivBounds(a: nat, b: int)
    requires b > 0
    ensures 0 <= b * (a / b) <= a < b * (a / b) + b
  {
    assert a == b * (a / b) + a % b;
  }

  /** Go's integer division, which truncates toward zero (Dafny's `/` is
      Euclidean). */
  function Quot(a: int, b: int): (q: int)
    requires b > 0
    ensures a >= 0 ==> 0 <= b * q <= a < b * q + b
    ensures a < 0 ==> b * q - b < a <= b * q <= 0
  {
    if a >= 0 then
      DivBounds(a, b);
      a / b
    else
      DivBounds(-a, b);
      assert b * (-((-a) / b)) == -(b * ((-a) / b));
      -((-a) / b)
  }

  /** Go's `%`: the remainder of Quot, carrying the sign of the dividend. */
  function Rem(a: int, b: int): (r: int)
    requires b > 0
    ensures a == b * Quot(a, b) + r
    ensures a >= 0 ==> 0 <= r < b
    ensures a < 0 ==> -b < r <= 0
  {
    a - b * Quot(a, b)
  }

  /** `lessThanHalf` of Go's time package: `uint64(x)+uint64(x) < uint64(y)`,
      in unsigned 64-bit arithmetic. */
  predicate LessThanHalf(x: int64, y: int64) {
    var ux := (x as int) % 0x1_0000_0000_0000_0000;
    var uy := (y as int) % 0x1_0000_0000_0000_0000;
    (ux + ux) % 0x1_0000_0000_0000_0000 < uy
  }

  /** `Duration.Round` of Go's time package: d rounded to a multiple of m,
      halves away from zero; a result that would leave the int64 range is
      detected by wrap-around and replaced by the extreme duration. */
  function Round(d: int64, m: int64): int64 {
    if m <= 0 then d
    else
      var r := Rem(d as int, m as int) as int64;
      if d < 0 then
        var r := -r;
        if LessThanHalf(r, m) then d + r
        else
          var d1 := Wrap(d as int - m as int + r as int);
          if d1 < d then d1 else MinDuration
      else
        if LessThanHalf(r, m) then d - r
        else
          var d1 := Wrap(d as int + m as int - r as int);
          if d1 > d then d1 else MaxDuration
  }

  /** On non-negative operands below 2^63 the unsigned test is the plain
      one. */
  lemma LessThanHalfPlain(x: int64, y: int64)
    requires 0 <= x && 0 < y
    ensures LessThanHalf(x, y) <==> 2 * (x as int) < y as int
  {
    assert (x as int) % 0x1_0000_0000_0000_0000 == x as int;
    assert (y as int) % 0x1_0000_0000_0000_0000 == y as int;
    assert (2 * (x as int)) % 0x1_0000_0000_0000_0000 == 2 * (x as int);
  }

  /** Division by m of m * q + s, for 0 <= s < m, gives q and leaves s. */
  lemma DivUnique(m: int, q: int, s: int)
    requires m > 0 && 0 <= s < m
    ensures (m * q + s) / m == q && (m * q + s) % m == s
  {
    var x := m * q + s;
    var j := q - x / m;
    assert x == m * (x / m) + x % m;
    assert m * j == x % m - s by {
      assert m * j == m * q - m * (x / m);
    }
    ScaledAway(m, j);
  }

  /** A multiple of m leaves no remainder. */
  lemma MultipleMod(m: int, k: int)
    requires m > 0
    ensures (m * k) % m == 0
  {
    DivUnique(m, k, 0);
  }

  /** A non-zero multiple of m is at least m away from zero. */
  lemma ScaledAway(m: int, j: int)
    requires m > 0
    ensures j >= 1 ==> m * j >= m
    ensures j <= -1 ==> m * j <= -m
  {
  }

  /** Round on a non-negative d: down by the remainder when it is under half
      of m, otherwise up to the next multiple, saturating when that leaves the
      int64 range. */
  lemma RoundNonNegative(d: int64, m: int64)
    requires m > 0 && d >= 0
    ensures var r := Rem(d as int, m as int);
            Round(d, m) as int
            == if 2 * r < m as int then d as int - r
               else if d as int + m as int - r <= MaxDuration as int then d as int + m as int - r
               else MaxDuration as int
  {
    var r := Rem(d as int, m as int);
    LessThanHalfPlain(r as int64, m);
    if 2 * r >= m as int && d as int + m as int - r > MaxDuration as int {
      var d1 := Wrap(d as int + m as int - r);
      assert d1 as int == d as int + m as int - r - 0x1_0000_0000_0000_0000;
    }
  }

  /** Round on a negative d, the mirror image of RoundNonNegative with
      MinDuration as the saturated value. */
  lemma RoundNegative(d: int64, m: int64)
    requires m > 0 && d < 0
    ensures var r := -Rem(d as int, m as int);
            Round(d, m) as int
            == if 2 * r < m as int then d as int + r
               else if MinDuration as int <= d as int - m as int + r then d as int - m as int + r
               else MinDuration as int
  {
    var r := -Rem(d as int, m as int);
    LessThanHalfPlain(r as int64, m);
    if 2 * r >= m as int && d as int - m as int + r < MinDuration as int {
      var d1 := Wrap(d as int - m as int + r);
      assert d1 as int == d as int - m as int + r + 0x1_0000_0000_0000_0000;
    }
  }

  /** The distance between two integers. */
  function Dist(a: int, b: int): nat {
    if a >= b then a - b else b - a
  }

  /** Round on a non-negative d that cannot overflow: the nearest multiple
      of m, a half rounded up. */
  lemma RoundNearestNonNegative(d: int64, m: int64)
    requires m > 0 && d >= 0 && d as int + m as int <= MaxDuration as int
    ensures var t := Round(d, m) as int;
            t % m as int == 0 && 2 * Dist(t, d as int) <= m as int
            && (2 * Dist(t, d as int) == m as int ==> t > d as int)
  {
    var q := Quot(d as int, m as int);
    var r := Rem(d as int, m as int);
    RoundNonNegative(d, m);
    if 2 * r < m as int {
      MultipleMod(m as int, q);
    } else {
      assert Round(d, m) as int == m as int * (q + 1);
      MultipleMod(m as int, q + 1);
    }
  }

  /** Round on a negative d that cannot overflow: the nearest multiple of m,
      a half rounded down. */
  lemma RoundNearestNegative(d: int64, m: int64)
    requires m > 0 && d < 0 && MinDuration as int <= d as int - m as int
    ensures var t := Round(d, m) as int;
            t % m as int == 0 && 2 * Dist(t, d as int) <= m as int
            && (2 * Dist(t, d as int) == m as int ==> t < d as int)
  {
    var q := Quot(d as int, m as int);
    var r := Rem(d as int, m as int);
    RoundNegative(d, m);
    if 2 * (-r) < m as int {
      MultipleMod(m as int, q);
    } else {
      assert Round(d, m) as int == m as int * (q - 1);
      MultipleMod(m as int, q - 1);
    }
  }

  /** Away from the ends of the int64 range, Round is rounding to the
      nearest multiple of m, with halves going away from zero. */
  lemma RoundNearest(d: int64, m: int64)
    requires m > 0
    requires MinDuration as int <= d as int - m as int && d as int + m as int <= MaxDuration as int
    ensures var t := Round(d, m) as int;
            && t % m as int == 0
            && 2 * Dist(t, d as int) <= m as int
            && (2 * Dist(t, d as int) == m as int ==> Dist(t, 0) > Dist(d as int, 0))
  {
    if d < 0 {
      RoundNearestNegative(d, m);
    } else {
      RoundNearestNonNegative(d, m);
    }
  }

  /** Near the top of the range, a duration that rounds up saturates at
      MaxDuration instead of wrapping to a negative value. */
  lemma RoundSaturates(d: int64, m: int64)
    requires m > 0 && d >= 0
    requires 2 * Rem(d as int, m as int) >= m as int
    requires d as int + m as int - Rem(d as int, m as int) > MaxDuration as int
    ensures Round(d, m) == MaxDuration
  {
    RoundNonNegative(d, m);
  }

  /** Hours and the minutes left over in a duration t, each truncated toward
      zero as Go's integer division does. */
  function ClockFields(t: int64): (hm: (int, int))
    ensures hm.0 * 60 + hm.1 == Quot(t as int, Minute as int)
    ensures -60 < hm.1 < 60
    ensures t >= 0 ==> hm.0 >= 0 && hm.1 >= 0
    ensures t < 0 ==> hm.0 <= 0 && hm.1 <= 0
  {
    var h := Quot(t as int, Hour as int);
    var rest := t as int - h * Hour as int;
    assert Quot(t as int, Minute as int) == h * 60 + Quot(rest, Minute as int);
    (h, Quot(rest, Minute as int))
  }

  /** The decimal digit for 0..9. */
  function DigitChar(n: nat): (c: char)
    requires n < 10
    ensures '0' <= c <= '9' && c as int - '0' as int == n
  {
    ('0' as int + n) as char
  }

  predicate IsDigits(s: string) {
    forall i :: 0 <= i < |s| ==> '0' <= s[i] <= '9'
  }

  /** The decimal digits of n, without leading zeros. */
  function Digits(n: nat): (s: string)
    ensures 1 <= |s| && IsDigits(s)
    ensures n < 10 <==> |s| == 1
    ensures n < 100 ==> |s| <= 2
  {
    if n < 10 then [DigitChar(n)] else Digits(n / 10) + [DigitChar(n % 10)]
  }

  /** The number a string of decimal digits denotes. */
  function Value(s: string): nat
    requires IsDigits(s)
  {
    if s == [] then 0 else Value(s[..|s| - 1]) * 10 + (s[|s| - 1] as int - '0' as int)
  }

  /** Reading the digits back gives the number. */
  lemma {:induction false} DigitsRoundTrip(n: nat)
    ensures Value(Digits(n)) == n
  {
    var s := Digits(n);
    if n >= 10 {
      DigitsRoundTrip(n / 10);
      assert s[..|s| - 1] == Digits(n / 10);
    }
  }

  /** A leading zero does not change the value. */
  lemma {:induction false} LeadingZero(s: string)
    requires IsDigits(s)
    ensures IsDigits("0" + s) && Value("0" + s) == Value(s)
  {
    if s != [] {
      assert ("0" + s)[..|"0" + s| - 1] == "0" + s[..|s| - 1];
      LeadingZero(s[..|s| - 1]);
    }
  }

  /** Go's `%02d`: the decimal form of n, padded with a leading zero to two
      characters; a negative n is its minus sign and digits. */
  function Pad2(n: int): string {
    if n < 0 then "-" + Digits(-n) else if n < 10 then "0" + Digits(n) else Digits(n)
  }

  /** `%02d` is at least two characters wide, exactly two for 0..99, marks
      negatives by a leading minus, and reads back as n: a non-negative n
      directly, a negative one as the digits of -n after the minus. */
  lemma Pad2Shape(n: int)
    ensures |Pad2(n)| >= 2
    ensures 0 <= n < 100 ==> |Pad2(n)| == 2
    ensures Pad2(n)[0] == '-' <==> n < 0
    ensures n >= 0 ==> IsDigits(Pad2(n)) && Value(Pad2(n)) == n
    ensures n < 0 ==> IsDigits(Pad2(n)[1..]) && Value(Pad2(n)[1..]) == -n
  {
    if n < 0 {
      DigitsRoundTrip(-n);
      assert Pad2(n)[1..] == Digits(-n);
    } else {
      DigitsRoundTrip(n);
      if n < 10 {
        LeadingZero(Digits(n));
      }
    }
  }

  /** The clock text for hours h and minutes m. */
  function ClockText(h: int, m: int): string {
    Pad2(h) + "h" + Pad2(m) + "m"
  }

  /** The clock text of a non-negative duration reads back: the last
      character is `m`, the two before it are the minutes and the text
      before the `h` is the hours. */
  lemma ClockTextReadsBack(h: int, m: int)
    requires h >= 0 && 0 <= m < 60
    ensures var s := ClockText(h, m);
            && |s| >= 6 && s[|s| - 1] == 'm' && s[|s| - 4] == 'h'
            && IsDigits(s[|s| - 3..|s| - 1]) && Value(s[|s| - 3..|s| - 1]) == m
            && IsDigits(s[..|s| - 4]) && Value(s[..|s| - 4]) == h
  {
    Pad2Shape(h);
    Pad2Shape(m);
    var s := ClockText(h, m);
    assert s[|s| - 3..|s| - 1] == Pad2(m);
    assert s[..|s| - 4] == Pad2(h);
  }

  /** `fmtDuration`: d is rounded to the minute, the whole hours are taken
      out of it and the whole minutes of the rest are printed after them. */
  method FmtDuration(d: int64) returns (s: string)
    ensures var hm := ClockFields(Round(d, Minute)); s == ClockText(hm.0, hm.1)
  {
    var t := Round(d, Minute);
    var h := Quot(t as int, Hour as int) as int64;
    t := t - h * Hour;
    var m := Quot(t as int, Minute as int) as int64;
    s := Pad2(h as int) + "h" + Pad2(m as int) + "m";
  }

  /** For an elapsed time that cannot overflow, the printed hours and minutes
      are those of the nearest whole number of minutes, halves rounded up. */
  lemma {:induction false} ElapsedClock(d: int64)
    requires 0 <= d && d as int + Minute as int <= MaxDuration as int
    ensures var n := (d as int + 30_000_000_000) / 60_000_000_000;
            ClockFields(Round(d, Minute)) == (n / 60, n % 60)
  {
    var m := Minute as int;
    var q := Quot(d as int, m);
    var r := Rem(d as int, m);
    RoundNonNegative(d, Minute);
    var t := Round(d, Minute) as int;
    var n := (d as int + 30_000_000_000) / 60_000_000_000;
    if 2 * r < m {
      assert t == m * q;
      DivUnique(m, q, r + 30_000_000_000);
      assert n == q;
    } else {
      assert t == m * (q + 1);
      assert d as int + 30_000_000_000 == m * (q + 1) + (r - 30_000_000_000);
      DivUnique(m, q + 1, r - 30_000_000_000);
      assert n == q + 1;
    }
    assert t == m * n;
    DivUnique(m, n, 0);
    var hm := ClockFields(Round(d, Minute));
    assert hm.0 * 60 + hm.1 == n;
    DivUnique(60, hm.0, hm.1);
  }

}
