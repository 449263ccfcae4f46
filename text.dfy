/**
 * Strings as the reporting queries produce and order them: decimal
 * numerals (`str(int)`, MySQL's number-to-string conversion), zero-padded
 * fixed-width numerals (`%Y`, `%m`, ISO dates) and the binary
 * lexicographic order in which `ORDER BY` sorts the period labels.
 */
module Text {

  /** Lexicographic order on strings, character by character; a proper prefix comes first. */
  predicate Less(a: string, b: string)
    decreases |a|
  {
    if a == [] then b != []
    else b != [] && (a[0] < b[0] || (a[0] == b[0] && Less(a[1..], b[1..])))
  }

  lemma {:induction false} LessIrreflexive(a: string)
    ensures !Less(a, a)
  {
    if a != [] {
      LessIrreflexive(a[1..]);
    }
  }

  lemma {:induction false} LessTransitive(a: string, b: string, c: string)
    requires Less(a, b) && Less(b, c)
    ensures Less(a, c)
  {
    if a != [] && a[0] == b[0] && b[0] == c[0] {
      LessTransitive(a[1..], b[1..], c[1..]);
    }
  }

  /** Any two different strings are ordered one way or the other. */
  lemma {:induction false} LessTotal(a: string, b: string)
    ensures a == b || Less(a, b) || Less(b, a)
  {
    if a != [] && b != [] && a[0] == b[0] {
      LessTotal(a[1..], b[1..]);
      if a[1..] == b[1..] {
        assert a == [a[0]] + a[1..];
        assert b == [b[0]] + b[1..];
      }
    }
  }

  /**
   * Comparing two concatenations whose first parts have the same length
   * compares the first parts, and the second parts only on a tie.
   */
  lemma {:induction false} LessConcat(x1: string, y1: string, x2: string, y2: string)
    requires |x1| == |x2|
    ensures Less(x1 + y1, x2 + y2) <==> Less(x1, x2) || (x1 == x2 && Less(y1, y2))
  {
    if x1 == [] {
      assert x1 + y1 == y1 && x2 + y2 == y2;
    } else {
      assert (x1 + y1)[0] == x1[0] && (x2 + y2)[0] == x2[0];
      assert (x1 + y1)[1..] == x1[1..] + y1;
      assert (x2 + y2)[1..] == x2[1..] + y2;
      LessConcat(x1[1..], y1, x2[1..], y2);
      if x1[0] == x2[0] && x1[1..] == x2[1..] {
        assert x1 == [x1[0]] + x1[1..] && x2 == [x2[0]] + x2[1..];
      }
      if x1 == x2 {
        LessIrreflexive(x1);
      }
    }
  }

  // ---------------------------------------------------------------------
  // Decimal numerals

  predicate IsDigit(c: char) { '0' <= c <= '9' }

  predicate AllDigits(s: string) { forall i :: 0 <= i < |s| ==> IsDigit(s[i]) }

  function DigitChar(d: nat): (c: char)
    requires d < 10
    ensures IsDigit(c) && c as int - '0' as int == d
  {
    ('0' as int + d) as char
  }

  function DigitValue(c: char): (d: nat)
    requires IsDigit(c)
    ensures d < 10
  {
    c as int - '0' as int
  }

  function Pow10(k: nat): (p: nat)
    ensures p >= 1
  {
    if k == 0 then 1 else 10 * Pow10(k - 1)
  }

  /** The shortest decimal numeral of `n`, as `str(n)` and MySQL print it. */
  function Decimal(n: nat): (s: string)
    ensures 1 <= |s| && AllDigits(s)
    decreases n
  {
    if n < 10 then [DigitChar(n)] else Decimal(n / 10) + [DigitChar(n % 10)]
  }

  /** The value of a string of digits. */
  function Parse(s: string): nat
    requires AllDigits(s)
    decreases |s|
  {
    if s == [] then 0 else Parse(s[..|s| - 1]) * 10 + DigitValue(s[|s| - 1])
  }

  /** Reading back a printed numeral gives the number. */
  lemma {:induction false} ParseDecimal(n: nat)
    ensures Parse(Decimal(n)) == n
  {
    if n >= 10 {
      var s := Decimal(n);
      assert s[..|s| - 1] == Decimal(n / 10);
      ParseDecimal(n / 10);
    }
  }

  lemma DecimalInjective(a: nat, b: nat)
    ensures Decimal(a) == Decimal(b) <==> a == b
  {
    ParseDecimal(a);
    ParseDecimal(b);
  }

  /** A numeral below 10^k takes at most k digits. */
  lemma {:induction false} DecimalLength(n: nat, k: nat)
    requires 1 <= k && n < Pow10(k)
    ensures |Decimal(n)| <= k
  {
    if n >= 10 {
      DecimalLength(n / 10, k - 1);
    }
  }

  /** Every string of k digits denotes a number below 10^k. */
  lemma {:induction false} ParseBound(s: string)
    requires AllDigits(s)
    ensures Parse(s) < Pow10(|s|)
  {
    if s != [] {
      ParseBound(s[..|s| - 1]);
    }
  }

  /** Appending a digit to a concatenation shifts both of its parts. */
  lemma ShiftDigits(high: nat, low: nat, p: nat, last: nat)
    ensures (high * p + low) * 10 + last == high * (p * 10) + (low * 10 + last)
  {
  }

  lemma {:induction false} ParseConcat(a: string, b: string)
    requires AllDigits(a) && AllDigits(b)
    ensures AllDigits(a + b)
    ensures Parse(a + b) == Parse(a) * Pow10(|b|) + Parse(b)
  {
    assert AllDigits(a + b) by {
      forall i | 0 <= i < |a + b| ensures IsDigit((a + b)[i]) {
        if i >= |a| { assert (a + b)[i] == b[i - |a|]; }
      }
    }
    if b == [] {
      assert a + b == a;
    } else {
      var b' := b[..|b| - 1];
      assert (a + b)[..|a + b| - 1] == a + b';
      ParseConcat(a, b');
      var pa, pb', p', last := Parse(a), Parse(b'), Pow10(|b'|), DigitValue(b[|b| - 1]);
      assert Pow10(|b|) == p' * 10;
      assert Parse(b) == pb' * 10 + last;
      assert Parse(a + b) == Parse(a + b') * 10 + last;
      ShiftDigits(pa, pb', p', last);
    }
  }

  function Zeros(k: nat): (s: string)
    ensures |s| == k && AllDigits(s)
  {
    seq(k, _ => '0')
  }

  lemma {:induction false} ParseZeros(k: nat)
    ensures Parse(Zeros(k)) == 0
  {
    if k > 0 {
      assert Zeros(k)[..k - 1] == Zeros(k - 1);
      ParseZeros(k - 1);
    }
  }

  /** The numeral of `n` left-padded with zeros to `width` digits (`%Y`, `%m`, `%d`). */
  function Fixed(n: nat, width: nat): (s: string)
    ensures AllDigits(s) && width <= |s|
  {
    var d := Decimal(n);
    if |d| < width then Zeros(width - |d|) + d else d
  }

  /** A number below 10^width prints in exactly `width` digits and reads back as itself. */
  lemma FixedRoundTrip(n: nat, width: nat)
    requires 1 <= width && n < Pow10(width)
    ensures |Fixed(n, width)| == width && Parse(Fixed(n, width)) == n
  {
    var d := Decimal(n);
    DecimalLength(n, width);
    ParseDecimal(n);
    if |d| < width {
      var z := Zeros(width - |d|);
      assert Fixed(n, width) == z + d;
      ParseConcat(z, d);
      ParseZeros(width - |d|);
      assert Parse(z + d) == 0 * Pow10(|d|) + n;
    }
  }

  /** A smaller leading digit outweighs whatever follows it. */
  lemma LeadingDigit(da: nat, db: nat, x: nat, y: nat, p: nat)
    requires da < db && x < p
    ensures da * p + x < db * p + y
  {
    assert (da + 1) * p <= db * p by {
      var k := db - (da + 1);
      assert db * p == (da + 1) * p + k * p;
    }
  }

  /** On strings of digits of equal length, the text order is the numeric order. */
  lemma {:induction false} DigitsOrder(a: string, b: string)
    requires AllDigits(a) && AllDigits(b) && |a| == |b|
    ensures Less(a, b) <==> Parse(a) < Parse(b)
  {
    if a != [] {
      var a', b' := a[1..], b[1..];
      assert a == [a[0]] + a' && b == [b[0]] + b';
      SplitHead(a);
      SplitHead(b);
      var da, db := DigitValue(a[0]), DigitValue(b[0]);
      ParseBound(a');
      ParseBound(b');
      if da < db {
        LeadingDigit(da, db, Parse(a'), Parse(b'), Pow10(|a'|));
      } else if db < da {
        LeadingDigit(db, da, Parse(b'), Parse(a'), Pow10(|a'|));
      } else {
        DigitsOrder(a', b');
      }
    }
  }

  /** A non-empty digit string is its leading digit times a power of ten plus the rest. */
  lemma SplitHead(s: string)
    requires AllDigits(s) && s != []
    ensures Parse(s) == DigitValue(s[0]) * Pow10(|s| - 1) + Parse(s[1..])
  {
    var d := DigitValue(s[0]);
    assert s == [s[0]] + s[1..];
    ParseConcat([s[0]], s[1..]);
    assert Parse([s[0]]) == d by { assert [s[0]][..0] == []; }
  }
}
