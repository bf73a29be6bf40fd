/** The `"YYYY-MM"` key both aggregations of the analytics page group by:
    `${year}-${String(month).padStart(2, "0")}`. */
module MonthKeys {
  import opened Text

  /** The key of a statement's year and month. */
  function MonthKey(year: int, month: int): string {
    IntToDecimal(year) + "-" + PadStart(IntToDecimal(month), 2, '0')
  }

  predicate AllDigits(s: string) {
    forall k :: 0 <= k < |s| ==> '0' <= s[k] <= '9'
  }

  function Pow10(n: nat): (r: nat)
    ensures r >= 1
  {
    if n == 0 then 1 else 10 * Pow10(n - 1)
  }

  /** The number a string of decimal digits denotes. */
  function DigitsValue(s: string): nat
    requires AllDigits(s)
  {
    if |s| == 0 then 0 else 10 * DigitsValue(s[..|s| - 1]) + (s[|s| - 1] as int - '0' as int)
  }

  lemma {:induction false} DecimalValue(n: nat)
    ensures DigitsValue(NatToDecimal(n)) == n
  {
    if n >= 10 {
      var s := NatToDecimal(n);
      assert s[..|s| - 1] == NatToDecimal(n / 10);
      DecimalValue(n / 10);
    }
  }

  /** Reading the leading digit off the front. */
  lemma {:induction false} DigitsValueFront(s: string)
    requires AllDigits(s) && |s| > 0
    ensures DigitsValue(s) == (s[0] as int - '0' as int) * Pow10(|s| - 1) + DigitsValue(s[1..])
  {
    if |s| > 1 {
      var n := |s|;
      var init, tail := s[..n - 1], s[1..];
      var d0, dl := s[0] as int - '0' as int, s[n - 1] as int - '0' as int;
      var rest := DigitsValue(init[1..]);
      DigitsValueFront(init);
      assert init[0] == s[0];
      assert DigitsValue(init) == d0 * Pow10(n - 2) + rest;
      assert init[1..] == tail[..|tail| - 1];
      assert DigitsValue(tail) == 10 * rest + dl;
      assert Pow10(n - 1) == 10 * Pow10(n - 2);
      ShiftDigit(d0, Pow10(n - 2), rest);
    }
  }

  /** One more digit on the right scales the leading digit's weight. */
  lemma ShiftDigit(d: int, p: int, rest: int)
    ensures 10 * (d * p + rest) == d * (10 * p) + 10 * rest
  {
  }

  lemma {:induction false} DigitsValueBelow(s: string)
    requires AllDigits(s)
    ensures DigitsValue(s) < Pow10(|s|)
  {
    if |s| > 0 {
      DigitsValueBelow(s[..|s| - 1]);
    }
  }

  lemma {:induction false} Pow10Monotone(a: nat, b: nat)
    requires a <= b
    ensures Pow10(a) <= Pow10(b)
  {
    if a < b {
      Pow10Monotone(a, b - 1);
    }
  }

  /** A smaller leading digit outweighs anything the lower digits add. */
  lemma LeadingDigitDominates(da: int, db: int, p: int, ra: int, rb: int)
    requires 0 <= da < db && 0 <= ra < p && 0 <= rb
    ensures da * p + ra < db * p + rb
  {
    var g := db - da;
    assert db * p == da * p + g * p;
    AtLeastOnce(g, p);
  }

  lemma {:induction false} AtLeastOnce(g: int, p: int)
    requires g >= 1 && p >= 0
    ensures g * p >= p
  {
    if g > 1 {
      AtLeastOnce(g - 1, p);
      assert g * p == (g - 1) * p + p;
    }
  }

  /** On digit strings of one length, `<` is numeric order. */
  lemma {:induction false} LessIsNumeric(a: string, b: string)
    requires AllDigits(a) && AllDigits(b) && |a| == |b|
    ensures Less(a, b) <==> DigitsValue(a) < DigitsValue(b)
  {
    if |a| > 0 {
      DigitsValueFront(a);
      DigitsValueFront(b);
      DigitsValueBelow(a[1..]);
      DigitsValueBelow(b[1..]);
      var p := Pow10(|a| - 1);
      var da, db := a[0] as int - '0' as int, b[0] as int - '0' as int;
      if a[0] < b[0] {
        LeadingDigitDominates(da, db, p, DigitsValue(a[1..]), DigitsValue(b[1..]));
      } else if b[0] < a[0] {
        LeadingDigitDominates(db, da, p, DigitsValue(b[1..]), DigitsValue(a[1..]));
      } else {
        LessIsNumeric(a[1..], b[1..]);
      }
    }
  }

  /** A number between `10^(k-1)` and `10^k` prints with `k` digits. */
  lemma {:induction false} DecimalLength(n: nat, k: nat)
    requires k >= 1 && Pow10(k - 1) <= n < Pow10(k)
    ensures |NatToDecimal(n)| == k
  {
    if k > 1 {
      assert Pow10(k - 1) == 10 * Pow10(k - 2);
      assert n >= 10;
      DecimalLength(n / 10, k - 1);
    }
  }

  /** A year between 1000 and 9999 has four digits. */
  lemma FourDigits(n: nat)
    requires 1000 <= n <= 9999
    ensures |NatToDecimal(n)| == 4
  {
    assert Pow10(3) == 1000 && Pow10(4) == 10000;
    DecimalLength(n, 4);
  }

  /** The padded month below 100: two digits denoting the month. */
  lemma PaddedMonth(m: nat)
    requires m <= 99
    ensures var p := PadStart(NatToDecimal(m), 2, '0');
            |p| == 2 && AllDigits(p) && DigitsValue(p) == m
  {
    var s := NatToDecimal(m);
    DecimalValue(m);
    var p := PadStart(s, 2, '0');
    if m < 10 {
      assert s == [s[0]];
      assert p == ['0', s[0]];
      assert p[..1] == ['0'];
    } else {
      assert Pow10(1) == 10 && Pow10(2) == 100;
      DecimalLength(m, 2);
    }
  }

  /** Comparing two joined strings whose first parts have one length. */
  lemma {:induction false} LessAppend(p: string, s: string, q: string, t: string)
    requires |p| == |q|
    ensures Less(p + s, q + t) <==> Less(p, q) || (p == q && Less(s, t))
  {
    if |p| > 0 {
      assert (p + s)[0] == p[0] && (q + t)[0] == q[0];
      assert (p + s)[1..] == p[1..] + s && (q + t)[1..] == q[1..] + t;
      LessAppend(p[1..], s, q[1..], t);
      if p[0] == q[0] {
        assert p == q <==> p[1..] == q[1..] by {
          assert p == [p[0]] + p[1..] && q == [q[0]] + q[1..];
        }
      } else {
        assert p != q;
      }
    } else {
      assert p == [] && q == [];
      assert p + s == s && q + t == t;
    }
  }

  lemma KeyOfNaturals(y: nat, m: nat)
    ensures MonthKey(y, m) == NatToDecimal(y) + ("-" + PadStart(NatToDecimal(m), 2, '0'))
  {
    assert IntToDecimal(y) == NatToDecimal(y) && IntToDecimal(m) == NatToDecimal(m);
  }

  /** Joining a four-character year, a dash and a two-character month can
      be undone. */
  lemma KeyParts(a: string, ma: string, b: string, mb: string)
    requires |a| == 4 && |b| == 4 && |ma| == 2 && |mb| == 2
    ensures a + ("-" + ma) == b + ("-" + mb) <==> a == b && ma == mb
  {
    if a + ("-" + ma) == b + ("-" + mb) {
      assert a == (a + ("-" + ma))[..4];
      assert b == (b + ("-" + mb))[..4];
      assert ma == (a + ("-" + ma))[5..];
      assert mb == (b + ("-" + mb))[5..];
    }
  }

  /** Keys compare by year text first, then by month text. */
  lemma KeyCompare(a: string, ma: string, b: string, mb: string)
    requires |a| == |b| && |ma| == |mb|
    ensures Less(a + ("-" + ma), b + ("-" + mb)) <==> Less(a, b) || (a == b && Less(ma, mb))
  {
    LessAppend(a, "-" + ma, b, "-" + mb);
    LessAppend("-", ma, "-", mb);
  }

  /** The printed year and padded month of a statement in years 1000-9999. */
  lemma KeyDigits(y: int, m: int)
    requires 1000 <= y <= 9999 && 0 <= m <= 99
    ensures var a, ma := NatToDecimal(y), PadStart(NatToDecimal(m), 2, '0');
            && MonthKey(y, m) == a + ("-" + ma)
            && |a| == 4 && AllDigits(a) && DigitsValue(a) == y
            && |ma| == 2 && AllDigits(ma) && DigitsValue(ma) == m
  {
    FourDigits(y);
    DecimalValue(y);
    PaddedMonth(m);
    KeyOfNaturals(y, m);
  }

  /** For a four-digit year and a month below 100 the key reads back:
      four digits denoting the year, a dash, two digits denoting the month. */
  lemma MonthKeyReadsBack(y: int, m: int)
    requires 1000 <= y <= 9999 && 0 <= m <= 99
    ensures var key := MonthKey(y, m);
            && |key| == 7 && key[4] == '-'
            && AllDigits(key[..4]) && DigitsValue(key[..4]) == y
            && AllDigits(key[5..]) && DigitsValue(key[5..]) == m
  {
    var a, ma := NatToDecimal(y), PadStart(NatToDecimal(m), 2, '0');
    KeyDigits(y, m);
    var key := MonthKey(y, m);
    assert key[..4] == a;
    assert key[5..] == ma;
  }

  /** For four-digit years and months below 100 (every real statement),
      the string order of keys is chronological order: the ascending sort
      of the monthly series lists months oldest first. */
  lemma KeyOrderIsChronological(y1: int, m1: int, y2: int, m2: int)
    requires 1000 <= y1 <= 9999 && 1000 <= y2 <= 9999
    requires 0 <= m1 <= 99 && 0 <= m2 <= 99
    ensures Less(MonthKey(y1, m1), MonthKey(y2, m2)) <==> y1 < y2 || (y1 == y2 && m1 < m2)
  {
    var a, b := NatToDecimal(y1), NatToDecimal(y2);
    var ma, mb := PadStart(NatToDecimal(m1), 2, '0'), PadStart(NatToDecimal(m2), 2, '0');
    KeyDigits(y1, m1);
    KeyDigits(y2, m2);
    LessIsNumeric(a, b);
    LessIsNumeric(ma, mb);
    KeyCompare(a, ma, b, mb);
    assert a == b <==> y1 == y2;
  }

  /** In the same range the key determines the statement's year and month. */
  lemma KeyDeterminesMonth(y1: int, m1: int, y2: int, m2: int)
    requires 1000 <= y1 <= 9999 && 1000 <= y2 <= 9999
    requires 0 <= m1 <= 99 && 0 <= m2 <= 99
    ensures MonthKey(y1, m1) == MonthKey(y2, m2) <==> y1 == y2 && m1 == m2
  {
    var a, b := NatToDecimal(y1), NatToDecimal(y2);
    var ma, mb := PadStart(NatToDecimal(m1), 2, '0'), PadStart(NatToDecimal(m2), 2, '0');
    KeyDigits(y1, m1);
    KeyDigits(y2, m2);
    KeyParts(a, ma, b, mb);
  }
}
