/**
  The `%Y-%m-%d` text of a date and Python's ordering of strings (code point by
  code point, a proper prefix first), with `min` and `max` over a list of strings.
 */
module DateText {
  import opened Calendar

  function Pow10(w: nat): (p: nat)
    ensures p >= 1
  {
    if w == 0 then 1 else 10 * Pow10(w - 1)
  }

  function DigitChar(d: int): (c: char)
    requires 0 <= d <= 9
  {
    (48 + d) as char
  }

  /** The `w` decimal digits of `n`, zero padded on the left. */
  function Digits(n: int, w: nat): (s: string)
    requires 0 <= n < Pow10(w)
    ensures |s| == w
  {
    if w == 0 then [] else Digits(n / 10, w - 1) + [DigitChar(n % 10)]
  }

  /** `%Y-%m-%d`: four-digit year, two-digit month and day, separated by dashes. */
  function FormatDate(d: Date): (s: string)
    requires 0 <= d.year < 10000 && 1 <= d.month <= 12 && 1 <= d.day <= 31
    ensures |s| == 10 && s[4] == '-' && s[7] == '-'
  {
    Digits(d.year, 4) + "-" + Digits(d.month, 2) + "-" + Digits(d.day, 2)
  }

  /** Python's `a <= b` on strings. */
  predicate LexLe(a: string, b: string)
    decreases |a|
  {
    |a| == 0 || (|b| > 0 && (a[0] < b[0] || (a[0] == b[0] && LexLe(a[1..], b[1..]))))
  }

  lemma {:induction false} LexLeReflexive(a: string)
    ensures LexLe(a, a)
  {
    if |a| > 0 {
      LexLeReflexive(a[1..]);
    }
  }

  lemma {:induction false} LexLeTotal(a: string, b: string)
    ensures LexLe(a, b) || LexLe(b, a)
    decreases |a|
  {
    if |a| > 0 && |b| > 0 && a[0] == b[0] {
      LexLeTotal(a[1..], b[1..]);
    }
  }

  lemma {:induction false} LexLeAntisymmetric(a: string, b: string)
    requires LexLe(a, b) && LexLe(b, a)
    ensures a == b
    decreases |a|
  {
    if |a| > 0 {
      LexLeAntisymmetric(a[1..], b[1..]);
      assert a == [a[0]] + a[1..];
      assert b == [b[0]] + b[1..];
    }
  }

  lemma {:induction false} LexLeTransitive(a: string, b: string, c: string)
    requires LexLe(a, b) && LexLe(b, c)
    ensures LexLe(a, c)
    decreases |a|
  {
    if |a| > 0 && a[0] == b[0] && b[0] == c[0] {
      LexLeTransitive(a[1..], b[1..], c[1..]);
    }
  }

  /** Comparing two strings that start with equally long parts compares those parts first. */
  lemma {:induction false} LexLeAppend(x: string, y: string, x': string, y': string)
    requires |x| == |x'|
    ensures LexLe(x + y, x' + y') <==> (x != x' && LexLe(x, x')) || (x == x' && LexLe(y, y'))
    decreases |x|
  {
    if |x| > 0 {
      assert (x + y)[0] == x[0] && (x' + y')[0] == x'[0];
      assert (x + y)[1..] == x[1..] + y;
      assert (x' + y')[1..] == x'[1..] + y';
      LexLeAppend(x[1..], y, x'[1..], y');
      if x[0] == x'[0] {
        assert x == x' <==> x[1..] == x'[1..] by {
          assert x == [x[0]] + x[1..];
          assert x' == [x'[0]] + x'[1..];
        }
      }
    } else {
      assert x == x';
      assert x + y == y && x' + y' == y';
    }
  }

  /** Zero-padded digit strings of one width compare as the numbers they spell. */
  lemma {:induction false} DigitsOrder(a: int, b: int, w: nat)
    requires 0 <= a < Pow10(w) && 0 <= b < Pow10(w)
    ensures LexLe(Digits(a, w), Digits(b, w)) <==> a <= b
    ensures Digits(a, w) == Digits(b, w) <==> a == b
  {
    if w > 0 {
      var x, x' := Digits(a / 10, w - 1), Digits(b / 10, w - 1);
      var c, c' := DigitChar(a % 10), DigitChar(b % 10);
      DigitsOrder(a / 10, b / 10, w - 1);
      LexLeAppend(x, [c], x', [c']);
      assert LexLe([c], [c']) <==> a % 10 <= b % 10;
      if Digits(a, w) == Digits(b, w) {
        assert (x + [c])[..w - 1] == x && (x' + [c'])[..w - 1] == x';
        assert (x + [c])[w - 1] == c && (x' + [c'])[w - 1] == c';
      }
    }
  }

  /** The `%Y-%m-%d` texts of two dates compare as the dates do. */
  lemma FormatDateOrder(a: Date, b: Date)
    requires 0 <= a.year < 10000 && 1 <= a.month <= 12 && 1 <= a.day <= 31
    requires 0 <= b.year < 10000 && 1 <= b.month <= 12 && 1 <= b.day <= 31
    ensures LexLe(FormatDate(a), FormatDate(b)) <==> DateLe(a, b)
  {
    var ya, ma, da := Digits(a.year, 4), Digits(a.month, 2), Digits(a.day, 2);
    var yb, mb, db := Digits(b.year, 4), Digits(b.month, 2), Digits(b.day, 2);
    DigitsOrder(a.year, b.year, 4);
    DigitsOrder(a.month, b.month, 2);
    DigitsOrder(a.day, b.day, 2);
    assert FormatDate(a) == ya + ("-" + (ma + ("-" + da)));
    assert FormatDate(b) == yb + ("-" + (mb + ("-" + db)));
    LexLeAppend(ya, "-" + (ma + ("-" + da)), yb, "-" + (mb + ("-" + db)));
    LexLeAppend("-", ma + ("-" + da), "-", mb + ("-" + db));
    LexLeAppend(ma, "-" + da, mb, "-" + db);
    LexLeAppend("-", da, "-", db);
  }

  /** Python's `min` over a non-empty list of strings. */
  function LexMin(ss: seq<string>): (r: string)
    requires |ss| > 0
    ensures r in ss
    ensures forall s <- ss :: LexLe(r, s)
  {
    if |ss| == 1 then
      LexLeReflexive(ss[0]);
      ss[0]
    else
      var m := LexMin(ss[..|ss| - 1]);
      var x := ss[|ss| - 1];
      assert ss == ss[..|ss| - 1] + [x];
      LexLeTotal(x, m);
      LexLeReflexive(x);
      if LexLe(x, m) && x != m then
        assert forall s <- ss[..|ss| - 1] :: LexLe(x, s) by {
          forall s <- ss[..|ss| - 1] ensures LexLe(x, s) {
            LexLeTransitive(x, m, s);
          }
        }
        x
      else
        m
  }

  /** Python's `max` over a non-empty list of strings. */
  function LexMax(ss: seq<string>): (r: string)
    requires |ss| > 0
    ensures r in ss
    ensures forall s <- ss :: LexLe(s, r)
  {
    if |ss| == 1 then
      LexLeReflexive(ss[0]);
      ss[0]
    else
      var m := LexMax(ss[..|ss| - 1]);
      var x := ss[|ss| - 1];
      assert ss == ss[..|ss| - 1] + [x];
      LexLeTotal(x, m);
      LexLeReflexive(x);
      if LexLe(m, x) && x != m then
        assert forall s <- ss[..|ss| - 1] :: LexLe(s, x) by {
          forall s <- ss[..|ss| - 1] ensures LexLe(s, x) {
            LexLeTransitive(s, m, x);
          }
        }
        x
      else
        m
  }

  /** The least element of a list is its `min`. */
  lemma LexMinIs(ss: seq<string>, x: string)
    requires x in ss && forall s <- ss :: LexLe(x, s)
    ensures LexMin(ss) == x
  {
    LexLeAntisymmetric(x, LexMin(ss));
  }

  /** The greatest element of a list is its `max`. */
  lemma LexMaxIs(ss: seq<string>, x: string)
    requires x in ss && forall s <- ss :: LexLe(s, x)
    ensures LexMax(ss) == x
  {
    LexLeAntisymmetric(x, LexMax(ss));
  }
}
