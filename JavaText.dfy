/**
 * The pieces of `java.lang.String` and `java.util` text handling the
 * `toString` methods rely on: `Integer.toString`, the lexicographic order of
 * `String.compareTo`, a sorted set of strings (`TreeSet<String>` or
 * `Collections.sort` over distinct strings) and `String.join`.
 */
module JavaText {
  import opened Wrappers

  function DigitChar(d: int): (c: char)
    requires 0 <= d < 10
    ensures '0' <= c <= '9' && c as int - '0' as int == d
  {
    ('0' as int + d) as char
  }

  /** The decimal digits of a non-negative number, most significant first, with no leading zero. */
  function Digits(n: nat): (s: string)
    ensures |s| >= 1
    ensures forall i :: 0 <= i < |s| ==> '0' <= s[i] <= '9'
    ensures s[0] == '0' ==> n == 0
    decreases n
  {
    if n < 10 then [DigitChar(n)] else Digits(n / 10) + [DigitChar(n % 10)]
  }

  /** `Integer.toString` (and `%d`, and `StringBuilder.append(int)`): a minus sign for a negative number, then the digits. */
  function DecimalString(n: int): (s: string)
  {
    if n < 0 then "-" + Digits(-n) else Digits(n)
  }

  /** The value of a string of decimal digits. */
  function DigitsValue(s: string): (n: int)
    requires forall i :: 0 <= i < |s| ==> '0' <= s[i] <= '9'
    ensures n >= 0
  {
    if s == [] then 0 else 10 * DigitsValue(s[..|s| - 1]) + (s[|s| - 1] as int - '0' as int)
  }

  predicate AllDigits(s: string)
  {
    forall i :: 0 <= i < |s| ==> '0' <= s[i] <= '9'
  }

  /** Reading a decimal numeral back, as `Integer.parseInt` does for values in range: an optional minus sign, then at least one digit. */
  function ParseDecimal(s: string): (r: Option<int>)
    ensures r.Some? ==> s != []
  {
    if s != [] && s[0] == '-' && |s| > 1 && AllDigits(s[1..]) then Some(-DigitsValue(s[1..]))
    else if s != [] && AllDigits(s) then Some(DigitsValue(s))
    else None
  }

  lemma {:induction false} DigitsRoundTrip(n: nat)
    ensures DigitsValue(Digits(n)) == n
    decreases n
  {
    if n >= 10 {
      DigitsRoundTrip(n / 10);
      var s := Digits(n);
      assert s[..|s| - 1] == Digits(n / 10);
    }
  }

  /** Every `int` is rendered as a numeral that reads back as the same number, so the rendering loses nothing. */
  lemma DecimalRoundTrip(n: int)
    ensures ParseDecimal(DecimalString(n)) == Some(n)
  {
    if n < 0 {
      var m: nat := -n;
      var d := Digits(m);
      assert DecimalString(n) == "-" + d;
      DigitsRoundTrip(m);
      ParseNegative(d);
    } else {
      var d := Digits(n);
      assert DecimalString(n) == d;
      DigitsRoundTrip(n);
      ParseUnsigned(d);
    }
  }

  /** A minus sign followed by digits reads as the negated value of the digits. */
  lemma ParseNegative(d: string)
    requires |d| >= 1 && AllDigits(d)
    ensures ParseDecimal("-" + d) == Some(-DigitsValue(d))
  {
    var s := "-" + d;
    assert s[0] == '-' && s[1..] == d;
  }

  /** Digits alone read as their value. */
  lemma ParseUnsigned(d: string)
    requires |d| >= 1 && AllDigits(d)
    ensures ParseDecimal(d) == Some(DigitsValue(d))
  {
    assert '0' <= d[0] <= '9';
  }

  /** Distinct numbers are rendered differently. */
  lemma DecimalInjective(a: int, b: int)
    requires DecimalString(a) == DecimalString(b)
    ensures a == b
  {
    DecimalRoundTrip(a);
    DecimalRoundTrip(b);
  }

  /** `String.compareTo(...) < 0`: the first differing character decides, and a proper prefix comes first. */
  predicate StringLt(a: string, b: string)
  {
    if a == [] then b != []
    else if b == [] then false
    else a[0] < b[0] || (a[0] == b[0] && StringLt(a[1..], b[1..]))
  }

  lemma {:induction false} StringLtIrreflexive(a: string)
    ensures !StringLt(a, a)
  {
    if a != [] {
      StringLtIrreflexive(a[1..]);
    }
  }

  lemma {:induction false} StringLtTransitive(a: string, b: string, c: string)
    requires StringLt(a, b) && StringLt(b, c)
    ensures StringLt(a, c)
  {
    if a != [] && b != [] && c != [] && a[0] == b[0] && b[0] == c[0] {
      StringLtTransitive(a[1..], b[1..], c[1..]);
    }
  }

  lemma {:induction false} StringLtTotal(a: string, b: string)
    requires a != b
    ensures StringLt(a, b) || StringLt(b, a)
  {
    if a != [] && b != [] && a[0] == b[0] {
      assert a == [a[0]] + a[1..] && b == [b[0]] + b[1..];
      StringLtTotal(a[1..], b[1..]);
    }
  }

  lemma StringLtAsymmetric(a: string, b: string)
    requires StringLt(a, b)
    ensures !StringLt(b, a)
  {
    if StringLt(b, a) {
      StringLtTransitive(a, b, a);
      StringLtIrreflexive(a);
    }
  }

  predicate IsLeast(m: string, xs: set<string>)
  {
    m in xs && forall y :: y in xs && y != m ==> StringLt(m, y)
  }

  lemma {:induction false} LeastStringExists(xs: set<string>)
    requires xs != {}
    ensures exists m :: IsLeast(m, xs)
    decreases |xs|
  {
    var x :| x in xs;
    if xs == {x} {
      assert IsLeast(x, xs);
    } else {
      var rest := xs - {x};
      LeastStringExists(rest);
      var m :| IsLeast(m, rest);
      if StringLt(m, x) {
        assert IsLeast(m, xs);
      } else {
        StringLtTotal(m, x);
        forall y | y in xs && y != x ensures StringLt(x, y) {
          if y != m {
            StringLtTransitive(x, m, y);
          }
        }
        assert IsLeast(x, xs);
      }
    }
  }

  /** The smallest string of a non-empty set. */
  function LeastString(xs: set<string>): (m: string)
    requires xs != {}
    ensures IsLeast(m, xs)
  {
    LeastStringExists(xs);
    var m :| IsLeast(m, xs);
    forall m' | IsLeast(m', xs) ensures m' == m {
      if m' != m {
        StringLtAsymmetric(m, m');
      }
    }
    m
  }

  /**
   * The strings of a set, each once, in ascending `compareTo` order: what a
   * `TreeSet<String>` iterates, and what `Collections.sort` leaves in a list
   * copied from a set.
   */
  function SortedStrings(xs: set<string>): (s: seq<string>)
    ensures |s| == |xs|
    ensures forall x :: x in s <==> x in xs
    ensures forall i, j :: 0 <= i < j < |s| ==> StringLt(s[i], s[j])
    decreases |xs|
  {
    if xs == {} then []
    else
      var m := LeastString(xs);
      var rest := SortedStrings(xs - {m});
      assert forall j :: 0 <= j < |rest| ==> rest[j] in rest;
      assert forall j :: 0 <= j < |rest| ==> StringLt(m, rest[j]);
      [m] + rest
  }

  /** `String.join(sep, xs)`: the strings with `sep` between each two neighbours. */
  function Join(sep: string, xs: seq<string>): string
  {
    if xs == [] then ""
    else if |xs| == 1 then xs[0]
    else Join(sep, xs[..|xs| - 1]) + sep + xs[|xs| - 1]
  }

  /** The decimal renderings of a list of numbers. */
  function Decimals(ns: seq<int>): seq<string>
  {
    seq(|ns|, i requires 0 <= i < |ns| => DecimalString(ns[i]))
  }

  /**
   * The `StringBuilder` loop the `toString` methods share: append every item,
   * and `", "` after each but the last.
   */
  method AppendJoined(sb: string, xs: seq<string>) returns (r: string)
    ensures r == sb + Join(", ", xs)
  {
    r := sb;
    var i := 0;
    while i < |xs|
      invariant 0 <= i <= |xs|
      invariant r == sb + Join(", ", xs[..i]) + (if 0 < i < |xs| then ", " else "")
    {
      assert xs[..i + 1][..i] == xs[..i];
      r := r + xs[i];
      if i < |xs| - 1 {
        r := r + ", ";
      }
      i := i + 1;
    }
    assert xs[..i] == xs;
  }
}
