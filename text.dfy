/**
 * The text operations the pipeline relies on: Go's `strings.Join`, its inverse
 * splitting at a one-character separator, and the decimal rendering SQLite uses
 * when `GROUP_CONCAT` turns an INTEGER column into text.
 */
module Text {

  /** `strings.Join(xs, sep)`: the elements with `sep` between neighbours, never after the last. */
  function Join(xs: seq<string>, sep: string): string
  {
    if |xs| == 0 then ""
    else if |xs| == 1 then xs[0]
    else xs[0] + sep + Join(xs[1..], sep)
  }

  /** Cuts `s` at every occurrence of `c`; like Go's `strings.Split`, "" gives [""]. */
  function Split(s: string, c: char): (r: seq<string>)
    ensures |r| >= 1
  {
    if |s| == 0 then [""]
    else
      var rest := Split(s[1..], c);
      if s[0] == c then [""] + rest else [[s[0]] + rest[0]] + rest[1..]
  }

  predicate Free(s: string, c: char)
  {
    forall i :: 0 <= i < |s| ==> s[i] != c
  }

  /** The digit character of `d`. */
  function Digit(d: nat): (r: char)
    requires d < 10
    ensures '0' <= r <= '9'
    ensures DigitValue(r) == d
  {
    ['0', '1', '2', '3', '4', '5', '6', '7', '8', '9'][d]
  }

  /** Canonical base-10 text: non-empty, digits only, and no leading zero unless it is "0" itself. */
  predicate CanonicalDecimal(s: string)
  {
    && |s| >= 1
    && (forall i :: 0 <= i < |s| ==> '0' <= s[i] <= '9')
    && (|s| == 1 || s[0] != '0')
  }

  /** Base-10 text of `n`, no sign and no leading zeros. */
  function Decimal(n: nat): (r: string)
    ensures |r| >= 1
    ensures forall i :: 0 <= i < |r| ==> '0' <= r[i] <= '9'
    ensures n > 0 ==> r[0] != '0'
    ensures CanonicalDecimal(r)
  {
    if n < 10 then [Digit(n)] else Decimal(n / 10) + [Digit(n % 10)]
  }

  /** The number a digit character stands for. */
  function DigitValue(c: char): int
  {
    c as int - '0' as int
  }

  /** The number a digit string denotes in base 10, most significant digit first. */
  function DigitsValue(s: string): int
  {
    if |s| == 0 then 0 else DigitsValue(s[..|s| - 1]) * 10 + DigitValue(s[|s| - 1])
  }

  /** The decimal text of `n` denotes `n`. */
  lemma {:induction false} DecimalValue(n: nat)
    ensures DigitsValue(Decimal(n)) == n
  {
    if n < 10 {
      assert [Digit(n)][..0] == [];
    } else {
      DecimalValue(n / 10);
      var s := Decimal(n / 10);
      assert (s + [Digit(n % 10)])[..|s|] == s;
    }
  }

  lemma DecimalValueAll()
    ensures forall n: nat :: DigitsValue(Decimal(n)) == n
  {
    forall n: nat ensures DigitsValue(Decimal(n)) == n {
      DecimalValue(n);
    }
  }

  /** Distinct numbers have distinct decimal texts. */
  lemma DecimalInjective(m: nat, n: nat)
    ensures Decimal(m) == Decimal(n) ==> m == n
  {
    DecimalValue(m);
    DecimalValue(n);
  }

  lemma DivModTen(v: nat, d: nat)
    requires d < 10
    ensures (v * 10 + d) / 10 == v && (v * 10 + d) % 10 == d
  {
  }

  /** Appending a digit multiplies the value by ten and adds the digit. */
  lemma DigitsValueSnoc(s: string, c: char)
    ensures DigitsValue(s + [c]) == DigitsValue(s) * 10 + DigitValue(c)
  {
    assert (s + [c])[..|s|] == s;
  }

  /** A canonical text is the decimal text of the number it denotes. */
  lemma {:induction false} CanonicalIsDecimal(s: string)
    requires CanonicalDecimal(s)
    ensures DigitsValue(s) >= 0
    ensures s == Decimal(DigitsValue(s))
  {
    var front, c := s[..|s| - 1], s[|s| - 1];
    var d := DigitValue(c);
    assert s == front + [c];
    assert Digit(d) == c;
    DigitsValueSnoc(front, c);
    if |s| > 1 {
      assert front[0] == s[0];
      CanonicalIsDecimal(front);
      var v := DigitsValue(front);
      assert v != 0 by {
        assert Decimal(0) == ['0'];
      }
      DivModTen(v, d);
    }
  }

  /** Canonical texts of the same number are the same text: the rendering is unique. */
  lemma CanonicalUnique(s: string, t: string)
    requires CanonicalDecimal(s) && CanonicalDecimal(t)
    requires DigitsValue(s) == DigitsValue(t)
    ensures s == t
  {
    CanonicalIsDecimal(s);
    CanonicalIsDecimal(t);
  }

  lemma {:induction false} JoinEmptyAndSingle(x: string, sep: string)
    ensures Join([], sep) == ""
    ensures Join([x], sep) == x
  {
  }

  /** Adding an element at the end adds one separator and that element. */
  lemma {:induction false} JoinSnoc(xs: seq<string>, y: string, sep: string)
    requires |xs| >= 1
    ensures Join(xs + [y], sep) == Join(xs, sep) + sep + y
  {
    if |xs| == 1 {
      assert xs + [y] == [xs[0], y];
      assert [xs[0], y][1..] == [y];
    } else {
      assert (xs + [y])[1..] == xs[1..] + [y];
      JoinSnoc(xs[1..], y, sep);
    }
  }

  lemma {:induction false} SplitFree(x: string, c: char)
    requires Free(x, c)
    ensures Split(x, c) == [x]
  {
    if |x| > 0 {
      SplitFree(x[1..], c);
      assert [x[0]] + x[1..] == x;
    }
  }

  lemma {:induction false} SplitAfterFree(x: string, c: char, t: string)
    requires Free(x, c)
    ensures Split(x + [c] + t, c) == [x] + Split(t, c)
  {
    if |x| == 0 {
      assert x + [c] + t == [c] + t;
      assert ([c] + t)[1..] == t;
    } else {
      assert (x + [c] + t)[1..] == x[1..] + [c] + t;
      SplitAfterFree(x[1..], c, t);
      assert [x[0]] + x[1..] == x;
    }
  }

  /** Splitting undoes joining, provided the list is non-empty and no element holds the separator. */
  lemma {:induction false} SplitJoin(xs: seq<string>, c: char)
    requires |xs| >= 1
    requires forall i :: 0 <= i < |xs| ==> Free(xs[i], c)
    ensures Split(Join(xs, [c]), c) == xs
  {
    if |xs| == 1 {
      SplitFree(xs[0], c);
    } else {
      SplitJoin(xs[1..], c);
      assert xs[0] + [c] + Join(xs[1..], [c]) == Join(xs, [c]);
      SplitAfterFree(xs[0], c, Join(xs[1..], [c]));
      assert [xs[0]] + xs[1..] == xs;
    }
  }

  lemma DecimalFree(n: nat, c: char)
    requires !('0' <= c <= '9')
    ensures Free(Decimal(n), c)
  {
  }
}
