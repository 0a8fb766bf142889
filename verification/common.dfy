/** Small value types and string helpers shared by the pipeline stages. */
module Common {

  /** Python's `None` / a SQL NULL on the left, a present value on the right. */
  datatype Option<+T> = None | Some(value: T) {
    /** The value, or `default` when there is none (Python's `d.get(key, default)`). */
    function GetOr(default: T): T {
      match this
      case Some(v) => v
      case None => default
    }
  }

  /** `p` is a prefix of `s` (Python's `s.startswith(p)`). */
  predicate StartsWith(s: string, p: string) {
    |p| <= |s| && s[..|p|] == p
  }

  /** `p` is a suffix of `s` (Python's `s.endswith(p)`). */
  predicate EndsWith(s: string, p: string) {
    |p| <= |s| && s[|s| - |p|..] == p
  }

  /** Python's slice `s[:n]` for a non-negative `n`: the first `n` characters, or all of `s` when it is shorter. */
  function Take(s: string, n: nat): (r: string)
    ensures |r| <= n && |r| <= |s|
    ensures |s| <= n ==> r == s
    ensures StartsWith(s, r)
    ensures |s| > n ==> |r| == n
  {
    if |s| <= n then s else s[..n]
  }

  /** The decimal digit character for `d`. */
  function DigitChar(d: nat): (c: char)
    requires d < 10
    ensures '0' <= c <= '9'
    ensures c as int - '0' as int == d
  {
    ['0', '1', '2', '3', '4', '5', '6', '7', '8', '9'][d]
  }

  /** 10 to the power `w`. */
  function Pow10(w: nat): (p: nat)
    ensures p >= 1
  {
    if w == 0 then 1 else 10 * Pow10(w - 1)
  }

  /** The number a string of decimal digits denotes. */
  function DigitsValue(s: string): int {
    if s == [] then 0 else 10 * DigitsValue(s[..|s| - 1]) + (s[|s| - 1] as int - '0' as int)
  }

  /**
   * `n` written with exactly `width` decimal digits, zero-padded on the left
   * (the `%Y` / `%m` / `%d` conversions of strftime). Only the last `width`
   * digits are kept when `n` has more.
   */
  function ZeroPad(n: nat, width: nat): (s: string)
    ensures |s| == width
  {
    if width == 0 then "" else ZeroPad(n / 10, width - 1) + [DigitChar(n % 10)]
  }

  /** A zero-padded number is made of decimal digits only. */
  lemma {:induction false} ZeroPadDigits(n: nat, width: nat)
    ensures forall i :: 0 <= i < width ==> '0' <= ZeroPad(n, width)[i] <= '9'
  {
    if width > 0 {
      ZeroPadDigits(n / 10, width - 1);
      var s := ZeroPad(n, width);
      assert forall i :: 0 <= i < width - 1 ==> s[i] == ZeroPad(n / 10, width - 1)[i];
    }
  }

  /** Reading a zero-padded number back gives the number whenever it fits the width. */
  lemma {:induction false} ZeroPadValue(n: nat, width: nat)
    requires n < Pow10(width)
    ensures DigitsValue(ZeroPad(n, width)) == n
  {
    if width > 0 {
      ZeroPadValue(n / 10, width - 1);
      var s := ZeroPad(n, width);
      assert s[..|s| - 1] == ZeroPad(n / 10, width - 1);
    }
  }

  /** Two numbers that fit the width have equal padded forms only when they are equal. */
  lemma ZeroPadInjective(a: nat, b: nat, width: nat)
    requires a < Pow10(width) && b < Pow10(width)
    requires ZeroPad(a, width) == ZeroPad(b, width)
    ensures a == b
  {
    ZeroPadValue(a, width);
    ZeroPadValue(b, width);
  }

  /** Updating a union at one key is the union with the updated right-hand map. */
  lemma UpdateAfterUnion<K, V>(a: map<K, V>, b: map<K, V>, k: K, v: V)
    ensures (a + b)[k := v] == a + b[k := v]
  {
  }

  /** The non-NULL values, in order. */
  function NonNull(xs: seq<Option<real>>): (ys: seq<real>)
    ensures |ys| <= |xs|
    ensures forall y :: y in ys <==> Some(y) in xs
  {
    if xs == [] then []
    else
      assert forall y :: Some(y) in xs <==> xs[0] == Some(y) || Some(y) in xs[1..];
      match xs[0]
      case Some(x) => [x] + NonNull(xs[1..])
      case None => NonNull(xs[1..])
  }

  /** The sum of a sequence of reals. */
  function Sum(xs: seq<real>): real {
    if xs == [] then 0.0 else xs[0] + Sum(xs[1..])
  }

  /** Filtering distributes over concatenation. */
  lemma {:induction false} NonNullAppend(xs: seq<Option<real>>, ys: seq<Option<real>>)
    ensures NonNull(xs + ys) == NonNull(xs) + NonNull(ys)
  {
    if xs != [] {
      assert (xs + ys)[0] == xs[0] && (xs + ys)[1..] == xs[1..] + ys;
      NonNullAppend(xs[1..], ys);
      var zs := xs + ys;
      match xs[0]
      case Some(x) =>
        assert NonNull(zs) == [x] + NonNull(zs[1..]);
        assert NonNull(xs) == [x] + NonNull(xs[1..]);
        assert [x] + (NonNull(xs[1..]) + NonNull(ys)) == ([x] + NonNull(xs[1..])) + NonNull(ys);
      case None =>
        assert NonNull(zs) == NonNull(zs[1..]);
        assert NonNull(xs) == NonNull(xs[1..]);
    } else {
      assert xs + ys == ys;
    }
  }

  /** A sum of values within [lo, hi] lies within [n * lo, n * hi]. */
  lemma {:induction false} SumBounds(xs: seq<real>, lo: real, hi: real)
    requires forall i :: 0 <= i < |xs| ==> lo <= xs[i] <= hi
    ensures |xs| as real * lo <= Sum(xs) <= |xs| as real * hi
  {
    if xs != [] {
      SumBounds(xs[1..], lo, hi);
    }
  }

  /** Adding one more value at the end adds it to the sum. */
  lemma {:induction false} SumSnoc(xs: seq<real>, x: real)
    ensures Sum(xs + [x]) == Sum(xs) + x
  {
    if xs == [] {
      assert [] + [x] == [x];
    } else {
      assert (xs + [x])[1..] == xs[1..] + [x];
      SumSnoc(xs[1..], x);
    }
  }

  /** The mean of values within [lo, hi] lies within [lo, hi]. */
  lemma MeanBounds(values: seq<real>, lo: real, hi: real)
    requires values != []
    requires forall i :: 0 <= i < |values| ==> lo <= values[i] <= hi
    ensures lo <= Sum(values) / |values| as real <= hi
  {
    var n := |values| as real;
    var total := Sum(values);
    SumBounds(values, lo, hi);
    var avg := total / n;
    assert avg * n == total;
    ScaleCancels(lo, avg, n);
    ScaleCancels(avg, hi, n);
  }

  /** Dividing both sides of an inequality by a positive number keeps it. */
  lemma ScaleCancels(a: real, b: real, n: real)
    requires n > 0.0 && a * n <= b * n
    ensures a <= b
  {
  }

  /** The non-NULL values keep the bounds of the column they come from. */
  lemma NonNullBounds(xs: seq<Option<real>>, lo: real, hi: real)
    requires forall i :: 0 <= i < |xs| && xs[i].Some? ==> lo <= xs[i].value <= hi
    ensures forall i :: 0 <= i < |NonNull(xs)| ==> lo <= NonNull(xs)[i] <= hi
  {
    var values := NonNull(xs);
    forall i | 0 <= i < |values| ensures lo <= values[i] <= hi {
      assert values[i] in values;
      var j :| 0 <= j < |xs| && xs[j] == Some(values[i]);
    }
  }
}
