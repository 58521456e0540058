// Shared value types and Python built-in behaviour used throughout the model:
// optional values, results, IEEE-style extended quotients, sums and means,
// ASCII string helpers and integer formatting as `str(int)` and `f"{n:0Wd}"` do it.
module Common {

  /** A value that may be absent; for floating point columns None stands for NaN. */
  datatype Option<T> = None | Some(value: T)

  /** The outcome of an operation that raises in the source. */
  datatype Result<T> = Ok(value: T) | Err(error: string)

  // ---------------------------------------------------------------------------
  // Extended reals: what a floating point quotient can evaluate to.
  // ---------------------------------------------------------------------------

  /** A float as pandas/numpy arithmetic produces it: finite, +-infinity, or NaN. */
  datatype Float = Fin(v: real) | Inf(negative: bool) | NaN

  /** IEEE division of two finite values: x/0 is +-inf for x != 0 and NaN for 0/0. */
  function FDiv(a: real, b: real): (r: Float)
    ensures b != 0.0 <==> r.Fin?
    ensures r.Fin? ==> r.v * b == a
    ensures r.NaN? <==> (a == 0.0 && b == 0.0)
    ensures r.Inf? ==> (r.negative <==> a < 0.0)
  {
    if b != 0.0 then Fin(a / b)
    else if a > 0.0 then Inf(false)
    else if a < 0.0 then Inf(true)
    else NaN
  }

  /** IEEE addition on the extended values. */
  function FAdd(x: Float, y: Float): Float
  {
    match (x, y)
    case (NaN, _) => NaN
    case (_, NaN) => NaN
    case (Inf(p), Inf(q)) => if p == q then Inf(p) else NaN
    case (Inf(p), Fin(_)) => Inf(p)
    case (Fin(_), Inf(q)) => Inf(q)
    case (Fin(a), Fin(b)) => Fin(a + b)
  }

  function FSum(s: seq<Float>): Float
  {
    if s == [] then Fin(0.0) else FAdd(FSum(s[..|s| - 1]), s[|s| - 1])
  }

  /**
   * numpy's mean of a float list: the sum divided by the count. The mean of an empty
   * list is NaN, and an infinite or NaN sum is the mean itself.
   */
  function FMean(s: seq<Float>): (r: Float)
    ensures s == [] ==> r.NaN?
    ensures s != [] && FSum(s).Fin? ==> r.Fin? && r.v * |s| as real == FSum(s).v
    ensures s != [] && !FSum(s).Fin? ==> r == FSum(s)
  {
    if s == [] then NaN
    else match FSum(s)
      case Fin(t) => Fin(t / |s| as real)
      case Inf(p) => Inf(p)
      case NaN => NaN
  }

  lemma {:induction false} FSumFinite(s: seq<Float>)
    requires forall k :: 0 <= k < |s| ==> s[k].Fin?
    ensures FSum(s).Fin?
  {
    if s != [] { FSumFinite(s[..|s| - 1]); }
  }

  /** A NaN anywhere in the list makes numpy's mean NaN. */
  lemma {:induction false} FMeanNaNAbsorbs(s: seq<Float>, k: nat)
    requires k < |s| && s[k].NaN?
    ensures FMean(s).NaN?
  {
    FSumNaN(s, k);
  }

  lemma {:induction false} FSumNaN(s: seq<Float>, k: nat)
    requires k < |s| && s[k].NaN?
    ensures FSum(s).NaN?
  {
    if k < |s| - 1 { FSumNaN(s[..|s| - 1], k); }
  }

  /** `x < lim` for an extended value: infinities compare, NaN compares false. */
  predicate FLess(x: Float, lim: real)
  {
    match x
    case Fin(a) => a < lim
    case Inf(neg) => neg
    case NaN => false
  }

  // ---------------------------------------------------------------------------
  // Sums and means over reals.
  // ---------------------------------------------------------------------------

  function Sum(s: seq<real>): real
  {
    if s == [] then 0.0 else Sum(s[..|s| - 1]) + s[|s| - 1]
  }

  /** numpy's mean: the sum over the count, NaN (None) for an empty list. */
  function Mean(s: seq<real>): (r: Option<real>)
    ensures r.Some? <==> |s| > 0
    ensures r.Some? ==> r.value * |s| as real == Sum(s)
  {
    if |s| == 0 then None else Some(Sum(s) / |s| as real)
  }

  /** A prefix one longer is the prefix followed by the next element. */
  lemma PrefixStep<T>(s: seq<T>, j: nat)
    requires j < |s|
    ensures s[..j + 1] == s[..j] + [s[j]]
  {
    var left, right := s[..j + 1], s[..j] + [s[j]];
    forall i | 0 <= i < j + 1
      ensures left[i] == right[i]
    {
    }
    assert left == right;
  }

  /** Dropping the last element of `a + d` drops it from `d`. */
  lemma DropLast<T>(a: seq<T>, d: seq<T>)
    requires d != []
    ensures (a + d)[..|a + d| - 1] == a + d[..|d| - 1]
    ensures d == d[..|d| - 1] + [d[|d| - 1]]
  {
    var left, right := (a + d)[..|a + d| - 1], a + d[..|d| - 1];
    forall i | 0 <= i < |left|
      ensures left[i] == right[i]
    {
    }
    assert left == right;
    PrefixStep(d, |d| - 1);
    assert d[..|d|] == d;
  }

  lemma {:induction false} SumAppend(s: seq<real>, t: seq<real>)
    ensures Sum(s + t) == Sum(s) + Sum(t)
  {
    if t == [] {
      assert s + t == s;
    } else {
      assert (s + t)[..|s + t| - 1] == s + t[..|t| - 1];
      SumAppend(s, t[..|t| - 1]);
    }
  }

  /** Every element in [lo, hi] bounds the sum by |s|*lo and |s|*hi. */
  lemma {:induction false} SumBounds(s: seq<real>, lo: real, hi: real)
    requires forall k :: 0 <= k < |s| ==> lo <= s[k] <= hi
    ensures |s| as real * lo <= Sum(s) <= |s| as real * hi
  {
    if s != [] {
      SumBounds(s[..|s| - 1], lo, hi);
    }
  }

  /** The squares of a list, element by element. */
  function Squares(s: seq<real>): (r: seq<real>)
    ensures |r| == |s|
  {
    if s == [] then [] else Squares(s[..|s| - 1]) + [s[|s| - 1] * s[|s| - 1]]
  }

  /** The deviations of a list from m, element by element. */
  function Shifted(s: seq<real>, m: real): (r: seq<real>)
    ensures |r| == |s|
  {
    if s == [] then [] else Shifted(s[..|s| - 1], m) + [s[|s| - 1] - m]
  }

  lemma DivMonotone(a: real, b: real, n: real)
    requires n > 0.0 && a <= b
    ensures a / n <= b / n
  {
    assert b / n - a / n == (b - a) / n;
  }

  /** A sum of squares is never negative. */
  lemma {:induction false} SumOfSquaresNonNegative(s: seq<real>)
    ensures Sum(Squares(s)) >= 0.0
  {
    if s != [] {
      SumOfSquaresNonNegative(s[..|s| - 1]);
      var e := s[|s| - 1];
      assert e * e >= 0.0;
    }
  }

  /**
   * pandas' Series.std() before its square root: the ddof=1 variance, the sum of squared
   * deviations from the mean over n - 1, and NaN (None) for fewer than two values.
   */
  function PandasVariance(s: seq<real>): (r: Option<real>)
    ensures r.Some? <==> |s| >= 2
    ensures r.Some? ==> r.value * (|s| - 1) as real == Sum(Squares(Shifted(s, Mean(s).value)))
  {
    if |s| < 2 then None else Some(Sum(Squares(Shifted(s, Mean(s).value))) / (|s| - 1) as real)
  }

  /** The variance pandas computes is never negative, so its square root, the std, exists. */
  lemma PandasVarianceNonNegative(s: seq<real>)
    requires |s| >= 2
    ensures PandasVariance(s).value >= 0.0
  {
    SumOfSquaresNonNegative(Shifted(s, Mean(s).value));
    DivMonotone(0.0, Sum(Squares(Shifted(s, Mean(s).value))), (|s| - 1) as real);
  }

  /** A list of equal values has variance 0: a lone repeated answer draws no error bar. */
  lemma {:induction false} PandasVarianceOfConstant(s: seq<real>, x: real)
    requires |s| >= 2 && forall k | 0 <= k < |s| :: s[k] == x
    ensures PandasVariance(s) == Some(0.0)
  {
    ConstantSum(s, x);
    assert Mean(s).value == x;
    ShiftedConstantIsZero(s, x);
  }

  lemma {:induction false} ConstantSum(s: seq<real>, x: real)
    requires forall k | 0 <= k < |s| :: s[k] == x
    ensures Sum(s) == |s| as real * x
  {
    if s != [] {
      ConstantSum(s[..|s| - 1], x);
    }
  }

  lemma {:induction false} ShiftedConstantIsZero(s: seq<real>, x: real)
    requires forall k | 0 <= k < |s| :: s[k] == x
    ensures Sum(Squares(Shifted(s, x))) == 0.0
  {
    if s != [] {
      ShiftedConstantIsZero(s[..|s| - 1], x);
    }
  }

  /** The mean of values in [lo, hi] is in [lo, hi]. */
  lemma MeanBounds(s: seq<real>, lo: real, hi: real)
    requires |s| > 0
    requires forall k :: 0 <= k < |s| ==> lo <= s[k] <= hi
    ensures lo <= Mean(s).value <= hi
  {
    SumBounds(s, lo, hi);
    var n := |s| as real;
    assert Mean(s).value == Sum(s) / n;
    assert n * lo <= Sum(s) <= n * hi;
    DivBounds(Sum(s), n, lo, hi);
  }

  lemma DivBounds(t: real, n: real, lo: real, hi: real)
    requires n > 0.0 && n * lo <= t <= n * hi
    ensures lo <= t / n <= hi
  {
    assert t / n - lo == (t - n * lo) / n;
    assert hi - t / n == (n * hi - t) / n;
  }

  function Abs(x: real): (r: real)
    ensures r >= 0.0 && (r == x || r == -x)
  {
    if x < 0.0 then -x else x
  }

  function AbsAll(s: seq<real>): (r: seq<real>)
    ensures |r| == |s| && forall k :: 0 <= k < |s| ==> r[k] == Abs(s[k])
  {
    if s == [] then [] else AbsAll(s[..|s| - 1]) + [Abs(s[|s| - 1])]
  }

  /** Triangle inequality for a sum: |sum e| <= sum |e|. */
  lemma {:induction false} AbsSumLeSumAbs(s: seq<real>)
    ensures Abs(Sum(s)) <= Sum(AbsAll(s))
  {
    if s != [] {
      AbsSumLeSumAbs(s[..|s| - 1]);
      assert AbsAll(s)[..|s| - 1] == AbsAll(s[..|s| - 1]);
    }
  }

  // ---------------------------------------------------------------------------
  // Rounding as Python's round(): ties go to the even neighbour.
  // ---------------------------------------------------------------------------

  function RoundHalfEven(x: real): (r: int)
    ensures Abs(r as real - x) <= 0.5
    ensures Abs(r as real - x) < 0.5 || r % 2 == 0
  {
    var f := x.Floor;
    var d := x - f as real;
    if d < 0.5 then f
    else if d > 0.5 then f + 1
    else if f % 2 == 0 then f
    else f + 1
  }

  /** Rounding never leaves an interval whose ends are whole numbers. */
  lemma RoundStaysBetweenIntegers(x: real, lo: int, hi: int)
    requires lo as real <= x <= hi as real
    ensures lo <= RoundHalfEven(x) <= hi
  {
  }

  /** int(x) for a float: truncation toward zero. */
  function Trunc(x: real): (r: int)
    ensures Abs(r as real) <= Abs(x) && Abs(x) < Abs(r as real) + 1.0
    ensures r == 0 || (r > 0 <==> x > 0.0)
  {
    if x >= 0.0 then x.Floor else -((-x).Floor)
  }

  // ---------------------------------------------------------------------------
  // ASCII string helpers as Python's str methods behave on ASCII text.
  // ---------------------------------------------------------------------------

  function LowerChar(c: char): char
  {
    if 'A' <= c <= 'Z' then (c as int + 32) as char else c
  }

  /** str.lower() restricted to ASCII letters. */
  function Lower(s: string): (r: string)
    ensures |r| == |s| && forall k :: 0 <= k < |s| ==> r[k] == LowerChar(s[k])
  {
    if s == [] then [] else Lower(s[..|s| - 1]) + [LowerChar(s[|s| - 1])]
  }

  /** Lower-casing twice is lower-casing once. */
  lemma LowerIdempotent(s: string)
    ensures Lower(Lower(s)) == Lower(s)
  {
    var once := Lower(s);
    var twice := Lower(once);
    forall k | 0 <= k < |s|
      ensures twice[k] == once[k]
    {
    }
    assert twice == once;
  }

  /** Lower-casing keeps a prefix that has no capital letter. */
  lemma LowerKeepsLowerPrefix(s: string, p: string)
    requires StartsWith(s, p)
    requires forall k | 0 <= k < |p| :: !('A' <= p[k] <= 'Z')
    ensures StartsWith(Lower(s), p)
  {
    var low := Lower(s);
    forall k | 0 <= k < |p|
      ensures low[k] == p[k]
    {
      assert s[k] == s[..|p|][k];
    }
    assert low[..|p|] == p;
  }

  function UpperChar(c: char): char
  {
    if 'a' <= c <= 'z' then (c as int - 32) as char else c
  }

  /** str.capitalize() on ASCII text. */
  function Capitalize(s: string): (r: string)
    ensures |r| == |s|
    ensures s != [] ==> r[0] == UpperChar(s[0])
    ensures forall k | 1 <= k < |s| :: r[k] == LowerChar(s[k])
  {
    if s == [] then [] else [UpperChar(s[0])] + Lower(s[1..])
  }

  /** The ASCII characters str.isspace() accepts. */
  predicate IsSpace(c: char)
  {
    c == ' ' || 9 <= c as int <= 13 || 28 <= c as int <= 31
  }

  /** str.lstrip(): exactly the leading whitespace removed. */
  function StripLeft(s: string): (r: string)
    ensures |r| <= |s| && r == s[|s| - |r|..]
    ensures r == [] || !IsSpace(r[0])
    ensures forall k | 0 <= k < |s| - |r| :: IsSpace(s[k])
  {
    if s != [] && IsSpace(s[0]) then StripLeft(s[1..]) else s
  }

  /** str.rstrip(): exactly the trailing whitespace removed. */
  function StripRight(s: string): (r: string)
    ensures |r| <= |s| && r == s[..|r|]
    ensures r == [] || !IsSpace(r[|r| - 1])
    ensures forall k | |r| <= k < |s| :: IsSpace(s[k])
  {
    if s != [] && IsSpace(s[|s| - 1]) then StripRight(s[..|s| - 1]) else s
  }

  /** str.strip(): leading and trailing whitespace removed. */
  function Strip(s: string): string
  {
    StripRight(StripLeft(s))
  }

  /** One blank before a word is all that lstrip() removes. */
  lemma StripLeftOneBlank(a: char, t: string)
    requires IsSpace(a) && t != [] && !IsSpace(t[0])
    ensures StripLeft([a] + t) == t
  {
    assert ([a] + t)[1..] == t;
  }

  /** One blank after a word is all that rstrip() removes. */
  lemma StripRightOneBlank(t: string, b: char)
    requires IsSpace(b) && t != [] && !IsSpace(t[|t| - 1])
    ensures StripRight(t + [b]) == t
  {
    assert (t + [b])[..|t|] == t;
  }

  /** strip() of a word padded by one blank on each side is the word. */
  lemma StripOneBlankEachSide(a: char, w: string, b: char)
    requires IsSpace(a) && IsSpace(b) && w != [] && !IsSpace(w[0]) && !IsSpace(w[|w| - 1])
    ensures Strip([a] + w + [b]) == w
  {
    StripLeftOneBlank(a, w + [b]);
    assert [a] + w + [b] == [a] + (w + [b]);
    StripRightOneBlank(w, b);
  }

  predicate StartsWith(s: string, p: string)
  {
    |p| <= |s| && s[..|p|] == p
  }

  predicate EndsWith(s: string, suffix: string)
  {
    |suffix| <= |s| && s[|s| - |suffix|..] == suffix
  }

  /** Python's `sub in s` on strings. */
  predicate Contains(s: string, sub: string)
  {
    exists i | 0 <= i <= |s| - |sub| :: StartsWith(s[i..], sub)
  }

  predicate EndsWithAny(s: string, suffixes: seq<string>)
  {
    exists k | 0 <= k < |suffixes| :: EndsWith(s, suffixes[k])
  }

  // ---------------------------------------------------------------------------
  // Digits and integer formatting.
  // ---------------------------------------------------------------------------

  predicate IsDigit(c: char)
  {
    '0' <= c <= '9'
  }

  function DigitValue(c: char): nat
    requires IsDigit(c)
  {
    c as int - '0' as int
  }

  function DigitChar(d: nat): (c: char)
    requires d < 10
    ensures IsDigit(c) && DigitValue(c) == d
  {
    ('0' as int + d) as char
  }

  /** int() of a string of ASCII digits. */
  function DigitsValue(s: string): nat
    requires forall k :: 0 <= k < |s| ==> IsDigit(s[k])
  {
    if s == [] then 0 else 10 * DigitsValue(s[..|s| - 1]) + DigitValue(s[|s| - 1])
  }

  /** str(n) for a natural number: digits without a leading zero, "0" for zero. */
  function NatToString(n: nat): (r: string)
    ensures |r| > 0 && forall k :: 0 <= k < |r| ==> IsDigit(r[k])
    ensures n == 0 <==> r == "0"
    ensures n > 0 ==> r[0] != '0'
    decreases n
  {
    if n < 10 then [DigitChar(n)] else NatToString(n / 10) + [DigitChar(n % 10)]
  }

  /** str(n) for an integer: a minus sign before the digits of a negative number. */
  function IntToString(n: int): string
  {
    if n < 0 then "-" + NatToString(-n) else NatToString(n)
  }

  /** Reading back the digits of str(n) gives n. */
  lemma {:induction false} NatToStringRoundTrip(n: nat)
    ensures DigitsValue(NatToString(n)) == n
    decreases n
  {
    if n >= 10 {
      NatToStringRoundTrip(n / 10);
      var s := NatToString(n);
      assert s[..|s| - 1] == NatToString(n / 10);
    }
  }

  /** Distinct numbers have distinct decimal forms. */
  lemma NatToStringInjective(m: nat, n: nat)
    requires NatToString(m) == NatToString(n)
    ensures m == n
  {
    NatToStringRoundTrip(m);
    NatToStringRoundTrip(n);
  }

  function Zeros(n: nat): (r: string)
    ensures |r| == n && forall k :: 0 <= k < n ==> r[k] == '0'
  {
    if n == 0 then [] else Zeros(n - 1) + ['0']
  }

  /** `s` preceded by as many '0' as it takes to reach `width` characters. */
  function PadZeros(s: string, width: nat): (r: string)
    ensures |r| == if |s| >= width then |s| else width
    ensures EndsWith(r, s)
    ensures forall k | 0 <= k < |r| - |s| :: r[k] == '0'
  {
    if |s| >= width then s else Zeros(width - |s|) + s
  }

  /** f"{n:0Wd}": zero padding to W characters, the sign counting as one of them. */
  function ZeroPad(n: int, width: nat): (r: string)
    ensures n >= 0 ==> |r| >= width && EndsWith(r, NatToString(n))
    ensures n >= 0 ==> |r| == if |NatToString(n)| >= width then |NatToString(n)| else width
    ensures n >= 0 ==> forall k | 0 <= k < |r| - |NatToString(n)| :: r[k] == '0'
    ensures n < 0 ==> StartsWith(r, "-") && |r| >= width && EndsWith(r, NatToString(-n))
    ensures n < 0 ==> |r| == if |NatToString(-n)| + 1 >= width then |NatToString(-n)| + 1 else width
    ensures n < 0 ==> forall k | 1 <= k < |r| - |NatToString(-n)| :: r[k] == '0'
  {
    if n < 0 then "-" + PadZeros(NatToString(-n), if width > 0 then width - 1 else 0)
    else PadZeros(NatToString(n), width)
  }

  // ---------------------------------------------------------------------------
  // Collections.
  // ---------------------------------------------------------------------------

  predicate NoDup<T(==)>(s: seq<T>)
  {
    forall i, j | 0 <= i < j < |s| :: s[i] != s[j]
  }

  /** list.index(x): the position of the first occurrence of a value. */
  function FirstIndex<T(==)>(s: seq<T>, x: T): (i: nat)
    requires x in s
    ensures i < |s| && s[i] == x
    ensures forall b | 0 <= b < i :: s[b] != x
  {
    if s[0] == x then 0 else 1 + FirstIndex(s[1..], x)
  }

  /** The values of `r` come in the order in which each first appears in `s`. */
  predicate FirstAppearanceOrder<T(==)>(s: seq<T>, r: seq<T>)
  {
    forall i, j | 0 <= i < j < |r| && r[i] in s && r[j] in s :: FirstIndex(s, r[i]) < FirstIndex(s, r[j])
  }

  /** A value of a prefix first appears at the same position in the whole sequence. */
  lemma FirstIndexOfPrefix<T>(s: seq<T>, n: nat)
    requires n <= |s|
    ensures forall y | y in s[..n] :: FirstIndex(s, y) == FirstIndex(s[..n], y)
  {
    forall y | y in s[..n]
      ensures FirstIndex(s, y) == FirstIndex(s[..n], y)
    {
      assert s[FirstIndex(s[..n], y)] == s[..n][FirstIndex(s[..n], y)];
    }
  }

  /** pandas' Series.unique(): the distinct values in order of first appearance. */
  function Unique<T(==)>(s: seq<T>): (r: seq<T>)
    ensures NoDup(r)
    ensures forall i | 0 <= i < |s| :: s[i] in r
    ensures forall i | 0 <= i < |r| :: r[i] in s
    ensures FirstAppearanceOrder(s, r)
  {
    if s == [] then []
    else
      var p, x := s[..|s| - 1], s[|s| - 1];
      var u := Unique(p);
      OrderExtends(s, u);
      if x in u then u else u + [x]
  }

  /** Order of first appearance in a prefix carries over to the whole sequence, and a value
      new in its last element comes after every value of the prefix. */
  lemma OrderExtends<T>(s: seq<T>, u: seq<T>)
    requires |s| > 0
    requires forall i | 0 <= i < |u| :: u[i] in s[..|s| - 1]
    requires FirstAppearanceOrder(s[..|s| - 1], u)
    ensures FirstAppearanceOrder(s, u)
    ensures s[|s| - 1] !in s[..|s| - 1] ==> FirstAppearanceOrder(s, u + [s[|s| - 1]])
  {
    var p, x := s[..|s| - 1], s[|s| - 1];
    FirstIndexOfPrefix(s, |s| - 1);
    if x !in p {
      assert FirstIndex(s, x) == |s| - 1;
      var v := u + [x];
      forall i, j | 0 <= i < j < |v| && v[i] in s && v[j] in s
        ensures FirstIndex(s, v[i]) < FirstIndex(s, v[j])
      {
        assert v[i] == u[i];
        if j < |u| {
          assert v[j] == u[j];
        }
      }
    }
  }

  /** The first value of a non-empty sequence is the first of its distinct values. */
  lemma {:induction false} UniqueKeepsFirst<T>(s: seq<T>)
    requires |s| > 0
    ensures |Unique(s)| > 0 && Unique(s)[0] == s[0]
  {
    if |s| > 1 {
      var p := s[..|s| - 1];
      UniqueKeepsFirst(p);
      assert p[0] == s[0];
    } else {
      assert s[..0] == [];
    }
  }

  /** Python's `s[i]` on a list: negative indices count from the end; out of range is an error. */
  function PyIndex<T>(s: seq<T>, i: int): (r: Option<T>)
    ensures r.Some? <==> -|s| <= i < |s|
    ensures 0 <= i < |s| ==> r == Some(s[i])
    ensures -|s| <= i < 0 ==> r == Some(s[|s| + i])
  {
    if 0 <= i < |s| then Some(s[i])
    else if -|s| <= i < 0 then Some(s[|s| + i])
    else None
  }

  /** A list comprehension `[f(x) for x in s if keep(x)]`: `f` maps an element to
      `Some` of what is kept or to `None` when it is dropped; order is preserved. */
  function FilterMap<T, U>(s: seq<T>, f: T -> Option<U>): (r: seq<U>)
    ensures |r| <= |s|
  {
    if s == [] then [] else FilterMap(s[..|s| - 1], f) + KeptOf(s[|s| - 1], f)
  }

  /** Every kept value is in the comprehension, and each of its values comes from some element. */
  lemma {:induction false} FilterMapMembers<T, U>(s: seq<T>, f: T -> Option<U>)
    ensures forall k | 0 <= k < |s| && f(s[k]).Some? :: f(s[k]).value in FilterMap(s, f)
    ensures forall j | 0 <= j < |FilterMap(s, f)| :: exists k | 0 <= k < |s| :: f(s[k]) == Some(FilterMap(s, f)[j])
  {
    if s != [] {
      var p := s[..|s| - 1];
      var init, r := FilterMap(p, f), FilterMap(s, f);
      FilterMapMembers(p, f);
      assert forall k | 0 <= k < |p| :: p[k] == s[k];
      assert r == init + KeptOf(s[|s| - 1], f);
      forall j | 0 <= j < |r|
        ensures exists k | 0 <= k < |s| :: f(s[k]) == Some(r[j])
      {
        if j < |init| {
          var k :| 0 <= k < |p| && f(p[k]) == Some(init[j]);
          assert f(s[k]) == Some(r[j]);
        } else {
          assert f(s[|s| - 1]) == Some(r[j]);
        }
      }
    } else {
      assert FilterMap(s, f) == [];
    }
  }

  /** What FilterMap keeps of one element. */
  function KeptOf<T, U>(x: T, f: T -> Option<U>): (r: seq<U>)
    ensures f(x).Some? ==> r == [f(x).value]
    ensures f(x).None? <==> r == []
  {
    if f(x).Some? then [f(x).value] else []
  }

  /** FilterMap of a single element. */
  lemma FilterMapOne<T, U>(x: T, f: T -> Option<U>)
    ensures FilterMap([x], f) == KeptOf(x, f)
  {
    assert [x][..0] == [];
  }

  /** FilterMap keeps order: filtering a concatenation concatenates the filtered parts. */
  lemma {:induction false} FilterMapConcat<T, U>(a: seq<T>, b: seq<T>, f: T -> Option<U>)
    ensures FilterMap(a + b, f) == FilterMap(a, f) + FilterMap(b, f)
    decreases |b|
  {
    if b == [] {
      assert a + b == a;
    } else {
      var b', last := b[..|b| - 1], b[|b| - 1];
      FilterMapConcat(a, b', f);
      DropLast(a, b);
      assert (a + b)[|a + b| - 1] == last;
      calc {
        FilterMap(a + b, f);
        FilterMap(a + b', f) + KeptOf(last, f);
        (FilterMap(a, f) + FilterMap(b', f)) + KeptOf(last, f);
        FilterMap(a, f) + (FilterMap(b', f) + KeptOf(last, f));
        FilterMap(a, f) + FilterMap(b, f);
      }
    }
  }

  /** Python's range(n). */
  function Range(n: nat): (r: seq<int>)
    ensures |r| == n && forall k | 0 <= k < n :: r[k] == k
  {
    seq(n, k => k)
  }

  /** range(n + 1) is range(n) followed by n. */
  lemma RangeStep(n: nat)
    ensures Range(n + 1) == Range(n) + [n]
  {
    assert forall k | 0 <= k < n + 1 :: Range(n + 1)[k] == (Range(n) + [n])[k];
  }

  lemma PrefixOfPrefix<T>(s: seq<T>, n: nat, i: nat)
    requires i <= n <= |s|
    ensures s[..n][..i] == s[..i]
  {
  }

  lemma PrefixOfConcat<T>(a: seq<T>, b: seq<T>, j: nat)
    requires j <= |a|
    ensures (a + b)[..j] == a[..j]
  {
  }

  /** `f`'s lists for the elements of `s`, concatenated in order. */
  function FlatMap<T, U>(s: seq<T>, f: T -> seq<U>): seq<U>
  {
    if s == [] then [] else FlatMap(s[..|s| - 1], f) + f(s[|s| - 1])
  }

  lemma {:induction false} FlatMapConcat<T, U>(a: seq<T>, b: seq<T>, f: T -> seq<U>)
    ensures FlatMap(a + b, f) == FlatMap(a, f) + FlatMap(b, f)
    decreases |b|
  {
    if b == [] {
      assert a + b == a;
    } else {
      var b', last := b[..|b| - 1], b[|b| - 1];
      FlatMapConcat(a, b', f);
      DropLast(a, b);
      assert (a + b)[|a + b| - 1] == last;
      calc {
        FlatMap(a + b, f);
        FlatMap(a + b', f) + f(last);
        (FlatMap(a, f) + FlatMap(b', f)) + f(last);
        FlatMap(a, f) + (FlatMap(b', f) + f(last));
        FlatMap(a, f) + FlatMap(b, f);
      }
    }
  }

  /**
   * Where FilterMap's j-th value comes from: an element `i` of the input, and the values
   * kept from the elements before `i` are exactly the first `j` values.
   */
  lemma {:induction false} FilterMapPosition<T, U>(s: seq<T>, f: T -> Option<U>, j: nat) returns (i: nat)
    requires j < |FilterMap(s, f)|
    ensures i < |s| && f(s[i]) == Some(FilterMap(s, f)[j])
    ensures FilterMap(s[..i], f) == FilterMap(s, f)[..j]
  {
    var p := s[..|s| - 1];
    var init := FilterMap(p, f);
    var r := FilterMap(s, f);
    assert r == init + KeptOf(s[|s| - 1], f);
    if j < |init| {
      i := FilterMapPosition(p, f, j);
      PrefixOfPrefix(s, |s| - 1, i);
      PrefixOfConcat(init, KeptOf(s[|s| - 1], f), j);
    } else {
      i := |s| - 1;
      PrefixOfConcat(init, KeptOf(s[|s| - 1], f), j);
    }
  }

  function Min(a: int, b: int): int
  {
    if a <= b then a else b
  }

  function Max(a: int, b: int): int
  {
    if a >= b then a else b
  }
}
