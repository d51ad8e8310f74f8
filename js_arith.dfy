/** JavaScript arithmetic on the index variables of the page script.
    Every index the script keeps (`current`, `index`, `currentIndex`) is a JavaScript
    number that only ever holds an integer, except that `x % 0` yields NaN, and NaN
    then absorbs every later `+` and `%`. */
module JsArith {

  /** An index variable's value: an integer, or NaN. */
  datatype Num = Int(v: int) | NaN

  function Abs(x: int): nat { if x < 0 then -x else x }

  /** `a + k` in JavaScript, for an integer literal or length k. */
  function Add(a: Num, k: int): (r: Num)
    ensures r.NaN? <==> a.NaN?
    ensures r.Int? ==> r.v - k == a.v
  {
    match a
    case NaN => NaN
    case Int(x) => Int(x + k)
  }

  /** `a % n` in JavaScript for an integer n: NaN when n is 0 or a is NaN, otherwise the
      truncating remainder, whose sign is that of the dividend. */
  function Rem(a: Num, n: int): (r: Num)
    ensures r.NaN? <==> (a.NaN? || n == 0)
    ensures r.Int? ==> Abs(r.v) < Abs(n)
    ensures r.Int? && a.v >= 0 ==> r.v >= 0
    ensures r.Int? && a.v <= 0 ==> r.v <= 0
    ensures r.Int? ==> (a.v - r.v) % Abs(n) == 0
  {
    match a
    case NaN => NaN
    case Int(x) =>
      if n == 0 then NaN
      else if x >= 0 then (DivisibleRemainder(x, Abs(n)); Int(x % Abs(n)))
      else (DivisibleRemainder(-x, Abs(n)); Int(-((-x) % Abs(n))))
  }

  /** x minus its remainder is a multiple of m, also after negation. */
  lemma DivisibleRemainder(x: nat, m: nat)
    requires m > 0
    ensures (x - x % m) % m == 0
    ensures (-(x - x % m)) % m == 0
  {
    var q := x / m;
    assert x - x % m == m * q + 0;
    RemainderIsUnique(x - x % m, m, q, 0);
    assert -(x - x % m) == m * (-q) + 0;
    RemainderIsUnique(-(x - x % m), m, -q, 0);
  }

  /** Dafny's (Euclidean) remainder is the unique r in [0, n) with x == n * q + r. */
  lemma RemainderIsUnique(x: int, n: int, q: int, r: int)
    requires n > 0 && 0 <= r < n && x == n * q + r
    ensures x % n == r
  {
    var q', r' := x / n, x % n;
    assert x == n * q' + r';
    assert n * (q - q') == r' - r;
    if q != q' {
      MultipleIsFar(n, q - q');
    }
  }

  /** A non-zero multiple of n is at least n away from 0. */
  lemma MultipleIsFar(n: int, d: int)
    requires n > 0 && d != 0
    ensures n * d >= n || n * d <= -n
  {
    if d > 0 {
      assert n * d == n * (d - 1) + n;
      ProductNonNegative(n, d - 1);
    } else {
      assert n * d == -(n * (-d - 1)) - n;
      ProductNonNegative(n, -d - 1);
    }
  }

  lemma ProductNonNegative(a: int, b: int)
    requires a >= 0 && b >= 0
    ensures a * b >= 0
  {
  }

  /** The step forward with wraparound: `(i + 1) % n`. */
  function Next(i: Num, n: int): (r: Num)
    ensures r.NaN? <==> (i.NaN? || n == 0)
    ensures r.Int? && i.v >= -1 ==> 0 <= r.v < Abs(n)
  {
    Rem(Add(i, 1), n)
  }

  /** The step backward with wraparound: `(i - 1 + n) % n`. */
  function Prev(i: Num, n: int): (r: Num)
    ensures r.NaN? <==> (i.NaN? || n == 0)
    ensures r.Int? && n > 0 && i.v >= 1 - n ==> 0 <= r.v < n
  {
    Rem(Add(Add(i, -1), n), n)
  }

  /** On non-negative dividends JavaScript's `%` agrees with Dafny's. */
  lemma RemOfNonNegative(x: int, n: int)
    requires x >= 0 && n > 0
    ensures Rem(Int(x), n) == Int(x % n)
  {
  }

  /** The two remainders JavaScript's step formulas meet: x < n, and n itself. */
  lemma RemOfSmall(x: int, n: int)
    requires 0 <= x <= n && n > 0
    ensures x % n == (if x == n then 0 else x)
  {
    if x == n {
      RemainderIsUnique(x, n, 1, 0);
    } else {
      RemainderIsUnique(x, n, 0, x);
    }
  }

  /** For 0 <= i < n, Next is the successor of i, wrapping from n - 1 to 0. */
  lemma NextWraps(i: int, n: int)
    requires 0 <= i < n
    ensures Next(Int(i), n) == Int(if i == n - 1 then 0 else i + 1)
    ensures Next(Int(i), n) == Int((i + 1) % n)
  {
    RemOfNonNegative(i + 1, n);
    RemOfSmall(i + 1, n);
  }

  /** For 0 <= i < n, Prev is the predecessor of i, wrapping from 0 to n - 1. */
  lemma PrevWraps(i: int, n: int)
    requires 0 <= i < n
    ensures Prev(Int(i), n) == Int(if i == 0 then n - 1 else i - 1)
    ensures Prev(Int(i), n) == Int((i - 1 + n) % n)
  {
    RemOfNonNegative(i - 1 + n, n);
    if i == 0 {
      RemOfSmall(n - 1, n);
    } else {
      RemainderIsUnique(i - 1 + n, n, 1, i - 1);
    }
  }

  /** Both steps keep an index that is in range in range. */
  lemma StepsStayInRange(i: int, n: int)
    requires 0 <= i < n
    ensures Next(Int(i), n).Int? && 0 <= Next(Int(i), n).v < n
    ensures Prev(Int(i), n).Int? && 0 <= Prev(Int(i), n).v < n
  {
    NextWraps(i, n);
    PrevWraps(i, n);
  }

  /** A step back undoes a step forward, and the other way round. */
  lemma PrevNextInverse(i: int, n: int)
    requires 0 <= i < n
    ensures Prev(Next(Int(i), n), n) == Int(i)
    ensures Next(Prev(Int(i), n), n) == Int(i)
  {
    NextWraps(i, n);
    PrevWraps(i, n);
    var j := if i == n - 1 then 0 else i + 1;
    PrevWraps(j, n);
    var k := if i == 0 then n - 1 else i - 1;
    NextWraps(k, n);
  }

  /** With nothing to cycle through (n == 0) both steps give NaN, and NaN stays NaN. */
  lemma EmptyCycleIsNaN(i: Num, n: int)
    ensures Next(i, 0) == NaN && Prev(i, 0) == NaN
    ensures Next(NaN, n) == NaN && Prev(NaN, n) == NaN
  {
  }

  /** k steps forward from i. */
  function NextIterated(i: Num, n: int, k: nat): Num
  {
    if k == 0 then i else Next(NextIterated(i, n, k - 1), n)
  }

  /** k steps forward from i land on (i + k) mod n: the index cycles through every position. */
  lemma {:induction false} NextIteratedCycles(i: int, n: int, k: nat)
    requires 0 <= i < n
    ensures NextIterated(Int(i), n, k) == Int((i + k) % n)
  {
    if k > 0 {
      NextIteratedCycles(i, n, k - 1);
      var r := (i + k - 1) % n;
      NextWraps(r, n);
      ModSuccessor(i + k - 1, n);
    }
  }

  /** ((x mod n) + 1) mod n == (x + 1) mod n for non-negative x. */
  lemma ModSuccessor(x: nat, n: int)
    requires n > 0
    ensures (x % n + 1) % n == (x + 1) % n
  {
    var q := x / n;
    var r := x % n;
    assert x == n * q + r;
    RemOfSmall(r + 1, n);
    if r + 1 < n {
      RemainderIsUnique(x + 1, n, q, r + 1);
    } else {
      assert x + 1 == n * (q + 1) + 0;
      RemainderIsUnique(x + 1, n, q + 1, 0);
    }
  }
}
