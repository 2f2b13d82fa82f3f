/** Real-number helpers with Python's semantics: `abs`, `min`, `max`,
    `math.ceil`, float `%`, `sum`, and numpy's `linspace`. */
module Numbers {

  function Abs(x: real): real {
    if x < 0.0 then -x else x
  }

  /** Python's `min(a, b)`. */
  function Min(a: real, b: real): real {
    if b < a then b else a
  }

  /** Python's `max(a, b)`. */
  function Max(a: real, b: real): real {
    if b > a then b else a
  }

  /** Python's `math.ceil`: the least integer not below `x`. */
  function Ceil(x: real): (r: int)
    ensures x <= r as real < x + 1.0
  {
    -((-x).Floor)
  }

  /** Python's float `x % m` for a positive modulus: the remainder of
      floored division, which takes the sign of the modulus. */
  function FloorMod(x: real, m: real): (r: real)
    requires m > 0.0
    ensures 0.0 <= r < m
    ensures (x - r) / m == ((x - r) / m).Floor as real
  {
    var q := (x / m).Floor;
    FloorModBounds(x, m, q);
    var r := x - m * q as real;
    assert x - r == m * q as real;
    assert (m * q as real) / m == q as real;
    r
  }

  lemma FloorModBounds(x: real, m: real, q: int)
    requires m > 0.0
    requires q == (x / m).Floor
    ensures 0.0 <= x - m * (q as real) < m
  {
    FloorModLower(x, m, q);
    FloorModUpper(x, m, q);
  }

  lemma FloorModLower(x: real, m: real, q: int)
    requires m > 0.0
    requires q == (x / m).Floor
    ensures m * (q as real) <= x
  {
    var y := x / m;
    assert y * m == x;
    MulLe(q as real, y, m);
  }

  lemma FloorModUpper(x: real, m: real, q: int)
    requires m > 0.0
    requires q == (x / m).Floor
    ensures x < m * (q as real) + m
  {
    var qr := q as real;
    var y := x / m;
    assert y < qr + 1.0;
    assert y * m == x;
    MulLt(y, qr + 1.0, m);
    assert y * m < (qr + 1.0) * m;
  }

  /** Multiplying both sides of `x <= y` by a non-negative factor. */
  lemma MulLe(x: real, y: real, z: real)
    requires x <= y && z >= 0.0
    ensures x * z <= y * z
  {
  }

  /** Multiplying both sides of `x < y` by a positive factor. */
  lemma MulLt(x: real, y: real, z: real)
    requires x < y && z > 0.0
    ensures x * z < y * z
  {
  }

  /** A quotient of `0 <= a <= b` by `b` lies in [0, 1]. */
  lemma RatioInUnit(a: real, b: real)
    requires 0.0 <= a <= b && b > 0.0
    ensures 0.0 <= a / b <= 1.0
  {
    var t := a / b;
    assert t * b == a;
    if t > 1.0 {
      MulLe(1.0, t, b);
    }
  }

  /** Python's `sum` over a sequence of floats, accumulated left to right. */
  function Sum(s: seq<real>): real
    decreases |s|
  {
    if |s| == 0 then 0.0 else Sum(s[..|s| - 1]) + s[|s| - 1]
  }

  /** The `n` evenly spaced values `a, a + d, ..., a + (n - 1) * d`. */
  function ArithSeq(a: real, d: real, n: nat): (r: seq<real>)
    ensures |r| == n
    ensures forall i :: 0 <= i < n ==> r[i] == a + (i as real) * d
  {
    seq(n, i requires 0 <= i < n => a + (i as real) * d)
  }

  /** numpy's `linspace(start, stop, num)` with its default `endpoint=True`:
      `num` evenly spaced values from `start` to `stop` inclusive, `[start]`
      when `num` is 1 and empty when `num` is 0. */
  function Linspace(start: real, stop: real, num: nat): (r: seq<real>)
    ensures |r| == num
    ensures num >= 1 ==> r[0] == start
    ensures num >= 2 ==> r[num - 1] == stop
    ensures num >= 2 ==> forall i :: 0 <= i < num - 1 ==>
              r[i + 1] - r[i] == (stop - start) / ((num - 1) as real)
  {
    var d := if num >= 2 then (stop - start) / ((num - 1) as real) else 0.0;
    var r := ArithSeq(start, d, num);
    assert num >= 2 ==> ((num - 1) as real) * d == stop - start;
    r
  }

  /** Sum of an arithmetic progression: `n * a + d * n * (n - 1) / 2`. */
  lemma {:induction false} SumArithSeq(a: real, d: real, n: nat)
    ensures Sum(ArithSeq(a, d, n)) == (n as real) * a + d * (n as real) * ((n as real) - 1.0) / 2.0
  {
    if n > 0 {
      var s := ArithSeq(a, d, n);
      assert s[..n - 1] == ArithSeq(a, d, n - 1);
      SumArithSeq(a, d, n - 1);
      var m := (n - 1) as real;
      assert Sum(s) == m * a + d * m * (m - 1.0) / 2.0 + (a + m * d);
      assert d * m * (m - 1.0) / 2.0 + m * d == d * (m + 1.0) * m / 2.0;
    }
  }

  /** The values of `linspace` add up to `num` times the mean of the
      endpoints, whatever the spacing. */
  lemma LinspaceSum(start: real, stop: real, num: nat)
    requires num >= 2
    ensures Sum(Linspace(start, stop, num)) == (num as real) * (start + stop) / 2.0
  {
    var n := num as real;
    var d := (stop - start) / (n - 1.0);
    assert Linspace(start, stop, num) == ArithSeq(start, d, num);
    SumArithSeq(start, d, num);
    assert d * (n - 1.0) == stop - start;
    assert d * n * (n - 1.0) / 2.0 == n * (stop - start) / 2.0;
  }

  /** Every value of `linspace` lies between its two endpoints. */
  lemma LinspaceBetween(start: real, stop: real, num: nat, i: nat)
    requires i < num
    ensures Min(start, stop) <= Linspace(start, stop, num)[i] <= Max(start, stop)
  {
    if num >= 2 {
      var m := (num - 1) as real;
      var d := (stop - start) / m;
      assert Linspace(start, stop, num)[i] == start + (i as real) * d;
      assert start + m * d == stop;
      StepsBetween(start, d, i as real, m);
    }
  }

  /** The `i`-th of `m + 1` evenly spaced points lies between the first and
      the last. */
  lemma StepsBetween(start: real, d: real, i: real, m: real)
    requires 0.0 <= i <= m
    ensures Min(start, start + m * d) <= start + i * d <= Max(start, start + m * d)
  {
    if d >= 0.0 {
      MulLe(0.0, i, d);
      MulLe(i, m, d);
    } else {
      MulLe(0.0, i, -d);
      MulLe(i, m, -d);
    }
  }
}
