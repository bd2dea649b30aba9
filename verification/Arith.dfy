/** Facts about multiples and quotients that the solver does not find alone. */
module Arith {
  function Times(k: int, i: int): int { k * i }

  /** d is a whole number of steps of size i. */
  ghost predicate Multiple(d: int, i: int) { exists k :: d == Times(k, i) }

  lemma MulMono(a: int, b: int, i: int)
    requires a <= b && i >= 0
    ensures a * i <= b * i
  {
    var d := b - a;
    assert b * i == a * i + d * i;
  }

  lemma MultipleSub(x: int, y: int, i: int)
    requires Multiple(x, i) && Multiple(y, i)
    ensures Multiple(x - y, i)
  {
    var p :| x == Times(p, i);
    var q :| y == Times(q, i);
    assert x - y == Times(p - q, i);
  }

  lemma MultipleAdd(x: int, y: int, i: int)
    requires Multiple(x, i) && Multiple(y, i)
    ensures Multiple(x + y, i)
  {
    var p :| x == Times(p, i);
    var q :| y == Times(q, i);
    assert x + y == Times(p + q, i);
  }

  lemma MultipleZero(i: int)
    ensures Multiple(0, i)
  {
    assert 0 == Times(0, i);
  }

  /** Multiples closer together than a step are the same. */
  lemma MultipleGap(d: int, i: int)
    requires i >= 1 && Multiple(d, i) && -i < d < i
    ensures d == 0
  {
    var k :| d == Times(k, i);
    if k >= 1 {
      MulMono(1, k, i);
    } else if k <= -1 {
      MulMono(k, -1, i);
    }
  }

  lemma DivBounds(a: int, i: int)
    requires i >= 1
    ensures (a / i) * i <= a < (a / i) * i + i && (a / i + 1) * i == (a / i) * i + i
  {
  }

  lemma DivUnique(a: int, i: int, k: int)
    requires i >= 1 && k * i <= a < k * i + i
    ensures a / i == k
  {
    DivBounds(a, i);
    if a / i < k {
      MulMono(a / i + 1, k, i);
    } else if a / i > k {
      assert (k + 1) * i == k * i + i;
      MulMono(k + 1, a / i, i);
    }
  }

  lemma DivMono(a: int, b: int, i: int)
    requires i >= 1 && a <= b
    ensures a / i <= b / i
  {
    DivBounds(a, i);
    DivBounds(b, i);
    if a / i > b / i {
      MulMono(b / i + 1, a / i, i);
    }
  }

  lemma DivSub(a: int, i: int)
    requires i >= 1
    ensures (a - i) / i == a / i - 1
  {
    DivBounds(a, i);
    assert (a / i - 1) * i == (a / i) * i - i;
    DivUnique(a - i, i, a / i - 1);
  }
}
