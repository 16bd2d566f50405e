/** Python list operations used by the engine: `[x] * n` and `xs.count(x)`. */
module Lists {

  /** Python's `[x] * n`. */
  function Repeat<T>(x: T, n: nat): (r: seq<T>)
    ensures |r| == n
    ensures forall j :: 0 <= j < n ==> r[j] == x
  {
    seq(n, _ => x)
  }

  /** Python's `xs.count(x)`: the number of entries equal to `x`. */
  function Count<T(==)>(xs: seq<T>, x: T): (r: nat)
    ensures r <= |xs|
  {
    if |xs| == 0 then 0 else Count(xs[..|xs| - 1], x) + (if xs[|xs| - 1] == x then 1 else 0)
  }

  /** Counting distributes over concatenation. */
  lemma {:induction false} CountAppend<T>(a: seq<T>, b: seq<T>, x: T)
    ensures Count(a + b, x) == Count(a, x) + Count(b, x)
    decreases |b|
  {
    if |b| == 0 {
      assert a + b == a;
    } else {
      assert (a + b)[..|a + b| - 1] == a + b[..|b| - 1];
      CountAppend(a, b[..|b| - 1], x);
    }
  }

  /** A run of copies of `x` holds `n` of `x` and none of anything else. */
  lemma {:induction false} CountRepeat<T>(x: T, n: nat, y: T)
    ensures Count(Repeat(x, n), y) == if x == y then n else 0
    decreases n
  {
    if n > 0 {
      assert Repeat(x, n)[..n - 1] == Repeat(x, n - 1);
      CountRepeat(x, n - 1, y);
    }
  }
}
