/** Integer square roots and the small division facts the box geometry needs.
    The board side is a perfect square n = k * k; boxes are k-by-k. */
module Squares {

  function Square(m: nat): nat { m * m }

  lemma SquareMonotone(a: nat, b: nat)
    requires a <= b
    ensures Square(a) <= Square(b)
  {
    assert a * a <= a * b <= b * b;
  }

  /** Upward search for the integer square root, starting from a root candidate r. */
  function IsqrtFrom(n: nat, r: nat): (s: nat)
    requires Square(r) <= n
    decreases n - r
    ensures Square(s) <= n < Square(s + 1)
    ensures r <= s
  {
    if Square(r + 1) > n then r
    else
      assert r + 1 <= Square(r + 1);
      IsqrtFrom(n, r + 1)
  }

  /** `math.isqrt`: the largest s with s * s <= n. */
  function Isqrt(n: nat): (s: nat)
    ensures Square(s) <= n < Square(s + 1)
  {
    IsqrtFrom(n, 0)
  }

  /** The root is unique: any s bracketing n between consecutive squares is Isqrt(n). */
  lemma IsqrtUnique(n: nat, s: nat)
    requires Square(s) <= n < Square(s + 1)
    ensures Isqrt(n) == s
  {
    var r := Isqrt(n);
    if r < s {
      SquareMonotone(r + 1, s);
    } else if s < r {
      SquareMonotone(s + 1, r);
    }
  }

  /** `is_perfect_square`: true exactly when n is the square of a natural number. */
  function IsPerfectSquare(n: nat): (b: bool)
    ensures b <==> exists m: nat :: Square(m) == n
  {
    var r := Isqrt(n);
    if Square(r) == n then true
    else
      assert forall m: nat :: Square(m) != n by {
        forall m: nat ensures Square(m) != n {
          if m <= r { SquareMonotone(m, r); } else { SquareMonotone(r + 1, m); }
        }
      }
      false
  }

  lemma IsqrtOfSquare(k: nat)
    ensures Isqrt(Square(k)) == k
  {
    SquareMonotone(k, k + 1);
    assert Square(k) < Square(k + 1);
    IsqrtUnique(Square(k), k);
  }

  /** Splitting q * k + t with 0 <= t < k recovers q and t. */
  lemma DivModSplit(q: nat, t: nat, k: nat)
    requires t < k
    ensures (q * k + t) / k == q
    ensures (q * k + t) % k == t
  {
    var x := q * k + t;
    var d := x / k;
    var m := x % k;
    assert x == k * d + m;
    if d > q {
      assert k * d >= k * (q + 1) by { MulMonotone(k, q + 1, d); }
      assert false;
    } else if d < q {
      assert k * q >= k * (d + 1) by { MulMonotone(k, d + 1, q); }
      assert false;
    }
  }

  lemma MulMonotone(k: nat, a: int, b: int)
    requires a <= b
    ensures k * a <= k * b
  {
    assert k * b - k * a == k * (b - a);
  }

  /** A cell coordinate below k * k lies in a box index below k. */
  lemma DivBelow(x: nat, k: nat)
    requires k > 0 && x < k * k
    ensures 0 <= x / k < k
  {
    var d := x / k;
    assert x == k * d + x % k;
    if d >= k {
      MulMonotone(k, k, d);
      assert false;
    }
  }

  /** Coordinate of the `t`-th cell (row-major) of box number `bi` along one axis. */
  lemma BoxCoordinate(k: nat, bi: nat, u: nat)
    requires u < k && bi < k
    ensures bi * k + u < k * k
    ensures (bi * k + u) / k == bi
    ensures (bi * k + u) % k == u
  {
    MulMonotone(k, bi, k - 1);
    assert bi * k <= k * (k - 1);
    DivModSplit(bi, u, k);
  }

  /** Any coordinate is its box index times k plus its offset inside the box. */
  lemma Decompose(x: nat, k: nat)
    requires k > 0
    ensures x == (x / k) * k + x % k
    ensures 0 <= x / k && 0 <= x % k < k
  {
  }
}
