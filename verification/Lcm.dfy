/** gcdi, lcm_cap and the hyperperiod of rms.c. */
module Lcm {
  import opened Basics
  import opened Params

  predicate Divides(d: nat, a: nat)
    requires d > 0
  {
    a % d == 0
  }

  /** Euclid's algorithm. */
  function Gcd(a: nat, b: nat): (g: nat)
    requires a > 0 || b > 0
    ensures g > 0
    decreases b
  {
    if b == 0 then a else Gcd(b, a % b)
  }

  function LcmOf(a: nat, b: nat): (v: nat)
    requires a > 0 && b > 0
  {
    a / Gcd(a, b) * b
  }

  lemma ModIs(x: nat, d: nat, q: nat)
    requires d > 0 && x == q * d
    ensures x % d == 0 && x / d == q
  {
    Compare(x / d, q, d);
  }

  lemma Compare(x: int, y: int, d: nat)
    ensures x < y ==> x * d <= y * d - d
    ensures x > y ==> x * d >= y * d + d
  {
    if x < y {
      Product(y - x - 1, d);
      assert (y - x - 1) * d == y * d - x * d - d;
    } else if x > y {
      Product(x - y - 1, d);
      assert (x - y - 1) * d == x * d - y * d - d;
    }
  }

  lemma Product(u: nat, d: nat)
    ensures u * d >= 0
  {
  }

  lemma DividesSum(d: nat, a: nat, b: nat, q: nat)
    requires d > 0 && Divides(d, a) && Divides(d, b)
    ensures Divides(d, q * b + a)
  {
    ModIs(q * b + a, d, q * (b / d) + a / d) by {
      assert b == b / d * d && a == a / d * d;
      Distribute(q, b / d, a / d, d);
    }
  }

  lemma Distribute(q: nat, x: nat, y: nat, d: nat)
    ensures q * (x * d) + y * d == (q * x + y) * d
  {
    assert q * (x * d) == (q * x) * d;
  }

  /** The algorithm's result divides both arguments, and is a combination of them. */
  lemma {:induction false} GcdDivides(a: nat, b: nat)
    requires a > 0 || b > 0
    ensures Divides(Gcd(a, b), a) && Divides(Gcd(a, b), b)
    decreases b
  {
    if b > 0 {
      GcdDivides(b, a % b);
      DividesSum(Gcd(a, b), a % b, b, a / b);
      assert a == a / b * b + a % b;
    } else {
      ModIs(a, a, 1);
    }
  }

  /** Bezout: the greatest common divisor is a combination x * a + y * b. */
  lemma {:induction false} Bezout(a: nat, b: nat) returns (x: int, y: int)
    requires a > 0 || b > 0
    ensures Gcd(a, b) == x * a + y * b
    decreases b
  {
    if b == 0 {
      return 1, 0;
    }
    var u, v := Bezout(b, a % b);
    x, y := v, u - a / b * v;
    var q, r := a / b, a % b;
    assert a == q * b + r;
    assert v * a == v * (q * b) + v * r;
    assert q * v * b == v * (q * b);
    assert y * b == u * b - q * v * b;
  }

  lemma LcmMultiple(a: nat, b: nat)
    requires a > 0 && b > 0
    ensures LcmOf(a, b) > 0 && Divides(a, LcmOf(a, b)) && Divides(b, LcmOf(a, b))
  {
    var g := Gcd(a, b);
    GcdDivides(a, b);
    var x, y := a / g, b / g;
    assert a == x * g && b == y * g;
    Compare(0, x, b);
    ModIs(x * b, b, x);
    assert x * b == y * a by {
      assert x * (y * g) == y * (x * g);
    }
    ModIs(x * b, a, y);
  }

  /** Any common multiple is a multiple of lcm_cap's uncapped value, so it is the least one. */
  lemma LcmLeast(a: nat, b: nat, m: nat)
    requires a > 0 && b > 0 && m > 0 && Divides(a, m) && Divides(b, m)
    ensures LcmOf(a, b) <= m
  {
    var g := Gcd(a, b);
    GcdDivides(a, b);
    var s, t := Bezout(a, b);
    var x := a / g;
    var i, j := m / a, m / b;
    assert a == x * g && m == i * a && m == j * b;
    Scale(m, s, a, t, b, i, j);
    assert m * g == (j * s + i * t) * (a * b);
    Cancel(m, g, j * s + i * t, x, b, a);
  }

  /** m * (s * a + t * b) is a multiple of a * b when m is one of a and of b. */
  lemma Scale(m: nat, s: int, a: nat, t: int, b: nat, i: nat, j: nat)
    requires m == i * a && m == j * b
    ensures m * (s * a + t * b) == (j * s + i * t) * (a * b)
  {
    Regroup(j, b, s, a);
    Regroup(i, a, t, b);
    var ab := a * b;
    assert m * (s * a + t * b) == m * (s * a) + m * (t * b);
    assert (j * s + i * t) * ab == (j * s) * ab + (i * t) * ab;
  }

  lemma Regroup(j: int, b: int, s: int, a: int)
    ensures (j * b) * (s * a) == (j * s) * (a * b) == (j * s) * (b * a)
  {
    assert (j * b) * (s * a) == j * (b * (s * a));
    assert b * (s * a) == s * (a * b);
    assert j * (s * (a * b)) == (j * s) * (a * b);
  }

  lemma Reorder(k: int, x: int, g: int, b: int)
    ensures k * ((x * g) * b) == (k * (x * b)) * g
  {
    var y := x * b;
    assert (x * g) * b == y * g by {
      assert (x * g) * b == x * (g * b) == x * (b * g) == y * g;
    }
    assert k * (y * g) == (k * y) * g;
  }

  /** From m * g == k * (a * b) and a == x * g it follows that m == k * (x * b). */
  lemma Cancel(m: nat, g: nat, k: int, x: nat, b: nat, a: nat)
    requires g > 0 && m > 0 && m * g == k * (a * b) && a == x * g
    ensures x * b <= m
  {
    var y := x * b;
    Reorder(k, x, g, b);
    Compare(m, k * y, g);
    assert m == k * y;
    Compare(k, 0, y);
    Compare(k, 1, y);
  }

  /** gcdi, for positive arguments */
  method Gcdi(a: nat, b: nat) returns (g: nat)
    requires a > 0 || b > 0
    ensures g == Gcd(a, b)
  {
    var x: nat, y: nat := a, b;
    while y != 0
      invariant x > 0 || y > 0
      invariant Gcd(x, y) == Gcd(a, b)
      decreases y
    {
      var t := x % y;
      x := y;
      y := t;
    }
    return x;
  }

  method LcmCap(a: nat, b: nat, cap: nat) returns (r: nat)
    requires a > 0 && b > 0
    ensures r == Min(LcmOf(a, b), cap)
  {
    var g := Gcdi(a, b);
    var v := a / g * b;
    if v > cap {
      return cap;
    }
    return v;
  }

  /** The lcm of all the periods. */
  function LcmAll(p: seq<nat>): (l: nat)
    requires forall i | 0 <= i < |p| :: p[i] > 0
    ensures l > 0
  {
    if p == [] then 1
    else
      var l := LcmAll(p[..|p| - 1]);
      LcmMultiple(l, p[|p| - 1]);
      LcmOf(l, p[|p| - 1])
  }

  predicate CommonMultiple(m: nat, p: seq<nat>)
    requires forall i | 0 <= i < |p| :: p[i] > 0
  {
    m > 0 && forall i | 0 <= i < |p| :: Divides(p[i], m)
  }

  lemma DividesTrans(a: nat, b: nat, c: nat)
    requires a > 0 && b > 0 && Divides(a, b) && Divides(b, c)
    ensures Divides(a, c)
  {
    var i, j := b / a, c / b;
    assert b == i * a && c == j * b;
    assert j * (i * a) == (j * i) * a;
    ModIs(c, a, j * i);
  }

  /** It is a common multiple of the periods and no common multiple is smaller. */
  lemma {:induction false} LcmAllIsLeast(p: seq<nat>, m: nat)
    requires (forall i | 0 <= i < |p| :: p[i] > 0) && CommonMultiple(m, p)
    ensures CommonMultiple(LcmAll(p), p) && LcmAll(p) <= m && Divides(LcmAll(p), m)
    decreases |p|
  {
    if p != [] {
      var q, last := p[..|p| - 1], p[|p| - 1];
      var l := LcmAll(q);
      LcmAllIsLeast(q, m);
      LcmMultiple(l, last);
      LcmLeast(l, last, m);
      LcmDivides(l, last, m);
      forall i | 0 <= i < |p|
        ensures Divides(p[i], LcmAll(p))
      {
        if i < |q| {
          assert Divides(q[i], l);
          DividesTrans(p[i], l, LcmAll(p));
        }
      }
    } else {
      ModIs(m, 1, m);
    }
  }

  /** Every common multiple is a multiple of the least one: else the remainder would be a smaller one. */
  lemma LcmDivides(a: nat, b: nat, m: nat)
    requires a > 0 && b > 0 && m > 0 && Divides(a, m) && Divides(b, m)
    ensures LcmOf(a, b) > 0 && Divides(LcmOf(a, b), m)
  {
    LcmMultiple(a, b);
    var l := LcmOf(a, b);
    var r := m % l;
    if r > 0 {
      RemainderMultiple(a, l, m);
      RemainderMultiple(b, l, m);
      LcmLeast(a, b, r);
    }
  }

  lemma RemainderMultiple(a: nat, l: nat, m: nat)
    requires a > 0 && l > 0 && Divides(a, l) && Divides(a, m)
    ensures Divides(a, m % l)
  {
    var i, j, q := l / a, m / a, m / l;
    assert m % l == m - q * l && l == i * a && m == j * a;
    assert q * (i * a) == (q * i) * a;
    var k := j - q * i;
    assert m % l == k * a by {
      assert j * a - (q * i) * a == (j - q * i) * a;
    }
    Compare(k, 0, a);
    ModIs(m % l, a, j - q * i);
  }

  /** The simulation length of run_rms: the capped fold is the capped lcm of all periods. */
  method Hyperperiod(p: seq<nat>) returns (h: nat)
    requires forall i | 0 <= i < |p| :: p[i] > 0
    ensures h == Min(LcmAll(p), MAX_TIME) > 0 // so the source's test for h <= 0 never succeeds
  {
    h := 1;
    var i := 0;
    while i < |p|
      invariant 0 <= i <= |p| && h > 0
      invariant h == Min(LcmAll(p[..i]), MAX_TIME)
    {
      assert p[..i + 1][..i] == p[..i];
      var l := LcmAll(p[..i]);
      CapLast(l, h, p[i]);
      h := LcmCap(h, p[i], MAX_TIME);
      i := i + 1;
    }
    assert p[..|p|] == p;
  }

  /** A capped value stays capped. */
  lemma CapLast(l: nat, h: nat, b: nat)
    requires l > 0 && b > 0 && h == Min(l, MAX_TIME) && h > 0
    ensures Min(LcmOf(h, b), MAX_TIME) == Min(LcmOf(l, b), MAX_TIME) > 0
  {
    LcmMultiple(l, b);
    LcmMultiple(h, b);
    AtLeast(l, LcmOf(l, b));
    AtLeast(h, LcmOf(h, b));
  }

  lemma AtLeast(d: nat, m: nat)
    requires d > 0 && m > 0 && Divides(d, m)
    ensures d <= m
  {
  }

  /** The product of the periods is a common multiple, so there is a least one. */
  function ProductOf(p: seq<nat>): (m: nat) {
    if p == [] then 1 else ProductOf(p[..|p| - 1]) * p[|p| - 1]
  }

  lemma {:induction false} ProductCommon(p: seq<nat>)
    requires forall i | 0 <= i < |p| :: p[i] > 0
    ensures CommonMultiple(ProductOf(p), p)
    decreases |p|
  {
    if p != [] {
      var q, last := p[..|p| - 1], p[|p| - 1];
      ProductCommon(q);
      var m := ProductOf(q);
      Compare(0, m, last);
      ModIs(m * last, last, m);
      assert m * last == last * m;
      ModIs(m * last, m, last);
      forall i | 0 <= i < |p|
        ensures Divides(p[i], ProductOf(p))
      {
        if i < |q| {
          assert Divides(q[i], m);
          DividesTrans(p[i], m, m * last);
        }
      }
    }
  }

  lemma LcmAllCommon(p: seq<nat>)
    requires forall i | 0 <= i < |p| :: p[i] > 0
    ensures CommonMultiple(LcmAll(p), p)
  {
    ProductCommon(p);
    LcmAllIsLeast(p, ProductOf(p));
  }
}
