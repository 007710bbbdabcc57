/** The in-place exchange of two adjacent blocks of the argument vector (getopt.c).

    `PermuteArgs` moves every element once, along `gcd(|A|, |B|)` cycles of the map that sends a
    position of `A ++ B` to its position in `B ++ A`. What has to be proved is number theory: each
    cycle closes after exactly `(|A| + |B|) / gcd` steps, visits no position twice, and the cycles
    started at consecutive positions are disjoint and together visit every position.
  */
module BlockRotation {
  import opened Arithmetic

  // ----- greatest common divisor -----

  /** Euclid's recursion: the specification of the loop in `Gcd`. */
  function GcdOf(a: nat, b: nat): (d: nat)
    requires b > 0
    decreases b
  {
    if a % b == 0 then b else GcdOf(b, a % b)
  }

  method Gcd(a: nat, b: nat) returns (d: nat)
    requires b > 0
    ensures d == GcdOf(a, b)
  {
    var x, y := a, b;
    var c := x % y;
    while c != 0
      invariant y > 0 && c == x % y
      invariant GcdOf(x, y) == GcdOf(a, b)
      decreases y
    {
      x := y;
      y := c;
      c := x % y;
    }
    return y;
  }

  lemma BezoutStep(a: nat, b: nat, k: nat, r: nat, u: int, v: int, p: nat, q: nat, g: nat)
    requires a == k * b + r && b > 0 && g == u * b + v * r && b == p * g && r == q * g
    ensures g == v * a + (u - k * v) * b
    ensures a == (k * p + q) * g && p > 0
  {
    assert v * (k * b + r) == v * (k * b) + v * r;
    assert (u - k * v) * b == u * b - (k * v) * b;
    assert v * (k * b) == (k * v) * b by { assert v * (k * b) == (v * k) * b; }
    assert (k * p + q) * g == (k * p) * g + q * g;
    assert (k * p) * g == k * (p * g);
  }

  lemma GcdStep(a: nat, b: nat)
    requires b > 0
    ensures a == (a / b) * b + a % b
    ensures GcdOf(a, b) == if a % b == 0 then b else GcdOf(b, a % b)
  {
  }

  lemma BezoutEnd(a: nat, b: nat, k: nat)
    requires a == k * b
    ensures b == 0 * a + 1 * b && b == 1 * b
  {
  }

  /** The greatest common divisor is a linear combination of its arguments and divides both. */
  lemma {:induction false} Bezout(a: nat, b: nat) returns (u: int, v: int, p: nat, q: nat)
    requires b > 0
    ensures GcdOf(a, b) > 0
    ensures GcdOf(a, b) == u * a + v * b
    ensures a == p * GcdOf(a, b) && b == q * GcdOf(a, b) && q > 0
    decreases b
  {
    hide GcdOf;
    var r, k := a % b, a / b;
    GcdStep(a, b);
    if r == 0 {
      u, v, p, q := 0, 1, k, 1;
      BezoutEnd(a, b, k);
    } else {
      var u', v', p', q' := Bezout(b, r);
      BezoutStep(a, b, k, r, u', v', p', q', GcdOf(a, b));
      u, v, p, q := v', u' - k * v', k * p' + q', p';
    }
  }

  lemma CommonDivisor(a': int, b': int, c: nat, u: int, v: int, g: nat)
    requires c > 0 && g > 0 && g == u * (a' * c) + v * (b' * c)
    ensures g % c == 0 && c <= g
  {
    var k := u * a' + v * b';
    assert g == k * c by {
      assert u * (a' * c) == (u * a') * c && v * (b' * c) == (v * b') * c;
      assert (u * a' + v * b') * c == (u * a') * c + (v * b') * c;
    }
    DivModUnique(g, c, k, 0);
    if g < c {
      SmallMultiple(k, c, g);
    }
  }

  /** `GcdOf` meets the definition of the greatest common divisor: it divides both numbers, and every
      common divisor divides it. */
  lemma GcdIsGreatestCommonDivisor(a: nat, b: nat, c: nat)
    requires b > 0 && c > 0
    ensures GcdOf(a, b) > 0 && a % GcdOf(a, b) == 0 && b % GcdOf(a, b) == 0
    ensures a % c == 0 && b % c == 0 ==> GcdOf(a, b) % c == 0 && c <= GcdOf(a, b)
  {
    hide GcdOf;
    var u, v, p, q := Bezout(a, b);
    var g := GcdOf(a, b);
    DivModUnique(a, g, p, 0);
    DivModUnique(b, g, q, 0);
    if a % c == 0 && b % c == 0 {
      CommonDivisor(a / c, b / c, c, u, v, g);
    }
  }

  // ----- the orbits of the block exchange -----

  /** Where the element at position `p` of `A ++ B` goes in `B ++ A`, for `|A| == a` and `|B| == b`. */
  function Next(p: int, a: nat, b: nat): (q: int)
  {
    if p >= a then p - a else p + b
  }

  /** The position reached from `c` after `j` moves. */
  function Orbit(c: int, j: nat, a: nat, b: nat): (p: int)
    requires 0 <= c < a + b
    ensures 0 <= p < a + b
  {
    if j == 0 then c else Next(Orbit(c, j - 1, a, b), a, b)
  }

  /** The residue class of a position: what a cycle keeps. */
  function Class(p: int, g: nat): (r: int)
    requires g > 0
    ensures 0 <= r < g
  {
    p % g
  }

  /** The numbers behind the cycles of blocks `a` and `b`: `gcd` cycles of `length` positions, with the
      witnesses of divisibility and of Bezout's identity. */
  datatype Shape = Shape(gcd: nat, length: nat, ghost q: nat, ghost s: int, ghost w: int) {
    ghost predicate Of(a: nat, b: nat) {
      a > 0 && 0 < gcd <= b && 0 < q < length
      && length * gcd == a + b && q * gcd == b && gcd == s * (a + b) + w * b
    }
  }

  lemma ShapeOf(a: nat, b: nat) returns (sh: Shape)
    requires a > 0 && b > 0
    ensures sh.Of(a, b) && sh.gcd == GcdOf(a, b) && sh.length == (a + b) / GcdOf(a, b)
  {
    hide GcdOf;
    var u, v, p, q := Bezout(a, b);
    var g := GcdOf(a, b);
    sh := Shape(g, p + q, q, u, v - u);
    assert (p + q) * g == p * g + q * g;
    assert u * (a + b) + (v - u) * b == u * a + v * b;
    assert g <= q * g;
    assert p > 0;
    DivModUnique(a + b, g, p + q, 0);
  }

  lemma ShapeBounds(a: nat, b: nat, sh: Shape)
    requires sh.Of(a, b)
    ensures 0 < sh.gcd <= b
  {
  }

  /** Each move adds `b` modulo `a + b`. */
  lemma {:induction false} OrbitForm(c: int, j: nat, a: nat, b: nat) returns (k: int)
    requires 0 <= c < a + b
    ensures Orbit(c, j, a, b) == c + j * b - k * (a + b)
    decreases j
  {
    if j == 0 {
      k := 0;
    } else {
      var k' := OrbitForm(c, j - 1, a, b);
      k := if Orbit(c, j - 1, a, b) >= a then k' + 1 else k';
      assert (j - 1) * b + b == j * b;
      assert (k' + 1) * (a + b) == k' * (a + b) + (a + b);
    }
  }

  lemma Swap(x: int, y: int, z: int)
    ensures x * (y * z) == y * (x * z)
  {
    assert x * (y * z) == (x * y) * z;
    assert y * (x * z) == (y * x) * z;
  }

  /** A cycle closes after `length` moves. */
  lemma OrbitReturns(c: int, a: nat, b: nat, sh: Shape)
    requires 0 <= c < a + b && sh.Of(a, b)
    ensures Orbit(c, sh.length, a, b) == c
  {
    hide Orbit;
    var n := a + b;
    var k := OrbitForm(c, sh.length, a, b);
    assert sh.length * b == sh.q * n by { Swap(sh.length, sh.q, sh.gcd); }
    assert sh.q * n - k * n == (sh.q - k) * n;
    SmallMultiple(sh.q - k, n, Orbit(c, sh.length, a, b) - c);
  }

  lemma ScaledBezout(d: int, k: int, n: int, b: int, g: int, s: int, w: int)
    requires g == s * n + w * b && d * b == k * n
    ensures d * g == (d * s + w * k) * n
  {
    var m := d * s + w * k;
    assert d * g == m * n by {
      assert d * (s * n + w * b) == d * (s * n) + d * (w * b);
      Swap(d, w, b);
      assert d * (s * n) == (d * s) * n && w * (k * n) == (w * k) * n;
      assert (d * s) * n + (w * k) * n == m * n;
    }
  }

  lemma NoShortCycle(d: nat, k: int, n: nat, b: nat, g: nat, length: nat, s: int, w: int)
    requires 0 < d < length && g > 0 && n == length * g && g == s * n + w * b
    ensures d * b != k * n
  {
    if d * b == k * n {
      ScaledBezout(d, k, n, b, g, s, w);
      var m := d * s + w * k;
      assert 0 < d * g;
      assert d * g < length * g;
      SmallMultiple(m, n, d * g);
      assert false;
    }
  }

  /** A cycle does not close early: its positions are pairwise different. */
  lemma OrbitInjective(c: int, i: nat, j: nat, a: nat, b: nat, sh: Shape)
    requires 0 <= c < a + b && sh.Of(a, b) && i < j < sh.length
    ensures Orbit(c, i, a, b) != Orbit(c, j, a, b)
  {
    hide Orbit;
    var n := a + b;
    var k1 := OrbitForm(c, i, a, b);
    var k2 := OrbitForm(c, j, a, b);
    if Orbit(c, i, a, b) == Orbit(c, j, a, b) {
      var d, k := j - i, k2 - k1;
      assert d * b == k * n by {
        assert j * b - i * b == (j - i) * b;
        assert k2 * n - k1 * n == (k2 - k1) * n;
      }
      NoShortCycle(d, k, n, b, sh.gcd, sh.length, sh.s, sh.w);
    }
  }

  lemma Associate(x: int, y: int, z: int)
    ensures (x * y) * z == x * (y * z)
  {
  }

  lemma TakeOut(x: int, y: int, d: int)
    ensures x * d - y * d == (x - y) * d
  {
  }

  /** A difference of multiples of `d` is one. */
  lemma MultiplesDiffer(j: int, q: int, k: int, length: int, d: int)
    ensures j * (q * d) - k * (length * d) == (j * q - k * length) * d
  {
    Associate(j, q, d);
    Associate(k, length, d);
    TakeOut(j * q, k * length, d);
  }

  lemma ClassPlusMultiple(c: int, m: int, g: nat)
    requires g > 0
    ensures Class(c + m * g, g) == Class(c, g)
  {
    ModPlusMultiple(c, m, g);
  }

  /** A cycle stays inside one residue class modulo the gcd. */
  lemma OrbitClass(c: int, j: nat, a: nat, b: nat, sh: Shape)
    requires 0 <= c < a + b && sh.Of(a, b)
    ensures Class(Orbit(c, j, a, b), sh.gcd) == Class(c, sh.gcd)
  {
    hide Orbit, Class;
    var k := OrbitForm(c, j, a, b);
    var m := j * sh.q - k * sh.length;
    MultiplesDiffer(j, sh.q, k, sh.length, sh.gcd);
    ClassPlusMultiple(c, m, sh.gcd);
  }

  lemma SameClass(p: int, c: int, g: nat) returns (m: int)
    requires g > 0 && Class(p, g) == Class(c, g)
    ensures p - c == m * g
  {
    m := p / g - c / g;
    assert p == (p / g) * g + p % g && c == (c / g) * g + c % g;
    assert (p / g) * g - (c / g) * g == m * g;
  }

  lemma QuotientRemainder(x: int, d: nat) returns (z: int, t: nat)
    requires d > 0
    ensures x == z * d + t && t < d
  {
    z, t := x / d, x % d;
  }

  lemma Distribute(x: int, y: int, k: int)
    ensures (x + y) * k == x * k + y * k && (0 - x) * k == 0 - x * k && (0 - y) * k == 0 - y * k
  {
  }

  lemma WholeTurns(z: int, length: nat, n: nat, b: nat, g: nat, q: nat)
    requires n == length * g && b == q * g
    ensures (0 - z * length) * b == (0 - z * q) * n
  {
    Swap(length, q, g);
    Associate(z, length, b);
    Associate(z, q, n);
    Distribute(z * length, z * q, b);
    Distribute(z * length, z * q, n);
  }

  lemma OneShare(m: int, s: int, n: nat, w: int, b: nat, g: nat)
    requires g == s * n + w * b
    ensures (m * w) * b == m * g + (0 - m * s) * n
  {
    Distribute(s * n, w * b, m);
    Associate(m, s, n);
    Associate(m, w, b);
    Distribute(m * s, 0, n);
  }

  /** `t` steps of `b` make up the distance `m * g`, up to a multiple of `n`. */
  lemma LandsOn(m: int, z: int, t: nat, n: nat, b: nat, g: nat, length: nat, q: nat, s: int, w: int)
    requires n == length * g && b == q * g && g == s * n + w * b
    requires m * w == z * length + t
    ensures t * b == m * g + (0 - m * s - z * q) * n
  {
    assert t * b == (m * w - z * length) * b;
    Distribute(m * w, 0 - z * length, b);
    WholeTurns(z, length, n, b, g, q);
    OneShare(m, s, n, w, b, g);
    Distribute(0 - m * s, 0 - z * q, n);
  }

  /** A cycle visits all of its class. */
  lemma OrbitCovers(c: int, p: int, a: nat, b: nat, sh: Shape) returns (t: nat)
    requires 0 <= c < a + b && 0 <= p < a + b && sh.Of(a, b)
    requires Class(p, sh.gcd) == Class(c, sh.gcd)
    ensures t < sh.length && Orbit(c, t, a, b) == p
  {
    hide Orbit;
    var n, g, length := a + b, sh.gcd, sh.length;
    var m := SameClass(p, c, g);
    var z;
    z, t := QuotientRemainder(m * sh.w, length);
    var k := OrbitForm(c, t, a, b);
    LandsOn(m, z, t, n, b, g, length, sh.q, sh.s, sh.w);
    var e := 0 - m * sh.s - z * sh.q;
    assert e * n - k * n == (e - k) * n;
    SmallMultiple(e - k, n, Orbit(c, t, a, b) - p);
  }

  // ----- the exchange -----

  /** Element `p` of the window starting at `start`. */
  function At<T>(s: seq<T>, start: nat, p: int): T
    requires 0 <= p && start + p < |s|
  {
    s[start + p]
  }

  /** Only the window `[start, start + n)` of `now` may differ from `was`. */
  ghost predicate SameOutside<T>(now: seq<T>, was: seq<T>, start: nat, n: nat)
  {
    |now| == |was| && start + n <= |was|
    && now[..start] == was[..start] && now[start + n..] == was[start + n..]
  }

  /** Positions whose class is below `i` have been moved by whole cycles; the others are untouched. */
  ghost predicate MovedBelow<T>(now: seq<T>, was: seq<T>, start: nat, a: nat, b: nat, g: nat, i: nat)
  {
    g > 0 && SameOutside(now, was, start, a + b)
    && (forall p {:trigger Class(p, g)} :: 0 <= p < a + b && Class(p, g) < i ==>
         At(now, start, Next(p, a, b)) == At(was, start, p))
    && (forall p {:trigger Class(p, g)} :: 0 <= p < a + b && Class(p, g) >= i ==>
         At(now, start, p) == At(was, start, p))
  }

  /** One cycle, `j` swaps in: the positions visited so far hold their predecessor's element, and until
      the cycle closes its start holds the element picked up last. */
  ghost predicate CyclePartlyMoved<T>(now: seq<T>, before: seq<T>, start: nat, a: nat, b: nat, c: int, j: nat)
    requires 0 <= c < a + b
  {
    SameOutside(now, before, start, a + b)
    && (j == 0 || Orbit(c, j, a, b) != c ==> At(now, start, c) == At(before, start, Orbit(c, j, a, b)))
    && (forall t :: 1 <= t <= j ==>
         At(now, start, Orbit(c, t, a, b)) == At(before, start, Orbit(c, t - 1, a, b)))
    && (forall p {:trigger At(now, start, p)} :: 
         (0 <= p < a + b && p != c && forall t :: 1 <= t <= j ==> Orbit(c, t, a, b) != p) ==>
           At(now, start, p) == At(before, start, p))
  }

  lemma NothingMoved<T>(was: seq<T>, start: nat, a: nat, b: nat, g: nat, c: int)
    requires g > 0 && start + a + b <= |was| && 0 <= c < a + b
    ensures MovedBelow(was, was, start, a, b, g, 0)
    ensures CyclePartlyMoved(was, was, start, a, b, c, 0)
  {
  }

  lemma OrbitStart(c: int, a: nat, b: nat)
    requires 0 <= c < a + b
    ensures Orbit(c, 0, a, b) == c
  {
  }

  /** One swap extends the cycle by one position. */
  lemma CycleStep<T>(now: seq<T>, next: seq<T>, before: seq<T>, start: nat, a: nat, b: nat, c: int, j: nat, sh: Shape)
    requires 0 <= c < a + b && sh.Of(a, b) && j < sh.length
    requires CyclePartlyMoved(now, before, start, a, b, c, j)
    requires next == now[start + Orbit(c, j + 1, a, b) := now[start + c]]
                        [start + c := now[start + Orbit(c, j + 1, a, b)]]
    ensures CyclePartlyMoved(next, before, start, a, b, c, j + 1)
  {
    hide Orbit, Shape.Of;
    var n, pos := a + b, Orbit(c, j + 1, a, b);
    OrbitReturns(c, a, b, sh);
    OrbitStart(c, a, b);
    if j > 0 {
      OrbitInjective(c, 0, j, a, b, sh);
    }
    assert At(now, start, c) == At(before, start, Orbit(c, j, a, b));
    forall t | 1 <= t <= j ensures Orbit(c, t, a, b) != c && Orbit(c, t, a, b) != pos {
      OrbitInjective(c, 0, t, a, b, sh);
      if j + 1 < sh.length {
        OrbitInjective(c, t, j + 1, a, b, sh);
      }
    }
    assert pos != c ==> At(now, start, pos) == At(before, start, pos);
    forall t | 1 <= t <= j + 1
      ensures At(next, start, Orbit(c, t, a, b)) == At(before, start, Orbit(c, t - 1, a, b))
    {
      if t <= j {
        assert At(now, start, Orbit(c, t, a, b)) == At(before, start, Orbit(c, t - 1, a, b));
      }
    }
    forall p | 0 <= p < n && p != c && (forall t :: 1 <= t <= j + 1 ==> Orbit(c, t, a, b) != p)
      ensures At(next, start, p) == At(before, start, p)
    {
      assert Orbit(c, j + 1, a, b) != p;
      assert At(now, start, p) == At(before, start, p);
    }
  }

  /** A cycle leaves the other residue classes alone. */
  lemma OtherClassUntouched<T>(now: seq<T>, before: seq<T>, start: nat, a: nat, b: nat, c: int, j: nat, p: int, sh: Shape)
    requires 0 <= c < a + b && 0 <= p < a + b && sh.Of(a, b)
    requires Class(p, sh.gcd) != Class(c, sh.gcd)
    requires CyclePartlyMoved(now, before, start, a, b, c, j)
    ensures At(now, start, p) == At(before, start, p)
  {
    forall t | 1 <= t <= j ensures Orbit(c, t, a, b) != p {
      OrbitClass(c, t, a, b, sh);
    }
  }

  lemma CycleStartClass(a: nat, b: nat, i: nat, sh: Shape)
    requires sh.Of(a, b) && i < sh.gcd
    ensures Class(a + i, sh.gcd) == i
  {
    assert a == (sh.length - sh.q) * sh.gcd;
    DivModUnique(a + i, sh.gcd, sh.length - sh.q, i);
  }

  /** A finished cycle has moved exactly one more residue class. */
  lemma CycleDone<T>(now: seq<T>, before: seq<T>, was: seq<T>, start: nat, a: nat, b: nat, i: nat, sh: Shape)
    requires sh.Of(a, b) && i < sh.gcd && a + i < a + b
    requires MovedBelow(before, was, start, a, b, sh.gcd, i)
    requires CyclePartlyMoved(now, before, start, a, b, a + i, sh.length)
    ensures MovedBelow(now, was, start, a, b, sh.gcd, i + 1)
  {
    var n, c, g, length := a + b, a + i, sh.gcd, sh.length;
    assert Class(c, g) == i by { CycleStartClass(a, b, i, sh); }
    hide Shape.Of, Class;
    forall p | 0 <= p < n && Class(p, g) == i
      ensures At(now, start, Next(p, a, b)) == At(was, start, p)
    {
      var t := OrbitCovers(c, p, a, b, sh);
      assert Orbit(c, t + 1, a, b) == Next(p, a, b);
    }
    forall p | 0 <= p < n && Class(p, g) != i
      ensures At(now, start, p) == At(before, start, p)
    {
      OtherClassUntouched(now, before, start, a, b, c, length, p, sh);
    }
    forall p | 0 <= p < n && Class(p, g) < i
      ensures At(now, start, Next(p, a, b)) == At(was, start, p)
    {
      assert Orbit(p, 1, a, b) == Next(p, a, b) by { assert Orbit(p, 0, a, b) == p; }
      OrbitClass(p, 1, a, b, sh);
    }
  }

  /** `s` with the blocks `[start, mid)` and `[mid, end)` exchanged, each in its old order. */
  function Exchanged<T>(s: seq<T>, start: nat, mid: nat, end: nat): (r: seq<T>)
    requires start <= mid <= end <= |s|
    ensures |r| == |s|
  {
    s[..start] + s[mid..end] + s[start..mid] + s[end..]
  }

  /** The elements of an exchange, one by one. */
  lemma ExchangedAt<T>(s: seq<T>, start: nat, mid: nat, end: nat, k: nat)
    requires start <= mid <= end <= |s| && k < |s|
    ensures Exchanged(s, start, mid, end)[k]
         == if start <= k < start + (end - mid) then s[mid + (k - start)]
            else if start <= k < end then s[k - (end - mid)]
            else s[k]
  {
  }

  /** Where the element at `p` of the window is when its class has moved. */
  lemma MovedFrom<T>(now: seq<T>, was: seq<T>, start: nat, a: nat, b: nat, g: nat, p: nat)
    requires g > 0 && MovedBelow(now, was, start, a, b, g, g) && p < a + b
    ensures |now| == |was| && start + a + b <= |was|
    ensures now[start + Next(p, a, b)] == was[start + p]
  {
    hide Class;
    assert Class(p, g) < g;
    assert At(now, start, Next(p, a, b)) == At(was, start, p);
  }

  lemma Outside<T>(now: seq<T>, was: seq<T>, start: nat, n: nat, k: nat)
    requires SameOutside(now, was, start, n) && k < |was| && !(start <= k < start + n)
    ensures now[k] == was[k]
  {
    if k < start {
      assert now[..start][k] == was[..start][k];
    } else {
      assert now[start + n..][k - (start + n)] == was[start + n..][k - (start + n)];
    }
  }

  lemma MovedOutside<T>(now: seq<T>, was: seq<T>, start: nat, a: nat, b: nat, g: nat)
    requires MovedBelow(now, was, start, a, b, g, g)
    ensures SameOutside(now, was, start, a + b) && |now| == |was| && start + a + b <= |was|
  {
  }

  /** When every class has moved, the two blocks are exchanged. */
  lemma AllMoved<T>(now: seq<T>, was: seq<T>, start: nat, a: nat, b: nat, g: nat)
    requires g > 0 && MovedBelow(now, was, start, a, b, g, g)
    ensures now == Exchanged(was, start, start + a, start + a + b)
  {
    hide MovedBelow, SameOutside, Exchanged, Class;
    MovedOutside(now, was, start, a, b, g);
    var r := Exchanged(was, start, start + a, start + a + b);
    forall k: nat | k < |was| ensures now[k] == r[k] {
      ExchangedAt(was, start, start + a, start + a + b, k);
      if start <= k < start + a + b {
        MovedFrom(now, was, start, a, b, g, if k - start < b then k - start + a else k - start - b);
      } else {
        Outside(now, was, start, a + b, k);
      }
    }
  }

  /** One pass of the outer loop: `cyclelen` swaps through the cycle that starts at `cstart`. */
  method MoveCycle<T>(start: nat, panonoptEnd: nat, optEnd: nat, cstart: nat, cyclelen: nat, nargv: array<T>,
                      ghost sh: Shape)
    requires start < panonoptEnd <= cstart < optEnd <= nargv.Length
    requires sh.Of(panonoptEnd - start, optEnd - panonoptEnd) && sh.length == cyclelen
    modifies nargv
    ensures CyclePartlyMoved(nargv[..], old(nargv[..]), start, panonoptEnd - start, optEnd - panonoptEnd,
                             cstart - start, cyclelen)
  {
    hide Shape.Of, CyclePartlyMoved;
    var nnonopts, nopts := panonoptEnd - start, optEnd - panonoptEnd;
    ghost var before, c := nargv[..], cstart - start;
    NothingMoved(before, start, nnonopts, nopts, 1, c);
    var pos := cstart;
    var j := 0;
    while j < cyclelen
      invariant 0 <= j <= cyclelen
      invariant pos == start + Orbit(c, j, nnonopts, nopts)
      invariant CyclePartlyMoved(nargv[..], before, start, nnonopts, nopts, c, j)
    {
      ghost var now := nargv[..];
      if pos >= panonoptEnd {
        pos := pos - nnonopts;
      } else {
        pos := pos + nopts;
      }
      var swap := nargv[pos];
      nargv[pos] := nargv[cstart];
      nargv[cstart] := swap;
      CycleStep(now, nargv[..], before, start, nnonopts, nopts, c, j, sh);
      j := j + 1;
    }
  }

  /** Exchange the block of skipped non-options with the block of options behind it, in place. */
  method PermuteArgs<T>(panonoptStart: nat, panonoptEnd: nat, optEnd: nat, nargv: array<T>)
    requires panonoptStart < panonoptEnd < optEnd <= nargv.Length
    modifies nargv
    ensures nargv[..] == Exchanged(old(nargv[..]), panonoptStart, panonoptEnd, optEnd)
  {
    hide Shape.Of, GcdOf, Class, MovedBelow, CyclePartlyMoved, Orbit, SameOutside, At, Exchanged;
    var nnonopts := panonoptEnd - panonoptStart;
    var nopts := optEnd - panonoptEnd;
    var ncycle := Gcd(nnonopts, nopts);
    ghost var sh := ShapeOf(nnonopts, nopts);
    ShapeBounds(nnonopts, nopts, sh);
    var cyclelen := (optEnd - panonoptStart) / ncycle;
    ghost var was := nargv[..];
    NothingMoved(was, panonoptStart, nnonopts, nopts, ncycle, 0);
    var i := 0;
    while i < ncycle
      invariant 0 <= i <= ncycle
      invariant MovedBelow(nargv[..], was, panonoptStart, nnonopts, nopts, ncycle, i)
    {
      ghost var before := nargv[..];
      var cstart := panonoptEnd + i;
      MoveCycle(panonoptStart, panonoptEnd, optEnd, cstart, cyclelen, nargv, sh);
      CycleDone(nargv[..], before, was, panonoptStart, nnonopts, nopts, i, sh);
      i := i + 1;
    }
    AllMoved(nargv[..], was, panonoptStart, nnonopts, nopts, ncycle);
  }
}
