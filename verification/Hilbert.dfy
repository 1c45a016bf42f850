/** The Hilbert curve that lays bytecode out on a square grid. */
module Hilbert {

  function Pow2(k: nat): (n: nat)
    ensures n > 0
  {
    if k == 0 then 1 else 2 * Pow2(k - 1)
  }

  function Pow4(k: nat): (n: nat)
    ensures n > 0
  {
    if k == 0 then 1 else 4 * Pow4(k - 1)
  }

  datatype Point = Point(x: int, y: int)

  predicate Inside(p: Point, n: nat) {
    0 <= p.x < n && 0 <= p.y < n
  }

  // Flips or swaps a quadrant of side n.
  function Rot(n: int, p: Point, rx: int, ry: int): Point {
    if ry == 0 then
      if rx == 1 then Point(n - 1 - p.y, n - 1 - p.x) else Point(p.y, p.x)
    else p
  }

  // ---- the curve, quadrant by quadrant ----

  // The quadrants in the order of the curve: (0,0), (0,1), (1,1), (1,0).
  function QuadX(q: int): int {
    if q >= 2 then 1 else 0
  }

  function QuadY(q: int): int {
    if q == 1 || q == 2 then 1 else 0
  }

  // m times a bit or a quadrant's number.
  function Times(q: int, m: nat): nat {
    if q <= 0 then 0 else if q == 1 then m else if q == 2 then 2 * m else 3 * m
  }

  // A point of the curve of side s, moved into the q-th quadrant of the next larger one.
  function Moved(s: nat, p: Point, q: int): Point {
    var r := Rot(s, p, QuadX(q), QuadY(q));
    Point(r.x + Times(QuadX(q), s), r.y + Times(QuadY(q), s))
  }

  function Quarter(d: int, m: nat): int {
    if d < m then 0 else if d < 2 * m then 1 else if d < 3 * m then 2 else 3
  }

  // The d-th point of the curve of order k.
  function At(k: nat, d: nat): Point
    requires d < Pow4(k)
  {
    if k == 0 then Point(0, 0)
    else
      var m := Pow4(k - 1);
      var q := Quarter(d, m);
      Moved(Pow2(k - 1), At(k - 1, d - Times(q, m)), q)
  }

  function Bit(x: int, s: nat): int {
    if x < s then 0 else 1
  }

  // How far along the curve of order k a point lies.
  function Distance(k: nat, p: Point): (d: nat)
    requires Inside(p, Pow2(k))
  {
    if k == 0 then 0
    else
      var s := Pow2(k - 1);
      var rx := Bit(p.x, s);
      var ry := Bit(p.y, s);
      Times(QuadIndex(rx, ry), Pow4(k - 1)) + Distance(k - 1, MovedBack(s, p))
  }

  // The quadrant a bit pair stands for, as its place along the curve.
  function QuadIndex(rx: int, ry: int): int {
    if rx == 1 then 3 - ry else ry
  }

  // A point of the larger square, taken back to the curve of side s.
  function MovedBack(s: nat, p: Point): Point {
    var rx := Bit(p.x, s);
    var ry := Bit(p.y, s);
    Rot(s, Point(p.x - Times(rx, s), p.y - Times(ry, s)), rx, ry)
  }

  lemma AtUnfolds(k: nat, d: nat)
    requires k > 0 && d < Pow4(k)
    ensures Pow4(k) == 4 * Pow4(k - 1) && Pow2(k) == 2 * Pow2(k - 1)
    ensures var m := Pow4(k - 1);
            var q := Quarter(d, m);
            && 0 <= q < 4 && 0 <= d - Times(q, m) < m
            && At(k, d) == Moved(Pow2(k - 1), At(k - 1, d - Times(q, m)), q)
  {
  }

  lemma DistanceUnfolds(k: nat, p: Point)
    requires k > 0 && Inside(p, Pow2(k))
    ensures Pow4(k) == 4 * Pow4(k - 1) && Pow2(k) == 2 * Pow2(k - 1)
    ensures var s := Pow2(k - 1);
            && Inside(MovedBack(s, p), s)
            && Distance(k, p) == Times(QuadIndex(Bit(p.x, s), Bit(p.y, s)), Pow4(k - 1)) + Distance(k - 1, MovedBack(s, p))
  {
  }

  // ---- the bijection ----

  lemma MovedThere(s: nat, p: Point, q: int)
    requires Inside(p, s) && 0 <= q < 4
    ensures var t := Moved(s, p, q);
            Inside(t, 2 * s) && QuadIndex(Bit(t.x, s), Bit(t.y, s)) == q && MovedBack(s, t) == p
  {
  }

  lemma MovedHere(s: nat, p: Point)
    requires Inside(p, 2 * s)
    ensures var q := QuadIndex(Bit(p.x, s), Bit(p.y, s)); 0 <= q < 4 && Moved(s, MovedBack(s, p), q) == p
  {
  }

  lemma QuarterOf(q: int, r: int, m: nat)
    requires 0 <= q < 4 && 0 <= r < m
    ensures 0 <= Times(q, m) + r < 4 * m && Quarter(Times(q, m) + r, m) == q
  {
  }

  // From distance to point and back.
  lemma {:induction false} DistanceOfAt(k: nat, d: nat)
    requires d < Pow4(k)
    ensures Inside(At(k, d), Pow2(k)) && Distance(k, At(k, d)) == d
    decreases k, 1
  {
    if k > 0 {
      OneQuadrantOf(k, d);
    }
  }

  lemma {:induction false} OneQuadrantOf(k: nat, d: nat)
    requires k > 0 && d < Pow4(k)
    ensures Inside(At(k, d), Pow2(k)) && Distance(k, At(k, d)) == d
    decreases k, 0
  {
    hide At, Distance, Pow2, Pow4, Moved, MovedBack, QuadIndex, Bit;
    AtUnfolds(k, d);
    var m := Pow4(k - 1);
    var q := Quarter(d, m);
    DistanceOfAt(k - 1, d - Times(q, m));
    MovedThere(Pow2(k - 1), At(k - 1, d - Times(q, m)), q);
    DistanceUnfolds(k, At(k, d));
  }

  // From point to distance and back.
  lemma {:induction false} AtOfDistance(k: nat, p: Point)
    requires Inside(p, Pow2(k))
    ensures Distance(k, p) < Pow4(k) && At(k, Distance(k, p)) == p
    decreases k, 1
  {
    if k > 0 {
      OneQuadrantFrom(k, p);
    }
  }

  lemma {:induction false} OneQuadrantFrom(k: nat, p: Point)
    requires k > 0 && Inside(p, Pow2(k))
    ensures Distance(k, p) < Pow4(k) && At(k, Distance(k, p)) == p
    decreases k, 0
  {
    hide At, Distance, Pow2, Pow4, Moved, MovedBack, QuadIndex, Bit, Quarter;
    DistanceUnfolds(k, p);
    var s := Pow2(k - 1);
    var low := MovedBack(s, p);
    AtOfDistance(k - 1, low);
    MovedHere(s, p);
    QuarterOf(QuadIndex(Bit(p.x, s), Bit(p.y, s)), Distance(k - 1, low), Pow4(k - 1));
    AtUnfolds(k, Distance(k, p));
  }

  // ---- locality ----

  // One step in exactly one direction.
  predicate Adjacent(p: Point, q: Point) {
    (p.x == q.x && (p.y == q.y + 1 || q.y == p.y + 1)) || (p.y == q.y && (p.x == q.x + 1 || q.x == p.x + 1))
  }

  // The curve starts in one corner and ends in the next.
  lemma {:induction false} Ends(k: nat)
    ensures At(k, 0) == Point(0, 0) && At(k, Pow4(k) - 1) == Point(Pow2(k) - 1, 0)
  {
    if k > 0 {
      Ends(k - 1);
    }
  }

  lemma MovedAdjacent(s: nat, p: Point, p': Point, q: int)
    requires Adjacent(p, p')
    ensures Adjacent(Moved(s, p, q), Moved(s, p', q))
  {
  }

  // From the end of one quadrant to the start of the next.
  lemma CrossedAdjacent(s: nat, q: int)
    requires 0 <= q < 3 && s > 0
    ensures Adjacent(Moved(s, Point(s - 1, 0), q), Moved(s, Point(0, 0), q + 1))
  {
  }

  // Neighbours along the curve are neighbours on the grid.
  lemma {:induction false} Locality(k: nat, d: nat)
    requires d + 1 < Pow4(k)
    ensures Adjacent(At(k, d), At(k, d + 1))
    decreases k, 1
  {
    if k > 0 {
      OneQuadrantLocal(k, d);
    }
  }

  lemma {:induction false} OneQuadrantLocal(k: nat, d: nat)
    requires k > 0 && d + 1 < Pow4(k)
    ensures Adjacent(At(k, d), At(k, d + 1))
    decreases k, 0
  {
    hide At, Pow2, Pow4, Moved, Adjacent;
    AtUnfolds(k, d);
    AtUnfolds(k, d + 1);
    var m := Pow4(k - 1);
    var q := Quarter(d, m);
    var r := d - Times(q, m);
    if r + 1 < m {
      Locality(k - 1, r);
      MovedAdjacent(Pow2(k - 1), At(k - 1, r), At(k - 1, r + 1), q);
    } else {
      Ends(k - 1);
      CrossedAdjacent(Pow2(k - 1), q);
    }
  }

  // ---- arithmetic ----

  lemma {:induction false} SquareIsPow4(k: nat)
    ensures Pow2(k) * Pow2(k) == Pow4(k)
  {
    if k > 0 {
      SquareIsPow4(k - 1);
    }
  }

  lemma {:induction false} Pow2Ordered(j: nat, k: nat)
    ensures Pow2(j) < Pow2(k) <==> j < k
    decreases k + j
  {
    if j > 0 && k > 0 {
      Pow2Ordered(j - 1, k - 1);
    }
  }

  lemma DivUnique(x: int, q: int, r: int, m: nat)
    requires m > 0 && x == q * m + r && 0 <= r < m
    ensures x / m == q && x % m == r
  {
    var q' := x / m;
    var r' := x % m;
    assert x == q' * m + r';
    assert (q - q') * m == r' - r;
    Multiple(q - q', m, r' - r);
  }

  lemma Multiple(n: int, m: int, r: int)
    requires m > 0 && n * m == r && -m < r < m
    ensures n == 0 && r == 0
  {
    assert n >= 1 ==> n * m >= m;
    assert n <= -1 ==> n * m <= -m;
  }

  // One more digit to base b: the digit, and what is left above it.
  lemma NextDigit(x: int, m: nat, b: nat)
    requires m > 0 && b > 0
    ensures b * m > 0
    ensures x % (b * m) == (x / m % b) * m + x % m && x / (b * m) == x / m / b
  {
    var t := x / m;
    var digit := t % b;
    var r := digit * m + x % m;
    assert t == (t / b) * b + digit;
    assert x == t * m + x % m;
    Regrouped(t / b, b, digit, m);
    DigitBelow(digit, m, b);
    DivUnique(x, t / b, r, b * m);
  }

  lemma Regrouped(q: int, b: nat, digit: int, m: nat)
    ensures (q * b + digit) * m == q * (b * m) + digit * m
  {
  }

  lemma DigitBelow(digit: int, m: nat, b: nat)
    requires m > 0 && 0 <= digit < b
    ensures 0 <= digit * m && digit * m + m <= b * m && b * m > 0
  {
    assert digit * m <= (b - 1) * m;
  }

  lemma TimesIs(q: int, m: nat)
    requires 0 <= q < 4
    ensures q * m == Times(q, m)
  {
  }

  // ---- the loops ----

  lemma NoDigits(d: nat)
    ensures At(0, d % Pow4(0)) == Point(0, 0) && d / Pow4(0) == d
  {
  }

  // x / s % 2 is Go's bit test of x against a power of two, right for negative x too.
  method DistanceToPoint(n: nat, d: nat, ghost k: nat) returns (x: int, y: int)
    requires n == Pow2(k)
    ensures Point(x, y) == At(k, d % Pow4(k))
  {
    hide At, Pow4;
    x, y := 0, 0;
    var t := d;
    NoDigits(d);
    var s := 1;
    ghost var j := 0;
    Pow2Ordered(0, k);
    while s < n
      invariant j <= k && s == Pow2(j) && t == d / Pow4(j) && Point(x, y) == At(j, d % Pow4(j))
      invariant s < n <==> j < k
      decreases k - j
    {
      var rx := t / 2 % 2;
      var ry := (t + rx) % 2;
      var p := Rot(s, Point(x, y), rx, ry);
      NextPoint(j, d);
      DigitBits(t);
      BitTimes(rx, s);
      BitTimes(ry, s);
      x, y := p.x + s * rx, p.y + s * ry;
      t := t / 4;
      s := s * 2;
      j := j + 1;
      Pow2Ordered(j, k);
    }
  }

  lemma BitTimes(b: int, s: nat)
    requires 0 <= b < 2
    ensures s * b == Times(b, s)
  {
  }

  lemma AtDigits(j: nat, d: nat, q: int, r: nat)
    requires 0 <= q < 4 && r < Pow4(j) && d == Times(q, Pow4(j)) + r
    ensures d < Pow4(j + 1) && At(j + 1, d) == Moved(Pow2(j), At(j, r), q)
  {
    hide At, Pow2, Moved;
    QuarterOf(q, r, Pow4(j));
    AtUnfolds(j + 1, d);
  }

  lemma Pow4Next(j: nat)
    ensures Pow4(j + 1) == 4 * Pow4(j)
  {
  }

  // The point after one more digit of d.
  lemma NextPoint(j: nat, d: nat)
    ensures 0 <= d / Pow4(j) % 4 < 4
    ensures At(j + 1, d % Pow4(j + 1)) == Moved(Pow2(j), At(j, d % Pow4(j)), d / Pow4(j) % 4)
    ensures d / Pow4(j + 1) == d / Pow4(j) / 4
  {
    hide At, Pow2, Pow4, Moved, Times;
    Pow4Next(j);
    NextDigit(d, Pow4(j), 4);
    TimesIs(d / Pow4(j) % 4, Pow4(j));
    AtDigits(j, d % Pow4(j + 1), d / Pow4(j) % 4, d % Pow4(j));
  }

  // The loop's bit tricks on t, the digits still to come.
  lemma DigitBits(t: nat)
    ensures var q := t % 4; QuadX(q) == t / 2 % 2 && QuadY(q) == (t + QuadX(q)) % 2
  {
    var a := t / 4;
    var q := t - 4 * a;
    assert 0 <= q < 4;
    assert t / 2 == 2 * a + q / 2;
    assert q / 2 == (if q >= 2 then 1 else 0);
  }

  method PointToDistance(n: nat, px: int, py: int, ghost k: nat) returns (d: nat)
    requires n == Pow2(k)
    ensures d == Distance(k, Low(k, px, py))
    ensures Inside(Point(px, py), n) ==> d == Distance(k, Point(px, py))
  {
    hide Distance, Rot, QuadIndex, Pow2, Pow4, Times;
    var x, y := px, py;
    d := 0;
    HalfOf(k);
    var s: nat := n / 2;
    ghost var j: nat := k;
    LowAll(k, px, py);
    while s > 0
      invariant j <= k && s == Half(j)
      invariant d + Distance(j, Low(j, x, y)) == Distance(k, Low(k, px, py))
      decreases j
    {
      var rx := if x / s % 2 > 0 then 1 else 0;
      var ry := if y / s % 2 > 0 then 1 else 0;
      HalfOf(j);
      j := j - 1;
      NextDistance(j, x, y);
      DigitWorth(j, QuadIndex(rx, ry));
      d := d + s * s * QuadIndex(rx, ry);
      var p := Rot(s, Point(x, y), rx, ry);
      x, y := p.x, p.y;
      HalfOf(j);
      s := s / 2;
    }
    DistanceZero(Low(j, x, y));
  }

  lemma HalfOf(j: nat)
    ensures Pow2(j) / 2 == Half(j)
    ensures Half(j) > 0 ==> j > 0 && Half(j) == Pow2(j - 1)
    ensures Half(j) == 0 ==> j == 0
  {
  }

  lemma LowAll(k: nat, x: int, y: int)
    ensures Inside(Point(x, y), Pow2(k)) ==> Low(k, x, y) == Point(x, y)
  {
    if Inside(Point(x, y), Pow2(k)) {
      SmallMod(x, Pow2(k));
      SmallMod(y, Pow2(k));
    }
  }

  lemma SmallMod(x: int, m: nat)
    requires 0 <= x < m
    ensures x % m == x
  {
  }

  lemma DistanceZero(p: Point)
    requires Inside(p, Pow2(0))
    ensures Distance(0, p) == 0
  {
  }

  function Half(j: nat): nat {
    if j == 0 then 0 else Pow2(j - 1)
  }

  lemma DigitWorth(j: nat, digit: int)
    requires 0 <= digit < 4
    ensures Pow2(j) * Pow2(j) * digit == Times(digit, Pow4(j))
  {
    SquareIsPow4(j);
    TimesIs(digit, Pow4(j));
  }

  // The bits of both coordinates that the loop has still to look at.
  function Low(j: nat, x: int, y: int): (p: Point)
    ensures Inside(p, Pow2(j))
  {
    Point(x % Pow2(j), y % Pow2(j))
  }

  lemma FlipLow(s: nat, x: int)
    requires s > 0
    ensures (s - 1 - x) % s == s - 1 - x % s
  {
    assert s - 1 - x == (-(x / s)) * s + (s - 1 - x % s);
    DivUnique(s - 1 - x, -(x / s), s - 1 - x % s, s);
  }

  // One more bit of a coordinate.
  lemma BitOf(s: nat, x: int)
    requires s > 0
    ensures 0 <= x / s % 2 < 2 && Bit(x % (2 * s), s) == x / s % 2
    ensures x % (2 * s) - Times(x / s % 2, s) == x % s
  {
    NextDigit(x, s, 2);
    TimesIs(x / s % 2, s);
  }

  // Rotating with the high bits still there changes the low bits as it should, even below zero.
  lemma RotLow(j: nat, x: int, y: int, rx: int, ry: int)
    ensures var p := Rot(Pow2(j), Point(x, y), rx, ry); Low(j, p.x, p.y) == Rot(Pow2(j), Low(j, x, y), rx, ry)
  {
    FlipLow(Pow2(j), x);
    FlipLow(Pow2(j), y);
  }

  lemma NextDistance(j: nat, x: int, y: int)
    ensures var s := Pow2(j);
            var rx := x / s % 2;
            var ry := y / s % 2;
            var p := Rot(s, Point(x, y), rx, ry);
            && 0 <= rx < 2 && 0 <= ry < 2 && 0 <= QuadIndex(rx, ry) < 4
            && Distance(j + 1, Low(j + 1, x, y)) == Times(QuadIndex(rx, ry), Pow4(j)) + Distance(j, Low(j, p.x, p.y))
  {
    var s := Pow2(j);
    BitOf(s, x);
    BitOf(s, y);
    RotLow(j, x, y, x / s % 2, y / s % 2);
    NextLow(j, x, y);
  }

  lemma NextLow(j: nat, x: int, y: int)
    requires var s := Pow2(j); Bit(x % (2 * s), s) == x / s % 2 && Bit(y % (2 * s), s) == y / s % 2
    requires var s := Pow2(j); x % (2 * s) - Times(x / s % 2, s) == x % s && y % (2 * s) - Times(y / s % 2, s) == y % s
    ensures var s := Pow2(j);
            var rx := x / s % 2;
            var ry := y / s % 2;
            MovedBack(s, Low(j + 1, x, y)) == Rot(s, Low(j, x, y), rx, ry)
            && Distance(j + 1, Low(j + 1, x, y)) == Times(QuadIndex(rx, ry), Pow4(j)) + Distance(j, MovedBack(s, Low(j + 1, x, y)))
  {
    hide Distance, Rot, QuadIndex, Times, Pow4;
    DistanceUnfolds(j + 1, Low(j + 1, x, y));
  }
}
