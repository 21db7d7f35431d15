// Lines, circles and ellipses drawn dot by dot with integer decision variables.
module Curves {

  datatype Dot = Dot(x: int, y: int)

  // After `j` steps along the long side `n`, `k` steps along the short side `m` are at most
  // half a step, and the rounding of one half, away from the line.
  predicate NearLine(n: int, m: int, j: int, k: int) {
    -(n + m) < 2 * (k * n - j * m) <= n - m
  }

  lemma NearLineMeans(n: int, m: int, j: int, k: int)
    requires 0 <= m <= n && 0 < n && NearLine(n, m, j, k)
    ensures -n < k * n - j * m < n
  {
  }

  lemma Multiple(a: int, n: int)
    requires n > 0 && -n < a * n < n
    ensures a == 0
  {
    assert a >= 1 ==> (a - 1) * n >= 0;
    assert a <= -1 ==> (-1 - a) * n >= 0;
  }

  // How far the short side has moved after `j` steps: the only number near the line.
  function Moves(n: int, m: int, j: int): int
    requires n > 0
  {
    (2 * (j * m) + n - m) / (2 * n)
  }

  lemma MovesAreNear(n: int, m: int, j: int, k: int)
    requires n > 0
    ensures NearLine(n, m, j, k) <==> k == Moves(n, m, j)
  {
    var x := 2 * (j * m) + n - m;
    var q := Moves(n, m, j);
    DivideBy(x, 2 * n);
    assert 2 * n * q <= x < 2 * n * q + 2 * n;
    assert 2 * (k * n - j * m) == 2 * n * k - 2 * (j * m);
    assert NearLine(n, m, j, k) <==> 2 * n * k <= x < 2 * n * k + 2 * n;
    if NearLine(n, m, j, k) {
      assert 2 * n * q - 2 * n * k == 2 * n * (q - k);
      Multiple(q - k, 2 * n);
    }
  }

  lemma DivideBy(x: int, d: int)
    requires d > 0
    ensures d * (x / d) <= x < d * (x / d) + d
  {
  }

  // The line ends where it should.
  lemma LineEnds(n: int, m: int)
    requires 0 <= m <= n && 0 < n
    ensures Moves(n, m, 0) == 0 && Moves(n, m, n) == m
  {
    MovesAreNear(n, m, 0, 0);
    MovesAreNear(n, m, n, m);
  }

  // It moves by at most one each step, and never back.
  lemma MovesSteps(n: int, m: int, j: int)
    requires 0 <= m <= n && 0 < n
    ensures Moves(n, m, j) <= Moves(n, m, j + 1) <= Moves(n, m, j) + 1
  {
    var k := Moves(n, m, j);
    MovesAreNear(n, m, j, k);
    assert k * n - (j + 1) * m == k * n - j * m - m && (k + 1) * n - (j + 1) * m == k * n - j * m + n - m;
    if NearLine(n, m, j + 1, k) {
      MovesAreNear(n, m, j + 1, k);
    } else {
      MovesAreNear(n, m, j + 1, k + 1);
    }
  }

  function Across(c: int, d: int, k: int): int {
    if d == 1 then c + k else c - k
  }

  // The decision variable after `j` steps and `k` moves.
  function Deviation(n: int, m: int, j: int, k: int): int {
    (m - n) / 2 + j * m - k * n
  }

  lemma LineStep(n: int, m: int, j: int, k: int)
    ensures Deviation(n, m, 0, 0) == (m - n) / 2
    ensures Deviation(n, m, j + 1, k) == Deviation(n, m, j, k) + m
    ensures Deviation(n, m, j + 1, k + 1) == Deviation(n, m, j, k) + (m - n)
  {
  }

  lemma DeviationIsNear(n: int, m: int, j: int, k: int)
    requires n > 0 && m - n <= Deviation(n, m, j, k) < m
    ensures k == Moves(n, m, j)
  {
    MovesAreNear(n, m, j, k);
  }

  // A line that is wider than high: dot `j` is in column `x + j`.
  method FlatLine(x0: int, y0: int, w: int, h: int, d: int) returns (dots: seq<Dot>)
    requires 0 <= h < w && d in {1, -1}
    ensures |dots| == w && forall j :: 0 <= j < w ==> dots[j] == Dot(x0 + j, Across(y0, d, Moves(w, h, j)))
  {
    hide Deviation, Moves;
    dots := [];
    var x, y := x0, y0;
    var x1, u := x + w, (h - w) / 2;
    ghost var k := 0;
    LineStep(w, h, 0, 0);
    while x < x1
      invariant 0 <= x - x0 == |dots| <= w && y == Across(y0, d, k)
      invariant h - w <= u < h && u == Deviation(w, h, |dots|, k)
      invariant forall j :: 0 <= j < |dots| ==> dots[j] == Dot(x0 + j, Across(y0, d, Moves(w, h, j)))
    {
      DeviationIsNear(w, h, |dots|, k);
      LineStep(w, h, |dots|, k);
      dots := dots + [Dot(x, y)];
      x := x + 1;
      if u < 0 {
        u := u + h;
      } else {
        u := u + (h - w);
        y := y + d;
        k := k + 1;
      }
    }
  }

  method SteepLine(x0: int, y0: int, w: int, h: int, d: int) returns (dots: seq<Dot>)
    requires 0 <= w <= h && d in {1, -1}
    ensures |dots| == h && forall j :: 0 <= j < h ==> dots[j] == Dot(Across(x0, d, Moves(h, w, j)), y0 + j)
  {
    hide Deviation, Moves;
    dots := [];
    var x, y := x0, y0;
    var y1, u := y + h, (w - h) / 2;
    ghost var k := 0;
    LineStep(h, w, 0, 0);
    while y < y1
      invariant 0 <= y - y0 == |dots| <= h && x == Across(x0, d, k)
      invariant w - h <= u && (h > 0 ==> u < w) && u == Deviation(h, w, |dots|, k)
      invariant forall j :: 0 <= j < |dots| ==> dots[j] == Dot(Across(x0, d, Moves(h, w, j)), y0 + j)
    {
      DeviationIsNear(h, w, |dots|, k);
      LineStep(h, w, |dots|, k);
      dots := dots + [Dot(x, y)];
      y := y + 1;
      if u < 0 {
        u := u + w;
      } else {
        u := u + (w - h);
        x := x + d;
        k := k + 1;
      }
    }
  }

  // One dot for each column, or each row, of the longer side; a falling line (`d` = -1) starts
  // at the far end of the shorter side.
  method Line(x: int, y: int, w: int, h: int, d: int) returns (dots: seq<Dot>)
    requires w >= 0 && h >= 0 && d in {1, -1}
    ensures h < w ==> |dots| == w && forall j :: 0 <= j < w ==>
              dots[j] == Dot(x + j, if d == 1 then y + Moves(w, h, j) else y + h - Moves(w, h, j))
    ensures h >= w ==> |dots| == h && forall j :: 0 <= j < h ==>
              dots[j] == Dot(if d == 1 then x + Moves(h, w, j) else x + w - Moves(h, w, j), y + j)
  {
    if h < w {
      dots := FlatLine(x, if d == -1 then y + h else y, w, h, d);
    } else {
      dots := SteepLine(if d == -1 then x + w else x, y, w, h, d);
    }
  }

  // The circle. Each point of one octant is drawn in all eight.

  function Octants(x0: int, y0: int, p: Dot): seq<Dot> {
    [Dot(x0 + p.x, y0 + p.y), Dot(x0 + p.y, y0 + p.x), Dot(x0 - p.y, y0 + p.x), Dot(x0 - p.x, y0 + p.y),
     Dot(x0 - p.x, y0 - p.y), Dot(x0 - p.y, y0 - p.x), Dot(x0 + p.y, y0 - p.x), Dot(x0 + p.x, y0 - p.y)]
  }

  function AllOctants(x0: int, y0: int, ps: seq<Dot>): seq<Dot> {
    if ps == [] then [] else AllOctants(x0, y0, ps[..|ps| - 1]) + Octants(x0, y0, ps[|ps| - 1])
  }

  // The circle's abscissa in row `y` is less than `x` + 1/2, and more than `x` - 1/2.
  predicate Inside(r: int, x: int, y: int) {
    r * r - y * y <= x * x + x
  }

  predicate Outside(r: int, x: int, y: int) {
    x * x - x < r * r - y * y
  }

  function Decision(r: int, x: int, y: int): int {
    (y + 1) * (y + 1) + x * x - x - r * r
  }

  lemma CircleStep(r: int, x: int, y: int)
    requires 0 <= y <= x && Inside(r, x, y)
    ensures Decision(r, x, y + 1) == Decision(r, x, y) + 2 * y + 3
    ensures Decision(r, x - 1, y + 1) == Decision(r, x, y) + 2 * (y - x) + 5
    ensures Decision(r, x, y) < 0 ==> Inside(r, x, y + 1) && Outside(r, x, y + 1)
    ensures Decision(r, x, y) >= 0 ==>
              Inside(r, x - 1, y + 1) && (Outside(r, x, y) && y + 1 <= x - 1 ==> Outside(r, x - 1, y + 1))
  {
  }

  lemma CircleStart(r: int)
    ensures Decision(r, r, 0) == 1 - r && (r >= 0 ==> Inside(r, r, 0)) && (r > 0 ==> Outside(r, r, 0))
  {
  }

  // Row `y` and those after it have no point on or before the diagonal.
  predicate PastDiagonal(r: int, y: int) {
    r * r <= 2 * (y * y) - y
  }

  lemma Diagonal(r: int, x: int, y: int)
    requires -1 <= x < y && 1 <= y && Inside(r, x, y)
    ensures PastDiagonal(r, y)
  {
    Pronic(x, y - 1);
  }

  lemma Pronic(x: int, z: int)
    requires -1 <= x <= z && 0 <= z
    ensures x * x + x <= z * z + z && z * z + z == (z + 1) * (z + 1) - (z + 1)
  {
    assert z * z + z - (x * x + x) == (z - x) * (z + x + 1);
    assert (z - x) * (z + x + 1) >= 0;
  }

  // The points of the octant from the axis up: the nearest in each row, as far as the diagonal.
  ghost predicate IsOctant(r: int, ps: seq<Dot>) {
    Rows(r, ps) && PastDiagonal(r, |ps|)
  }

  ghost predicate Rows(r: int, ps: seq<Dot>) {
    forall i :: 0 <= i < |ps| ==> ps[i].y == i <= ps[i].x && Inside(r, ps[i].x, i) && Outside(r, ps[i].x, i)
  }

  lemma NoRows(r: int)
    ensures Rows(r, [])
  {
  }

  lemma RowsMore(r: int, ps: seq<Dot>, x: int)
    requires Rows(r, ps) && |ps| <= x && Inside(r, x, |ps|) && Outside(r, x, |ps|)
    ensures Rows(r, ps + [Dot(x, |ps|)])
  {
    hide Inside, Outside;
  }

  lemma NearestIsOne(r: int, x: int, z: int, y: int)
    requires 0 <= x && 0 <= z && Inside(r, x, y) && Outside(r, x, y) && Inside(r, z, y) && Outside(r, z, y)
    ensures x == z
  {
    if x < z {
      Pronic(x, z - 1);
    } else if z < x {
      Pronic(z, x - 1);
    }
  }

  // The dots of a circle about the origin: farther along one axis than along the other, the
  // nearest to the circle there, on either side of either axis.
  predicate OnCircle(r: int, dx: int, dy: int) {
    var a, b := if dx < 0 then -dx else dx, if dy < 0 then -dy else dy;
    var hi, lo := if a < b then b else a, if a < b then a else b;
    hi * hi - hi < r * r - lo * lo <= hi * hi + hi
  }

  // `q` is `p`, on whichever sides of the axes.
  predicate Mirrors(q: Dot, x0: int, y0: int, px: int, py: int) {
    q.x - x0 in {px, -px} && q.y - y0 in {py, -py}
  }

  lemma OctantsAre(x0: int, y0: int, p: Dot, q: Dot)
    ensures q in Octants(x0, y0, p) <==> Mirrors(q, x0, y0, p.x, p.y) || Mirrors(q, x0, y0, p.y, p.x)
  {
    var o := Octants(x0, y0, p);
    assert q in o <==> q in {o[0], o[1], o[2], o[3], o[4], o[5], o[6], o[7]};
  }

  lemma {:induction false} AllOctantsAre(x0: int, y0: int, ps: seq<Dot>, q: Dot)
    ensures q in AllOctants(x0, y0, ps) <==> exists i :: 0 <= i < |ps| && q in Octants(x0, y0, ps[i])
    decreases |ps|
  {
    hide Octants;
    if ps != [] {
      AllOctantsAre(x0, y0, ps[..|ps| - 1], q);
    }
  }

  lemma NoneBeyond(r: int, hi: int, lo: int, y: int)
    requires 0 <= y <= lo <= hi && PastDiagonal(r, y)
    ensures !Outside(r, hi, lo)
  {
    NoMore(r, hi, y);
    assert lo * lo - y * y == (lo - y) * (lo + y);
    assert (lo - y) * (lo + y) >= 0;
  }

  lemma CircleDots(r: int, x0: int, y0: int, ps: seq<Dot>, q: Dot)
    requires IsOctant(r, ps)
    ensures q in AllOctants(x0, y0, ps) <==> OnCircle(r, q.x - x0, q.y - y0)
  {
    hide Octants, PastDiagonal;
    var dx, dy := q.x - x0, q.y - y0;
    var a, b := if dx < 0 then -dx else dx, if dy < 0 then -dy else dy;
    var hi, lo := if a < b then b else a, if a < b then a else b;
    AllOctantsAre(x0, y0, ps, q);
    if q in AllOctants(x0, y0, ps) {
      var i :| 0 <= i < |ps| && q in Octants(x0, y0, ps[i]);
      OctantsAre(x0, y0, ps[i], q);
      assert hi == ps[i].x && lo == i;
    }
    if Inside(r, hi, lo) && Outside(r, hi, lo) {
      if lo >= |ps| {
        NoneBeyond(r, hi, lo, |ps|);
      } else {
        NearestIsOne(r, hi, ps[lo].x, lo);
        OctantsAre(x0, y0, ps[lo], q);
        assert q in Octants(x0, y0, ps[lo]);
      }
    }
  }

  lemma NoMore(r: int, x: int, y: int)
    requires 0 <= y <= x && PastDiagonal(r, y)
    ensures !Outside(r, x, y)
  {
    assert (x - y) * (x + y) >= (x - y) * 1 by { assert x > y ==> x + y >= 1; }
  }

  // That says which points they are.
  lemma OctantIsOne(r: int, ps: seq<Dot>, qs: seq<Dot>)
    requires IsOctant(r, ps) && IsOctant(r, qs)
    ensures ps == qs
  {
    hide Inside, Outside, PastDiagonal;
    if |ps| < |qs| {
      NoMore(r, qs[|ps|].x, |ps|);
      assert false;
    } else if |qs| < |ps| {
      NoMore(r, ps[|qs|].x, |qs|);
      assert false;
    }
    forall i | 0 <= i < |ps| ensures ps[i] == qs[i] {
      NearestIsOne(r, ps[i].x, qs[i].x, i);
    }
  }

  // One point for each row up to the diagonal, in all eight octants: the dots on the circle, and
  // no others.
  method Circle(x0: int, y0: int, r: int) returns (dots: seq<Dot>)
    ensures r < 0 ==> dots == []
    ensures r == 0 ==> dots == Octants(x0, y0, Dot(0, 0)) && forall q :: q in dots <==> q == Dot(x0, y0)
    ensures r > 0 ==> exists ps :: IsOctant(r, ps) && dots == AllOctants(x0, y0, ps)
    ensures r > 0 ==> forall q :: q in dots <==> OnCircle(r, q.x - x0, q.y - y0)
  {
    ghost var ps;
    dots, ps := CircleByOctants(x0, y0, r);
    hide *;
    if r == 0 {
      forall q ensures q in dots <==> q == Dot(x0, y0) {
        OctantsAre(x0, y0, Dot(0, 0), q);
        Centre(q, x0, y0);
      }
    } else if r > 0 {
      forall q ensures q in dots <==> OnCircle(r, q.x - x0, q.y - y0) {
        CircleDots(r, x0, y0, ps, q);
      }
    }
  }

  lemma Centre(q: Dot, x0: int, y0: int)
    ensures Mirrors(q, x0, y0, 0, 0) <==> q == Dot(x0, y0)
  {
  }

  method CircleByOctants(x0: int, y0: int, r: int) returns (dots: seq<Dot>, ghost ps: seq<Dot>)
    ensures r < 0 ==> dots == []
    ensures r == 0 ==> dots == Octants(x0, y0, Dot(0, 0))
    ensures r > 0 ==> IsOctant(r, ps) && dots == AllOctants(x0, y0, ps)
  {
    hide Inside, Outside, Decision, Octants, PastDiagonal, Rows;
    dots, ps := [], [];
    var u, x, y := 1 - r, r, 0;
    CircleStart(r);
    NoRows(r);
    while y <= x
      invariant u == Decision(r, x, y) && x <= r && 0 <= y == |ps| && dots == AllOctants(x0, y0, ps)
      invariant r >= 0 ==> -1 <= x && Inside(r, x, y)
      invariant if y == 0 then x == r && u == 1 - r else r >= 0 && (r == 0 ==> ps == [Dot(0, 0)] && x == -1)
      invariant r > 0 ==> (y <= x ==> Outside(r, x, y))
      invariant r > 0 ==> Rows(r, ps)
      decreases x - y
    {
      CircleStep(r, x, y);
      if r > 0 { RowsMore(r, ps, x); }
      dots := dots + Octants(x0, y0, Dot(x, y));
      ps := ps + [Dot(x, y)];
      assert ps[..|ps| - 1] + [Dot(x, y)] == ps && ps[..|ps| - 1] == ps[..y];
      if u < 0 {
        u := u + (2 * y + 3);
      } else {
        u := u + (2 * (y - x) + 5);
        x := x - 1;
      }
      y := y + 1;
    }
    if r > 0 {
      Diagonal(r, x, y);
    }
  }

  // The ellipse. Its form at the half-pixel point (x2/2, y2/2), times four: negative inside.

  function Form(a: int, b: int, x2: int, y2: int): int {
    b * b * (x2 * x2) + a * a * (y2 * y2) - 4 * (a * a * (b * b))
  }

  function Quadrants(x0: int, y0: int, p: Dot): seq<Dot> {
    [Dot(x0 + p.x, y0 + p.y), Dot(x0 - p.x, y0 + p.y), Dot(x0 - p.x, y0 - p.y), Dot(x0 + p.x, y0 - p.y)]
  }

  function AllQuadrants(x0: int, y0: int, ps: seq<Dot>): seq<Dot> {
    if ps == [] then [] else AllQuadrants(x0, y0, ps[..|ps| - 1]) + Quadrants(x0, y0, ps[|ps| - 1])
  }

  // One of the points, on whichever sides of the axes.
  ghost predicate OnSides(q: Dot, x0: int, y0: int, ps: seq<Dot>) {
    exists i :: 0 <= i < |ps| && Mirrors(q, x0, y0, ps[i].x, ps[i].y)
  }

  lemma {:induction false} QuadrantsAre(x0: int, y0: int, ps: seq<Dot>, q: Dot)
    ensures q in AllQuadrants(x0, y0, ps) <==> OnSides(q, x0, y0, ps)
    decreases |ps|
  {
    if ps != [] {
      var init, p := ps[..|ps| - 1], ps[|ps| - 1];
      QuadrantsAre(x0, y0, init, q);
      var o := Quadrants(x0, y0, p);
      assert q in o <==> q in {o[0], o[1], o[2], o[3]};
      assert q in o <==> Mirrors(q, x0, y0, p.x, p.y);
      hide Mirrors, Quadrants;
      assert OnSides(q, x0, y0, ps) <==> OnSides(q, x0, y0, init) || Mirrors(q, x0, y0, p.x, p.y);
    }
  }

  lemma NoQuadrants(x0: int, y0: int)
    ensures AllQuadrants(x0, y0, []) == []
  {
  }

  lemma MoreQuadrants(x0: int, y0: int, ps: seq<Dot>, p: Dot)
    ensures AllQuadrants(x0, y0, ps + [p]) == AllQuadrants(x0, y0, ps) + Quadrants(x0, y0, p)
  {
    assert (ps + [p])[..|ps|] == ps;
  }

  // The decision variables of the two loops: the form, rounded down, at the candidates for
  // the next dot.
  function H1(a: int, b: int, x: int, y: int): int {
    Form(a, b, 2 * x + 2, 2 * y - 1) / 4
  }

  function G1(a: int, b: int, x: int, y: int): int {
    Form(a, b, 2 * x + 2, 2 * y - 3) / 4
  }

  function H2(a: int, b: int, x: int, y: int): int {
    Form(a, b, 2 * x - 1, 2 * y + 2) / 4
  }

  // Less than half a pixel below the ellipse, or above it, in column `x`.
  predicate NearVertically(a: int, b: int, x: int, y: int) {
    Form(a, b, 2 * x, 2 * y - 1) < 0 <= Form(a, b, 2 * x, 2 * y + 1)
  }

  lemma Starts(a: int, b: int)
    ensures H1(a, b, 0, b) == a * a / 4 - b * (a * a) + b * b
    ensures G1(a, b, 0, b) == 9 * (a * a) / 4 - 3 * b * (a * a) + b * b
    ensures H2(a, b, a, 0) == b * b / 4 - a * (b * b) + a * a
  {
    hide Form;
    FormAtTop(a, b);
    FormBelowTop(a, b);
    FormAtSide(a, b);
    Quarter(a * a, b * b - b * (a * a));
    Quarter(9 * (a * a), b * b - 3 * b * (a * a));
    Quarter(b * b, a * a - a * (b * b));
  }

  lemma FormAtTop(a: int, b: int)
    ensures Form(a, b, 2 * 0 + 2, 2 * b - 1) == a * a + 4 * (b * b - b * (a * a))
  {
  }

  lemma FormBelowTop(a: int, b: int)
    ensures Form(a, b, 2 * 0 + 2, 2 * b - 3) == 9 * (a * a) + 4 * (b * b - 3 * b * (a * a))
  {
  }

  lemma FormAtSide(a: int, b: int)
    ensures Form(a, b, 2 * a - 1, 2 * 0 + 2) == b * b + 4 * (a * a - a * (b * b))
  {
  }

  lemma Quarter(x: int, y: int)
    ensures (x + 4 * y) / 4 == x / 4 + y
  {
  }

  lemma FormRight(a: int, b: int, x: int, y2: int)
    ensures Form(a, b, 2 * (x + 1) + 2, y2) == Form(a, b, 2 * x + 2, y2) + 4 * ((2 * x + 3) * (b * b))
  {
  }

  lemma FormDown(a: int, b: int, x2: int, y: int)
    ensures Form(a, b, x2, 2 * (y - 1) - 1) == Form(a, b, x2, 2 * y - 1) - 4 * (2 * (y - 1) * (a * a))
    ensures Form(a, b, x2, 2 * (y - 1) - 3) == Form(a, b, x2, 2 * y - 3) - 4 * (2 * (y - 2) * (a * a))
  {
  }

  lemma ArcStep(a: int, b: int, x: int, y: int)
    ensures H1(a, b, x + 1, y) == H1(a, b, x, y) + (2 * x + 3) * (b * b)
    ensures G1(a, b, x + 1, y) == G1(a, b, x, y) + (2 * x + 3) * (b * b)
    ensures H1(a, b, x + 1, y - 1) == H1(a, b, x, y) + (2 * x + 3) * (b * b) - 2 * (y - 1) * (a * a)
    ensures G1(a, b, x + 1, y - 1) == G1(a, b, x, y) + (2 * x + 3) * (b * b) - 2 * (y - 1) * (a * a) + 2 * (a * a)
  {
    hide Form;
    FormRight(a, b, x, 2 * y - 1);
    FormRight(a, b, x, 2 * y - 3);
    FormDown(a, b, 2 * (x + 1) + 2, y);
    assert 2 * (y - 2) * (a * a) == 2 * (y - 1) * (a * a) - 2 * (a * a);
  }

  lemma ArcNear(a: int, b: int, x: int, y: int)
    requires 0 <= x && 1 <= y && NearVertically(a, b, x, y) && G1(a, b, x, y) < 0
    ensures if H1(a, b, x, y) < 0 then NearVertically(a, b, x + 1, y) else 2 <= y && NearVertically(a, b, x + 1, y - 1)
  {
    Wider(a, b, x, 2 * y + 1);
    assert y == 1 ==> Form(a, b, 2 * x + 2, -1) == Form(a, b, 2 * x + 2, 1);
    assert 2 * (x + 1) == 2 * x + 2;
    hide Form;
  }

  lemma Wider(a: int, b: int, x: int, y2: int)
    requires 0 <= x
    ensures Form(a, b, 2 * x, y2) <= Form(a, b, 2 * x + 2, y2)
  {
    assert Form(a, b, 2 * x + 2, y2) - Form(a, b, 2 * x, y2) == b * b * (8 * x + 4);
    assert b * b >= 0 && b * b * (8 * x + 4) >= 0;
  }

  lemma Cancel(s: int, p: int, q: int)
    requires 0 <= s && s * p < s * q
    ensures 0 < s && p < q
  {
    assert p >= q ==> s * (p - q) >= 0;
  }

  lemma RootLess(x: int, a: int)
    requires 0 <= x && 0 <= a && x * x < a * a
    ensures x < a
  {
    assert x >= a ==> (x - a) * (x + a) >= 0;
  }

  // While the first loop runs, the next column is inside the ellipse.
  lemma ArcEnds(a: int, b: int, x: int, y: int)
    requires 0 <= a && 0 <= x && G1(a, b, x, y) < 0
    ensures x + 1 < a && b != 0
  {
    ArcEndsForm(a * a, b * b, x + 1, 2 * y - 3);
    Cancel(b * b, (x + 1) * (x + 1), a * a);
    RootLess(x + 1, a);
  }

  lemma ArcEndsForm(aa: int, bb: int, x: int, y2: int)
    requires aa >= 0 && bb * (2 * x * (2 * x)) + aa * (y2 * y2) - 4 * (aa * bb) < 0
    ensures bb * (x * x) < bb * aa
  {
    assert y2 * y2 >= 0 && aa * (y2 * y2) >= 0;
    assert bb * (2 * x * (2 * x)) == 4 * (bb * (x * x));
  }

  lemma ArcStart(a: int, b: int)
    requires 1 <= a && 1 <= b
    ensures NearVertically(a, b, 0, b)
  {
    assert Form(a, b, 0, 2 * b - 1) == a * a * (1 - 4 * b);
    assert Form(a, b, 0, 2 * b + 1) == a * a * (1 + 4 * b);
  }

  // The dots of the first loop, one a column, and the column and row where it ends.
  ghost predicate IsTop(a: int, b: int, ps: seq<Dot>, y: int) {
    && (forall i :: 0 <= i < |ps| ==> ps[i].x == i && y <= ps[i].y && NearVertically(a, b, i, ps[i].y))
    && (if 1 <= a && 1 <= b then 1 <= y <= b && NearVertically(a, b, |ps|, y) && G1(a, b, |ps|, y) >= 0
        else ps == [] && y == b)
  }

  // From the top, column by column, as long as the curve is flat.
  method TopArc(x0: int, y0: int, a: int, b: int) returns (dots: seq<Dot>, y: int)
    requires 0 <= a && 0 <= b
    ensures exists ps :: IsTop(a, b, ps, y) && dots == AllQuadrants(x0, y0, ps)
  {
    hide H1, G1, NearVertically, Quadrants, AllQuadrants;
    Starts(a, b);
    if 1 <= a && 1 <= b { ArcStart(a, b); }
    var aa, bb := a * a, b * b;
    var h, g, x := aa / 4 - b * aa + bb, 9 * aa / 4 - 3 * b * aa + bb, 0;
    y := b;
    dots := [];
    ghost var ps := [];
    NoQuadrants(x0, y0);
    while g < 0
      invariant h == H1(a, b, x, y) && g == G1(a, b, x, y) && 0 <= x == |ps| && dots == AllQuadrants(x0, y0, ps)
      invariant 1 <= a && 1 <= b ==> 1 <= y <= b && NearVertically(a, b, x, y)
      invariant a == 0 || b == 0 ==> x == 0 && y == b
      invariant forall i :: 0 <= i < |ps| ==> ps[i].x == i && y <= ps[i].y && NearVertically(a, b, i, ps[i].y)
      decreases a - x
    {
      ArcEnds(a, b, x, y);
      ArcStep(a, b, x, y);
      ArcNear(a, b, x, y);
      MoreQuadrants(x0, y0, ps, Dot(x, y));
      dots := dots + Quadrants(x0, y0, Dot(x, y));
      ps := ps + [Dot(x, y)];
      var d: int;
      if h < 0 {
        d := (2 * x + 3) * bb;
        g := g + d;
      } else {
        d := (2 * x + 3) * bb - 2 * (y - 1) * aa;
        g := g + (d + 2 * aa);
        y := y - 1;
      }
      h := h + d;
      x := x + 1;
    }
    assert IsTop(a, b, ps, y);
  }

  // Not more than half a pixel inside the ellipse in row `y`.
  predicate NotInside(a: int, b: int, x: int, y: int) {
    Form(a, b, 2 * x + 1, 2 * y) >= 0
  }

  // Where the next row's dot goes.
  function SideNext(a: int, b: int, x: int, y: int): int {
    if H2(a, b, x, y) < 0 then x else x - 1
  }

  lemma FormUp(a: int, b: int, x2: int, y: int)
    ensures Form(a, b, x2, 2 * (y + 1) + 2) == Form(a, b, x2, 2 * y + 2) + 4 * ((2 * y + 3) * (a * a))
  {
  }

  lemma FormLeft(a: int, b: int, x: int, y2: int)
    ensures Form(a, b, 2 * (x - 1) - 1, y2) == Form(a, b, 2 * x - 1, y2) - 4 * (2 * (x - 1) * (b * b))
  {
  }

  lemma SideStep(a: int, b: int, x: int, y: int)
    ensures SideNext(a, b, x, y) == if H2(a, b, x, y) < 0 then x else x - 1
    ensures H2(a, b, x, y + 1) == H2(a, b, x, y) + (2 * y + 3) * (a * a)
    ensures H2(a, b, x - 1, y + 1) == H2(a, b, x, y) + (2 * y + 3) * (a * a) - 2 * (x - 1) * (b * b)
  {
    hide Form;
    FormUp(a, b, 2 * x - 1, y);
    FormLeft(a, b, x, 2 * (y + 1) + 2);
  }

  lemma SideNear(a: int, b: int, x: int, y: int)
    requires 0 <= y && NotInside(a, b, x, y)
    ensures NotInside(a, b, SideNext(a, b, x, y), y + 1)
  {
    assert Form(a, b, 2 * x + 1, 2 * y + 2) - Form(a, b, 2 * x + 1, 2 * y) == a * a * (8 * y + 4);
    assert a * a >= 0 && a * a * (8 * y + 4) >= 0;
    assert 2 * (x - 1) + 1 == 2 * x - 1 && 2 * (y + 1) == 2 * y + 2;
    hide Form;
  }

  // In row `y` the ellipse goes out past the middle between the columns x-1 and x; to column 0 it
  // goes in every row it has points in.
  predicate Reaches(a: int, b: int, x: int, y: int) {
    0 <= x && if x == 0 then Form(a, b, 0, 2 * y) <= 0 else Form(a, b, 2 * x - 1, 2 * y) < 0
  }

  // At most half a pixel from the ellipse in row `y`.
  predicate NearHorizontally(a: int, b: int, x: int, y: int) {
    Reaches(a, b, x, y) && NotInside(a, b, x, y)
  }

  lemma Narrower(a: int, b: int, u: int, v: int, y2: int)
    requires 0 <= u <= v
    ensures Form(a, b, u, y2) <= Form(a, b, v, y2)
  {
    assert Form(a, b, v, y2) - Form(a, b, u, y2) == b * b * ((v - u) * (v + u));
    assert b * b >= 0 && (v - u) * (v + u) >= 0;
    assert b * b * ((v - u) * (v + u)) >= 0;
  }

  lemma Mirrored(a: int, b: int, x2: int, y2: int)
    ensures Form(a, b, -x2, y2) == Form(a, b, x2, y2)
  {
  }

  lemma OnAxis(a: int, b: int, y2: int)
    ensures Form(a, b, 0, y2) == Form(a, b, 1, y2) - b * b
  {
  }

  lemma Taller(a: int, b: int, x2: int, y: int)
    requires 0 <= y
    ensures Form(a, b, x2, 2 * y) <= Form(a, b, x2, 2 * (y + 1))
  {
    assert Form(a, b, x2, 2 * y + 2) - Form(a, b, x2, 2 * y) == a * a * (8 * y + 4);
    assert a * a >= 0 && a * a * (8 * y + 4) >= 0;
  }

  // There is one such column in a row.
  lemma NearUnique(a: int, b: int, x: int, x': int, y: int)
    requires NearHorizontally(a, b, x, y) && NearHorizontally(a, b, x', y)
    ensures x == x'
  {
    hide Form;
    if x < x' {
      Narrower(a, b, 2 * x + 1, 2 * x' - 1, 2 * y);
    } else if x' < x {
      Narrower(a, b, 2 * x' + 1, 2 * x - 1, 2 * y);
    }
  }

  // The second loop has no counterpart of the first one's guard. From a dot next to the ellipse
  // it goes to another exactly if the ellipse in the next row reaches one column further in.
  lemma SideNearIff(a: int, b: int, x: int, y: int)
    requires 0 <= y && NearHorizontally(a, b, x, y)
    ensures NearHorizontally(a, b, SideNext(a, b, x, y), y + 1) <==> Reaches(a, b, x - 1, y + 1)
  {
    SideNear(a, b, x, y);
    assert H2(a, b, x, y) < 0 <==> Form(a, b, 2 * x - 1, 2 * y + 2) < 0;
    assert 2 * (y + 1) == 2 * y + 2 && 2 * (x - 1) - 1 == 2 * x - 3;
    hide Form, H2;
    if x == 0 {
      Taller(a, b, 1, y);
      Mirrored(a, b, 1, 2 * y + 2);
    } else if x == 1 {
      OnAxisBelow(a, b, 2 * y + 2);
    } else {
      Narrower(a, b, 2 * x - 3, 2 * x - 1, 2 * y + 2);
    }
  }

  lemma OnAxisBelow(a: int, b: int, y2: int)
    ensures Form(a, b, 0, y2) <= Form(a, b, 1, y2)
  {
    OnAxis(a, b, y2);
    assert b * b >= 0;
  }

  // How fast the dots leave the ellipse when they go one column in with each row.
  function Slope(a: int, b: int, x: int, y: int): int {
    Form(a, b, 2 * x - 3, 2 * y + 2) - Form(a, b, 2 * x - 1, 2 * y)
  }

  lemma SlopeGrows(a: int, b: int, x: int, y: int)
    ensures Slope(a, b, x - 1, y + 1) == Slope(a, b, x, y) + 8 * (a * a) + 8 * (b * b)
  {
  }

  // Outside the ellipse, and heading further out.
  predicate Gone(a: int, b: int, x: int, y: int) {
    && NotInside(a, b, x, y)
    && if x < 0 then true else if x == 0 then Form(a, b, 0, 2 * y) > 0 else
         Form(a, b, 2 * x - 1, 2 * y) >= 0 && Slope(a, b, x, y) > b * b
  }

  lemma GoneStays(a: int, b: int, x: int, y: int)
    requires 0 <= y && Gone(a, b, x, y)
    ensures Gone(a, b, SideNext(a, b, x, y), y + 1)
  {
    SideNear(a, b, x, y);
    Inwards(a, b, x, y);
    assert 2 * (y + 1) == 2 * y + 2 && 2 * (x - 1) - 1 == 2 * x - 3;
    if x > 0 {
      SlopeGrows(a, b, x, y);
      assert a * a >= 0 && b * b >= 0;
      if x == 1 {
        hide Form;
        OnAxis(a, b, 2 * y + 2);
        Mirrored(a, b, 1, 2 * y + 2);
      }
    }
    hide Form, H2, Slope;
  }

  // From a dot outside, the curve goes one column in.
  lemma Inwards(a: int, b: int, x: int, y: int)
    requires 0 <= y && Gone(a, b, x, y)
    ensures SideNext(a, b, x, y) == x - 1
  {
    Taller(a, b, 2 * x - 1, y);
    assert 2 * (y + 1) == 2 * y + 2;
    if x <= 0 {
      Mirrored(a, b, 2 * x - 1, 2 * y);
      Mirrored(a, b, 2 * x + 1, 2 * y);
      if x < 0 {
        Narrower(a, b, -(2 * x + 1), -(2 * x - 1), 2 * y);
      } else {
        Mirrored(a, b, 1, 2 * y);
      }
    }
    hide Form;
  }

  lemma Leaving(a: int, b: int, x: int, y: int)
    requires 0 <= y && 1 <= b && NearHorizontally(a, b, x, y)
    requires !NearHorizontally(a, b, SideNext(a, b, x, y), y + 1)
    ensures Gone(a, b, SideNext(a, b, x, y), y + 1)
  {
    SideNear(a, b, x, y);
    SideNearIff(a, b, x, y);
    assert H2(a, b, x, y) < 0 <==> Form(a, b, 2 * x - 1, 2 * y + 2) < 0;
    assert 2 * (y + 1) == 2 * y + 2 && 2 * (x - 1) - 1 == 2 * x - 3;
    SlopeGrows(a, b, x, y);
    assert a * a >= 0 && b * b > 0;
    hide Form, H2;
    if x > 1 {
      assert Slope(a, b, x, y) > 0;
    }
  }

  lemma FlatForm(x2: int, y2: int)
    ensures Form(10, 1, x2, y2) == x2 * x2 + 100 * (y2 * y2) - 400
  {
  }

  // A flat ellipse is left: row 1 of the ellipse 10 wide and 1 high gets its dot in column 9,
  // where the ellipse is at column 0.
  lemma SideLeaves()
    ensures NearHorizontally(10, 1, 10, 0) && SideNext(10, 1, 10, 0) == 9
    ensures !NearHorizontally(10, 1, 9, 1) && NearHorizontally(10, 1, 0, 1)
    ensures NearVertically(10, 1, 0, 1)
  {
    hide Form;
    FlatForm(19, 0);
    FlatForm(21, 0);
    FlatForm(19, 2);
    FlatForm(17, 2);
    FlatForm(0, 2);
    FlatForm(1, 2);
    FlatForm(0, 1);
    FlatForm(0, 3);
  }

  lemma SideStart(a: int, b: int)
    requires 0 <= a
    ensures NotInside(a, b, a, 0)
  {
    assert Form(a, b, 2 * a + 1, 0) == b * b * (4 * a + 1);
    assert b * b >= 0 && b * b * (4 * a + 1) >= 0;
  }

  // The dots of the second loop, one a row.
  ghost predicate IsSide(a: int, b: int, ps: seq<Dot>) {
    && ps != [] && ps[0] == Dot(a, 0)
    && (forall i :: 0 <= i < |ps| ==> ps[i].y == i && NotInside(a, b, ps[i].x, i))
    && (forall i, j :: 0 <= i && j == i + 1 < |ps| ==> ps[j].x == SideNext(a, b, ps[i].x, i))
  }

  predicate Nears(a: int, b: int, ps: seq<Dot>) {
    forall i :: 0 <= i < |ps| ==> NearHorizontally(a, b, ps[i].x, i)
  }

  // In each of the next `n` rows the ellipse is at most a column further in than in the row before.
  ghost predicate Gentle(a: int, b: int, n: int) {
    forall x, y :: 0 <= y < n && NearHorizontally(a, b, x, y) ==> Reaches(a, b, x - 1, y + 1)
  }

  lemma SideFirst(a: int, b: int)
    requires 1 <= a && 1 <= b
    ensures NearHorizontally(a, b, a, 0)
  {
    SideStart(a, b);
    assert Form(a, b, 2 * a - 1, 0) == b * b * (1 - 4 * a);
    assert b * b > 0 && b * b * (4 * a - 1) > 0;
  }

  // The dots of the second loop stay next to the ellipse exactly if it is gentle that far. This
  // can be seen from the ellipse alone.
  lemma {:induction false} SideNears(a: int, b: int, ps: seq<Dot>)
    requires 1 <= a && 1 <= b && IsSide(a, b, ps)
    ensures Nears(a, b, ps) <==> Gentle(a, b, |ps| - 1)
    decreases |ps|
  {
    hide NearHorizontally, Reaches, SideNext, NotInside;
    var n := |ps| - 1;
    if n == 0 {
      SideFirst(a, b);
    } else {
      var init, y, x := ps[..n], n - 1, ps[n - 1].x;
      SideNears(a, b, init);
      assert init[y] == ps[y] && ps[n].x == SideNext(a, b, x, y);
      if Nears(a, b, init) {
        assert NearHorizontally(a, b, x, y);
        SideNearIff(a, b, x, y);
        forall x' | NearHorizontally(a, b, x', y) ensures x' == x {
          NearUnique(a, b, x, x', y);
        }
      } else {
        assert exists i :: 0 <= i < n && !NearHorizontally(a, b, init[i].x, i) && init[i] == ps[i];
      }
    }
  }

  // Once it leaves the ellipse the second loop never comes back: its dots are all next to the
  // ellipse if the last one is.
  lemma {:induction false} SideStays(a: int, b: int, ps: seq<Dot>)
    requires 1 <= a && 1 <= b && IsSide(a, b, ps)
    ensures var n := |ps| - 1;
      Nears(a, b, ps) == NearHorizontally(a, b, ps[n].x, n) && (Nears(a, b, ps) || Gone(a, b, ps[n].x, n))
    decreases |ps|
  {
    hide NearHorizontally, SideNext, NotInside, Gone;
    var n := |ps| - 1;
    if n == 0 {
      SideFirst(a, b);
    } else {
      var init, x := ps[..n], ps[n - 1].x;
      SideStays(a, b, init);
      assert init[n - 1] == ps[n - 1] && ps[n].x == SideNext(a, b, x, n - 1);
      if !Nears(a, b, init) {
        GoneStays(a, b, x, n - 1);
        GoneIsOff(a, b, ps[n].x, n);
      } else if !NearHorizontally(a, b, ps[n].x, n) {
        Leaving(a, b, x, n - 1);
      }
    }
  }

  lemma GoneIsOff(a: int, b: int, x: int, y: int)
    requires Gone(a, b, x, y)
    ensures !NearHorizontally(a, b, x, y)
  {
  }

  // From the side, row by row, up to where the top arc ended.
  method SideArc(x0: int, y0: int, a: int, b: int, y1: int) returns (dots: seq<Dot>)
    requires 0 <= a && 0 <= y1
    ensures exists ps :: IsSide(a, b, ps) && |ps| == y1 + 1 && dots == AllQuadrants(x0, y0, ps)
  {
    hide NotInside, Quadrants, AllQuadrants, Form, H2, SideNext, IsSide;
    Starts(a, b);
    SideStart(a, b);
    var aa, bb := a * a, b * b;
    var h, x, y := bb / 4 - a * bb + aa, a, 0;
    dots := [];
    ghost var ps := [];
    NoQuadrants(x0, y0);
    while y <= y1
      invariant h == H2(a, b, x, y) && 0 <= y == |ps| <= y1 + 1 && dots == AllQuadrants(x0, y0, ps)
      invariant NotInside(a, b, x, y) && (if y == 0 then x == a else IsSide(a, b, ps) && x == SideNext(a, b, ps[y - 1].x, y - 1))
    {
      SideStep(a, b, x, y);
      SideNear(a, b, x, y);
      MoreQuadrants(x0, y0, ps, Dot(x, y));
      SideMore(a, b, ps, x);
      dots := dots + Quadrants(x0, y0, Dot(x, y));
      ps := ps + [Dot(x, y)];
      if h < 0 {
        h := h + (2 * y + 3) * aa;
      } else {
        h := h + ((2 * y + 3) * aa - 2 * (x - 1) * bb);
        x := x - 1;
      }
      y := y + 1;
    }
  }

  // Another row of the side.
  lemma SideMore(a: int, b: int, ps: seq<Dot>, x: int)
    requires NotInside(a, b, x, |ps|)
    requires if ps == [] then x == a else IsSide(a, b, ps) && x == SideNext(a, b, ps[|ps| - 1].x, |ps| - 1)
    ensures IsSide(a, b, ps + [Dot(x, |ps|)])
  {
    hide NotInside, SideNext;
  }

  // Columns from the axis outwards, then rows from the axis up to the last row of the columns.
  method Ellipse(x0: int, y0: int, a: int, b: int) returns (dots: seq<Dot>)
    requires 0 <= a && 0 <= b
    ensures exists top, side :: side != [] && IsTop(a, b, top, |side| - 1) && IsSide(a, b, side)
              && dots == AllQuadrants(x0, y0, top) + AllQuadrants(x0, y0, side)
              && forall q :: q in dots <==> OnSides(q, x0, y0, top) || OnSides(q, x0, y0, side)
  {
    hide IsSide, AllQuadrants, NearVertically, G1, OnSides;
    var top, y1 := TopArc(x0, y0, a, b);
    var side := SideArc(x0, y0, a, b, y1);
    dots := top + side;
    ghost var ps :| IsTop(a, b, ps, y1) && top == AllQuadrants(x0, y0, ps);
    ghost var qs :| IsSide(a, b, qs) && |qs| == y1 + 1 && side == AllQuadrants(x0, y0, qs);
    forall q ensures q in dots <==> OnSides(q, x0, y0, ps) || OnSides(q, x0, y0, qs) {
      QuadrantsAre(x0, y0, ps, q);
      QuadrantsAre(x0, y0, qs, q);
    }
  }
}
