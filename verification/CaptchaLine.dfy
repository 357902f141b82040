/** The captcha's line drawing: an incremental error-term loop, proved to visit exactly the
    pixels of a closed form that rounds the ideal line. */
module CaptchaLine {

  datatype Point = Point(x: int, y: int)
  datatype Color = Color(r: int, g: int, b: int, a: int)

  function AbsoluteInt(value: int): (r: int)
    ensures r >= 0 && (r == value || r == -value)
  {
    if value < 0 then -value else value
  }

  /** `n` steps from one coordinate towards another. */
  function Walk(from: int, to: int, n: int): int {
    if from < to then from + n else from - n
  }

  function Larger(d: nat, e: nat): nat {
    if d >= e then d else e
  }

  /** n / d rounded to the nearest integer, halves upwards; 0 for a line without extent. */
  function Rounded(n: nat, d: nat): nat {
    if d == 0 then 0 else (2 * n + d) / (2 * d)
  }

  /** How far pixel `k` of a line with extents `d` and `e` is from its start on each axis: the
      longer axis advances by one per pixel, the other follows by rounding. */
  function Offset(d: nat, e: nat, k: nat): (nat, nat) {
    if d >= e then (k, Rounded(k * e, d)) else (Rounded(k * d, e), k)
  }

  /** Pixel `k` of the line from `a` to `b`. */
  function Pixel(a: Point, b: Point, k: nat): Point {
    var o := Offset(Width(a, b), Height(a, b), k);
    Point(Walk(a.x, b.x, o.0), Walk(a.y, b.y, o.1))
  }

  function Width(a: Point, b: Point): nat {
    AbsoluteInt(b.x - a.x)
  }

  function Height(a: Point, b: Point): nat {
    AbsoluteInt(b.y - a.y)
  }

  function Length(a: Point, b: Point): nat {
    Larger(Width(a, b), Height(a, b)) + 1
  }

  function FirstPixels(a: Point, b: Point, n: nat): (points: seq<Point>)
    ensures |points| == n
    ensures forall k :: 0 <= k < n ==> points[k] == Pixel(a, b, k)
  {
    if n == 0 then [] else FirstPixels(a, b, n - 1) + [Pixel(a, b, n - 1)]
  }

  function Line(a: Point, b: Point): seq<Point> {
    FirstPixels(a, b, Length(a, b))
  }

  // ---------------------------------------------------------------------------------------
  // What the closed form means.

  /** `q` is `n / d` rounded, halves upwards. */
  ghost predicate Rounds(n: int, d: int, q: int) {
    -d < 2 * (q * d - n) <= d
  }

  lemma MultipleIsLarge(m: int, d: int)
    requires m >= 1 && d >= 0
    ensures m * d >= d
  {
    assert m * d == (m - 1) * d + d;
    assert (m - 1) * d >= 0;
  }

  /** A multiple of `d` that is less than `d` away from zero is zero. */
  lemma SmallMultiple(m: int, d: int)
    requires d > 0 && -d < m * d < d
    ensures m == 0
  {
    assert -m * d == -(m * d);
    if m > 0 {
      MultipleIsLarge(m, d);
    } else if m < 0 {
      MultipleIsLarge(-m, d);
    }
  }

  lemma RoundedBounds(n: nat, d: nat)
    requires d > 0
    ensures Rounds(n, d, Rounded(n, d))
  {
    var q := Rounded(n, d);
    var rest := (2 * n + d) % (2 * d);
    assert 2 * n + d == (2 * d) * q + rest;
    assert (2 * d) * q == 2 * (q * d);
  }

  /** Rounding is determined by the form that the error term tracks. */
  lemma RoundedIs(n: nat, d: nat, q: nat)
    requires d > 0 && Rounds(n, d, q)
    ensures Rounded(n, d) == q
  {
    var r := Rounded(n, d);
    RoundedBounds(n, d);
    assert (q - r) * d == q * d - r * d;
    SmallMultiple(q - r, d);
  }

  lemma OrderFromProducts(p: int, q: int, d: int)
    requires d > 0 && p * d < q * d + d
    ensures p <= q
  {
    assert (p - q) * d == p * d - q * d;
    if p > q {
      MultipleIsLarge(p - q, d);
    }
  }

  lemma RoundedAtMost(n: nat, d: nat, e: nat)
    requires d > 0 && n <= e * d
    ensures Rounded(n, d) <= e
  {
    RoundedBounds(n, d);
    OrderFromProducts(Rounded(n, d), e, d);
  }

  lemma ShorterProduct(k: nat, d: nat, e: nat)
    requires k <= d
    ensures k * e <= e * d
  {
    assert (d - k) * e == e * d - k * e;
  }

  /** On the way the other axis never leaves its extent, and at the end it has reached it. */
  lemma RoundedWithin(k: nat, d: nat, e: nat)
    requires k <= d && e <= d
    ensures Rounded(k * e, d) <= e
  {
    if d > 0 {
      ShorterProduct(k, d, e);
      RoundedAtMost(k * e, d, e);
    }
  }

  lemma RoundedAtEnd(d: nat, e: nat)
    requires e <= d
    ensures Rounded(d * e, d) == e
  {
    if d > 0 {
      RoundedIs(d * e, d, e);
    }
  }

  predicate Between(a: int, v: int, b: int) {
    a <= v <= b || b <= v <= a
  }

  lemma OffsetWithin(d: nat, e: nat, k: nat)
    requires k <= Larger(d, e)
    ensures Offset(d, e, k).0 <= d && Offset(d, e, k).1 <= e
    ensures k == Larger(d, e) ==> Offset(d, e, k) == (d, e)
  {
    if d >= e {
      RoundedWithin(k, d, e);
      RoundedAtEnd(d, e);
    } else {
      RoundedWithin(k, e, d);
      RoundedAtEnd(e, d);
    }
  }

  /** The line runs from one end to the other inside their box. */
  lemma LineJoinsEnds(a: Point, b: Point)
    ensures Line(a, b)[0] == a && Line(a, b)[|Line(a, b)| - 1] == b
    ensures forall p :: p in Line(a, b) ==> Between(a.x, p.x, b.x) && Between(a.y, p.y, b.y)
  {
    var d, e := Width(a, b), Height(a, b);
    OffsetWithin(d, e, Length(a, b) - 1);
    assert Offset(d, e, 0) == (0, 0) by {
      if d > 0 { RoundedIs(0, d, 0); }
      if e > 0 { RoundedIs(0, e, 0); }
    }
    forall k | 0 <= k < Length(a, b)
      ensures Between(a.x, Pixel(a, b, k).x, b.x) && Between(a.y, Pixel(a, b, k).y, b.y)
    {
      OffsetWithin(d, e, k);
    }
  }

  /** After i x-steps and j y-steps the pixel is within half a pixel of the ideal line, and no
      other choice on the shorter axis is nearer. */
  lemma PixelIsNearest(d: nat, e: nat, k: nat, other: nat)
    requires k <= Larger(d, e)
    ensures var (i, j) := Offset(d, e, k);
      && 2 * AbsoluteInt(i * e - j * d) <= Larger(d, e)
      && (d >= e ==> AbsoluteInt(i * e - j * d) <= AbsoluteInt(i * e - other * d))
      && (d < e ==> AbsoluteInt(i * e - j * d) <= AbsoluteInt(other * e - j * d))
  {
    if d >= e && d > 0 {
      RoundedBounds(k * e, d);
      NearestMultiple(k * e, d, Rounded(k * e, d), other);
    } else if d < e {
      RoundedBounds(k * d, e);
      NearestMultiple(k * d, e, Rounded(k * d, e), other);
    }
  }

  lemma NearestMultiple(n: int, d: int, q: int, other: int)
    requires d > 0 && Rounds(n, d, q)
    ensures AbsoluteInt(n - q * d) <= AbsoluteInt(n - other * d)
  {
    assert (other - q) * d == other * d - q * d;
    if other != q && -d < (other - q) * d < d {
      SmallMultiple(other - q, d);
    }
  }

  /** Consecutive pixels touch and no pixel is visited twice. */
  lemma LineIsConnected(a: Point, b: Point, k: nat, m: nat)
    requires k < m < Length(a, b)
    ensures Line(a, b)[k] != Line(a, b)[m]
    ensures m == k + 1 ==>
      AbsoluteInt(Line(a, b)[m].x - Line(a, b)[k].x) <= 1 && AbsoluteInt(Line(a, b)[m].y - Line(a, b)[k].y) <= 1
  {
    var d, e := Width(a, b), Height(a, b);
    if m == k + 1 {
      if d >= e {
        RoundedStep(k, d, e);
      } else {
        RoundedStep(k, e, d);
      }
    }
  }

  lemma RoundedStep(k: nat, d: nat, e: nat)
    requires e <= d && d > 0
    ensures Rounded(k * e, d) <= Rounded((k + 1) * e, d) <= Rounded(k * e, d) + 1
  {
    RoundedBounds(k * e, d);
    RoundedBounds((k + 1) * e, d);
    var p, q := Rounded(k * e, d), Rounded((k + 1) * e, d);
    assert (k + 1) * e == k * e + e;
    OrderFromProducts(p, q, d);
    assert (p + 1) * d == p * d + d;
    OrderFromProducts(q, p + 1, d);
  }

  // ---------------------------------------------------------------------------------------
  // The loop.

  class Canvas {
    const width: nat
    const height: nat
    var cells: map<Point, Color>

    constructor (width: nat, height: nat)
      ensures this.width == width && this.height == height && cells == map[]
    {
      this.width, this.height, this.cells := width, height, map[];
    }

    function Painted(m: map<Point, Color>, p: Point, fill: Color): map<Point, Color> {
      if 0 <= p.x < width && 0 <= p.y < height then m[p := fill] else m
    }

    /** Points outside the canvas are ignored. */
    method SetRGBA(p: Point, fill: Color)
      modifies this`cells
      ensures cells == Painted(old(cells), p, fill)
    {
      cells := Painted(cells, p, fill);
    }

    function Paint(m: map<Point, Color>, points: seq<Point>, fill: Color): map<Point, Color> {
      if points == [] then m else Painted(Paint(m, points[..|points| - 1], fill), points[|points| - 1], fill)
    }

    /** What a painted map holds: the colour at the points on the canvas, elsewhere what was there. */
    predicate Covers(before: map<Point, Color>, after: map<Point, Color>, points: seq<Point>, fill: Color) {
      && (forall p :: p in points && 0 <= p.x < width && 0 <= p.y < height ==> p in after && after[p] == fill)
      && (forall p :: p in before && !(p in points && 0 <= p.x < width && 0 <= p.y < height) ==>
            p in after && after[p] == before[p])
      && (forall p :: p in after ==> p in before || (p in points && 0 <= p.x < width && 0 <= p.y < height))
    }

    lemma {:induction false} PaintCovers(m: map<Point, Color>, points: seq<Point>, fill: Color)
      ensures Covers(m, Paint(m, points, fill), points, fill)
    {
      if points != [] {
        var n := |points| - 1;
        PaintCovers(m, points[..n], fill);
        assert points == points[..n] + [points[n]];
      }
    }

    lemma {:induction false} PaintNext(m: map<Point, Color>, points: seq<Point>, p: Point, fill: Color)
      ensures Paint(m, points + [p], fill) == Painted(Paint(m, points, fill), p, fill)
    {
      assert (points + [p])[..|points|] == points;
    }
  }

  /** The error term after i x-steps and j y-steps, of which the longer axis made `k`. */
  ghost predicate Tracks(d: nat, e: nat, i: nat, j: nat, k: nat, err: int) {
    && err == d - e - i * e + j * d
    && i <= d && j <= e
    && (if d >= e then i == k && (d > 0 ==> Rounds(i * e, d, j)) else j == k && Rounds(j * d, e, i))
  }

  lemma TrackedOffset(d: nat, e: nat, i: nat, j: nat, k: nat, err: int)
    requires Tracks(d, e, i, j, k, err)
    ensures Offset(d, e, k) == (i, j)
  {
    if d >= e && d > 0 {
      RoundedIs(k * e, d, j);
    } else if d < e {
      RoundedIs(k * d, e, i);
    }
  }

  /** If the longer axis has arrived, so has the other. */
  lemma ArriveTogether(d: int, e: int, i: int)
    requires d > 0 && Rounds(d * e, d, i)
    ensures i == e
  {
    assert (i - e) * d == i * d - d * e;
    SmallMultiple(i - e, d);
  }

  /** One turn for an axis with extent `d` that is at least the other's, `e`: with `p` and `q`
      standing for the products in the error term, it always steps, and the other axis steps
      exactly when that keeps the rounding. */
  lemma LinearTurn(d: int, e: int, p: int, q: int, err: int)
    requires 0 <= e <= d && err == d - e - p + q
    ensures -d < 2 * (q - p) <= d ==>
      && 2 * err >= -e
      && -d < 2 * ((if 2 * err <= d then q + d else q) - (p + e)) <= d
  {
  }

  lemma LinearTurnTall(d: int, e: int, p: int, q: int, err: int)
    requires 0 <= d < e && err == d - e - p + q
    ensures -e < 2 * (p - q) <= e ==>
      && 2 * err <= d
      && -e < 2 * ((if 2 * err >= -e then p + e else p) - (q + d)) <= e
  {
  }

  lemma StaysWithin(d: int, e: int, i: int, j: int)
    requires d > 0 && e >= 0 && i <= d && Rounds(i * e, d, j)
    ensures j <= e
  {
    assert i * e <= d * e == e * d;
    OrderFromProducts(j, e, d);
  }

  /** One turn of the loop: the longer axis steps, the shorter one exactly when the error term
      says so, and tracking continues. */
  lemma TrackedTurn(d: nat, e: nat, i: nat, j: nat, k: nat, err: int)
    requires Tracks(d, e, i, j, k, err) && !(i == d && j == e)
    ensures k < Larger(d, e)
    ensures var x, y := 2 * err >= -(e as int), 2 * err <= d;
            Tracks(d, e, if x then i + 1 else i, if y then j + 1 else j, k + 1,
                   err - (if x then e else 0) + (if y then d else 0))
  {
    assert (i + 1) * e == i * e + e && (j + 1) * d == j * d + d;
    if d >= e {
      if i == d && d > 0 {
        ArriveTogether(d, e, j);
      }
      LinearTurn(d, e, i * e, j * d, err);
      StaysWithin(d, e, i + 1, if 2 * err <= d then j + 1 else j);
    } else {
      if j == e {
        assert e * d == j * d;
        ArriveTogether(e, d, i);
      }
      LinearTurnTall(d, e, i * e, j * d, err);
      StaysWithin(e, d, j + 1, if 2 * err >= -(e as int) then i + 1 else i);
    }
  }

  // The loop's variables after `k` turns, as a recursion without products.

  datatype Progress = Progress(i: nat, j: nat, err: int)

  function Turn(a: Point, b: Point, s: Progress): Progress {
    var x, y := 2 * s.err >= -(Height(a, b) as int), 2 * s.err <= Width(a, b);
    Progress(if x then s.i + 1 else s.i, if y then s.j + 1 else s.j,
             s.err - (if x then Height(a, b) else 0) + (if y then Width(a, b) else 0))
  }

  function After(a: Point, b: Point, k: nat): Progress {
    if k == 0 then Progress(0, 0, Width(a, b) - Height(a, b)) else Turn(a, b, After(a, b, k - 1))
  }

  function Here(a: Point, b: Point, s: Progress): Point {
    Point(Walk(a.x, b.x, s.i), Walk(a.y, b.y, s.j))
  }

  function Visited(a: Point, b: Point, n: nat): (points: seq<Point>)
    ensures |points| == n
  {
    if n == 0 then [] else Visited(a, b, n - 1) + [Here(a, b, After(a, b, n - 1))]
  }

  /** Every turn before the last tracks the rounded line. */
  lemma {:induction false} TurnsTrackLine(a: Point, b: Point, k: nat)
    requires k < Length(a, b)
    ensures Tracks(Width(a, b), Height(a, b), After(a, b, k).i, After(a, b, k).j, k, After(a, b, k).err)
  {
    if k > 0 {
      TurnsTrackLine(a, b, k - 1);
      var p := After(a, b, k - 1);
      var d: nat, e: nat := Width(a, b), Height(a, b);
      TrackedTurn(d, e, p.i, p.j, k - 1, p.err);
    }
  }

  /** The incremental form visits the rounded line. */
  lemma {:induction false} VisitedIsLine(a: Point, b: Point, n: nat)
    requires n <= Length(a, b)
    ensures Visited(a, b, n) == FirstPixels(a, b, n)
  {
    if n > 0 {
      VisitedIsLine(a, b, n - 1);
      TurnsTrackLine(a, b, n - 1);
      var s := After(a, b, n - 1);
      TrackedOffset(Width(a, b), Height(a, b), s.i, s.j, n - 1, s.err);
    }
  }

  /** The end point is reached on the last turn and not before. */
  lemma {:induction false} EndIsReached(a: Point, b: Point, k: nat)
    requires k < Length(a, b)
    ensures Here(a, b, After(a, b, k)) == b <==> k == Length(a, b) - 1
  {
    TurnsTrackLine(a, b, k);
    var s := After(a, b, k);
    TrackedOffset(Width(a, b), Height(a, b), s.i, s.j, k, s.err);
    OffsetWithin(Width(a, b), Height(a, b), k);
  }

  /** One turn of the loop is one turn of the specification. */
  lemma TurnMoves(a: Point, b: Point, s: Progress)
    ensures var t, twice := Turn(a, b, s), 2 * s.err;
      && t.err == s.err - (if twice >= -(Height(a, b) as int) then Height(a, b) else 0)
        + (if twice <= Width(a, b) then Width(a, b) else 0)
      && Here(a, b, t).x
        == Here(a, b, s).x + (if twice < -(Height(a, b) as int) then 0 else if a.x < b.x then 1 else -1)
      && Here(a, b, t).y == Here(a, b, s).y + (if twice > Width(a, b) then 0 else if a.y < b.y then 1 else -1)
  {
  }

  /** Draws exactly the pixels of the line, in order, and terminates. */
  method DrawCaptchaLine(canvas: Canvas, x0: int, y0: int, x1: int, y1: int, fill: Color) returns (points: seq<Point>)
    modifies canvas`cells
    ensures points == Line(Point(x0, y0), Point(x1, y1))
    ensures canvas.cells == canvas.Paint(old(canvas.cells), points, fill)
    ensures canvas.Covers(old(canvas.cells), canvas.cells, points, fill)
  {
    var x, y := x0, y0;
    var dx := AbsoluteInt(x1 - x0);
    var sx := if x0 < x1 then 1 else -1;
    var dy := -AbsoluteInt(y1 - y0);
    var sy := if y0 < y1 then 1 else -1;
    var err := dx + dy;
    points := [];
    ghost var a, b := Point(x0, y0), Point(x1, y1);
    ghost var s := After(a, b, 0);
    while true
      invariant s == After(a, b, |points|) && s.err == err && x == Here(a, b, s).x && y == Here(a, b, s).y
      invariant |points| < Length(a, b) && points == Visited(a, b, |points|)
      invariant canvas.cells == canvas.Paint(old(canvas.cells), points, fill)
      decreases Length(a, b) - |points|
    {
      EndIsReached(a, b, |points|);
      canvas.PaintNext(old(canvas.cells), points, Point(x, y), fill);
      canvas.SetRGBA(Point(x, y), fill);
      points := points + [Point(x, y)];
      if x == x1 && y == y1 {
        break;
      }
      var twice := 2 * err;
      if twice >= dy {
        err := err + dy;
        x := x + sx;
      }
      if twice <= dx {
        err := err + dx;
        y := y + sy;
      }
      TurnMoves(a, b, s);
      s := Turn(a, b, s);
    }
    VisitedIsLine(a, b, |points|);
    canvas.PaintCovers(old(canvas.cells), points, fill);
  }
}
