/** Arithmetic kernels of src/utils.rs: zigzag decoding of a geometry parameter
    (section 4.3.2 of the Mapbox Vector Tile Specification) and the shoelace signed
    area of a ring. */
module Utils {
  import opened Base

  // ---------------------------------------------------------------------------
  // Zigzag decoding
  // ---------------------------------------------------------------------------

  /** `decode_zigzag`: `(r >> 1) ^ -(r & 1)` on the input widened to i64. For an even
      input the mask `-(r & 1)` is 0 and the xor leaves `r >> 1`; for an odd input the
      mask is all ones and the xor is the bitwise complement `-(r >> 1) - 1`. */
  function DecodeZigzag(input: u32): (r: i64)
    ensures -0x8000_0000 <= r < 0x8000_0000
    ensures EncodeZigzag(r) == input
  {
    var half := input / 2;
    if input % 2 == 0 then half else -half - 1
  }

  /** Reference: zigzag encoding of a 32-bit signed integer, `(n << 1) ^ (n >> 31)`,
      mapping 0, -1, 1, -2, 2, ... to 0, 1, 2, 3, 4, ... */
  function EncodeZigzag(n: int): (r: u32)
    requires -0x8000_0000 <= n < 0x8000_0000
  {
    if n >= 0 then 2 * n else -2 * n - 1
  }

  /** Decoding inverts encoding on the whole signed 32-bit range. */
  lemma DecodeEncodeZigzag(n: int)
    requires -0x8000_0000 <= n < 0x8000_0000
    ensures DecodeZigzag(EncodeZigzag(n)) == n
  {
  }

  /** Distinct inputs decode to distinct deltas, even ones to non-negative deltas, odd
      ones to negative deltas. */
  lemma DecodeZigzagInjective(a: u32, b: u32)
    ensures DecodeZigzag(a) == DecodeZigzag(b) ==> a == b
    ensures (DecodeZigzag(a) >= 0) <==> a % 2 == 0
  {
  }

  /** The first values of the zigzag sequence. */
  lemma DecodeZigzagExamples()
    ensures DecodeZigzag(0) == 0 && DecodeZigzag(1) == -1 && DecodeZigzag(2) == 1
    ensures DecodeZigzag(3) == -2 && DecodeZigzag(0xFFFF_FFFE) == 0x7FFF_FFFF
    ensures DecodeZigzag(0xFFFF_FFFF) == -0x8000_0000
  {
  }

  // ---------------------------------------------------------------------------
  // Shoelace signed area
  // ---------------------------------------------------------------------------

  /** A ring vertex `[x, y]`. */
  datatype Point = Point(x: int, y: int)

  /** The cross product of two position vectors; one term of the shoelace sum. */
  function Cross(p: Point, q: Point): int
  {
    p.x * q.y - q.x * p.y
  }

  /** The sum of `Cross` over each pair of consecutive points of an open path. */
  function Chain(s: seq<Point>): int
    decreases |s|
  {
    if |s| < 2 then 0 else Cross(s[0], s[1]) + Chain(s[1..])
  }

  /** Reference: the cyclic shoelace sum over all edges of a ring, the closing edge from
      the last point back to the first included; twice the signed area. */
  function Shoelace(s: seq<Point>): int
    requires |s| > 0
  {
    Chain(s) + Cross(s[|s| - 1], s[0])
  }

  /** `sum_{i < k} x_i * y_(i+1)`, what the first loop of `signed_area` accumulates. */
  function ForwardTerms(s: seq<Point>, k: nat): int
    requires k < |s|
  {
    if k == 0 then 0 else ForwardTerms(s, k - 1) + s[k - 1].x * s[k].y
  }

  /** `sum_{i < k} x_(i+1) * y_i`, what the second loop of `signed_area` subtracts. */
  function BackwardTerms(s: seq<Point>, k: nat): int
    requires k < |s|
  {
    if k == 0 then 0 else BackwardTerms(s, k - 1) + s[k].x * s[k - 1].y
  }

  /** Appending one point adds the cross product of the new last edge. */
  lemma {:induction false} ChainSnoc(s: seq<Point>, p: Point)
    requires |s| > 0
    ensures Chain(s + [p]) == Chain(s) + Cross(s[|s| - 1], p)
    decreases |s|
  {
    if |s| == 1 {
      assert (s + [p])[1..] == [p];
    } else {
      assert (s + [p])[1..] == s[1..] + [p];
      ChainSnoc(s[1..], p);
    }
  }

  /** The two loops' partial sums differ by the chain over the first k edges. */
  lemma {:induction false} ForwardMinusBackward(s: seq<Point>, k: nat)
    requires k < |s|
    ensures ForwardTerms(s, k) - BackwardTerms(s, k) == Chain(s[..k + 1])
  {
    if k == 0 {
    } else {
      ForwardMinusBackward(s, k - 1);
      assert s[..k + 1] == s[..k] + [s[k]];
      ChainSnoc(s[..k], s[k]);
    }
  }

  /** `signed_area`, computed on integers as twice the area (the source converts this
      sum to `f64` and halves it). The ring must be non-empty: the source computes
      `n - 1` on an unsigned length, which underflows on an empty ring. */
  method SignedArea(dots: seq<Point>) returns (area2: int)
    requires |dots| > 0
    ensures area2 == Shoelace(dots)
  {
    var area := 0;
    var n := |dots|;
    for i := 0 to n - 1
      invariant area == ForwardTerms(dots, i)
    {
      area := area + dots[i].x * dots[i + 1].y;
    }
    area := area + dots[n - 1].x * dots[0].y;
    for i := 0 to n - 1
      invariant area == ForwardTerms(dots, n - 1) + dots[n - 1].x * dots[0].y - BackwardTerms(dots, i)
    {
      area := area - dots[i + 1].x * dots[i].y;
    }
    area := area - dots[0].x * dots[n - 1].y;
    ForwardMinusBackward(dots, n - 1);
    assert dots[..n] == dots;
    area2 := area;
  }

  /** The two test vectors of src/utils.rs, as doubled areas (-30 and 1 halved). */
  lemma SignedAreaExamples()
    ensures Shoelace([Point(3, 4), Point(5, 11), Point(12, 8), Point(9, 5), Point(5, 6)]) == -60
    ensures Shoelace([Point(1, 1), Point(2, 1), Point(2, 2), Point(1, 2)]) == 2
  {
  }

  /** A one-point ring has zero area. */
  lemma SinglePointArea(p: Point)
    ensures Shoelace([p]) == 0
  {
  }

  /** Reverses the order of the ring's points. */
  function Reverse(s: seq<Point>): (r: seq<Point>)
    ensures |r| == |s|
    decreases |s|
  {
    if s == [] then [] else Reverse(s[1..]) + [s[0]]
  }

  lemma {:induction false} ReverseEnds(s: seq<Point>)
    requires |s| > 0
    ensures Reverse(s)[0] == s[|s| - 1] && Reverse(s)[|s| - 1] == s[0]
    decreases |s|
  {
    if |s| > 1 {
      ReverseEnds(s[1..]);
    }
  }

  lemma {:induction false} ChainReverse(s: seq<Point>)
    ensures Chain(Reverse(s)) == -Chain(s)
    decreases |s|
  {
    if |s| >= 2 {
      ChainReverse(s[1..]);
      ReverseEnds(s[1..]);
      ChainSnoc(Reverse(s[1..]), s[0]);
    }
  }

  /** Reversing the point order negates the signed area. */
  lemma ShoelaceReverse(s: seq<Point>)
    requires |s| > 0
    ensures Shoelace(Reverse(s)) == -Shoelace(s)
  {
    ChainReverse(s);
    ReverseEnds(s);
  }

  /** Moves the first point of the ring to its end. */
  function Rotate(s: seq<Point>): (r: seq<Point>)
    requires |s| > 0
    ensures |r| == |s|
  {
    s[1..] + [s[0]]
  }

  /** Starting the ring at its second point leaves the signed area unchanged. */
  lemma ShoelaceRotate(s: seq<Point>)
    requires |s| > 0
    ensures Shoelace(Rotate(s)) == Shoelace(s)
  {
    if |s| > 1 {
      ChainSnoc(s[1..], s[0]);
    }
  }

  /** Starting the ring at any of its points leaves the signed area unchanged. */
  lemma {:induction false} ShoelaceRotateBy(s: seq<Point>, k: nat)
    requires k < |s|
    ensures Shoelace(s[k..] + s[..k]) == Shoelace(s)
  {
    if k == 0 {
      assert s[k..] + s[..k] == s;
    } else {
      ShoelaceRotateBy(s, k - 1);
      var t := s[k - 1..] + s[..k - 1];
      ShoelaceRotate(t);
      assert t[0] == s[k - 1] && t[1..] == s[k..] + s[..k - 1];
      assert s[..k] == s[..k - 1] + [s[k - 1]];
      assert Rotate(t) == s[k..] + s[..k];
    }
  }

  /** Adds `(dx, dy)` to every point. */
  function Translate(s: seq<Point>, dx: int, dy: int): (r: seq<Point>)
    ensures |r| == |s|
    ensures forall i :: 0 <= i < |s| ==> r[i] == Point(s[i].x + dx, s[i].y + dy)
  {
    seq(|s|, i requires 0 <= i < |s| => Point(s[i].x + dx, s[i].y + dy))
  }

  lemma CrossTranslate(p: Point, q: Point, dx: int, dy: int)
    ensures Cross(Point(p.x + dx, p.y + dy), Point(q.x + dx, q.y + dy))
         == Cross(p, q) + dy * (p.x - q.x) + dx * (q.y - p.y)
  {
    calc {
      Cross(Point(p.x + dx, p.y + dy), Point(q.x + dx, q.y + dy));
      (p.x + dx) * (q.y + dy) - (q.x + dx) * (p.y + dy);
      p.x * q.y + p.x * dy + dx * q.y + dx * dy - (q.x * p.y + q.x * dy + dx * p.y + dx * dy);
      Cross(p, q) + dy * (p.x - q.x) + dx * (q.y - p.y);
    }
  }

  /** Two consecutive differences scaled by the same factor add up to the scaled
      difference of the ends. */
  lemma ScaledTelescope(k: int, a: int, b: int, c: int)
    ensures k * (a - b) + k * (b - c) == k * (a - c)
  {
    calc {
      k * (a - b) + k * (b - c);
      k * ((a - b) + (b - c));
      k * (a - c);
    }
  }

  /** Translating a path changes its chain only through its two end points. */
  lemma {:induction false} ChainTranslate(s: seq<Point>, dx: int, dy: int)
    requires |s| > 0
    ensures Chain(Translate(s, dx, dy))
         == Chain(s) + dy * (s[0].x - s[|s| - 1].x) + dx * (s[|s| - 1].y - s[0].y)
    decreases |s|
  {
    var t := Translate(s, dx, dy);
    if |s| >= 2 {
      var first, second, last := s[0], s[1], s[|s| - 1];
      assert t[1..] == Translate(s[1..], dx, dy);
      ChainTranslate(s[1..], dx, dy);
      assert Chain(t[1..]) == Chain(s[1..]) + dy * (second.x - last.x) + dx * (last.y - second.y);
      CrossTranslate(first, second, dx, dy);
      assert Cross(t[0], t[1]) == Cross(first, second) + dy * (first.x - second.x) + dx * (second.y - first.y);
      ScaledTelescope(dy, first.x, second.x, last.x);
      ScaledTelescope(dx, last.y, second.y, first.y);
    }
  }

  /** Opposite differences scaled by the same factor cancel. */
  lemma ScaledCancel(k: int, a: int, b: int)
    ensures k * (a - b) + k * (b - a) == 0
  {
    calc {
      k * (a - b) + k * (b - a);
      k * ((a - b) + (b - a));
      0;
    }
  }

  /** Translating every point by the same vector leaves the signed area unchanged. */
  lemma ShoelaceTranslate(s: seq<Point>, dx: int, dy: int)
    requires |s| > 0
    ensures Shoelace(Translate(s, dx, dy)) == Shoelace(s)
  {
    var t := Translate(s, dx, dy);
    var first, last := s[0], s[|s| - 1];
    assert t[0] == Point(first.x + dx, first.y + dy);
    assert t[|t| - 1] == Point(last.x + dx, last.y + dy);
    ChainTranslate(s, dx, dy);
    CrossTranslate(last, first, dx, dy);
    ScaledCancel(dy, first.x, last.x);
    ScaledCancel(dx, last.y, first.y);
    assert Shoelace(t) == Chain(t) + Cross(t[|t| - 1], t[0]);
  }
}
