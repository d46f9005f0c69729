/** Axis-aligned bounding boxes, the overlap test every collision uses, and
    the counts of overlaps that the collision pass accumulates. */
module Geometry {

  /** The rectangle an entity exposes for collision tests (x, y is the top-left corner). */
  datatype Rect = Rect(x: int, y: int, width: int, height: int)

  /** `Game.checkCollision`: the open intervals of the two rectangles meet on both axes. */
  predicate CheckCollision(a: Rect, b: Rect)
  {
    a.x < b.x + b.width &&
    a.x + a.width > b.x &&
    a.y < b.y + b.height &&
    a.y + a.height > b.y
  }

  lemma CheckCollisionSymmetric(a: Rect, b: Rect)
    ensures CheckCollision(a, b) <==> CheckCollision(b, a)
  {
  }

  /** The inequalities are strict: rectangles that only share an edge do not collide. */
  lemma EdgeContactIsNoCollision(a: Rect, b: Rect)
    requires a.x + a.width == b.x || b.x + b.width == a.x ||
             a.y + a.height == b.y || b.y + b.height == a.y
    ensures !CheckCollision(a, b) && !CheckCollision(b, a)
  {
  }

  /** The point (px, py) lies strictly inside r. */
  ghost predicate Interior(px: real, py: real, r: Rect)
  {
    r.x as real < px < (r.x + r.width) as real &&
    r.y as real < py < (r.y + r.height) as real
  }

  function Max(a: int, b: int): int { if a < b then b else a }
  function Min(a: int, b: int): int { if a < b then a else b }

  /** Reference meaning of the test: for rectangles of positive size, `CheckCollision`
      holds exactly when some point lies strictly inside both of them. */
  lemma CollisionIffCommonInterior(a: Rect, b: Rect)
    requires a.width > 0 && a.height > 0 && b.width > 0 && b.height > 0
    ensures CheckCollision(a, b) <==>
            exists px: real, py: real :: Interior(px, py, a) && Interior(px, py, b)
  {
    if CheckCollision(a, b) {
      var px := (Max(a.x, b.x) as real + Min(a.x + a.width, b.x + b.width) as real) / 2.0;
      var py := (Max(a.y, b.y) as real + Min(a.y + a.height, b.y + b.height) as real) / 2.0;
      assert Interior(px, py, a) && Interior(px, py, b);
    }
  }

  /** Number of rectangles in `rs` that `r` collides with, `r` tested first. */
  function CountHits(r: Rect, rs: seq<Rect>): nat
  {
    if rs == [] then 0
    else CountHits(r, rs[..|rs| - 1]) + (if CheckCollision(r, rs[|rs| - 1]) then 1 else 0)
  }

  /** Number of rectangles in `rs` that collide with `t`, those of `rs` tested first. */
  function CountStruck(rs: seq<Rect>, t: Rect): nat
  {
    if rs == [] then 0
    else CountStruck(rs[..|rs| - 1], t) + (if CheckCollision(rs[|rs| - 1], t) then 1 else 0)
  }

  /** Number of pairs (i, j) with `CheckCollision(shots[i], bs[j])`. */
  function PairHits(shots: seq<Rect>, bs: seq<Rect>): nat
  {
    if shots == [] then 0
    else PairHits(shots[..|shots| - 1], bs) + CountHits(shots[|shots| - 1], bs)
  }

  lemma {:induction false} CountHitsPositive(r: Rect, rs: seq<Rect>)
    ensures CountHits(r, rs) > 0 <==> exists k :: 0 <= k < |rs| && CheckCollision(r, rs[k])
    ensures CountHits(r, rs) <= |rs|
  {
    if rs != [] {
      var front := rs[..|rs| - 1];
      CountHitsPositive(r, front);
      assert forall k :: 0 <= k < |front| ==> front[k] == rs[k];
    }
  }

  lemma {:induction false} CountStruckPositive(rs: seq<Rect>, t: Rect)
    ensures CountStruck(rs, t) > 0 <==> exists k :: 0 <= k < |rs| && CheckCollision(rs[k], t)
    ensures CountStruck(rs, t) <= |rs|
  {
    if rs != [] {
      var front := rs[..|rs| - 1];
      CountStruckPositive(front, t);
      assert forall k :: 0 <= k < |front| ==> front[k] == rs[k];
    }
  }

  /** Sum over the targets of the number of rectangles of `shots` striking each of them. */
  function StruckSum(shots: seq<Rect>, bs: seq<Rect>): nat
  {
    if bs == [] then 0
    else StruckSum(shots, bs[..|bs| - 1]) + CountStruck(shots, bs[|bs| - 1])
  }

  lemma {:induction false} CountHitsAppendTarget(r: Rect, bs: seq<Rect>, b: Rect)
    ensures CountHits(r, bs + [b]) == CountHits(r, bs) + (if CheckCollision(r, b) then 1 else 0)
  {
    assert (bs + [b])[..|bs|] == bs;
  }

  lemma {:induction false} PairHitsAppendTarget(shots: seq<Rect>, bs: seq<Rect>, b: Rect)
    ensures PairHits(shots, bs + [b]) == PairHits(shots, bs) + CountStruck(shots, b)
  {
    if shots != [] {
      var front := shots[..|shots| - 1];
      PairHitsAppendTarget(front, bs, b);
      CountHitsAppendTarget(shots[|shots| - 1], bs, b);
    }
  }

  /** Counting the colliding pairs bullet by bullet or target by target gives the same total. */
  lemma {:induction false} PairHitsByTarget(shots: seq<Rect>, bs: seq<Rect>)
    ensures PairHits(shots, bs) == StruckSum(shots, bs)
  {
    if bs == [] {
      PairHitsNoTargets(shots);
    } else {
      var front := bs[..|bs| - 1];
      assert bs == front + [bs[|bs| - 1]];
      PairHitsAppendTarget(shots, front, bs[|bs| - 1]);
      PairHitsByTarget(shots, front);
    }
  }

  lemma {:induction false} PairHitsNoTargets(shots: seq<Rect>)
    ensures PairHits(shots, []) == 0
  {
    if shots != [] {
      PairHitsNoTargets(shots[..|shots| - 1]);
    }
  }
}
