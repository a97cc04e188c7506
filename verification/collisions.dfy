/**
  The chain-reaction pass of checkForCollisions: every active circle, in
  index order, sets off every Normal circle it overlaps.  The pass is written
  as the source's two nested loops (i outer, j inner) so that a circle set
  off at a higher index than the current source acts as a source itself
  later in the same pass, while one set off at a lower index waits for the
  next frame.

  The overlap test (circlesIntersect) is a parameter: its geometry lives
  outside this model.
 */
module Collisions {
  import opened Circles

  /** circlesIntersect(source, target) */
  type Overlap = (Circle, Circle) -> bool

  /** What a circle becomes when it is set off, by a click or by a neighbour. */
  function Explode(c: Circle): (r: Circle)
    ensures r.state == Exploding && r.xSpeed == 0.0 && r.ySpeed == 0.0
    ensures r.x == c.x && r.y == c.y && r.radius == c.radius
    ensures r.lifetime == c.lifetime && r.speed == c.speed && r.fill == c.fill
  {
    c.(state := Exploding, xSpeed := 0.0, ySpeed := 0.0)
  }

  /** The circles after a pass, and the round score after it. */
  datatype PassResult = PassResult(circles: seq<Circle>, score: nat)

  /** `after` is `before` or, if `before` was Normal, `before` set off. */
  predicate PopStep(before: Circle, after: Circle)
  {
    after == before || (before.state.Normal? && after == Explode(before))
  }

  /** The only changes from `a` to `b` are Normal circles being set off. */
  predicate PopsOnly(a: seq<Circle>, b: seq<Circle>)
  {
    |a| == |b| && forall k :: 0 <= k < |a| ==> PopStep(a[k], b[k])
  }

  lemma PopsOnlyTransitive(a: seq<Circle>, b: seq<Circle>, c: seq<Circle>)
    requires PopsOnly(a, b) && PopsOnly(b, c)
    ensures PopsOnly(a, c)
  {
    forall k | 0 <= k < |a|
      ensures PopStep(a[k], c[k])
    {
      if b[k] != a[k] {
        assert !b[k].state.Normal?;
      }
    }
  }

  /** The inner loop for source `i`, from target index `j` on: each Normal
      circle other than the source that the source overlaps is set off. */
  function InnerPass(overlap: Overlap, cs: seq<Circle>, i: nat, j: nat, score: nat): (r: PassResult)
    requires i < |cs| && j <= |cs|
    ensures |r.circles| == |cs|
    ensures forall k :: 0 <= k < |cs| ==>
      r.circles[k] ==
        if j <= k && k != i && cs[k].state.Normal? && overlap(cs[i], cs[k])
        then Explode(cs[k]) else cs[k]
    ensures r.score == score + NonNormal(r.circles) - NonNormal(cs)
    decreases |cs| - j
  {
    if j == |cs| then PassResult(cs, score)
    else if j == i || !cs[j].state.Normal? then InnerPass(overlap, cs, i, j + 1, score)
    else if overlap(cs[i], cs[j]) then
      NonNormalUpdate(cs, j, Explode(cs[j]));
      InnerPass(overlap, cs[j := Explode(cs[j])], i, j + 1, score + 1)
    else InnerPass(overlap, cs, i, j + 1, score)
  }

  /** The outer loop from source index `i` on: circles that are Normal or
      Done are skipped, every other circle runs the inner loop over all
      indices. */
  function OuterPass(overlap: Overlap, cs: seq<Circle>, i: nat, score: nat): (r: PassResult)
    requires i <= |cs|
    ensures PopsOnly(cs, r.circles)
    ensures r.score == score + NonNormal(r.circles) - NonNormal(cs)
    decreases |cs| - i
  {
    if i == |cs| then PassResult(cs, score)
    else if !IsActive(cs[i].state) then OuterPass(overlap, cs, i + 1, score)
    else
      var mid := InnerPass(overlap, cs, i, 0, score);
      var r := OuterPass(overlap, mid.circles, i + 1, mid.score);
      PopsOnlyTransitive(cs, mid.circles, r.circles);
      r
  }

  /** The whole pass, starting from round score `score`. */
  function Collide(overlap: Overlap, cs: seq<Circle>, score: nat): (r: PassResult)
    ensures PopsOnly(cs, r.circles)
    ensures r.score == score + NonNormal(r.circles) - NonNormal(cs)
  {
    OuterPass(overlap, cs, 0, score)
  }

  /** Number of circles a pass set off. */
  function Transitions(a: seq<Circle>, b: seq<Circle>): (n: nat)
    requires |a| == |b|
    ensures n <= |a|
    ensures n == 0 <==> forall k :: 0 <= k < |a| ==> !(a[k].state.Normal? && !b[k].state.Normal?)
  {
    if |a| == 0 then 0
    else
      var rest := Transitions(a[1..], b[1..]);
      assert forall k :: 1 <= k < |a| ==> a[k] == a[1..][k - 1] && b[k] == b[1..][k - 1];
      (if a[0].state.Normal? && !b[0].state.Normal? then 1 else 0) + rest
  }

  /** Across a pass that only sets circles off, the round score grows by
      exactly the number of circles set off. */
  lemma {:induction false} TransitionsCount(a: seq<Circle>, b: seq<Circle>)
    requires PopsOnly(a, b)
    ensures Transitions(a, b) == NonNormal(b) - NonNormal(a)
  {
    if |a| > 0 {
      assert PopStep(a[0], b[0]);
      assert forall k :: 0 <= k < |a| - 1 ==> a[1..][k] == a[k + 1] && b[1..][k] == b[k + 1];
      TransitionsCount(a[1..], b[1..]);
    }
  }

  lemma CollideScoresTransitions(overlap: Overlap, cs: seq<Circle>, score: nat)
    ensures |Collide(overlap, cs, score).circles| == |cs|
    ensures Collide(overlap, cs, score).score
         == score + Transitions(cs, Collide(overlap, cs, score).circles)
  {
    TransitionsCount(cs, Collide(overlap, cs, score).circles);
  }

  /** Soundness: every circle a pass sets off overlaps some other circle
      that was active when the two were compared (and still is afterwards). */
  lemma {:induction false} OuterPassSound(overlap: Overlap, cs: seq<Circle>, i: nat, score: nat, k: nat)
    requires i <= |cs| && k < |cs|
    requires cs[k].state.Normal? && !OuterPass(overlap, cs, i, score).circles[k].state.Normal?
    ensures exists m ::
              && i <= m < |cs| && m != k
              && IsActive(OuterPass(overlap, cs, i, score).circles[m].state)
              && overlap(OuterPass(overlap, cs, i, score).circles[m], cs[k])
    decreases |cs| - i
  {
    var r := OuterPass(overlap, cs, i, score);
    if i == |cs| {
      assert false;
    } else if !IsActive(cs[i].state) {
      OuterPassSound(overlap, cs, i + 1, score, k);
    } else {
      var mid := InnerPass(overlap, cs, i, 0, score);
      assert r == OuterPass(overlap, mid.circles, i + 1, mid.score);
      assert PopStep(mid.circles[i], r.circles[i]);
      if mid.circles[k].state.Normal? {
        assert mid.circles[k] == cs[k];
        OuterPassSound(overlap, mid.circles, i + 1, mid.score, k);
      } else {
        assert overlap(cs[i], cs[k]) && k != i;
        assert r.circles[i] == cs[i];
      }
    }
  }

  /** Completeness: after a pass, no circle that is still Normal overlaps a
      circle that was active from the start. */
  lemma {:induction false} OuterPassComplete(overlap: Overlap, cs: seq<Circle>, i: nat, score: nat, m: nat, k: nat)
    requires i <= m < |cs| && k < |cs|
    requires IsActive(cs[m].state)
    requires OuterPass(overlap, cs, i, score).circles[k].state.Normal?
    ensures !overlap(cs[m], cs[k])
    decreases |cs| - i
  {
    var r := OuterPass(overlap, cs, i, score);
    assert PopStep(cs[k], r.circles[k]);
    if !IsActive(cs[i].state) {
      OuterPassComplete(overlap, cs, i + 1, score, m, k);
    } else {
      var mid := InnerPass(overlap, cs, i, 0, score);
      assert r == OuterPass(overlap, mid.circles, i + 1, mid.score);
      assert PopStep(mid.circles[k], r.circles[k]);
      if m == i {
        assert mid.circles[k].state.Normal?;
      } else {
        assert mid.circles[m] == cs[m];
        assert mid.circles[k] == cs[k];
        OuterPassComplete(overlap, mid.circles, i + 1, mid.score, m, k);
      }
    }
  }

  lemma CollideSoundAndComplete(overlap: Overlap, cs: seq<Circle>, score: nat)
    ensures forall k ::
              (0 <= k < |cs| && cs[k].state.Normal? && !Collide(overlap, cs, score).circles[k].state.Normal?)
              ==> exists m ::
                    && 0 <= m < |cs| && m != k
                    && IsActive(Collide(overlap, cs, score).circles[m].state)
                    && overlap(Collide(overlap, cs, score).circles[m], cs[k])
    ensures forall m, k ::
              (0 <= m < |cs| && 0 <= k < |cs| && IsActive(cs[m].state)
               && Collide(overlap, cs, score).circles[k].state.Normal?)
              ==> !overlap(cs[m], cs[k])
  {
    forall k | 0 <= k < |cs| && cs[k].state.Normal? && !Collide(overlap, cs, score).circles[k].state.Normal?
      ensures exists m ::
                && 0 <= m < |cs| && m != k
                && IsActive(Collide(overlap, cs, score).circles[m].state)
                && overlap(Collide(overlap, cs, score).circles[m], cs[k])
    {
      OuterPassSound(overlap, cs, 0, score, k);
    }
    forall m, k | 0 <= m < |cs| && 0 <= k < |cs| && IsActive(cs[m].state)
              && Collide(overlap, cs, score).circles[k].state.Normal?
      ensures !overlap(cs[m], cs[k])
    {
      OuterPassComplete(overlap, cs, 0, score, m, k);
    }
  }

  // ---------------------------------------------------------------------------
  // The order of the pass matters

  /** Sources that are not active are skipped by the outer loop. */
  lemma {:induction false} SkipInactive(overlap: Overlap, cs: seq<Circle>, j: nat, m: nat, score: nat)
    requires j <= m <= |cs|
    requires forall k :: j <= k < m ==> !IsActive(cs[k].state)
    ensures OuterPass(overlap, cs, j, score) == OuterPass(overlap, cs, m, score)
    decreases m - j
  {
    if j < m {
      SkipInactive(overlap, cs, j + 1, m, score);
    }
  }

  /** Link `m` of an upward chain from source `i`, as the outer loop meets
      it: the source itself, or a circle the previous link has set off. */
  function ChainLink(cs: seq<Circle>, i: nat, m: nat): Circle
    requires i <= m < |cs|
  {
    if m == i then cs[i] else Explode(cs[m])
  }

  /** Circle `k` is Normal and overlapped by the link just below it. */
  predicate ChainStep(overlap: Overlap, cs: seq<Circle>, i: nat, k: nat)
    requires i < k < |cs|
  {
    cs[k].state.Normal? && overlap(ChainLink(cs, i, k - 1), cs[k])
  }

  /** Every circle above the active circle `i` is Normal, and each is
      overlapped by the link just below it once that link is set off. */
  predicate UpwardChain(overlap: Overlap, cs: seq<Circle>, i: nat)
    requires i < |cs|
  {
    && IsActive(cs[i].state)
    && forall k :: i < k < |cs| ==> ChainStep(overlap, cs, i, k)
  }

  /** One turn of the outer loop with an active source. */
  lemma OuterStep(overlap: Overlap, cs: seq<Circle>, i: nat, score: nat)
    requires i < |cs| && IsActive(cs[i].state)
    ensures OuterPass(overlap, cs, i, score)
         == OuterPass(overlap, InnerPass(overlap, cs, i, 0, score).circles, i + 1,
                      InnerPass(overlap, cs, i, 0, score).score)
  {
  }

  /** The inner loop, too, only sets Normal circles off. */
  lemma InnerPassPops(overlap: Overlap, cs: seq<Circle>, i: nat, score: nat)
    requires i < |cs|
    ensures PopsOnly(cs, InnerPass(overlap, cs, i, 0, score).circles)
  {
    var r := InnerPass(overlap, cs, i, 0, score);
    forall k | 0 <= k < |cs|
      ensures PopStep(cs[k], r.circles[k])
    {
    }
  }

  /** Circles above `m` that have at most been set off since `cs` stay so
      across a further pop-only step. */
  lemma PopsAbove(cs: seq<Circle>, cur: seq<Circle>, next: seq<Circle>, m: nat)
    requires |cur| == |cs| && PopsOnly(cur, next)
    requires forall k :: m < k < |cs| ==> PopStep(cs[k], cur[k])
    ensures forall k :: m < k < |cs| ==> PopStep(cs[k], next[k])
  {
    forall k | m < k < |cs|
      ensures PopStep(cs[k], next[k])
    {
      assert PopStep(cs[k], cur[k]) && PopStep(cur[k], next[k]);
    }
  }

  /** From link `m` on, the outer loop sets off every circle above it. */
  lemma {:induction false} ChainFrom(overlap: Overlap, cs: seq<Circle>, i: nat, cur: seq<Circle>, m: nat, score: nat)
    requires i <= m < |cs| && |cur| == |cs| && UpwardChain(overlap, cs, i)
    requires cur[m] == ChainLink(cs, i, m)
    requires forall k :: m < k < |cs| ==> PopStep(cs[k], cur[k])
    ensures forall k :: m < k < |cs| ==> OuterPass(overlap, cur, m, score).circles[k] == Explode(cs[k])
    decreases |cs| - m
  {
    var mid := InnerPass(overlap, cur, m, 0, score);
    var r := OuterPass(overlap, mid.circles, m + 1, mid.score);
    assert IsActive(cur[m].state);
    OuterStep(overlap, cur, m, score);
    if m + 1 < |cs| {
      assert ChainStep(overlap, cs, i, m + 1);
      assert PopStep(cs[m + 1], cur[m + 1]);
      assert mid.circles[m + 1] == Explode(cs[m + 1]);
      InnerPassPops(overlap, cur, m, score);
      PopsAbove(cs, cur, mid.circles, m + 1);
      ChainFrom(overlap, cs, i, mid.circles, m + 1, mid.score);
      assert PopStep(mid.circles[m + 1], r.circles[m + 1]);
    }
  }

  /** Sources below the chain's start neither touch the start nor undo what
      they set off above it. */
  lemma {:induction false} ChainPrefix(overlap: Overlap, cs: seq<Circle>, i: nat, cur: seq<Circle>, j: nat, score: nat)
    requires j <= i < |cs| && |cur| == |cs| && UpwardChain(overlap, cs, i)
    requires cur[i] == cs[i]
    requires forall k :: i < k < |cs| ==> PopStep(cs[k], cur[k])
    ensures forall k :: i < k < |cs| ==> OuterPass(overlap, cur, j, score).circles[k] == Explode(cs[k])
    decreases i - j
  {
    if j == i {
      ChainFrom(overlap, cs, i, cur, i, score);
    } else if !IsActive(cur[j].state) {
      ChainPrefix(overlap, cs, i, cur, j + 1, score);
    } else {
      var mid := InnerPass(overlap, cur, j, 0, score);
      OuterStep(overlap, cur, j, score);
      InnerPassPops(overlap, cur, j, score);
      assert PopStep(cur[i], mid.circles[i]);
      PopsAbove(cs, cur, mid.circles, i);
      ChainPrefix(overlap, cs, i, mid.circles, j + 1, mid.score);
    }
  }

  /** A chain running upwards through the indices completes in one pass:
      when every circle above the active circle `i` is Normal and each link
      overlaps the next once set off, the pass sets off all of them. */
  lemma ChainUpwardsInOnePass(overlap: Overlap, cs: seq<Circle>, i: nat, score: nat)
    requires i < |cs| && UpwardChain(overlap, cs, i)
    ensures forall k :: i < k < |cs| ==> Collide(overlap, cs, score).circles[k] == Explode(cs[k])
  {
    ChainPrefix(overlap, cs, i, cs, 0, score);
  }

  /** A chain running downwards advances one link per pass: with a single
      active circle `i` that overlaps only its lower neighbour, the pass sets
      off that neighbour and nothing else, even when the neighbour, once set
      off, would overlap the circle below it.  That circle waits for the next
      frame. */
  lemma ChainDownwardsWaits(overlap: Overlap, cs: seq<Circle>, i: nat, score: nat)
    requires 0 < i < |cs| && IsActive(cs[i].state)
    requires forall k :: 0 <= k < |cs| && k != i ==> cs[k].state.Normal?
    requires overlap(cs[i], cs[i - 1])
    requires forall k :: 0 <= k < |cs| && k != i && k != i - 1 ==> !overlap(cs[i], cs[k])
    ensures Collide(overlap, cs, score) == PassResult(cs[i - 1 := Explode(cs[i - 1])], score + 1)
  {
    var after := cs[i - 1 := Explode(cs[i - 1])];
    SkipInactive(overlap, cs, 0, i, score);
    OuterStep(overlap, cs, i, score);
    var mid := InnerPass(overlap, cs, i, 0, score);
    forall k | 0 <= k < |cs|
      ensures mid.circles[k] == after[k]
    {
      if k != i - 1 && k != i {
        assert !overlap(cs[i], cs[k]);
      }
    }
    assert mid.circles == after;
    NonNormalUpdate(cs, i - 1, Explode(cs[i - 1]));
    assert mid.score == score + 1;
    SkipInactive(overlap, after, i + 1, |cs|, score + 1);
  }
}
