/**
 Cutting a timed source range by frames (sliceClip and applySplit, src/edits.ts). A range of
 ticks is shown over a number of frames; a cut takes the ticks by floor division, so ticks are
 rounded again at every cut. How far they can drift is bounded here, and the bound is reached.
 */
module Slices {
  import opened MediaTime

  type FrameCount = n: int | n >= 1 witness 1

  /** Ticks startTick, startTick + 1, ... shown over frames 0, 1, ... */
  datatype Span = Span(startTick: int, ticks: int, frames: FrameCount)

  /** The number of ticks that belong before frame k. */
  function TicksBefore(s: Span, k: int): int {
    (s.ticks * k) / s.frames
  }

  /** The tick nominally shown at frame k. */
  function TickAt(s: Span, k: int): int {
    s.startTick + TicksBefore(s, k)
  }

  /** The span of n frames from frame a on. */
  function Slice(s: Span, a: int, n: FrameCount): Span {
    Span(TickAt(s, a), TicksBefore(s, a + n) - TicksBefore(s, a), n)
  }

  // ----- floors

  /** q is the floor of x / d exactly when q * d <= x < (q + 1) * d. */
  lemma FloorBounds(x: int, d: int)
    requires d > 0
    ensures (x / d) * d <= x < (x / d) * d + d
  {
  }

  lemma FloorAtMost(x: int, d: int, q: int)
    requires d > 0 && x < (q + 1) * d
    ensures x / d <= q
  {
    FloorBounds(x, d);
    Scaled(x / d, q + 1, d);
  }

  lemma FloorAtLeast(x: int, d: int, q: int)
    requires d > 0 && q * d <= x
    ensures q <= x / d
  {
    FloorBounds(x, d);
    Scaled(q, x / d + 1, d);
  }

  /** A cut at either end of the span is exact. */
  lemma WholeSpan(s: Span)
    ensures TicksBefore(s, 0) == 0 && TicksBefore(s, s.frames) == s.ticks
    ensures TickAt(s, 0) == s.startTick && TickAt(s, s.frames) == s.startTick + s.ticks
  {
    var x := s.ticks * s.frames;
    FloorBounds(x, s.frames);
    Scaled(x / s.frames, s.ticks, s.frames);
    Scaled(x / s.frames + 1, s.ticks, s.frames);
  }

  // ----- one cut

  lemma Grown(x: int, y: int, j: int)
    requires x <= y && 0 <= j
    ensures x * j <= y * j
  {
    ProductPositive(y - x, j);
    assert (y - x) * j == y * j - x * j;
  }

  lemma MixOfBounds(x0: int, y0: int, x1: int, y1: int, j: int, k: int)
    requires x0 <= y0 && x1 <= y1 && 0 <= j && 0 <= k
    ensures x0 * j + x1 * k <= y0 * j + y1 * k
  {
    Grown(x0, y0, j);
    Grown(x1, y1, k);
  }

  lemma Lowered(x: int, y: int, e: int, j: int, k: int)
    ensures (x - e) * j + (y - e) * k == x * j + y * k - (j + k) * e
  {
    assert (x - e) * j == x * j - e * j && (y - e) * k == y * k - e * k;
    assert (j + k) * e == e * j + e * k;
  }

  lemma Regrouped(p: int, q: int, f: int, j: int, k: int)
    ensures (p * f) * j + (q * f) * k == (p * j + q * k) * f
  {
    assert (p * f) * j == (p * j) * f && (q * f) * k == (q * k) * f;
  }

  lemma Weighted(d: int, a: int, j: int, k: int)
    ensures (d * a) * j + (d * (a + (j + k))) * k == (j + k) * (d * (a + k))
  {
    assert a * j + (a + (j + k)) * k == (j + k) * (a + k);
    assert (d * a) * j == d * (a * j);
    assert (d * (a + (j + k))) * k == d * ((a + (j + k)) * k);
    assert d * (a * j) + d * ((a + (j + k)) * k) == d * (a * j + (a + (j + k)) * k);
    assert (j + k) * (d * (a + k)) == d * ((j + k) * (a + k));
  }

  /** q0 (n - k) + q1 k, up to rounding, is n D (a + k) / F. */
  lemma Interpolated(d: int, f: int, a: int, n: int, k: int, q0: int, q1: int)
    requires f > 0 && n > 0 && 0 <= k <= n
    requires q0 * f <= d * a < q0 * f + f && q1 * f <= d * (a + n) < q1 * f + f
    ensures n * (d * (a + k)) - n * (f - 1) <= (q0 * (n - k) + q1 * k) * f <= n * (d * (a + k))
  {
    var j := n - k;
    MixOfBounds(q0 * f, d * a, q1 * f, d * (a + n), j, k);
    MixOfBounds(d * a - (f - 1), q0 * f, d * (a + n) - (f - 1), q1 * f, j, k);
    Regrouped(q0, q1, f, j, k);
    Weighted(d, a, j, k);
    Lowered(d * a, d * (a + n), f - 1, j, k);
  }

  lemma Mixed(q0: int, q1: int, n: int, k: int)
    requires n > 0
    ensures var mix, t := q0 * (n - k) + q1 * k, q0 + ((q1 - q0) * k) / n;
            t * n <= mix < t * n + n
  {
    var v := ((q1 - q0) * k) / n;
    FloorBounds((q1 - q0) * k, n);
    assert q0 * (n - k) + q1 * k == q0 * n + (q1 - q0) * k;
    assert (q0 + v) * n == q0 * n + v * n;
  }

  lemma NoGain(x: int, f: int, n: int, mix: int, t: int)
    requires f > 0 && n > 0 && t * n <= mix && mix * f <= n * x
    ensures t <= x / f
  {
    Grown(t * n, mix, f);
    assert (t * n) * f == (t * f) * n;
    Scaled(x, t * f, n);
    FloorAtLeast(x, f, t);
  }

  lemma SmallLoss(x: int, f: int, n: int, mix: int, t: int)
    requires f > 0 && n > 0 && mix < t * n + n && n * x - n * (f - 1) <= mix * f
    ensures x / f - 1 <= t
  {
    Grown(mix + 1, t * n + n, f);
    assert (mix + 1) * f == mix * f + f;
    assert (t * n + n) * f == ((t + 1) * f) * n by { assert t * n + n == (t + 1) * n; }
    assert n * x - n * (f - 1) == (x - (f - 1)) * n;
    Scaled((t + 1) * f, x - (f - 1), n);
    assert (t + 1) * f > x - f;
    assert (t + 2) * f == (t + 1) * f + f;
    FloorAtMost(x, f, t + 1);
  }

  /** The arithmetic of one cut: rounding twice loses at most one tick and never gains one. */
  lemma RoundedTwice(d: int, f: int, a: int, n: int, k: int)
    requires f > 0 && n > 0 && 0 <= k <= n
    ensures var q0, q1 := (d * a) / f, (d * (a + n)) / f;
            var once, twice := (d * (a + k)) / f, q0 + ((q1 - q0) * k) / n;
            once - 1 <= twice <= once
  {
    var q0, q1 := (d * a) / f, (d * (a + n)) / f;
    FloorBounds(d * a, f);
    FloorBounds(d * (a + n), f);
    Interpolated(d, f, a, n, k, q0, q1);
    var mix, t := q0 * (n - k) + q1 * k, q0 + ((q1 - q0) * k) / n;
    Mixed(q0, q1, n, k);
    NoGain(d * (a + k), f, n, mix, t);
    SmallLoss(d * (a + k), f, n, mix, t);
  }

  /** A frame of a slice shows the tick it showed before, or the one before that. */
  lemma SliceDriftsByOne(s: Span, a: int, n: FrameCount, k: int)
    requires 0 <= k <= n
    ensures TickAt(s, a + k) - 1 <= TickAt(Slice(s, a, n), k) <= TickAt(s, a + k)
  {
    RoundedTwice(s.ticks, s.frames, a, n, k);
  }

  // ----- cuts of cuts

  datatype Cut = Cut(at: int, frames: FrameCount)

  predicate CutsFit(s: Span, cuts: seq<Cut>)
    decreases |cuts|
  {
    cuts == [] ||
    (0 <= cuts[0].at && cuts[0].at + cuts[0].frames <= s.frames && CutsFit(Slice(s, cuts[0].at, cuts[0].frames), cuts[1..]))
  }

  function CutAll(s: Span, cuts: seq<Cut>): Span
    decreases |cuts|
  {
    if cuts == [] then s else CutAll(Slice(s, cuts[0].at, cuts[0].frames), cuts[1..])
  }

  /** Where frame 0 of the last cut sits in the first span. */
  function Offset(cuts: seq<Cut>): int {
    if cuts == [] then 0 else cuts[0].at + Offset(cuts[1..])
  }

  /** d cuts deep a frame's tick is at most its original one, and at most d below it. */
  lemma {:induction false} DriftIsBounded(s: Span, cuts: seq<Cut>, k: int)
    requires CutsFit(s, cuts) && 0 <= k <= CutAll(s, cuts).frames
    ensures TickAt(s, Offset(cuts) + k) - |cuts| <= TickAt(CutAll(s, cuts), k) <= TickAt(s, Offset(cuts) + k)
    ensures 0 <= Offset(cuts) && Offset(cuts) + CutAll(s, cuts).frames <= s.frames
    decreases |cuts|
  {
    if cuts == [] {
    } else {
      var first := cuts[0];
      DriftIsBounded(Slice(s, first.at, first.frames), cuts[1..], k);
      SliceDriftsByOne(s, first.at, first.frames, Offset(cuts[1..]) + k);
    }
  }

  // ----- the bound is reached

  /** Every cut drops the last frame. */
  function Shave(frames: int, d: nat): seq<Cut>
    requires frames > d
  {
    if d == 0 then [] else [Cut(0, frames - 1)] + Shave(frames - 1, d - 1)
  }

  lemma LastFrameTakesATick(ticks: int, frames: int)
    requires 1 <= ticks <= frames && frames >= 2
    ensures (ticks * (frames - 1)) / frames == ticks - 1
  {
    assert ticks * (frames - 1) == (ticks - 1) * frames + (frames - ticks);
    FloorAtLeast(ticks * (frames - 1), frames, ticks - 1);
    FloorAtMost(ticks * (frames - 1), frames, ticks - 1);
  }

  lemma {:induction false} ShavedSpan(s: Span, d: nat)
    requires d < s.ticks <= s.frames && s.frames > d
    ensures CutsFit(s, Shave(s.frames, d)) && |Shave(s.frames, d)| == d && Offset(Shave(s.frames, d)) == 0
    ensures CutAll(s, Shave(s.frames, d)) == Span(s.startTick, s.ticks - d, s.frames - d)
    decreases d
  {
    if d == 0 {
    } else {
      LastFrameTakesATick(s.ticks, s.frames);
      assert TicksBefore(s, 0) == 0;
      var cuts := Shave(s.frames, d);
      assert cuts[1..] == Shave(s.frames - 1, d - 1);
      assert Slice(s, 0, s.frames - 1) == Span(s.startTick, s.ticks - 1, s.frames - 1);
      ShavedSpan(Slice(s, 0, s.frames - 1), d - 1);
    }
  }

  function Square(m: FrameCount): (r: FrameCount)
    ensures r == m * m >= m
  {
    ProductPositive(m - 1, m);
    assert (m - 1) * m == m * m - m;
    m * m
  }

  lemma AlmostAll(m: FrameCount)
    ensures (m * (Square(m) - m)) / Square(m) == m - 1
  {
    var q := Square(m);
    assert m * (q - m) == (m - 1) * q;
    FloorAtLeast(m * (q - m), q, m - 1);
    FloorAtMost(m * (q - m), q, m - 1);
  }

  lemma NoTicksYet(k: int, frames: int)
    requires 0 <= k < frames
    ensures (1 * k) / frames == 0
  {
    FloorAtLeast(k, frames, 0);
    FloorAtMost(k, frames, 0);
  }

  /** For every depth d there are d cuts after which a frame is d ticks early: the bound is sharp. */
  lemma DriftIsReached(d: nat) returns (s: Span, cuts: seq<Cut>, k: int)
    ensures CutsFit(s, cuts) && |cuts| == d && 0 <= k < CutAll(s, cuts).frames
    ensures TickAt(CutAll(s, cuts), k) == TickAt(s, Offset(cuts) + k) - d
  {
    var m := d + 1;
    s, k := Span(0, m, Square(m)), Square(m) - m;
    cuts := Shave(s.frames, d);
    ShavedSpan(s, d);
    AlmostAll(m);
    NoTicksYet(k, s.frames - d);
  }

  // ----- splits of splits

  /** The two halves of a split after `at` frames. */
  function LeftHalf(s: Span, at: FrameCount): Span {
    Span(s.startTick, TicksBefore(s, at), at)
  }

  function RightHalf(s: Span, at: FrameCount): Span
    requires at < s.frames
  {
    Span(s.startTick + TicksBefore(s, at), s.ticks - TicksBefore(s, at), s.frames - at)
  }

  /** A split is two slices. */
  lemma SplitIsTwoSlices(s: Span, at: FrameCount)
    requires at < s.frames
    ensures LeftHalf(s, at) == Slice(s, 0, at) && RightHalf(s, at) == Slice(s, at, s.frames - at)
  {
    WholeSpan(s);
  }

  datatype Tree = Leaf | Split(at: FrameCount, left: Tree, right: Tree)

  predicate TreeFits(s: Span, t: Tree)
    decreases t
  {
    t.Split? ==> t.at < s.frames && TreeFits(LeftHalf(s, t.at), t.left) && TreeFits(RightHalf(s, t.at), t.right)
  }

  function Leaves(s: Span, t: Tree): seq<Span>
    requires TreeFits(s, t)
    decreases t
  {
    match t
    case Leaf => [s]
    case Split(at, left, right) => Leaves(LeftHalf(s, at), left) + Leaves(RightHalf(s, at), right)
  }

  /** Each piece starts at the tick and frame where the one before ends. */
  predicate Tiles(pieces: seq<Span>, s: Span)
    decreases |pieces|
  {
    if pieces == [] then false
    else if |pieces| == 1 then pieces[0] == s
    else
      && pieces[0].startTick == s.startTick
      && pieces[0].frames < s.frames
      && Tiles(pieces[1..], Span(s.startTick + pieces[0].ticks, s.ticks - pieces[0].ticks, s.frames - pieces[0].frames))
  }

  lemma {:induction false} TilesJoin(xs: seq<Span>, ys: seq<Span>, x: Span, y: Span)
    requires Tiles(xs, x) && Tiles(ys, y) && y.startTick == x.startTick + x.ticks
    ensures Tiles(xs + ys, Span(x.startTick, x.ticks + y.ticks, x.frames + y.frames))
    decreases |xs|
  {
    assert xs + ys != [] && (xs + ys)[0] == xs[0];
    if |xs| == 1 {
      assert (xs + ys)[1..] == ys;
    } else {
      assert (xs + ys)[1..] == xs[1..] + ys;
      TilesJoin(xs[1..], ys, Span(x.startTick + xs[0].ticks, x.ticks - xs[0].ticks, x.frames - xs[0].frames), y);
    }
  }

  /** However a span is split and split again, the pieces tile its ticks and its frames. */
  lemma {:induction false} SplitsTile(s: Span, t: Tree)
    requires TreeFits(s, t)
    ensures Tiles(Leaves(s, t), s)
    decreases t
  {
    if t.Leaf? {
    } else {
      SplitsTile(LeftHalf(s, t.at), t.left);
      SplitsTile(RightHalf(s, t.at), t.right);
      TilesJoin(Leaves(LeftHalf(s, t.at), t.left), Leaves(RightHalf(s, t.at), t.right), LeftHalf(s, t.at), RightHalf(s, t.at));
    }
  }

  /** The tick a frame shows in the leaf that holds it, and how many splits deep that leaf is. */
  function TickInLeaf(s: Span, t: Tree, k: int): int
    requires TreeFits(s, t)
    decreases t
  {
    match t
    case Leaf => TickAt(s, k)
    case Split(at, left, right) =>
      if k < at then TickInLeaf(LeftHalf(s, at), left, k) else TickInLeaf(RightHalf(s, at), right, k - at)
  }

  function LeafDepth(t: Tree, k: int): nat
    decreases t
  {
    match t
    case Leaf => 0
    case Split(at, left, right) => 1 + if k < at then LeafDepth(left, k) else LeafDepth(right, k - at)
  }

  /** In a tree of splits no frame shows a later tick, nor one earlier by more than its depth. */
  lemma {:induction false} SplitsDrift(s: Span, t: Tree, k: int)
    requires TreeFits(s, t) && 0 <= k < s.frames
    ensures TickAt(s, k) - LeafDepth(t, k) <= TickInLeaf(s, t, k) <= TickAt(s, k)
    decreases t
  {
    if t.Leaf? {
    } else {
      SplitIsTwoSlices(s, t.at);
      if k < t.at {
        SplitsDrift(LeftHalf(s, t.at), t.left, k);
        SliceDriftsByOne(s, 0, t.at, k);
      } else {
        SplitsDrift(RightHalf(s, t.at), t.right, k - t.at);
        SliceDriftsByOne(s, t.at, s.frames - t.at, k - t.at);
      }
    }
  }
}
