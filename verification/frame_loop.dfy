/** One tick of the frame loop without its drawing calls: every ordered
    pair of distinct particles within reach emits a distance-faded line,
    and each particle is updated right after its own pass over the field. */
module FrameLoop {
  import opened Particles

  /** Particles at most this far apart are joined by a line. */
  const Reach: real := 180.0
  /** Reach squared, 180 * 180. */
  const ReachSquared: real := 32400.0

  /** Products go through this function so that facts proved about them
      carry over by congruence rather than by nonlinear arithmetic. */
  function Mul(a: real, b: real): real
  {
    a * b
  }

  function Square(d: real): real
  {
    Mul(d, d)
  }

  /** `sqrt` is the non-negative square root on non-negative arguments. */
  ghost predicate IsSqrt(sqrt: real -> real)
  {
    forall d :: 0.0 <= d ==> 0.0 <= sqrt(d) && Square(sqrt(d)) == d
  }

  /** Square of the gap from coordinate `a` to coordinate `b`. */
  function SquaredGap(a: real, b: real): real
  {
    Square(b - a)
  }

  /** Squared Euclidean distance from (x0, y0) to (x1, y1). */
  function Dist2(x0: real, y0: real, x1: real, y1: real): real
  {
    SquaredGap(x0, x1) + SquaredGap(y0, y1)
  }

  /** The reference test for drawing a line: no prefilter, no square root. */
  predicate Near(p: Body, q: Body)
  {
    Dist2(p.x, p.y, q.x, q.y) <= ReachSquared
  }

  /** Opacity of a line between particles `ll` apart. */
  function Alpha(ll: real): (a: real)
    ensures 0.0 <= a
    ensures 0.0 <= ll <= Reach ==> a == (Reach - ll) / Reach && a <= 1.0 && (a == 1.0 <==> ll == 0.0)
  {
    Abs((Reach - ll) / Reach)
  }

  /** A line from particle `i` at (x0, y0) to particle `j` at (x1, y1),
      stroked in `i`'s line colour completed with `alpha`. */
  datatype Segment = Segment(i: nat, j: nat, x0: real, y0: real, x1: real, y1: real, color: Rgb, alpha: real)

  /** The line from particle `i` to particle `j` of the field state `st`. */
  function Line(st: seq<Body>, i: nat, j: nat, sqrt: real -> real): Segment
    requires i < |st| && j < |st|
  {
    Segment(i, j, st[i].x, st[i].y, st[j].x, st[j].y, st[i].lineColor, Alpha(sqrt(Dist2(st[i].x, st[i].y, st[j].x, st[j].y))))
  }

  /** The segments contributed by parts 0 .. m-1 of a family, in order. */
  function Concat(parts: nat -> seq<Segment>, m: nat): seq<Segment>
  {
    if m == 0 then [] else Concat(parts, m - 1) + parts(m - 1)
  }

  /** The line particle `i` of `st` emits against partner `j`, if any:
      none against itself, and none against a partner the reference test
      rejects. */
  function Pair(st: seq<Body>, i: nat, j: nat, sqrt: real -> real): seq<Segment>
  {
    if i < |st| && j < |st| && j != i && Near(st[i], st[j]) then [Line(st, i, j, sqrt)] else []
  }

  /** The lines of particle `i` of `st`, one part per partner. */
  function Partners(st: seq<Body>, i: nat, sqrt: real -> real): nat -> seq<Segment>
  {
    (j: nat) => Pair(st, i, j, sqrt)
  }

  /** The lines particle `i` emits against partners 0 .. m-1 of `st`. */
  function Row(st: seq<Body>, i: nat, m: nat, sqrt: real -> real): seq<Segment>
    requires i < |st| && m <= |st|
  {
    Concat(Partners(st, i, sqrt), m)
  }

  /** The field state while the pass of particle `m` runs: the updates
      of particles 0 .. m-1 have been applied, one after the other. */
  function Advanced(s0: seq<Body>, m: nat): (st: seq<Body>)
    requires m <= |s0|
    ensures |st| == |s0|
  {
    if m == 0 then s0 else Advanced(s0, m - 1)[m - 1 := s0[m - 1].Step(Width, Height)]
  }

  /** The row scanned by the pass of particle `k` of a tick from `s0`, on
      the state that pass sees. */
  function PassRow(s0: seq<Body>, k: nat, sqrt: real -> real): seq<Segment>
  {
    if k < |s0| then Row(Advanced(s0, k), k, |s0|, sqrt) else []
  }

  /** The lines of a tick from `s0`, one part per pass. */
  function Passes(s0: seq<Body>, sqrt: real -> real): nat -> seq<Segment>
  {
    (k: nat) => PassRow(s0, k, sqrt)
  }

  /** The lines of the passes of particles 0 .. m-1 of a tick that starts
      from `s0`. */
  function Frame(s0: seq<Body>, m: nat, sqrt: real -> real): seq<Segment>
    requires m <= |s0|
  {
    Concat(Passes(s0, sqrt), m)
  }

  /** A line's start particle and its partner, as keys of a family. */
  const ByStart: Segment -> nat := (s: Segment) => s.i
  const ByPartner: Segment -> nat := (s: Segment) => s.j

  /** Each part of the family holds only segments whose key is the part's
      own index. */
  ghost predicate Keyed(parts: nat -> seq<Segment>, key: Segment -> nat)
  {
    forall k: nat, s :: s in parts(k) ==> key(s) == k
  }

  /** In a keyed family, a segment is among the first `m` parts exactly
      when its key is below `m` and it is in the part of its key. */
  lemma {:induction false} ConcatMember(parts: nat -> seq<Segment>, m: nat, key: Segment -> nat, s: Segment)
    requires Keyed(parts, key)
    ensures s in Concat(parts, m) <==> key(s) < m && s in parts(key(s))
  {
    if m > 0 {
      ConcatMember(parts, m - 1, key, s);
    }
  }

  /** The segments are listed in strictly increasing `key` order. */
  ghost predicate Sorted(segs: seq<Segment>, key: Segment -> nat)
  {
    forall p, q :: 0 <= p < q < |segs| ==> key(segs[p]) < key(segs[q])
  }

  /** In a keyed family whose parts are each sorted by `inner`, the
      concatenation lists its segments in strictly increasing order of the
      pair (`key`, `inner`). */
  lemma {:induction false} ConcatSorted(parts: nat -> seq<Segment>, m: nat, key: Segment -> nat, inner: Segment -> nat)
    requires Keyed(parts, key)
    requires forall k: nat :: Sorted(parts(k), inner)
    ensures forall p, q :: 0 <= p < q < |Concat(parts, m)| ==>
      key(Concat(parts, m)[p]) < key(Concat(parts, m)[q])
      || (key(Concat(parts, m)[p]) == key(Concat(parts, m)[q]) && inner(Concat(parts, m)[p]) < inner(Concat(parts, m)[q]))
  {
    if m > 0 {
      ConcatSorted(parts, m - 1, key, inner);
      var prev := Concat(parts, m - 1);
      forall p | 0 <= p < |prev|
        ensures key(prev[p]) < m - 1
      {
        ConcatMember(parts, m - 1, key, prev[p]);
      }
      var last := parts(m - 1);
      assert Sorted(last, inner);
      forall q | 0 <= q < |last|
        ensures key(last[q]) == m - 1
      {
        assert last[q] in last;
      }
    }
  }

  /** During the pass of particle `m`, the particles before it have been
      updated once and the others not at all. */
  lemma {:induction false} AdvancedAt(s0: seq<Body>, m: nat, k: nat)
    requires m <= |s0| && k < |s0|
    ensures Advanced(s0, m)[k] == if k < m then s0[k].Step(Width, Height) else s0[k]
  {
    if m > 0 {
      AdvancedAt(s0, m - 1, k);
    }
  }

  lemma MulPositive(a: real, b: real)
    requires (a > 0.0 && b > 0.0) || (a < 0.0 && b < 0.0)
    ensures Mul(a, b) > 0.0
  {
    if a > 0.0 {
      assert a * b > 0.0 * b;
    } else {
      assert (-a) * (-b) > 0.0 * (-b);
    }
  }

  /** Two factors beyond the reach, on the same side of 0, multiply to
      more than the reach squared. */
  lemma MulBeyondReach(a: real, b: real)
    requires (a > Reach && b > Reach) || (a < -Reach && b < -Reach)
    ensures Mul(a, b) > ReachSquared
  {
    if a > Reach {
      assert a * b > 180.0 * b;
      assert 180.0 * b > 180.0 * 180.0;
    } else {
      assert (-a) * (-b) > 180.0 * (-b);
      assert 180.0 * (-b) > 180.0 * 180.0;
    }
  }

  /** Two factors in [0, reach] multiply to at most the reach squared. */
  lemma MulWithinReach(a: real, b: real)
    requires 0.0 <= a <= Reach && 0.0 <= b <= Reach
    ensures Mul(a, b) <= ReachSquared
  {
    assert a * b <= 180.0 * b;
    assert 180.0 * b <= 180.0 * 180.0;
  }

  /** A square vanishes only at zero and is positive elsewhere. */
  lemma SquareZero(d: real)
    ensures Square(d) >= 0.0
    ensures Square(d) == 0.0 <==> d == 0.0
  {
    if d != 0.0 {
      MulPositive(d, d);
    }
  }

  lemma SquareNonNegative(d: real)
    ensures Square(d) >= 0.0
  {
    SquareZero(d);
  }

  lemma GapNonNegative(a: real, b: real)
    ensures SquaredGap(a, b) >= 0.0
  {
    SquareNonNegative(b - a);
  }

  /** A square exceeds the reach squared once the side exceeds the reach. */
  lemma SquareBeyondReach(d: real)
    requires Abs(d) > Reach
    ensures Square(d) > ReachSquared
  {
    MulBeyondReach(d, d);
  }

  /** For a non-negative side, the square is within the reach squared
      exactly when the side is within the reach. */
  lemma WithinReachIffSquare(s: real)
    requires 0.0 <= s
    ensures s <= Reach <==> Square(s) <= ReachSquared
  {
    if s <= Reach {
      MulWithinReach(s, s);
    } else {
      MulBeyondReach(s, s);
    }
  }

  /** A squared gap vanishes only when the coordinates agree. */
  lemma GapZero(a: real, b: real)
    ensures SquaredGap(a, b) == 0.0 <==> a == b
  {
    SquareZero(b - a);
  }

  /** The distance the loop computes is within the reach exactly when the
      reference test holds. */
  lemma NearIffWithinReach(p: Body, q: Body, sqrt: real -> real)
    requires IsSqrt(sqrt)
    ensures 0.0 <= sqrt(Dist2(p.x, p.y, q.x, q.y))
    ensures sqrt(Dist2(p.x, p.y, q.x, q.y)) <= Reach <==> Near(p, q)
  {
    GapNonNegative(p.x, q.x);
    GapNonNegative(p.y, q.y);
    WithinReachIffSquare(sqrt(Dist2(p.x, p.y, q.x, q.y)));
  }

  /** The offsets the loop computes, squared and summed, give the squared
      distance of the reference test. */
  lemma PairDistance(p: Body, q: Body, lx: real, ly: real)
    requires lx == q.x - p.x && ly == q.y - p.y
    ensures Square(lx) + Square(ly) == Dist2(p.x, p.y, q.x, q.y)
  {
  }

  /** Distance does not depend on the order of the two points. */
  lemma Dist2Symmetric(x0: real, y0: real, x1: real, y1: real)
    ensures Dist2(x0, y0, x1, y1) == Dist2(x1, y1, x0, y0)
  {
    assert Square(x1 - x0) == Square(x0 - x1);
    assert Square(y1 - y0) == Square(y0 - y1);
  }

  /** The horizontal prefilter never rejects a pair the reference test
      accepts; neither would the vertical test it was evidently meant to
      pair with. */
  lemma PrefilterRedundant(p: Body, q: Body)
    requires Abs(p.x - q.x) > Reach || Abs(p.y - q.y) > Reach
    ensures !Near(p, q)
  {
    GapNonNegative(p.x, q.x);
    GapNonNegative(p.y, q.y);
    if Abs(p.x - q.x) > Reach {
      assert Abs(q.x - p.x) > Reach;
      SquareBeyondReach(q.x - p.x);
    } else {
      assert Abs(q.y - p.y) > Reach;
      SquareBeyondReach(q.y - p.y);
    }
  }

  /** Segment `s` is a line that particle `i` of `st` emits against a
      partner below `m`: a different particle that passes the reference
      test, joined from `i`'s position to the partner's. */
  predicate Emits(st: seq<Body>, i: nat, m: nat, sqrt: real -> real, s: Segment)
    requires i < |st| && m <= |st|
  {
    s.i == i && s.j < m && s.j != i && Near(st[i], st[s.j]) && s == Line(st, i, s.j, sqrt)
  }

  /** The lines of a row are keyed by their partner. */
  lemma RowKeyed(st: seq<Body>, i: nat, sqrt: real -> real)
    ensures Keyed(Partners(st, i, sqrt), ByPartner)
  {
    forall k: nat, s | s in Partners(st, i, sqrt)(k)
      ensures ByPartner(s) == k
    {
    }
  }

  /** A row holds exactly the lines from `i` to every other partner below
      `m` that passes the reference test. */
  lemma RowExactly(st: seq<Body>, i: nat, m: nat, sqrt: real -> real)
    requires i < |st| && m <= |st|
    ensures forall s :: s in Row(st, i, m, sqrt) <==> Emits(st, i, m, sqrt, s)
  {
    RowKeyed(st, i, sqrt);
    forall s
      ensures s in Row(st, i, m, sqrt) <==> Emits(st, i, m, sqrt, s)
    {
      ConcatMember(Partners(st, i, sqrt), m, ByPartner, s);
    }
  }

  /** A row lists its lines in strictly increasing partner order, as the
      inner loop visits the partners: no partner is joined twice. */
  lemma RowOrdered(st: seq<Body>, i: nat, m: nat, sqrt: real -> real)
    requires i < |st| && m <= |st|
    ensures Sorted(Row(st, i, m, sqrt), ByPartner)
  {
    RowKeyed(st, i, sqrt);
    forall k: nat
      ensures Sorted(Partners(st, i, sqrt)(k), ByPartner)
    {
      assert |Pair(st, i, k, sqrt)| <= 1;
    }
    ConcatSorted(Partners(st, i, sqrt), m, ByPartner, ByPartner);
  }

  /** The lines of a tick are keyed by their start particle. */
  lemma FrameKeyed(s0: seq<Body>, sqrt: real -> real)
    ensures Keyed(Passes(s0, sqrt), ByStart)
  {
    forall k: nat, s | s in Passes(s0, sqrt)(k)
      ensures ByStart(s) == k
    {
      RowExactly(Advanced(s0, k), k, |s0|, sqrt);
    }
  }

  /** A tick from `s0` emits exactly the lines from each particle `i` to
      each other particle `j` that pass the reference test on the state
      seen during `i`'s pass. */
  lemma FrameExactly(s0: seq<Body>, m: nat, sqrt: real -> real)
    requires m <= |s0|
    ensures forall s ::
      s in Frame(s0, m, sqrt) <==> s.i < m && Emits(Advanced(s0, s.i), s.i, |s0|, sqrt, s)
  {
    FrameKeyed(s0, sqrt);
    forall s: Segment
      ensures s in Frame(s0, m, sqrt) <==> s.i < m && Emits(Advanced(s0, s.i), s.i, |s0|, sqrt, s)
    {
      ConcatMember(Passes(s0, sqrt), m, ByStart, s);
      if s.i < m {
        RowExactly(Advanced(s0, s.i), s.i, |s0|, sqrt);
      }
    }
  }

  /** A tick lists its lines in strictly increasing order of (start,
      partner): passes in field order, each pass in partner order, so no
      ordered pair is drawn twice. */
  lemma FrameOrdered(s0: seq<Body>, m: nat, sqrt: real -> real)
    requires m <= |s0|
    ensures forall p, q :: 0 <= p < q < |Frame(s0, m, sqrt)| ==>
      Frame(s0, m, sqrt)[p].i < Frame(s0, m, sqrt)[q].i
      || (Frame(s0, m, sqrt)[p].i == Frame(s0, m, sqrt)[q].i && Frame(s0, m, sqrt)[p].j < Frame(s0, m, sqrt)[q].j)
  {
    FrameKeyed(s0, sqrt);
    forall k: nat
      ensures Sorted(Passes(s0, sqrt)(k), ByPartner)
    {
      if k < |s0| {
        RowOrdered(Advanced(s0, k), k, |s0|, sqrt);
      }
    }
    ConcatSorted(Passes(s0, sqrt), m, ByStart, ByPartner);
  }

  /** The alpha of a line between two particles that pass the reference
      test lies in [0, 1] and is 1 exactly when they coincide. */
  lemma AlphaOfNearPair(p: Body, q: Body, sqrt: real -> real)
    requires IsSqrt(sqrt) && Near(p, q)
    ensures 0.0 <= Alpha(sqrt(Dist2(p.x, p.y, q.x, q.y))) <= 1.0
    ensures Alpha(sqrt(Dist2(p.x, p.y, q.x, q.y))) == 1.0 <==> p.x == q.x && p.y == q.y
  {
    NearIffWithinReach(p, q, sqrt);
    GapNonNegative(p.x, q.x);
    GapNonNegative(p.y, q.y);
    GapZero(p.x, q.x);
    GapZero(p.y, q.y);
    SquareZero(sqrt(Dist2(p.x, p.y, q.x, q.y)));
  }

  /** Where every line of a tick from `s0` is drawn: it joins two
      different particles within reach; its start is particle `i` before
      its update, in `i`'s line colour; its end is particle `j` after its
      update when `j < i` and before it when `j > i`. */
  lemma TickLineEnds(s0: seq<Body>, sqrt: real -> real, s: Segment)
    requires s in Frame(s0, |s0|, sqrt)
    ensures s.i < |s0| && s.j < |s0| && s.i != s.j
    ensures s.x0 == s0[s.i].x && s.y0 == s0[s.i].y && s.color == s0[s.i].lineColor
    ensures s.j < s.i ==> s.x1 == s0[s.j].Step(Width, Height).x && s.y1 == s0[s.j].Step(Width, Height).y
    ensures s.j > s.i ==> s.x1 == s0[s.j].x && s.y1 == s0[s.j].y
    ensures SquaredGap(s.x0, s.x1) + SquaredGap(s.y0, s.y1) <= ReachSquared
    ensures s.alpha == Alpha(sqrt(Dist2(s.x0, s.y0, s.x1, s.y1)))
  {
    FrameExactly(s0, |s0|, sqrt);
    AdvancedAt(s0, s.i, s.i);
    AdvancedAt(s0, s.i, s.j);
  }

  /** The alpha of every line of a tick lies in [0, 1] and is 1 exactly
      when both ends coincide. */
  lemma TickLineAlpha(s0: seq<Body>, sqrt: real -> real, s: Segment)
    requires IsSqrt(sqrt)
    requires s in Frame(s0, |s0|, sqrt)
    ensures 0.0 <= s.alpha <= 1.0
    ensures s.alpha == 1.0 <==> s.x0 == s.x1 && s.y0 == s.y1
  {
    TickLineEnds(s0, sqrt, s);
    var p := Body(s.x0, s.y0, 0.0, 0.0, 0.0, "", s.color);
    var q := Body(s.x1, s.y1, 0.0, 0.0, 0.0, "", s.color);
    AlphaOfNearPair(p, q, sqrt);
  }

  /** A non-negative number is determined by its square. */
  lemma SquareInjective(r: real, c: real)
    requires 0.0 <= r && 0.0 <= c && Square(r) == Square(c)
    ensures r == c
  {
    if r < c {
      MulPositive(c - r, c + r);
      assert false;
    } else if c < r {
      MulPositive(r - c, r + c);
      assert false;
    }
  }

  /** A field whose particles are all contained stays so at every point of
      a tick, so every line end lies within a radius of the canvas. */
  lemma TickContained(s0: seq<Body>, m: nat)
    requires m <= |s0|
    requires forall k :: 0 <= k < |s0| ==> Contained(s0[k], Width, Height)
    ensures forall k :: 0 <= k < |s0| ==> Contained(Advanced(s0, m)[k], Width, Height)
  {
    forall k | 0 <= k < |s0|
      ensures Contained(Advanced(s0, m)[k], Width, Height)
    {
      AdvancedAt(s0, m, k);
      if k < m {
        StepContained(s0[k], Width, Height);
      }
    }
  }

  /** Two resting particles of radius 3 at (0, 250) and (100, 250): the
      tick draws two lines between them, one from each end, each at alpha
      (180 - 100) / 180 = 4/9, and both particles stay where they are (the
      first touches the left wall, but its zero velocity flips to zero). */
  lemma TwoParticleTick(p: Body, q: Body, sqrt: real -> real)
    requires IsSqrt(sqrt)
    requires p.x == 0.0 && p.y == 250.0 && q.x == 100.0 && q.y == 250.0
    requires p.vx == 0.0 && p.vy == 0.0 && p.size == 3.0
    requires q.vx == 0.0 && q.vy == 0.0 && q.size == 3.0
    ensures |Frame([p, q], 2, sqrt)| == 2
    ensures Frame([p, q], 2, sqrt)[0].i == 0 && Frame([p, q], 2, sqrt)[0].j == 1
    ensures Frame([p, q], 2, sqrt)[1].i == 1 && Frame([p, q], 2, sqrt)[1].j == 0
    ensures Frame([p, q], 2, sqrt)[0].alpha == 4.0 / 9.0 && Frame([p, q], 2, sqrt)[1].alpha == 4.0 / 9.0
    ensures Advanced([p, q], 2) == [p, q]
  {
    var s0 := [p, q];
    assert p.Step(Width, Height) == p;
    assert q.Step(Width, Height) == q;
    assert Advanced(s0, 1) == s0;
    assert Dist2(p.x, p.y, q.x, q.y) == 10000.0;
    assert Dist2(q.x, q.y, p.x, p.y) == 10000.0;
    SquareInjective(sqrt(10000.0), 100.0);
    var row0, row1 := [Line(s0, 0, 1, sqrt)], [Line(s0, 1, 0, sqrt)];
    assert Pair(s0, 0, 0, sqrt) == [] && Pair(s0, 0, 1, sqrt) == row0;
    assert Pair(s0, 1, 0, sqrt) == row1 && Pair(s0, 1, 1, sqrt) == [];
    assert Row(s0, 0, 2, sqrt) == row0;
    assert Row(s0, 1, 2, sqrt) == row1;
    assert Frame(s0, 2, sqrt) == row0 + row1;
  }

  /** One step of the inner loop on a partner `j` other than `i`: with the
      offsets the loop computes, the row grows by the line to `j` exactly
      when the computed distance is within the reach, and that line's
      alpha is taken from the computed distance. */
  lemma RowNext(st: seq<Body>, i: nat, j: nat, sqrt: real -> real, lx: real, ly: real)
    requires IsSqrt(sqrt) && i < |st| && j < |st| && j != i
    requires lx == st[j].x - st[i].x && ly == st[j].y - st[i].y
    ensures Row(st, i, j + 1, sqrt) ==
      Row(st, i, j, sqrt) + (if sqrt(Square(lx) + Square(ly)) <= Reach then [Line(st, i, j, sqrt)] else [])
    ensures Line(st, i, j, sqrt).alpha == Alpha(sqrt(Square(lx) + Square(ly)))
  {
    PairDistance(st[i], st[j], lx, ly);
    NearIffWithinReach(st[i], st[j], sqrt);
  }

  /** The pass of particle `i`: scan every partner `j`, skip `i` itself,
      skip pairs the horizontal prefilter rejects, and emit a line for
      each pair whose distance is within the reach. */
  method ScanRow(a: array<Particle>, i: nat, sqrt: real -> real) returns (row: seq<Segment>)
    requires i < a.Length && IsSqrt(sqrt)
    ensures row == Row(States(a), i, a.Length, sqrt)
  {
    ghost var st := States(a);
    row := [];
    for j := 0 to a.Length
      invariant row == Row(st, i, j, sqrt)
    {
      if i == j {
        continue;
      }
      if Abs(a[i].x - a[j].x) > Reach || Abs(a[i].x - a[j].x) > Reach {
        PrefilterRedundant(st[i], st[j]);
        continue;
      }
      var lx := a[j].x - a[i].x;
      var ly := a[j].y - a[i].y;
      var ll := sqrt(Square(lx) + Square(ly));
      RowNext(st, i, j, sqrt, lx, ly);
      if ll <= Reach {
        row := row + [Segment(i, j, a[i].x, a[i].y, a[j].x, a[j].y, a[i].lineColor, Alpha(ll))];
      }
    }
  }

  /** Appending the row of particle `i`, scanned on the state of its
      pass, extends the lines of the first `i` passes to the first `i + 1`. */
  lemma FrameExtend(s0: seq<Body>, i: nat, sqrt: real -> real, row: seq<Segment>)
    requires i < |s0| && row == Row(Advanced(s0, i), i, |s0|, sqrt)
    ensures Frame(s0, i, sqrt) + row == Frame(s0, i + 1, sqrt)
  {
  }

  /** Updating particle `i`, and nothing else, on the state of its pass
      gives the state of the next pass. */
  lemma AdvanceOne(s0: seq<Body>, i: nat, before: seq<Body>, after: seq<Body>)
    requires i < |s0| && before == Advanced(s0, i)
    requires after == before[i := before[i].Step(Width, Height)]
    ensures after == Advanced(s0, i + 1)
  {
    AdvancedAt(s0, i, i);
  }

  /** After a tick the field has as many particles as before and each has
      been updated exactly once: it is one step of its state before the
      tick, so its radius and colours are unchanged and its speed on each
      axis is kept. */
  lemma AfterTick(s0: seq<Body>, k: nat)
    requires k < |s0|
    ensures |Advanced(s0, |s0|)| == |s0|
    ensures Advanced(s0, |s0|)[k] == s0[k].Step(Width, Height)
    ensures Advanced(s0, |s0|)[k].size == s0[k].size && Advanced(s0, |s0|)[k].color == s0[k].color
    ensures Advanced(s0, |s0|)[k].lineColor == s0[k].lineColor
    ensures Abs(Advanced(s0, |s0|)[k].vx) == Abs(s0[k].vx) && Abs(Advanced(s0, |s0|)[k].vy) == Abs(s0[k].vy)
  {
    AdvancedAt(s0, |s0|, k);
  }

  /** The pass of particle `i`: its row of lines on the current field,
      then its own update; every other particle is left as it was. */
  method Pass(a: array<Particle>, i: nat, sqrt: real -> real) returns (row: seq<Segment>)
    requires i < a.Length && Distinct(a) && IsSqrt(sqrt)
    modifies a[i]
    ensures row == Row(old(States(a)), i, a.Length, sqrt)
    ensures States(a) == old(States(a))[i := old(States(a))[i].Step(Width, Height)]
  {
    ghost var before := States(a);
    row := ScanRow(a, i, sqrt);
    a[i].Update(Width, Height);
    forall k | 0 <= k < a.Length && k != i
      ensures a[k].State() == before[k]
    {
      assert a[k] != a[i];
    }
  }

  /** One tick: the pass of each particle in field order, each followed by
      that particle's update on the 1000 by 500 canvas. */
  method Tick(a: array<Particle>, sqrt: real -> real) returns (segs: seq<Segment>)
    requires Distinct(a) && IsSqrt(sqrt)
    modifies set k | 0 <= k < a.Length :: a[k]
    ensures segs == Frame(old(States(a)), a.Length, sqrt)
    ensures States(a) == Advanced(old(States(a)), a.Length)
  {
    ghost var s0 := States(a);
    segs := [];
    for i := 0 to a.Length
      invariant States(a) == Advanced(s0, i)
      invariant segs == Frame(s0, i, sqrt)
    {
      ghost var before := States(a);
      var row := Pass(a, i, sqrt);
      FrameExtend(s0, i, sqrt, row);
      segs := segs + row;
      AdvanceOne(s0, i, before, States(a));
    }
  }
}
