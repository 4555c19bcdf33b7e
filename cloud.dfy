/**
 * The particle cloud (ParticleCloud.cs): a fixed buffer of PointCount particle
 * instances, each with a colour and a transform. Every Advance bumps a time
 * accumulator by a fixed step and the frame counter by one, evaluates the
 * particle formula for every index, sorts the x and y coordinates, takes the
 * order statistics at ranks Lo and Hi as a trimmed (1%..99%) box, recentres every
 * particle on the box's midpoint and stores the box in centre-relative form.
 *
 * The per-frame computation is specified by the pure function TrimmedFrame;
 * the class's Advance is proved to store exactly TrimmedFrame of the formula's
 * points, and the lemmas below say what that frame guarantees.
 */
module Cloud {
  import opened Options
  import opened Geometry
  import opened Sorting

  /** Number of particle instances in the buffer. */
  const PointCount: int := 10_000

  /** The trailing instances reserved for state-driven highlighting. */
  const HighlightCount: int := 100

  /** Math.PI as the double literal the runtime uses. */
  const Pi: real := 3.141592653589793

  /** Fixed increment of the time accumulator per Advance, whatever the frame delta. */
  const InternalAdvance: real := Pi / 240.0

  /** The formula's second argument is the index divided by this. */
  const IndexScale: real := 235.0

  /** The time accumulator after n steps, each adding InternalAdvance. */
  function Elapsed(n: nat): real {
    if n == 0 then 0.0 else Elapsed(n - 1) + InternalAdvance
  }

  /** Repeated addition of the step is multiplication by the number of steps. */
  lemma {:induction false} ElapsedClosedForm(n: nat)
    ensures Elapsed(n) == n as real * InternalAdvance
  {
    if n > 0 {
      ElapsedClosedForm(n - 1);
      assert (n - 1) as real * InternalAdvance + InternalAdvance == n as real * InternalAdvance;
    }
  }

  /** Ranks of the trimmed box: (int)(PointCount * 0.01) and (int)(PointCount * 0.99). */
  const Lo: int := 100
  const Hi: int := 9900

  lemma TrimRanks()
    ensures Lo == (PointCount as real * 0.01).Floor
    ensures Hi == (PointCount as real * 0.99).Floor
    ensures 0 <= Lo <= Hi < PointCount
  {
  }

  /* —— the frame counter is a C# int, incremented without overflow checks —— */

  const MinInt32: int := -0x8000_0000
  const MaxInt32: int := 0x7fff_ffff
  const Modulus32: int := 0x1_0000_0000

  predicate IsInt32(x: int) {
    MinInt32 <= x <= MaxInt32
  }

  /** frameCount += 1 on a 32-bit two's complement int. */
  function Inc32(x: int): (r: int)
    requires IsInt32(x)
    ensures IsInt32(r)
  {
    if x == MaxInt32 then MinInt32 else x + 1
  }

  /** The 32-bit two's complement value of n. */
  function Wrap32(n: int): (r: int)
    ensures IsInt32(r)
  {
    (n - MinInt32) % Modulus32 + MinInt32
  }

  /** After n + 1 increments from zero, the counter holds n + 1 modulo 2^32. */
  lemma Inc32Wrap(n: int)
    ensures Inc32(Wrap32(n)) == Wrap32(n + 1)
  {
    var a := n - MinInt32;
    var q, m := a / Modulus32, a % Modulus32;
    assert a == q * Modulus32 + m;
    if m == Modulus32 - 1 {
      assert a + 1 == (q + 1) * Modulus32;
      assert (a + 1) % Modulus32 == 0;
    } else {
      assert a + 1 == q * Modulus32 + (m + 1);
      assert (a + 1) % Modulus32 == m + 1;
    }
  }

  /** One Advance keeps the time accumulator and the frame counter in step with the number of calls. */
  lemma CountersStep(t: real, frame: int, n: nat)
    requires t == Elapsed(n) && frame == Wrap32(n)
    ensures t + InternalAdvance == Elapsed(n + 1) && Inc32(frame) == Wrap32(n + 1)
  {
    Inc32Wrap(n);
  }

  /** The counter stays an ordinary increment until it reaches MaxInt32. */
  lemma Wrap32Small(n: nat)
    requires n <= MaxInt32
    ensures Wrap32(n) == n
  {
  }

  /* —— colours, formula, points —— */

  /** The engine colours the core uses. */
  datatype Color = White | Red | Lime

  /** A particle formula: (index, index / 235, time, frame) -> (x, y). */
  type Formula = (int, real, real, int) -> (real, real)

  /** Colour of instance i straight after Initialize. */
  function InitialColor(i: int): Color {
    if i >= PointCount - HighlightCount then Red else White
  }

  /** Position the formula gives particle i, before recentring. */
  function LocalPoint(f: Formula, i: int, t: real, frame: int): Vec2 {
    var p := f(i, i as real / IndexScale, t, frame);
    Vec2(p.0, p.1)
  }

  /** The formula evaluated at every index. */
  function Locals(f: Formula, t: real, frame: int): (ps: seq<Vec2>)
    ensures |ps| == PointCount
    ensures forall i :: 0 <= i < PointCount ==> ps[i] == LocalPoint(f, i, t, frame)
  {
    seq(PointCount, i => LocalPoint(f, i, t, frame))
  }

  function Xs(ps: seq<Vec2>): (r: seq<real>)
    ensures |r| == |ps|
    ensures forall i :: 0 <= i < |ps| ==> r[i] == ps[i].x
  {
    seq(|ps|, i requires 0 <= i < |ps| => ps[i].x)
  }

  function Ys(ps: seq<Vec2>): (r: seq<real>)
    ensures |r| == |ps|
    ensures forall i :: 0 <= i < |ps| ==> r[i] == ps[i].y
  {
    seq(|ps|, i requires 0 <= i < |ps| => ps[i].y)
  }

  /* —— the trimmed frame —— */

  datatype Bounds = Bounds(minX: real, maxX: real, minY: real, maxY: real) {

    /** The same bounds seen from an origin moved to c. */
    function Translated(c: Vec2): Bounds {
      Bounds(minX - c.x, maxX - c.x, minY - c.y, maxY - c.y)
    }
  }

  /** The order statistics at ranks Lo and Hi of the x and of the y coordinates. */
  function TrimmedBounds(ps: seq<Vec2>): (b: Bounds)
    requires |ps| == PointCount
    ensures b.minX <= b.maxX && b.minY <= b.maxY
  {
    RankBounds(SortSeq(Xs(ps)), SortSeq(Ys(ps)))
  }

  /** The entries at ranks Lo and Hi of sorted x and y coordinates. */
  function RankBounds(sx: seq<real>, sy: seq<real>): (b: Bounds)
    requires |sx| == PointCount && |sy| == PointCount
    requires Sorted(sx) && Sorted(sy)
    ensures b.minX <= b.maxX && b.minY <= b.maxY
  {
    Bounds(sx[Lo], sx[Hi], sy[Lo], sy[Hi])
  }

  /** Midpoint of the trimmed ranges. */
  function Centre(b: Bounds): Vec2 {
    Vec2((b.minX + b.maxX) * 0.5, (b.minY + b.maxY) * 0.5)
  }

  /** The trimmed box, relative to its own centre. */
  function BoxOf(b: Bounds): Rect {
    var c := Centre(b);
    Rect(Vec2(b.minX - c.x, b.minY - c.y), Vec2(b.maxX - b.minX, b.maxY - b.minY))
  }

  /** A box of non-negative extent whose centre is the origin. */
  predicate Centred(r: Rect) {
    r.size.x >= 0.0 && r.size.y >= 0.0 && r.Centre() == Origin
  }

  function Recentre(ps: seq<Vec2>, c: Vec2): (r: seq<Vec2>)
    ensures |r| == |ps|
    ensures forall i :: 0 <= i < |ps| ==> r[i] == ps[i].Minus(c)
  {
    seq(|ps|, i requires 0 <= i < |ps| => ps[i].Minus(c))
  }

  /** What one update publishes: every particle's transform and the stored box. */
  datatype Frame = Frame(transforms: seq<Vec2>, box: Rect)

  function TrimmedFrame(ps: seq<Vec2>): (fr: Frame)
    requires |ps| == PointCount
    ensures |fr.transforms| == PointCount
    ensures Centred(fr.box)
  {
    var b := TrimmedBounds(ps);
    Frame(Recentre(ps, Centre(b)), BoxOf(b))
  }

  /** The particle positions the update publishes for the given formula, time and frame. */
  function FrameAt(f: Formula, t: real, frame: int): (fr: Frame)
    ensures |fr.transforms| == PointCount
    ensures forall i :: 0 <= i < PointCount ==>
      fr.transforms[i] == LocalPoint(f, i, t, frame).Minus(Centre(TrimmedBounds(Locals(f, t, frame))))
  {
    TrimmedFrame(Locals(f, t, frame))
  }

  lemma XsRecentre(ps: seq<Vec2>, c: Vec2)
    ensures Xs(Recentre(ps, c)) == Shift(Xs(ps), c.x)
    ensures Ys(Recentre(ps, c)) == Shift(Ys(ps), c.y)
  {
    ShiftPointwise(Xs(ps), c.x);
    ShiftPointwise(Ys(ps), c.y);
  }

  lemma SortEq(a: seq<real>, b: seq<real>)
    requires a == b
    ensures SortSeq(a) == SortSeq(b)
  {
  }

  lemma SortedXsRecentre(ps: seq<Vec2>, c: Vec2)
    ensures SortSeq(Xs(Recentre(ps, c))) == Shift(SortSeq(Xs(ps)), c.x)
  {
    XsRecentre(ps, c);
    SortShift(Xs(ps), c.x);
    SortEq(Xs(Recentre(ps, c)), Shift(Xs(ps), c.x));
  }

  lemma SortedYsRecentre(ps: seq<Vec2>, c: Vec2)
    ensures SortSeq(Ys(Recentre(ps, c))) == Shift(SortSeq(Ys(ps)), c.y)
  {
    XsRecentre(ps, c);
    SortShift(Ys(ps), c.y);
    SortEq(Ys(Recentre(ps, c)), Shift(Ys(ps), c.y));
  }

  lemma RankBoundsShift(sx: seq<real>, sy: seq<real>, tx: seq<real>, ty: seq<real>, c: Vec2)
    requires |sx| == PointCount && |sy| == PointCount
    requires Sorted(sx) && Sorted(sy) && Sorted(tx) && Sorted(ty)
    requires tx == Shift(sx, c.x) && ty == Shift(sy, c.y)
    ensures RankBounds(tx, ty) == RankBounds(sx, sy).Translated(c)
  {
    ShiftAt(sx, c.x, Lo);
    ShiftAt(sx, c.x, Hi);
    ShiftAt(sy, c.y, Lo);
    ShiftAt(sy, c.y, Hi);
  }

  /** Translating every point translates the trimmed bounds by the same amount. */
  lemma TrimmedBoundsRecentre(ps: seq<Vec2>, c: Vec2)
    requires |ps| == PointCount
    ensures TrimmedBounds(Recentre(ps, c)) == TrimmedBounds(ps).Translated(c)
  {
    var q := Recentre(ps, c);
    SortedXsRecentre(ps, c);
    SortedYsRecentre(ps, c);
    RankBoundsShift(SortSeq(Xs(ps)), SortSeq(Ys(ps)), SortSeq(Xs(q)), SortSeq(Ys(q)), c);
  }

  /**
   * The published positions are already centred: recomputing the trimmed frame
   * from them finds its centre at the origin, leaves every position where it is
   * and yields the same box.
   */
  lemma TrimmedFrameStable(ps: seq<Vec2>)
    requires |ps| == PointCount
    ensures Centre(TrimmedBounds(TrimmedFrame(ps).transforms)) == Origin
    ensures TrimmedFrame(TrimmedFrame(ps).transforms) == TrimmedFrame(ps)
  {
    var b := TrimmedBounds(ps);
    var c := Centre(b);
    var q := Recentre(ps, c);
    TrimmedBoundsRecentre(ps, c);
    var b' := TrimmedBounds(q);
    assert Centre(b') == Origin;
    assert Recentre(q, Origin) == q;
    assert BoxOf(b') == BoxOf(b);
  }

  /**
   * How the closed range [a, b] trims vs. It keeps at least Hi - Lo + 1 values
   * inside, with at most Lo before a and at most PointCount - 1 - Hi beyond b.
   * It cuts the tails off: at least Lo + 1 values are at or before a, and at
   * least PointCount - Hi at or beyond b, so a and b are the values of ranks
   * Lo and Hi and not the extremes.
   */
  predicate TrimmedCover(vs: seq<real>, a: real, b: real) {
    && Count(vs, Within(a, b)) >= Hi - Lo + 1
    && Count(vs, Below(a)) <= Lo
    && Count(vs, Above(b)) <= PointCount - 1 - Hi
    && Count(vs, AtMost(a)) >= Lo + 1
    && Count(vs, AtLeast(b)) >= PointCount - Hi
  }

  lemma RankCover(vs: seq<real>)
    requires |vs| == PointCount
    ensures TrimmedCover(vs, SortSeq(vs)[Lo], SortSeq(vs)[Hi])
  {
    OrderStatistics(vs, Lo, Hi);
    OrderTails(vs, Lo, Hi);
  }

  /** A box centred on the origin keeps the bounds it was made from as its edges. */
  lemma BoxEdges(b: Bounds, r: Rect)
    requires Centre(b) == Origin && r == BoxOf(b)
    ensures r.pos.x == b.minX && r.pos.x + r.size.x == b.maxX
    ensures r.pos.y == b.minY && r.pos.y + r.size.y == b.maxY
  {
  }

  lemma CoverAt(vs: seq<real>, a: real, b: real, a': real, b': real)
    requires TrimmedCover(vs, a, b) && a == a' && b == b'
    ensures TrimmedCover(vs, a', b')
  {
  }

  /** A centred trimmed box, read back on the positions it was computed from. */
  lemma CentredBoxCover(q: seq<Vec2>, r: Rect)
    requires |q| == PointCount
    requires Centre(TrimmedBounds(q)) == Origin
    requires r == BoxOf(TrimmedBounds(q))
    ensures TrimmedCover(Xs(q), r.pos.x, r.pos.x + r.size.x)
    ensures TrimmedCover(Ys(q), r.pos.y, r.pos.y + r.size.y)
  {
    var sx, sy := SortSeq(Xs(q)), SortSeq(Ys(q));
    var b := TrimmedBounds(q);
    assert b == Bounds(sx[Lo], sx[Hi], sy[Lo], sy[Hi]);
    BoxEdges(b, r);
    RankCover(Xs(q));
    RankCover(Ys(q));
    CoverAt(Xs(q), sx[Lo], sx[Hi], r.pos.x, r.pos.x + r.size.x);
    CoverAt(Ys(q), sy[Lo], sy[Hi], r.pos.y, r.pos.y + r.size.y);
  }

  /** The stored box trims the published positions on each axis as TrimmedCover says. */
  lemma TrimmedBoxCoverage(ps: seq<Vec2>)
    requires |ps| == PointCount
    ensures TrimmedCover(Xs(TrimmedFrame(ps).transforms), TrimmedFrame(ps).box.pos.x,
                         TrimmedFrame(ps).box.pos.x + TrimmedFrame(ps).box.size.x)
    ensures TrimmedCover(Ys(TrimmedFrame(ps).transforms), TrimmedFrame(ps).box.pos.y,
                         TrimmedFrame(ps).box.pos.y + TrimmedFrame(ps).box.size.y)
  {
    var fr := TrimmedFrame(ps);
    TrimmedFrameStable(ps);
    CentredBoxCover(fr.transforms, fr.box);
  }

  /* —— the particle cloud —— */

  /** The pieces UpdateCloudParticles computes assemble into TrimmedFrame. */
  lemma FrameFromParts(ps: seq<Vec2>, b: Bounds, tr: seq<Vec2>, box: Rect)
    requires |ps| == PointCount && b == TrimmedBounds(ps)
    requires tr == Recentre(ps, Centre(b))
    requires box == Rect(Vec2(b.minX - Centre(b).x, b.minY - Centre(b).y), Vec2(b.maxX - b.minX, b.maxY - b.minY))
    ensures Frame(tr, box) == TrimmedFrame(ps)
  {
  }

  /** The first loop of UpdateCloudParticles: every index's point, and its coordinates split into two buffers. */
  method EvalLocals(f: Formula, t: real, frame: int) returns (local: array<Vec2>, xs: array<real>, ys: array<real>)
    ensures fresh(local) && fresh(xs) && fresh(ys) && xs != ys
    ensures local[..] == Locals(f, t, frame)
    ensures xs[..] == Xs(local[..]) && ys[..] == Ys(local[..])
  {
    xs := new real[PointCount];
    ys := new real[PointCount];
    local := new Vec2[PointCount];
    ghost var ps := Locals(f, t, frame);
    for i := 0 to PointCount
      invariant forall j :: 0 <= j < i ==> local[j] == ps[j] && xs[j] == ps[j].x && ys[j] == ps[j].y
    {
      var p := f(i, i as real / IndexScale, t, frame);
      var v := Vec2(p.0, p.1);
      local[i] := v;
      xs[i] := v.x;
      ys[i] := v.y;
    }
    assert local[..] == ps;
  }

  /** Sorts both coordinate buffers and reads them at ranks (int)(PointCount * 0.01) and (int)(PointCount * 0.99). */
  method SortedRanks(ghost ps: seq<Vec2>, xs: array<real>, ys: array<real>) returns (minX: real, maxX: real, minY: real, maxY: real)
    requires |ps| == PointCount && xs[..] == Xs(ps) && ys[..] == Ys(ps) && xs != ys
    modifies xs, ys
    ensures Bounds(minX, maxX, minY, maxY) == TrimmedBounds(ps)
  {
    SortInPlace(xs);
    SortInPlace(ys);
    var lo := (PointCount as real * 0.01).Floor;
    var hi := (PointCount as real * 0.99).Floor;
    TrimRanks();
    minX, maxX := xs[lo], xs[hi];
    minY, maxY := ys[lo], ys[hi];
  }

  /** The second loop of UpdateCloudParticles: every instance's translation is its point relative to c. */
  method RecentreInto(dst: array<Vec2>, src: array<Vec2>, c: Vec2, ghost ps: seq<Vec2>)
    requires dst.Length == src.Length && dst != src && src[..] == ps
    modifies dst
    ensures dst[..] == Recentre(ps, c)
  {
    for i := 0 to dst.Length
      invariant forall j :: 0 <= j < i ==> dst[j] == ps[j].Minus(c)
    {
      dst[i] := src[i].Minus(c);
    }
  }

  class ParticleCloud {
    /** Time accumulator the formula sees. */
    var t: real
    /** Frame counter the formula sees (a 32-bit int). */
    var frameCount: int
    /** Number of Advance calls so far. */
    ghost var ticks: nat
    /** The last trimmed box, in centre-relative coordinates. */
    var bbox: Rect
    /** Per-instance colours of the multimesh. */
    var colors: array<Color>
    /** Per-instance translations of the multimesh (rotation is always 0). */
    var transforms: array<Vec2>
    /** The current particle formula. */
    var formula: Formula
    /** The node's own position and rotation, steered by the move strategy. */
    var pose: Pose
    /** Position and rotation of the multimesh instance, set by ApplyTransform. */
    var anchor: Pose

    /** What holds from construction on: t and frameCount count the Advance calls, and the stored box is centred. */
    ghost predicate Consistent()
      reads this
    {
      && t == Elapsed(ticks)
      && frameCount == Wrap32(ticks)
      && Centred(bbox)
    }

    /** Initialized, with both instance buffers of PointCount entries. */
    ghost predicate Valid()
      reads this
    {
      Consistent() && colors.Length == PointCount && transforms.Length == PointCount
    }

    constructor (defaultFormula: Formula)
      ensures Consistent()
      ensures t == 0.0 && frameCount == 0 && ticks == 0 && bbox == EmptyRect
      ensures formula == defaultFormula && pose == Identity && anchor == Identity
      ensures colors.Length == 0 && transforms.Length == 0
      ensures fresh(colors) && fresh(transforms)
    {
      t, frameCount, ticks := 0.0, 0, 0;
      Wrap32Small(0);
      bbox := EmptyRect;
      colors := new Color[0];
      transforms := new Vec2[0];
      formula := defaultFormula;
      pose, anchor := Identity, Identity;
    }

    /** Replaces the formula; a null formula is an argument error and changes nothing. */
    method SetFormula(f: Option<Formula>) returns (r: Outcome)
      modifies this`formula
      ensures f.None? ==> r == ArgumentNull("formula") && formula == old(formula)
      ensures f.Some? ==> r == Ok && formula == f.value
    {
      if f.None? {
        return ArgumentNull("formula");
      }
      formula := f.value;
      r := Ok;
    }

    /** Creates PointCount instances: the last HighlightCount red, all others white. */
    method Initialize()
      requires Consistent()
      modifies this`colors, this`transforms
      ensures Valid() && fresh(colors) && fresh(transforms)
      ensures forall i :: 0 <= i < PointCount ==> colors[i] == InitialColor(i)
      ensures forall i :: 0 <= i < PointCount ==> transforms[i] == Origin
    {
      var c := new Color[PointCount];
      for i := 0 to PointCount
        invariant forall j :: 0 <= j < i ==> c[j] == InitialColor(j)
      {
        c[i] := if i >= PointCount - HighlightCount then Red else White;
      }
      colors := c;
      transforms := new Vec2[PointCount](_ => Origin);
    }

    /**
     * Colours one instance; an index outside the buffer is ignored, even before
     * Initialize. An index inside it needs the instances Initialize creates.
     */
    method SetColor(index: int, color: Color)
      requires 0 <= index < PointCount ==> colors.Length == PointCount
      modifies colors
      ensures 0 <= index < PointCount ==> colors[..] == old(colors[..])[index := color]
      ensures !(0 <= index < PointCount) ==> colors[..] == old(colors[..])
    {
      if index < 0 || index >= PointCount {
        return;
      }
      colors[index] := color;
    }

    /** One animation step: delta is not used. */
    method Advance(delta: real)
      requires Valid()
      modifies this`t, this`frameCount, this`ticks, this`bbox, transforms
      ensures Valid()
      ensures t == old(t) + InternalAdvance
      ensures frameCount == Inc32(old(frameCount)) && ticks == old(ticks) + 1
      ensures Frame(transforms[..], bbox) == FrameAt(formula, t, frameCount)
      ensures colors == old(colors) && colors[..] == old(colors[..])
    {
      CountersStep(t, frameCount, ticks);
      t := t + InternalAdvance;
      frameCount := Inc32(frameCount);
      ticks := ticks + 1;
      UpdateCloudParticles();
    }

    /** Copies a pose to the multimesh instance; the particle data is not touched. */
    method ApplyTransform(pos: Vec2, rot: real)
      requires Valid()
      modifies this`anchor
      ensures anchor == Pose(pos, rot)
      ensures transforms[..] == old(transforms[..]) && bbox == old(bbox) && colors[..] == old(colors[..])
    {
      anchor := Pose(pos, rot);
    }

    /** The last trimmed box: non-negative in size and centred on the cloud's origin. */
    function BBoxLocal99(): (r: Rect)
      reads this
      requires Consistent()
      ensures Centred(r)
      ensures r == bbox
    {
      bbox
    }

    /** Recomputes every transform and the box from the formula at the current t and frameCount. */
    method UpdateCloudParticles()
      requires transforms.Length == PointCount
      modifies this`bbox, transforms
      ensures Frame(transforms[..], bbox) == FrameAt(formula, t, frameCount)
      ensures Centred(bbox)
    {
      var local, xs, ys := EvalLocals(formula, t, frameCount);
      ghost var ps := local[..];

      var minX, maxX, minY, maxY := SortedRanks(ps, xs, ys);
      var b := Bounds(minX, maxX, minY, maxY);

      var localCenter := Centre(b);
      RecentreInto(transforms, local, localCenter, ps);

      bbox := Rect(Vec2(minX - localCenter.x, minY - localCenter.y), Vec2(maxX - minX, maxY - minY));
      FrameFromParts(ps, b, transforms[..], bbox);
    }
  }
}
