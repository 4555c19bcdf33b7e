/**
 * The idle state (IdleState.cs): on Enter it recolours the cloud's reserved
 * trailing particles lime and logs, on Exit it only logs, and on every Tick it
 * steers the cloud, copies the cloud's pose to the multimesh and advances the
 * particle animation, in that order.
 *
 * The move strategy is an opaque pose update. The target it steers toward is
 * read through a callback in the source; here the driver passes it to Tick.
 */
module Idle {
  import opened Geometry
  import opened Cloud

  /** One step of the move strategy: the host's pose, the target and the frame delta give the new pose. */
  type MoveStep = (Pose, Vec2, real) -> Pose

  /** First index of the reserved trailing particles. */
  const HighlightStart: int := PointCount - HighlightCount

  /**
   * The colours after the highlight loop has run for the indices
   * HighlightStart .. i - 1: one SetColor(j, Lime) per index, in order.
   */
  function Painted(cs: seq<Color>, i: int): (r: seq<Color>)
    requires |cs| == PointCount && HighlightStart <= i <= PointCount
    ensures |r| == PointCount
    decreases i
  {
    if i == HighlightStart then cs else Painted(cs, i - 1)[i - 1 := Lime]
  }

  /** The colours after the whole highlight loop. */
  function Highlighted(cs: seq<Color>): (r: seq<Color>)
    requires |cs| == PointCount
    ensures |r| == PointCount
  {
    Painted(cs, PointCount)
  }

  /** Part way through the loop, exactly the indices already visited are lime. */
  lemma {:induction false} PaintedAt(cs: seq<Color>, i: int, k: int)
    requires |cs| == PointCount && HighlightStart <= i <= PointCount && 0 <= k < PointCount
    ensures Painted(cs, i)[k] == if HighlightStart <= k < i then Lime else cs[k]
    decreases i
  {
    if i > HighlightStart {
      PaintedAt(cs, i - 1, k);
    }
  }

  /** After the loop, the reserved trailing particles are lime and every other colour is unchanged. */
  lemma HighlightedAt(cs: seq<Color>, k: int)
    requires |cs| == PointCount && 0 <= k < PointCount
    ensures Highlighted(cs)[k] == if k >= HighlightStart then Lime else cs[k]
  {
    PaintedAt(cs, PointCount, k);
  }

  /** Entering twice colours the cloud as entering once does. */
  lemma HighlightedIdempotent(cs: seq<Color>)
    requires |cs| == PointCount
    ensures Highlighted(Highlighted(cs)) == Highlighted(cs)
  {
    forall k | 0 <= k < PointCount
      ensures Highlighted(Highlighted(cs))[k] == Highlighted(cs)[k]
    {
      HighlightedAt(cs, k);
      HighlightedAt(Highlighted(cs), k);
    }
  }

  /** On a freshly initialized cloud, Enter turns the red trailing particles lime and leaves the rest white. */
  lemma HighlightedInitial(cs: seq<Color>, k: int)
    requires |cs| == PointCount && 0 <= k < PointCount
    requires forall j :: 0 <= j < PointCount ==> cs[j] == InitialColor(j)
    ensures Highlighted(cs)[k] == if k >= HighlightStart then Lime else White
  {
    HighlightedAt(cs, k);
  }

  class IdleState {
    /** The particle cloud this state drives. */
    const cloud: ParticleCloud
    /** The move strategy, steering the cloud's own pose. */
    const move: MoveStep
    /** Lines this state prints, oldest first. */
    var log: seq<string>

    constructor (cloud: ParticleCloud, move: MoveStep)
      ensures this.cloud == cloud && this.move == move && log == []
    {
      this.cloud := cloud;
      this.move := move;
      log := [];
    }

    /** Recolours the reserved trailing particles lime, then logs. */
    method Enter()
      requires cloud.Valid()
      modifies cloud.colors, this`log
      ensures cloud.colors[..] == Highlighted(old(cloud.colors[..]))
      ensures log == old(log) + ["Enter Idle"]
    {
      ghost var cs := cloud.colors[..];
      for i := HighlightStart to PointCount
        invariant cloud.colors[..] == Painted(cs, i)
        invariant log == old(log)
      {
        cloud.SetColor(i, Lime);
      }
      log := log + ["Enter Idle"];
    }

    /** Only logs. */
    method Exit()
      modifies this`log
      ensures log == old(log) + ["Exit Idle"]
    {
      log := log + ["Exit Idle"];
    }

    /**
     * One frame: the move strategy updates the cloud's pose, the pose is copied
     * to the multimesh, then the cloud advances by one animation step.
     */
    method Tick(delta: real, target: Vec2)
      requires cloud.Valid()
      modifies cloud`pose, cloud`anchor, cloud`t, cloud`frameCount, cloud`ticks, cloud`bbox, cloud.transforms
      ensures cloud.Valid()
      ensures cloud.pose == move(old(cloud.pose), target, delta)
      ensures cloud.anchor == cloud.pose
      ensures cloud.t == old(cloud.t) + InternalAdvance
      ensures cloud.frameCount == Inc32(old(cloud.frameCount))
      ensures cloud.colors[..] == old(cloud.colors[..])
      ensures Frame(cloud.transforms[..], cloud.bbox) == FrameAt(cloud.formula, cloud.t, cloud.frameCount)
      ensures log == old(log)
    {
      cloud.pose := move(cloud.pose, target, delta);
      cloud.ApplyTransform(cloud.pose.pos, cloud.pose.rot);
      cloud.Advance(delta);
    }
  }
}
