/**
 * Plane geometry used by the particle cloud: the engine's Vector2, Rect2 and
 * Node2D pose, over unbounded reals instead of single-precision floats.
 */
module Geometry {

  /** A 2D vector (Godot's Vector2). */
  datatype Vec2 = Vec2(x: real, y: real) {

    function Minus(o: Vec2): Vec2 {
      Vec2(x - o.x, y - o.y)
    }

  }

  const Origin: Vec2 := Vec2(0.0, 0.0)

  /** An axis-aligned rectangle given by its corner and its size (Godot's Rect2). */
  datatype Rect = Rect(pos: Vec2, size: Vec2) {

    /** Rect2.GetCenter: the corner plus half the size. */
    function Centre(): Vec2 {
      Vec2(pos.x + size.x * 0.5, pos.y + size.y * 0.5)
    }
  }

  /** Rect2's parameterless constructor: everything zero. */
  const EmptyRect: Rect := Rect(Origin, Origin)

  /** Position and rotation (radians) of a 2D node. */
  datatype Pose = Pose(pos: Vec2, rot: real)

  const Identity: Pose := Pose(Origin, 0.0)
}
