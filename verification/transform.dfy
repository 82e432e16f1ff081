/** The transform component: position, scale and rotation, plus a smooth
    movement toward a target position at a fixed speed. While not moving, the
    position is the target. Vector length and normalisation (a square root)
    are parameters: `magnitude` and `normalize`. */
module TransformComponent {
  import opened Common

  /** Pixels per second of the smooth movement. */
  const MoveSpeed: real := 400.0

  function Add(a: Vec2, b: Vec2): Vec2 { Vec2(a.x + b.x, a.y + b.y) }
  function Sub(a: Vec2, b: Vec2): Vec2 { Vec2(a.x - b.x, a.y - b.y) }
  function Times(v: Vec2, k: real): Vec2 { Vec2(v.x * k, v.y * k) }

  /** What the fields of a transform hold. */
  datatype TransformState = TransformState(position: Vec2, target: Vec2, moving: bool, scale: Vec2, rotation: real)
  {
    /** At rest the position is the target. */
    predicate Settled() { !moving ==> position == target }
  }

  /** `setPosition` and `teleportTo`: position and target become `p`, and any
      movement stops. */
  function Placed(s: TransformState, p: Vec2): (r: TransformState)
    ensures r.Settled() && !r.moving && r.position == p
    ensures r.scale == s.scale && r.rotation == s.rotation
  {
    s.(position := p, target := p, moving := false)
  }

  /** `moveTo`: a new target and movement under way; the position stays. */
  function Headed(s: TransformState, p: Vec2): (r: TransformState)
    ensures r.Settled() && r.moving && r.target == p && r.position == s.position
    ensures r.scale == s.scale && r.rotation == s.rotation
  {
    s.(target := p, moving := true)
  }

  /** `translate`: the position moves by `d` and the target follows it, so a
      movement under way ends where it is; whether it is moving is unchanged. */
  function Translated(s: TransformState, d: Vec2): (r: TransformState)
    ensures r.Settled() && r.position == Add(s.position, d) && r.target == r.position && r.moving == s.moving
    ensures r.scale == s.scale && r.rotation == s.rotation
  {
    var p := Add(s.position, d);
    s.(position := p, target := p)
  }

  /** `scale`: componentwise multiplication of the scale. */
  function Scaled(s: TransformState, f: Vec2): (r: TransformState)
    ensures r.scale == Vec2(s.scale.x * f.x, s.scale.y * f.y)
    ensures r.position == s.position && r.target == s.target && r.moving == s.moving && r.rotation == s.rotation
  {
    s.(scale := Vec2(s.scale.x * f.x, s.scale.y * f.y))
  }

  /** One frame of `update`: when under way and less than a pixel away, or when
      this frame's step would overshoot, the position snaps exactly onto the
      target and the movement ends; otherwise the position advances by the step. */
  function Stepped(s: TransformState, deltaTime: real, magnitude: Vec2 -> real, normalize: Vec2 -> Vec2): TransformState
  {
    if !s.moving then s
    else
      var direction := Sub(s.target, s.position);
      var distance := magnitude(direction);
      var velocity := Times(normalize(direction), MoveSpeed * deltaTime);
      if distance < 1.0 || magnitude(velocity) > distance then s.(position := s.target, moving := false)
      else s.(position := Add(s.position, velocity))
  }

  /** A frame at rest changes nothing; a frame under way keeps the target, and
      the movement ends exactly when the position has reached the target: when
      less than a pixel remains, or when this frame's step is longer than what
      remains. Otherwise the position advances by the step and the movement
      goes on. */
  lemma StepSettles(s: TransformState, deltaTime: real, magnitude: Vec2 -> real, normalize: Vec2 -> Vec2)
    requires s.Settled()
    ensures var r := Stepped(s, deltaTime, magnitude, normalize);
            r.Settled() && r.target == s.target && r.scale == s.scale && r.rotation == s.rotation
    ensures !s.moving ==> Stepped(s, deltaTime, magnitude, normalize) == s
    ensures s.moving && magnitude(Sub(s.target, s.position)) < 1.0 ==>
              var r := Stepped(s, deltaTime, magnitude, normalize);
              r.position == s.target && !r.moving
    ensures var remaining := magnitude(Sub(s.target, s.position));
            var step := Times(normalize(Sub(s.target, s.position)), MoveSpeed * deltaTime);
            var r := Stepped(s, deltaTime, magnitude, normalize);
            s.moving && remaining >= 1.0 ==>
              if magnitude(step) > remaining then r.position == s.target && !r.moving
              else r.position == Add(s.position, step) && r.moving
  {
  }

  /** Teleporting twice to the same point is teleporting once, and a smooth
      move interrupted by a teleport ends at the teleport's point. */
  lemma PlacedOverrides(s: TransformState, p: Vec2, q: Vec2)
    ensures Placed(Placed(s, p), p) == Placed(s, p)
    ensures Placed(Headed(s, q), p) == Placed(s, p)
  {
  }

  class TransformComponent {
    var position: Vec2
    var targetPosition: Vec2
    var isMoving: bool
    var scale: Vec2
    var rotation: real

    function State(): TransformState
      reads this
    {
      TransformState(position, targetPosition, isMoving, scale, rotation)
    }

    ghost predicate Valid()
      reads this
    {
      State().Settled()
    }

    /** `new TransformComponent(position)`; the no-argument constructor is the origin. */
    constructor(position: Vec2)
      ensures Valid() && State() == TransformState(position, position, false, Vec2(1.0, 1.0), 0.0)
    {
      this.position := position;
      targetPosition := position;
      isMoving := false;
      scale := Vec2(1.0, 1.0);
      rotation := 0.0;
    }

    constructor WithScale(position: Vec2, scale: Vec2, rotation: real)
      ensures Valid() && State() == TransformState(position, position, false, scale, rotation)
    {
      this.position := position;
      targetPosition := position;
      isMoving := false;
      this.scale := scale;
      this.rotation := rotation;
    }

    method Update(deltaTime: real, magnitude: Vec2 -> real, normalize: Vec2 -> Vec2)
      requires Valid()
      modifies this
      ensures Valid() && State() == Stepped(old(State()), deltaTime, magnitude, normalize)
    {
      StepSettles(State(), deltaTime, magnitude, normalize);
      if isMoving {
        var direction := Sub(targetPosition, position);
        var distance := magnitude(direction);
        if distance < 1.0 {
          position := targetPosition;
          isMoving := false;
        } else {
          var velocity := Times(normalize(direction), MoveSpeed * deltaTime);
          if magnitude(velocity) > distance {
            position := targetPosition;
            isMoving := false;
          } else {
            position := Add(position, velocity);
          }
        }
      }
    }

    method MoveTo(p: Vec2)
      requires Valid()
      modifies this
      ensures Valid() && State() == Headed(old(State()), p)
    {
      targetPosition := p;
      isMoving := true;
    }

    method TeleportTo(p: Vec2)
      requires Valid()
      modifies this
      ensures Valid() && State() == Placed(old(State()), p)
    {
      position := p;
      targetPosition := p;
      isMoving := false;
    }

    method SetPosition(p: Vec2)
      requires Valid()
      modifies this
      ensures Valid() && State() == Placed(old(State()), p)
    {
      position := p;
      targetPosition := p;
      isMoving := false;
    }

    method Translate(d: Vec2)
      requires Valid()
      modifies this
      ensures Valid() && State() == Translated(old(State()), d)
    {
      position := Add(position, d);
      targetPosition := position;
    }

    method Scale(f: Vec2)
      requires Valid()
      modifies this
      ensures Valid() && State() == Scaled(old(State()), f)
    {
      scale := Vec2(scale.x * f.x, scale.y * f.y);
    }

    method Rotate(angle: real)
      requires Valid()
      modifies this
      ensures Valid() && State() == old(State()).(rotation := old(rotation) + angle)
    {
      rotation := rotation + angle;
    }
  }
}
