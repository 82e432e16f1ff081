/** Values shared by the snapshot pipeline and the simulation-side components:
    Java's nullable references as Option, an escaping Java exception as Try,
    2-D vectors, RGBA colours, and the read-only view of a scene object that the
    recorder, the broadcaster, combat and the game rules take of it. */
module Common {

  /** A Java reference that may be null. */
  datatype Option<T> = None | Some(value: T)

  /** The outcome of a Java computation that may throw: a value, or an exception escaping. */
  datatype Try<T> = Ok(value: T) | Thrown

  datatype Vec2 = Vec2(x: real, y: real)

  datatype Rgba = Rgba(r: real, g: real, b: real, a: real)

  /** The default colour of a parsed entity (opaque white). */
  const White: Rgba := Rgba(1.0, 1.0, 1.0, 1.0)

  datatype RenderType = Rectangle | Circle

  datatype Team = Friendly | Enemy

  /** Pixels per grid cell, for converting ranges measured in cells. */
  const CellPixels: real := 80.0

  function Max(a: real, b: real): (r: real)
    ensures r >= a && r >= b && (r == a || r == b)
  {
    if a >= b then a else b
  }

  function Min(a: real, b: real): (r: real)
    ensures r <= a && r <= b && (r == a || r == b)
  {
    if a <= b then a else b
  }

  /** Java's `(int)` cast of a float: truncation toward zero. */
  function TruncToInt(x: real): (r: int)
    ensures x >= 0.0 ==> 0 <= r && r as real <= x < r as real + 1.0
    ensures x < 0.0 ==> r <= 0 && r as real - 1.0 < x <= r as real
  {
    if x >= 0.0 then x.Floor else -((-x).Floor)
  }

  /** Java's `%` on int: the remainder takes the sign of the dividend. */
  function JavaRem(a: int, b: int): (r: int)
    requires b != 0
    ensures a >= 0 && b > 0 ==> 0 <= r < b && r == a % b
    ensures -(if b > 0 then b else -b) < r < (if b > 0 then b else -b)
  {
    if a >= 0 then a % b else -((-a) % b)
  }

  /** The smallest span the interpolating samplers divide by. */
  const MinSpan: real := 0.000001

  /** The blend factor of the two interpolating samplers:
      `clamp((target - ta) / max(1e-6, tb - ta), 0, 1)`. */
  function BlendFactor(ta: real, tb: real, target: real): (u: real)
    ensures 0.0 <= u <= 1.0
    ensures target <= ta ==> u == 0.0
    ensures tb - ta >= MinSpan && target >= tb ==> u == 1.0
    ensures tb - ta >= MinSpan && ta <= target <= tb ==> u * (tb - ta) == target - ta
  {
    var span := Max(MinSpan, tb - ta);
    var q := (target - ta) / span;
    assert target <= ta ==> q <= 0.0 by {
      if target <= ta { DivSign(target - ta, span); }
    }
    assert span == tb - ta && target >= tb ==> q >= 1.0 by {
      if span == tb - ta && target >= tb { DivAtLeastOne(target - ta, span); }
    }
    Max(0.0, Min(1.0, q))
  }

  lemma DivAtLeastOne(n: real, d: real)
    requires d > 0.0 && n >= d
    ensures n / d >= 1.0
  {
    var q := n / d;
    assert q * d == n;
  }

  lemma DivSign(n: real, d: real)
    requires n <= 0.0 && d > 0.0
    ensures n / d <= 0.0
  {
  }

  /** `(1 - u) * a + u * b` */
  function Lerp(a: real, b: real, u: real): real
  {
    (1.0 - u) * a + u * b
  }

  /** Interpolation starts at `a`, ends at `b` and stays between them. */
  lemma LerpWithin(a: real, b: real, u: real)
    ensures u == 0.0 ==> Lerp(a, b, u) == a
    ensures u == 1.0 ==> Lerp(a, b, u) == b
    ensures 0.0 <= u <= 1.0 ==> Min(a, b) <= Lerp(a, b, u) <= Max(a, b)
  {
    var d := b - a;
    assert (1.0 - u) * a == a - u * a;
    assert u * d == u * b - u * a;
    assert Lerp(a, b, u) == a + u * d;
    if 0.0 <= u <= 1.0 {
      ScaleWithin(u, d);
    }
  }

  lemma ScaleWithin(u: real, d: real)
    requires 0.0 <= u <= 1.0
    ensures d >= 0.0 ==> 0.0 <= u * d <= d
    ensures d <= 0.0 ==> d <= u * d <= 0.0
  {
  }

  /** Decimal digits of a natural number, most significant first. */
  function DigitsOf(n: nat): (s: string)
    ensures |s| > 0 && forall k :: 0 <= k < |s| ==> '0' <= s[k] <= '9'
  {
    if n < 10 then [(('0' as int) + n) as char]
    else DigitsOf(n / 10) + [(('0' as int) + n % 10) as char]
  }

  /** Java's `Long.toString` / string concatenation of an integer. */
  function IntToString(n: int): (s: string)
    ensures |s| > 0
    ensures forall k :: 0 <= k < |s| ==> s[k] == '-' || '0' <= s[k] <= '9'
  {
    if n < 0 then "-" + DigitsOf(-n) else DigitsOf(n)
  }

  /** The text of a `StringBuilder` after appending `parts` in order. */
  function Concat(parts: seq<string>): string
  {
    if parts == [] then "" else parts[0] + Concat(parts[1..])
  }

  /** What the render component of a scene object holds. */
  datatype RenderView = RenderView(shape: RenderType, size: Vec2, color: Rgba)

  /** What the health component of a scene object holds. */
  datatype HealthView = HealthView(current: real, dead: bool)
  {
    /** HealthComponent.isAlive */
    predicate Alive() { !dead && current > 0.0 }
  }

  /** A scene object as the services read it: `oid` is its object identity
      (Java reference equality), `name` and `instanceId` form its wire id, and
      each component is present or absent. */
  datatype GameObj = GameObj(
    oid: nat,
    name: string,
    instanceId: int,
    active: bool,
    transform: Option<Vec2>,
    render: Option<RenderView>,
    team: Option<Team>,
    health: Option<HealthView>)
  {
    /** The objects that the recorder and the broadcaster serialize. */
    predicate Visible() { active && transform.Some? }

    /** `getName() + "#" + getInstanceId()`, the id written on the wire and in recordings. */
    function WireId(): string { name + "#" + IntToString(instanceId) }
  }

  /** The objects the recorder and the broadcaster serialize: the active ones
      with a transform, in list order. */
  function VisibleObjects(objs: seq<GameObj>): (r: seq<GameObj>)
    ensures |r| <= |objs|
    ensures forall k :: 0 <= k < |r| ==> r[k].Visible()
  {
    if objs == [] then []
    else
      var o := objs[|objs| - 1];
      VisibleObjects(objs[..|objs| - 1]) + (if o.Visible() then [o] else [])
  }

  /** An object is kept iff it is in the list and visible. */
  lemma {:induction false} VisibleObjectsMembers(objs: seq<GameObj>)
    ensures forall o :: o in VisibleObjects(objs) <==> o in objs && o.Visible()
  {
    if objs != [] {
      var init := objs[..|objs| - 1];
      VisibleObjectsMembers(init);
      assert objs == init + [objs[|objs| - 1]];
    }
  }

  /** Nothing is kept iff no object is visible. */
  lemma VisibleObjectsEmpty(objs: seq<GameObj>)
    ensures VisibleObjects(objs) == [] <==> forall k :: 0 <= k < |objs| ==> !objs[k].Visible()
  {
    VisibleObjectsMembers(objs);
    if VisibleObjects(objs) != [] {
      var o := VisibleObjects(objs)[0];
      assert o in VisibleObjects(objs);
    } else {
      forall k | 0 <= k < |objs|
        ensures !objs[k].Visible()
      {
        assert objs[k] in objs;
      }
    }
  }
}
