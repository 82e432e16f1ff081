/** The client-side interpolation buffer: keyframes parsed from wire lines,
    kept in arrival order and evicted by age, and sampled at a target time a
    little in the past by blending the two bracketing keyframes. */
module NetworkBuffer {
  import opened Common
  import opened RecordingJson

  const MaxAgeSec: real := 2.0
  const InterpDelaySec: real := 0.12
  const DefaultState: string := "PLAYING"

  /** The marker that makes a wire line a keyframe. */
  const KeyframeTag: string := "\"type\":\"kf\""
  const EntitiesTag: string := "\"entities\":["

  /** `NetworkBuffer.Entity`: a null `id` is possible when a record has none. */
  datatype Entity = Entity(id: Option<string>, x: real, y: real, color: Rgba)

  /** `NetworkBuffer.Keyframe` */
  datatype Keyframe = Keyframe(t: real, state: string, entities: seq<Entity>)

  // ---------------------------------------------------------------------------
  // parseJsonLine
  // ---------------------------------------------------------------------------

  /** The four colour components, each of which must parse; `num` is the float
      parser (None where it throws). */
  function ParseRgba(parts: seq<string>, num: string -> Option<real>): (r: Try<Rgba>)
    requires |parts| >= 4
    ensures r.Ok? <==> forall k :: 0 <= k < 4 ==> num(Trim(parts[k])).Some?
    ensures r.Ok? ==> r.value == Rgba(num(Trim(parts[0])).value, num(Trim(parts[1])).value,
                                      num(Trim(parts[2])).value, num(Trim(parts[3])).value)
  {
    var r, g, b, a := num(Trim(parts[0])), num(Trim(parts[1])), num(Trim(parts[2])), num(Trim(parts[3]));
    if r.Some? && g.Some? && b.Some? && a.Some? then Ok(Rgba(r.value, g.value, b.value, a.value))
    else Thrown
  }

  /** The comma-separated components inside a colour array's brackets. */
  function ColorParts(c: string): seq<string>
    requires |c| >= 2
  {
    SplitOnComma(c[1..|c| - 1])
  }

  /** The colour of an entity record: kept white unless the value is an array with
      at least four comma-separated components, each of which must parse. A lone
      "[" makes `substring(1, 0)` throw. */
  function ParseColor(colorStr: Option<string>, num: string -> Option<real>): (r: Try<Rgba>)
    ensures colorStr.None? ==> r == Ok(White)
    ensures colorStr.Some? && (colorStr.value == [] || colorStr.value[0] != '[') ==> r == Ok(White)
    ensures colorStr == Some("[") ==> r == Thrown
    ensures colorStr.Some? && |colorStr.value| >= 2 && colorStr.value[0] == '[' ==>
              (|ColorParts(colorStr.value)| < 4 ==> r == Ok(White))
              && (|ColorParts(colorStr.value)| >= 4 ==> r == ParseRgba(ColorParts(colorStr.value), num))
  {
    match colorStr
    case None => Ok(White)
    case Some(c) =>
      if c == [] || c[0] != '[' then Ok(White)
      else if |c| < 2 then Thrown
      else
        var parts := ColorParts(c);
        if |parts| < 4 then Ok(White) else ParseRgba(parts, num)
  }

  /** One entity record: its id with quotes stripped, x and y read leniently, and
      the colour. Stripping a lone `"` id or a bad colour component throws. */
  function ParseEntity(p: string, num: string -> Option<real>): (r: Try<Entity>)
    ensures r.Ok? <==> StripQuotes(Field(p, "id")).Ok? && ParseColor(Field(p, "color"), num).Ok?
    ensures r.Ok? ==> r.value.id == StripQuotes(Field(p, "id")).value
                      && r.value.x == ParseDouble(Field(p, "x"), num)
                      && r.value.y == ParseDouble(Field(p, "y"), num)
                      && r.value.color == ParseColor(Field(p, "color"), num).value
  {
    match StripQuotes(Field(p, "id"))
    case Thrown => Thrown
    case Ok(id) =>
      var x := ParseDouble(Field(p, "x"), num);
      var y := ParseDouble(Field(p, "y"), num);
      match ParseColor(Field(p, "color"), num)
      case Thrown => Thrown
      case Ok(color) => Ok(Entity(id, x, y, color))
  }

  /** The entities added before the first record whose parse throws: the exception
      ends the loop, and what was added so far stays in the keyframe. */
  function ParseEntities(parts: seq<string>, num: string -> Option<real>): (r: seq<Entity>)
    ensures |r| <= |parts|
    ensures forall k :: 0 <= k < |r| ==> ParseEntity(parts[k], num) == Ok(r[k])
    ensures |r| < |parts| ==> ParseEntity(parts[|r|], num) == Thrown
  {
    if parts == [] then []
    else match ParseEntity(parts[0], num)
      case Thrown => []
      case Ok(e) => [e] + ParseEntities(parts[1..], num)
  }

  /** The entity records of a line: the top-level pieces of the array that follows
      `"entities":[`, or none when that tag is missing. */
  function EntityParts(line: string): (r: seq<string>)
    ensures IndexOf(line, EntitiesTag, 0) < 0 ==> r == []
    ensures forall k :: 0 <= k < |r| ==> r[k] != "" && IsTrimmed(r[k])
  {
    var idx := IndexOf(line, EntitiesTag, 0);
    if idx < 0 then []
    else
      var bracket := IndexOf(line, "[", idx);
      var arr := if bracket >= 0 then ExtractArray(line, bracket) else "";
      SplitTopLevel(arr)
  }

  /** `NetworkBuffer.parseJsonLine`: None unless the line carries the keyframe tag;
      otherwise a keyframe, partially filled when a parse step throws. */
  function ParseJsonLine(line: string, num: string -> Option<real>): (r: Option<Keyframe>)
    ensures r.None? <==> !Contains(line, KeyframeTag)
    ensures r.Some? ==> r.value.t == ParseDouble(Field(line, "t"), num)
    ensures r.Some? && Field(line, "state").None? ==> r.value.state == DefaultState
    ensures r.Some? && StripQuotes(Field(line, "state")).Ok? ==>
              r.value.entities == ParseEntities(EntityParts(line), num)
    ensures r.Some? && StripQuotes(Field(line, "state")).Ok? && Field(line, "state").Some? ==>
              r.value.state == StripQuotes(Field(line, "state")).value.value
    ensures r.Some? && StripQuotes(Field(line, "state")).Thrown? ==>
              r.value.state == DefaultState && r.value.entities == []
  {
    if !Contains(line, KeyframeTag) then None
    else
      var t := ParseDouble(Field(line, "t"), num);
      match StripQuotes(Field(line, "state"))
      case Thrown => Some(Keyframe(t, DefaultState, []))
      case Ok(st) =>
        var state := if st.Some? then st.value else DefaultState;
        Some(Keyframe(t, state, ParseEntities(EntityParts(line), num)))
  }

  // ---------------------------------------------------------------------------
  // push: append, then evict stale keyframes from the front
  // ---------------------------------------------------------------------------

  /** What remains of `q` after dropping every front keyframe older than
      `MaxAgeSec` relative to `now`, stopping at the first that is not. */
  function DropStale(q: seq<Keyframe>, now: real): (r: seq<Keyframe>)
    ensures |r| <= |q| && r == q[|q| - |r|..]
  {
    if q != [] && now - q[0].t > MaxAgeSec then DropStale(q[1..], now) else q
  }

  /** Exactly the stale front is dropped: every dropped keyframe is stale, the new
      front is not, and a fresh last keyframe survives. */
  lemma {:induction false} DropStaleSpec(q: seq<Keyframe>, now: real)
    ensures var r := DropStale(q, now);
            (forall k :: 0 <= k < |q| - |r| ==> now - q[k].t > MaxAgeSec)
            && (r != [] ==> now - r[0].t <= MaxAgeSec)
            && (q != [] && now - q[|q| - 1].t <= MaxAgeSec ==> r != [] && r[|r| - 1] == q[|q| - 1])
  {
    if q != [] && now - q[0].t > MaxAgeSec {
      var q' := q[1..];
      DropStaleSpec(q', now);
      var r := DropStale(q', now);
      assert DropStale(q, now) == r;
      forall k | 0 <= k < |q| - |r|
        ensures now - q[k].t > MaxAgeSec
      {
        if k > 0 {
          assert q[k] == q'[k - 1];
        }
      }
      if now - q[|q| - 1].t <= MaxAgeSec {
        assert q'[|q'| - 1] == q[|q| - 1];
      }
    }
  }

  /** Keyframe times never decrease along `q`. */
  predicate TimeOrdered(q: seq<Keyframe>)
  {
    forall i, j :: 0 <= i < j < |q| ==> q[i].t <= q[j].t
  }

  /** A time-ordered sequence stays time-ordered when stale keyframes are dropped,
      and its later entries are no older than its first. */
  lemma {:induction false} DropStaleOrdered(q: seq<Keyframe>, now: real)
    requires TimeOrdered(q)
    ensures TimeOrdered(DropStale(q, now))
    ensures forall k :: 0 <= k < |DropStale(q, now)| ==> DropStale(q, now)[0].t <= DropStale(q, now)[k].t
  {
    if q != [] && now - q[0].t > MaxAgeSec {
      var q' := q[1..];
      forall i, j | 0 <= i < j < |q'|
        ensures q'[i].t <= q'[j].t
      {
        assert q'[i] == q[i + 1] && q'[j] == q[j + 1];
      }
      DropStaleOrdered(q', now);
    } else {
      assert DropStale(q, now) == q;
    }
  }

  /** When keyframes arrive in time order, every entry kept after a push is within
      `MaxAgeSec` of the pushed one, and the buffer stays in time order. */
  lemma PushBoundsAge(q: seq<Keyframe>, kf: Keyframe)
    requires TimeOrdered(q + [kf])
    ensures var r := DropStale(q + [kf], kf.t);
            TimeOrdered(r) && forall k :: 0 <= k < |r| ==> kf.t - r[k].t <= MaxAgeSec
  {
    DropStaleOrdered(q + [kf], kf.t);
    DropStaleSpec(q + [kf], kf.t);
  }

  // ---------------------------------------------------------------------------
  // Bracketing and blending
  // ---------------------------------------------------------------------------

  /** The index of the first keyframe later than `target`, or |q| when none is. */
  function FirstLater(q: seq<Keyframe>, target: real): (f: nat)
    ensures f <= |q|
    ensures forall k :: 0 <= k < f ==> q[k].t <= target
    ensures f < |q| ==> q[f].t > target
  {
    if q == [] then 0 else if q[0].t <= target then 1 + FirstLater(q[1..], target) else 0
  }

  /** The bracketing pair (a, b) of the sampling scan: `a` is the last keyframe of
      the leading run with `t <= target` (the first keyframe if there is none) and
      `b` the first keyframe with `t > target` (the last keyframe if there is none). */
  function BracketOf(q: seq<Keyframe>, target: real): (r: (nat, nat))
    requires q != []
    ensures r.0 <= r.1 < |q|
    ensures q[0].t > target ==> r == (0, 0)
    ensures (forall k :: 0 <= k < |q| ==> q[k].t <= target) ==> r == (|q| - 1, |q| - 1)
    ensures r.0 < r.1 ==> r.1 == r.0 + 1 && q[r.0].t <= target < q[r.1].t
    ensures r.0 == r.1 ==> r == (0, 0) || r == (|q| - 1, |q| - 1)
    ensures q[0].t <= target ==> forall k :: 0 <= k <= r.0 ==> q[k].t <= target
    ensures q[0].t <= target && (exists k :: 0 <= k < |q| && q[k].t > target) ==>
              r.1 == r.0 + 1 && q[r.1].t > target && forall k :: 0 <= k < r.1 ==> q[k].t <= target
  {
    var f := FirstLater(q, target);
    if f == 0 then (0, 0)
    else if f == |q| then (|q| - 1, |q| - 1)
    else (f - 1, f)
  }

  /** In a time-ordered buffer whose range covers `target`, the bracket encloses it. */
  lemma BracketEncloses(q: seq<Keyframe>, target: real)
    requires q != [] && TimeOrdered(q)
    requires q[0].t <= target < q[|q| - 1].t
    ensures var (a, b) := BracketOf(q, target); q[a].t <= target < q[b].t
  {
  }

  /** The blend of one entity pair: position interpolated, id and colour from `a`. */
  function Blend(ea: Entity, eb: Entity, u: real): Entity
  {
    Entity(ea.id, Lerp(ea.x, eb.x, u), Lerp(ea.y, eb.y, u), ea.color)
  }

  /** The map built by `sample` from the first `n` index-paired entities: ids come
      from `a`, entries with a null `a`-side id are skipped, a later index with the
      same id overwrites an earlier one. */
  function SampledPositions(ea: seq<Entity>, eb: seq<Entity>, u: real, n: nat): map<string, Vec2>
    requires n <= |ea| && n <= |eb|
  {
    if n == 0 then map[]
    else
      var m := SampledPositions(ea, eb, u, n - 1);
      var e := Blend(ea[n - 1], eb[n - 1], u);
      if ea[n - 1].id.Some? then m[ea[n - 1].id.value := Vec2(e.x, e.y)] else m
  }

  /** The keys are exactly the non-null `a`-side ids. */
  lemma {:induction false} SampledPositionsKeys(ea: seq<Entity>, eb: seq<Entity>, u: real, n: nat)
    requires n <= |ea| && n <= |eb|
    ensures forall i :: 0 <= i < n && ea[i].id.Some? ==> ea[i].id.value in SampledPositions(ea, eb, u, n)
    ensures forall id :: id in SampledPositions(ea, eb, u, n) ==> exists i :: 0 <= i < n && ea[i].id == Some(id)
  {
    if n > 0 {
      SampledPositionsKeys(ea, eb, u, n - 1);
      var m := SampledPositions(ea, eb, u, n - 1);
      var r := SampledPositions(ea, eb, u, n);
      forall i | 0 <= i < n && ea[i].id.Some?
        ensures ea[i].id.value in r
      {
        if i < n - 1 {
          assert ea[i].id.value in m;
        }
      }
      forall id | id in r
        ensures exists i :: 0 <= i < n && ea[i].id == Some(id)
      {
        if ea[n - 1].id == Some(id) {
          assert 0 <= n - 1 < n;
        } else {
          assert id in m;
          var i :| 0 <= i < n - 1 && ea[i].id == Some(id);
          assert 0 <= i < n;
        }
      }
    }
  }

  /** The value of an id is the blend of the pair at its last index. */
  lemma {:induction false} SampledPositionsValue(ea: seq<Entity>, eb: seq<Entity>, u: real, n: nat, i: nat)
    requires n <= |ea| && n <= |eb|
    requires i < n && ea[i].id.Some? && forall j :: i < j < n ==> ea[j].id != ea[i].id
    ensures ea[i].id.value in SampledPositions(ea, eb, u, n)
    ensures SampledPositions(ea, eb, u, n)[ea[i].id.value] == Vec2(Blend(ea[i], eb[i], u).x, Blend(ea[i], eb[i], u).y)
  {
    if i < n - 1 {
      SampledPositionsValue(ea, eb, u, n - 1, i);
    }
  }

  /** The entity list built by `sampleKeyframe` from the first `n` index-paired
      entities, skipping those with a null `a`-side id. */
  function SampledEntities(ea: seq<Entity>, eb: seq<Entity>, u: real, n: nat): (r: seq<Entity>)
    requires n <= |ea| && n <= |eb|
    ensures |r| <= n
    ensures forall k :: 0 <= k < |r| ==> r[k].id.Some?
  {
    if n == 0 then []
    else
      var s := SampledEntities(ea, eb, u, n - 1);
      if ea[n - 1].id.Some? then s + [Blend(ea[n - 1], eb[n - 1], u)] else s
  }

  /** `e` is the blend of the entities at some index below `n` whose `a`-side id is not null. */
  ghost predicate BlendOfPair(e: Entity, ea: seq<Entity>, eb: seq<Entity>, u: real, n: nat)
    requires n <= |ea| && n <= |eb|
  {
    exists i :: 0 <= i < n && ea[i].id.Some? && e == Blend(ea[i], eb[i], u)
  }

  /** Every sampled entity is the blend of an index pair with a non-null `a`-side
      id, and every such pair is sampled. */
  lemma {:induction false} SampledEntitiesContents(ea: seq<Entity>, eb: seq<Entity>, u: real, n: nat)
    requires n <= |ea| && n <= |eb|
    ensures forall k :: 0 <= k < |SampledEntities(ea, eb, u, n)| ==> BlendOfPair(SampledEntities(ea, eb, u, n)[k], ea, eb, u, n)
    ensures forall i :: 0 <= i < n && ea[i].id.Some? ==> Blend(ea[i], eb[i], u) in SampledEntities(ea, eb, u, n)
  {
    if n > 0 {
      SampledEntitiesContents(ea, eb, u, n - 1);
      var s := SampledEntities(ea, eb, u, n - 1);
      var r := SampledEntities(ea, eb, u, n);
      if ea[n - 1].id.Some? {
        assert r == s + [Blend(ea[n - 1], eb[n - 1], u)];
      } else {
        assert r == s;
      }
      forall k | 0 <= k < |r|
        ensures BlendOfPair(r[k], ea, eb, u, n)
      {
        if k == |s| {
          assert r[k] == Blend(ea[n - 1], eb[n - 1], u);
          assert 0 <= n - 1 < n && ea[n - 1].id.Some?;
        } else {
          assert r[k] == s[k] && BlendOfPair(s[k], ea, eb, u, n - 1);
          var i :| 0 <= i < n - 1 && ea[i].id.Some? && s[k] == Blend(ea[i], eb[i], u);
          assert 0 <= i < n;
        }
      }
      forall i | 0 <= i < n && ea[i].id.Some?
        ensures Blend(ea[i], eb[i], u) in r
      {
        if i < n - 1 {
          assert Blend(ea[i], eb[i], u) in s;
        } else {
          assert r[|r| - 1] == Blend(ea[i], eb[i], u);
        }
      }
    } else {
      assert SampledEntities(ea, eb, u, n) == [];
    }
  }

  /** The non-null ids of an entity list. */
  function Ids(es: seq<Entity>): set<string>
  {
    if es == [] then {}
    else Ids(es[..|es| - 1]) + (if es[|es| - 1].id.Some? then {es[|es| - 1].id.value} else {})
  }

  /** Both samplers report the same ids. */
  lemma {:induction false} SamplersAgreeOnIds(ea: seq<Entity>, eb: seq<Entity>, u: real, n: nat)
    requires n <= |ea| && n <= |eb|
    ensures SampledPositions(ea, eb, u, n).Keys == Ids(SampledEntities(ea, eb, u, n))
  {
    if n > 0 {
      SamplersAgreeOnIds(ea, eb, u, n - 1);
      var s := SampledEntities(ea, eb, u, n - 1);
      if ea[n - 1].id.Some? {
        var s' := s + [Blend(ea[n - 1], eb[n - 1], u)];
        assert s'[..|s'| - 1] == s;
      }
    }
  }

  /** The time a sampler aims at, from a clock reading in milliseconds. */
  function SampleTarget(nowMs: int): (target: real)
    ensures target + InterpDelaySec == nowMs as real / 1000.0
  {
    nowMs as real / 1000.0 - InterpDelaySec
  }

  /** A keyframe time-stamped in milliseconds by a clock at least 3 s past the
      epoch, and no older than `MaxAgeSec`, lies after the seconds-based target of
      the same clock; every such buffer is therefore sampled before its start. */
  lemma MillisecondStampAfterTarget(nowMs: int, stampMs: int)
    requires nowMs >= 3000 && stampMs >= nowMs - 2000
    ensures SampleTarget(nowMs) < stampMs as real
  {
  }

  /** Sampling before the first keyframe holds that keyframe unblended. */
  lemma SampleBeforeStart(q: seq<Keyframe>, target: real)
    requires q != [] && target < q[0].t
    ensures BracketOf(q, target) == (0, 0)
    ensures BlendFactor(q[0].t, q[0].t, target) == 0.0
  {
  }

  /** The worked example: keyframes at 0 and 2 carrying "A" at (0,0) and (20,0)
      sample to (10,0) at target 1, to (0,0) at or before 0, to (20,0) at or after 2. */
  lemma InterpolationExample(target: real)
    ensures var a := Keyframe(0.0, DefaultState, [Entity(Some("A"), 0.0, 0.0, White)]);
            var b := Keyframe(2.0, DefaultState, [Entity(Some("A"), 20.0, 0.0, White)]);
            var q := [a, b];
            var (ia, ib) := BracketOf(q, target);
            var u := BlendFactor(q[ia].t, q[ib].t, target);
            var m := SampledPositions(q[ia].entities, q[ib].entities, u, 1);
            "A" in m
            && (target == 1.0 ==> m["A"] == Vec2(10.0, 0.0))
            && (target <= 0.0 ==> m["A"] == Vec2(0.0, 0.0))
            && (target >= 2.0 ==> m["A"] == Vec2(20.0, 0.0))
  {
    var a := Keyframe(0.0, DefaultState, [Entity(Some("A"), 0.0, 0.0, White)]);
    var b := Keyframe(2.0, DefaultState, [Entity(Some("A"), 20.0, 0.0, White)]);
    var q := [a, b];
    var (ia, ib) := BracketOf(q, target);
    var u := BlendFactor(q[ia].t, q[ib].t, target);
    if target == 1.0 {
      assert (ia, ib) == (0, 1);
      assert u * 2.0 == 1.0;
    }
    if target <= 0.0 {
      assert ia == 0;
    }
    if target >= 2.0 {
      assert (ia, ib) == (1, 1);
    }
  }

  // ---------------------------------------------------------------------------
  // The buffer
  // ---------------------------------------------------------------------------

  /** The process-wide keyframe deque, front = oldest arrival. */
  class Buffer {
    var entries: seq<Keyframe>

    constructor ()
      ensures entries == []
    {
      entries := [];
    }

    /** `NetworkBuffer.push` */
    method Push(kf: Keyframe)
      modifies this
      ensures entries == DropStale(old(entries) + [kf], kf.t)
    {
      entries := entries + [kf];
      ghost var all := entries;
      while entries != [] && kf.t - entries[0].t > MaxAgeSec
        invariant DropStale(entries, kf.t) == DropStale(all, kf.t)
        decreases |entries|
      {
        entries := entries[1..];
      }
    }

    /** The bracketing scan shared by `sample` and `sampleKeyframe`. */
    method Bracket(target: real) returns (ia: nat, ib: nat)
      requires entries != []
      ensures (ia, ib) == BracketOf(entries, target)
    {
      ia, ib := 0, |entries| - 1;
      var k := 0;
      while k < |entries|
        invariant 0 <= k <= |entries|
        invariant forall j :: 0 <= j < k ==> entries[j].t <= target
        invariant ia == (if k == 0 then 0 else k - 1) && ib == |entries| - 1
      {
        if entries[k].t <= target {
          ia := k;
        } else {
          ib := k;
          break;
        }
        k := k + 1;
      }
      assert FirstLater(entries, target) == k;
    }

    /** `NetworkBuffer.sample` at a given target time: id to blended position. */
    method Sample(target: real) returns (out: map<string, Vec2>)
      ensures entries == [] ==> out == map[]
      ensures entries != [] ==>
        var (ia, ib) := BracketOf(entries, target);
        var a, b := entries[ia], entries[ib];
        var n := if |a.entities| <= |b.entities| then |a.entities| else |b.entities|;
        out == SampledPositions(a.entities, b.entities, BlendFactor(a.t, b.t, target), n)
    {
      out := map[];
      if entries == [] {
        return;
      }
      var ia, ib := Bracket(target);
      var a, b := entries[ia], entries[ib];
      var u := BlendFactor(a.t, b.t, target);
      var n := if |a.entities| <= |b.entities| then |a.entities| else |b.entities|;
      var i := 0;
      while i < n
        invariant 0 <= i <= n
        invariant out == SampledPositions(a.entities, b.entities, u, i)
      {
        var ea, eb := a.entities[i], b.entities[i];
        if ea.id.Some? {
          var x := Lerp(ea.x, eb.x, u);
          var y := Lerp(ea.y, eb.y, u);
          out := out[ea.id.value := Vec2(x, y)];
        }
        i := i + 1;
      }
    }

    /** `NetworkBuffer.sampleKeyframe` at a given target time. The result carries the
        target as its time and keeps the default state: the state of neither
        bracketing keyframe is copied. */
    method SampleKeyframe(target: real) returns (r: Option<Keyframe>)
      ensures entries == [] <==> r.None?
      ensures r.Some? ==> r.value.t == target && r.value.state == DefaultState
      ensures entries != [] ==>
        var (ia, ib) := BracketOf(entries, target);
        var a, b := entries[ia], entries[ib];
        var n := if |a.entities| <= |b.entities| then |a.entities| else |b.entities|;
        r.value.entities == SampledEntities(a.entities, b.entities, BlendFactor(a.t, b.t, target), n)
    {
      if entries == [] {
        return None;
      }
      var ia, ib := Bracket(target);
      var a, b := entries[ia], entries[ib];
      var u := BlendFactor(a.t, b.t, target);
      var n := if |a.entities| <= |b.entities| then |a.entities| else |b.entities|;
      var out: seq<Entity> := [];
      var i := 0;
      while i < n
        invariant 0 <= i <= n
        invariant out == SampledEntities(a.entities, b.entities, u, i)
      {
        var ea, eb := a.entities[i], b.entities[i];
        if ea.id.Some? {
          out := out + [Entity(ea.id, Lerp(ea.x, eb.x, u), Lerp(ea.y, eb.y, u), ea.color)];
        }
        i := i + 1;
      }
      r := Some(Keyframe(target, DefaultState, out));
    }
  }
}
