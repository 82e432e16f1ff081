/** The replay reconstructor: loads a recording into keyframes sorted by time,
    advances a playback cursor clamped to the last keyframe, and reconciles a
    persistent id-to-object map against the two keyframes that bracket the cursor:
    ids in both are interpolated, ids only in the earlier frame hold, ids only in
    the later frame snap, and every other object is deactivated, never deleted.
    Without a recording it is a file picker over the listed recordings. */
module ReplayScene {
  import opened Common
  import opened RecordingJson
  import NetworkBuffer
  import Sorting

  /** The marker that makes a recorded line a keyframe. */
  const KeyframeTag: string := "\"type\":\"keyframe\""

  /** Width and height used when a record's own is not positive. */
  const DefaultSize: real := 30.0

  const KeyEnter: int := 10
  const KeyEscape: int := 27
  const KeySpace: int := 32
  const KeyUp: int := 38
  const KeyDown: int := 40

  /** `ReplayScene.Keyframe.EntityInfo` */
  datatype EntityInfo = EntityInfo(id: Option<string>, pos: Vec2, rt: Option<string>, w: real, h: real, color: Rgba)

  /** `ReplayScene.Keyframe` */
  datatype ReplayKeyframe = ReplayKeyframe(t: real, entities: seq<EntityInfo>)

  /** A reconstructed scene object: its name, the position of its transform, and
      the shape, size and colour of its render component. */
  datatype ReplayObject = ReplayObject(name: string, pos: Vec2, shape: RenderType, size: Vec2, color: Rgba, active: bool)

  /** What an update asks of its caller: nothing, to exit the program, or to load
      the recording at a path and initialize again. */
  datatype Outcome = Continue | Exit | Load(path: string)

  // ---------------------------------------------------------------------------
  // Loading
  // ---------------------------------------------------------------------------

  /** The first `k` colour components all parse. */
  predicate ComponentsParse(cs: seq<string>, num: string -> Option<real>, k: nat)
    requires k <= |cs|
  {
    forall i :: 0 <= i < k ==> num(Trim(cs[i])).Some?
  }

  /** The colour components of a recorded entity, assigned in order until one fails
      to parse: the failure is caught and the components already assigned stay. At
      least three components are needed, the fourth (alpha) is optional. */
  function ColorFromParts(cs: seq<string>, num: string -> Option<real>): (c: Rgba)
    ensures |cs| < 3 ==> c == White
    ensures |cs| >= 3 ==>
      c.r == (if ComponentsParse(cs, num, 1) then num(Trim(cs[0])).value else 1.0)
      && c.g == (if ComponentsParse(cs, num, 2) then num(Trim(cs[1])).value else 1.0)
      && c.b == (if ComponentsParse(cs, num, 3) then num(Trim(cs[2])).value else 1.0)
      && c.a == (if |cs| >= 4 && ComponentsParse(cs, num, 4) then num(Trim(cs[3])).value else 1.0)
  {
    if |cs| < 3 then White
    else
      var r, g, b := num(Trim(cs[0])), num(Trim(cs[1])), num(Trim(cs[2]));
      if r.None? then White
      else if g.None? then White.(r := r.value)
      else if b.None? then Rgba(r.value, g.value, 1.0, 1.0)
      else if |cs| >= 4 && num(Trim(cs[3])).Some? then Rgba(r.value, g.value, b.value, num(Trim(cs[3])).value)
      else Rgba(r.value, g.value, b.value, 1.0)
  }

  /** The colour of a recorded entity: the components between the leading '[' and
      the first ']' after it (none when there is no ']'). Never throws. */
  function ReplayColor(colorArr: Option<string>, num: string -> Option<real>): (c: Rgba)
    ensures colorArr.None? || colorArr.value == [] || colorArr.value[0] != '[' ==> c == White
  {
    match colorArr
    case None => White
    case Some(s) =>
      if s == [] || s[0] != '[' then White
      else
        var close := IndexOf(s, "]", 1);
        var inner := s[1..if close < 1 then 1 else close];
        ColorFromParts(SplitOnComma(inner), num)
  }

  /** One recorded entity. Stripping a lone `"` id or `rt` throws. */
  function ParseEntityInfo(p: string, num: string -> Option<real>): (r: Try<EntityInfo>)
    ensures r.Ok? <==> StripQuotes(Field(p, "id")).Ok? && StripQuotes(Field(p, "rt")).Ok?
    ensures r.Ok? ==> r.value.id == StripQuotes(Field(p, "id")).value
                      && r.value.rt == StripQuotes(Field(p, "rt")).value
                      && r.value.pos == Vec2(ParseDouble(Field(p, "x"), num), ParseDouble(Field(p, "y"), num))
                      && r.value.w == ParseDouble(Field(p, "w"), num)
                      && r.value.h == ParseDouble(Field(p, "h"), num)
                      && r.value.color == ReplayColor(Field(p, "color"), num)
  {
    match StripQuotes(Field(p, "id"))
    case Thrown => Thrown
    case Ok(id) =>
      var x := ParseDouble(Field(p, "x"), num);
      var y := ParseDouble(Field(p, "y"), num);
      match StripQuotes(Field(p, "rt"))
      case Thrown => Thrown
      case Ok(rt) =>
        Ok(EntityInfo(id, Vec2(x, y), rt, ParseDouble(Field(p, "w"), num), ParseDouble(Field(p, "h"), num),
                      ReplayColor(Field(p, "color"), num)))
  }

  /** All entity records of a keyframe line; one that throws spoils the line. */
  function ParseEntityInfos(parts: seq<string>, num: string -> Option<real>): (r: Try<seq<EntityInfo>>)
    ensures r.Ok? ==> |r.value| == |parts|
  {
    if parts == [] then Ok([])
    else match ParseEntityInfo(parts[0], num)
      case Thrown => Thrown
      case Ok(e) =>
        match ParseEntityInfos(parts[1..], num)
        case Thrown => Thrown
        case Ok(es) => Ok([e] + es)
  }

  /** The records of a line parse all or nothing, each record to its own entity. */
  lemma {:induction false} ParseEntityInfosSpec(parts: seq<string>, num: string -> Option<real>)
    ensures ParseEntityInfos(parts, num).Ok? <==> forall k :: 0 <= k < |parts| ==> ParseEntityInfo(parts[k], num).Ok?
    ensures ParseEntityInfos(parts, num).Ok? ==>
              forall k :: 0 <= k < |parts| ==> ParseEntityInfo(parts[k], num) == Ok(ParseEntityInfos(parts, num).value[k])
  {
    if parts != [] {
      var tail := parts[1..];
      ParseEntityInfosSpec(tail, num);
      assert forall k :: 1 <= k < |parts| ==> parts[k] == tail[k - 1];
      var r := ParseEntityInfos(parts, num);
      if r.Ok? {
        var e := ParseEntityInfo(parts[0], num);
        var rt := ParseEntityInfos(tail, num);
        assert e.Ok? && rt.Ok? && r.value == [e.value] + rt.value;
        forall k | 0 <= k < |parts| ensures ParseEntityInfo(parts[k], num) == Ok(r.value[k]) {
          if k > 0 {
            assert ParseEntityInfo(tail[k - 1], num) == Ok(rt.value[k - 1]);
          }
        }
      } else if ParseEntityInfo(parts[0], num).Ok? {
        assert !ParseEntityInfo(tail[0], num).Ok? || exists k :: 0 <= k < |tail| && !ParseEntityInfo(tail[k], num).Ok?;
      }
    }
  }

  /** One recorded line: no keyframe unless it carries the keyframe tag. */
  function ParseKeyframeLine(line: string, num: string -> Option<real>): (r: Try<Option<ReplayKeyframe>>)
    ensures !Contains(line, KeyframeTag) ==> r == Ok(None)
    ensures Contains(line, KeyframeTag) ==> r != Ok(None)
    ensures r.Thrown? <==> Contains(line, KeyframeTag) && ParseEntityInfos(NetworkBuffer.EntityParts(line), num).Thrown?
    ensures r.Ok? && r.value.Some? ==> r.value.value.t == ParseDouble(Field(line, "t"), num)
                                       && Ok(r.value.value.entities) == ParseEntityInfos(NetworkBuffer.EntityParts(line), num)
  {
    if !Contains(line, KeyframeTag) then Ok(None)
    else
      var t := ParseDouble(Field(line, "t"), num);
      match ParseEntityInfos(NetworkBuffer.EntityParts(line), num)
      case Thrown => Thrown
      case Ok(es) => Ok(Some(ReplayKeyframe(t, es)))
  }

  /** The keyframes of a recording in file order: tagged lines become keyframes,
      other lines are skipped, and a line whose parse throws ends the load. */
  function ParseRecording(lines: seq<string>, num: string -> Option<real>): (r: seq<ReplayKeyframe>)
    ensures |r| <= |lines|
  {
    if lines == [] then []
    else match ParseKeyframeLine(lines[0], num)
      case Thrown => []
      case Ok(None) => ParseRecording(lines[1..], num)
      case Ok(Some(kf)) => [kf] + ParseRecording(lines[1..], num)
  }

  /** Every loaded keyframe is the parse of a tagged line of the recording. */
  lemma {:induction false} ParseRecordingProvenance(lines: seq<string>, num: string -> Option<real>)
    ensures forall kf :: kf in ParseRecording(lines, num) ==>
              exists i :: 0 <= i < |lines| && Contains(lines[i], KeyframeTag)
                          && ParseKeyframeLine(lines[i], num) == Ok(Some(kf))
  {
    if lines != [] {
      ParseRecordingProvenance(lines[1..], num);
      forall kf | kf in ParseRecording(lines, num)
        ensures exists i :: 0 <= i < |lines| && Contains(lines[i], KeyframeTag)
                            && ParseKeyframeLine(lines[i], num) == Ok(Some(kf))
      {
        if kf in ParseRecording(lines[1..], num) {
          var i :| 0 <= i < |lines[1..]| && Contains(lines[1..][i], KeyframeTag)
                   && ParseKeyframeLine(lines[1..][i], num) == Ok(Some(kf));
          assert lines[1..][i] == lines[i + 1];
        } else {
          assert ParseKeyframeLine(lines[0], num) == Ok(Some(kf));
        }
      }
    }
  }

  /** One step of the load loop. */
  lemma ParseRecordingStep(lines: seq<string>, i: nat, num: string -> Option<real>)
    requires i < |lines|
    ensures ParseRecording(lines[i..], num) ==
              match ParseKeyframeLine(lines[i], num)
              case Thrown => []
              case Ok(None) => ParseRecording(lines[i + 1..], num)
              case Ok(Some(kf)) => [kf] + ParseRecording(lines[i + 1..], num)
  {
    assert lines[i..][0] == lines[i];
    assert lines[i..][1..] == lines[i + 1..];
  }

  /** The read loop over any line parser: lines are parsed in order, a line that
      yields nothing is skipped and the first line that throws ends the loop. */
  function LoadLines<K>(lines: seq<string>, parse: string -> Try<Option<K>>): seq<K>
  {
    if lines == [] then []
    else match parse(lines[0])
      case Thrown => []
      case Ok(None) => LoadLines(lines[1..], parse)
      case Ok(Some(k)) => [k] + LoadLines(lines[1..], parse)
  }

  /** Loading a recording is the read loop with the keyframe line parser. */
  lemma {:induction false} ParseRecordingIsLoad(lines: seq<string>, num: string -> Option<real>)
    ensures ParseRecording(lines, num) == LoadLines(lines, line => ParseKeyframeLine(line, num))
  {
    if lines != [] {
      ParseRecordingIsLoad(lines[1..], num);
    }
  }

  /** The index of the first line whose parse throws, or the number of lines when
      none does. */
  function FirstThrow<K>(lines: seq<string>, parse: string -> Try<Option<K>>): (n: nat)
    ensures n <= |lines|
    ensures forall i :: 0 <= i < n ==> parse(lines[i]).Ok?
    ensures n < |lines| ==> parse(lines[n]).Thrown?
  {
    if lines == [] then 0
    else if parse(lines[0]).Thrown? then 0
    else
      var n := 1 + FirstThrow(lines[1..], parse);
      assert forall i :: 1 <= i <= |lines[1..]| ==> lines[1..][i - 1] == lines[i];
      n
  }

  /** The indices, in increasing order, of the lines among the first `n` whose parse
      yields a value. */
  function Yielding<K>(lines: seq<string>, parse: string -> Try<Option<K>>, n: nat): (idx: seq<nat>)
    requires n <= |lines|
    ensures forall j, k :: 0 <= j < k < |idx| ==> idx[j] < idx[k]
    ensures forall j :: 0 <= j < |idx| ==> idx[j] < n && parse(lines[idx[j]]).Ok? && parse(lines[idx[j]]).value.Some?
    ensures forall i :: 0 <= i < n && parse(lines[i]).Ok? && parse(lines[i]).value.Some? ==> i in idx
  {
    if n == 0 then []
    else
      var r := parse(lines[n - 1]);
      Yielding(lines, parse, n - 1) + (if r.Ok? && r.value.Some? then [n - 1] else [])
  }

  /** Lines that do not throw load independently of what follows them. */
  lemma {:induction false} LoadLinesConcat<K>(a: seq<string>, b: seq<string>, parse: string -> Try<Option<K>>)
    requires forall i :: 0 <= i < |a| ==> parse(a[i]).Ok?
    ensures LoadLines(a + b, parse) == LoadLines(a, parse) + LoadLines(b, parse)
  {
    if a != [] {
      assert (a + b)[0] == a[0];
      assert (a + b)[1..] == a[1..] + b;
      assert forall i :: 0 <= i < |a| - 1 ==> a[1..][i] == a[i + 1];
      LoadLinesConcat(a[1..], b, parse);
      var x, y := LoadLines(a[1..], parse), LoadLines(b, parse);
      match parse(a[0])
      case Ok(Some(k)) =>
        assert LoadLines(a + b, parse) == [k] + (x + y);
        assert LoadLines(a, parse) == [k] + x;
        assert [k] + (x + y) == ([k] + x) + y;
      case Ok(None) =>
        assert LoadLines(a + b, parse) == x + y;
        assert LoadLines(a, parse) == x;
    } else {
      assert a + b == b;
    }
  }

  /** What the first `m` lines load, none of them throwing: the values of the lines
      that yield one, in order. */
  lemma {:induction false} LoadLinesUpTo<K>(lines: seq<string>, parse: string -> Try<Option<K>>, m: nat)
    requires m <= FirstThrow(lines, parse)
    ensures var r := LoadLines(lines[..m], parse);
            var idx := Yielding(lines, parse, m);
            |r| == |idx| && forall j :: 0 <= j < |idx| ==> parse(lines[idx[j]]) == Ok(Some(r[j]))
  {
    if m > 0 {
      LoadLinesUpTo(lines, parse, m - 1);
      assert lines[..m] == lines[..m - 1] + [lines[m - 1]];
      LoadLinesConcat(lines[..m - 1], [lines[m - 1]], parse);
      assert [lines[m - 1]][1..] == [];
    }
  }

  /** The read loop keeps, in file order, the value of every line that yields one
      before the first line that throws, and nothing else. */
  lemma LoadLinesComplete<K>(lines: seq<string>, parse: string -> Try<Option<K>>)
    ensures var r := LoadLines(lines, parse);
            var idx := Yielding(lines, parse, FirstThrow(lines, parse));
            |r| == |idx| && forall j :: 0 <= j < |idx| ==> parse(lines[idx[j]]) == Ok(Some(r[j]))
  {
    LoadLinesUpTo(lines, parse, FirstThrow(lines, parse));
    LoadLinesStop(lines, parse);
  }

  /** Nothing after the first line that throws is loaded. */
  lemma LoadLinesStop<K>(lines: seq<string>, parse: string -> Try<Option<K>>)
    ensures LoadLines(lines, parse) == LoadLines(lines[..FirstThrow(lines, parse)], parse)
  {
    var n := FirstThrow(lines, parse);
    var a, b := lines[..n], lines[n..];
    assert lines == a + b;
    assert forall i :: 0 <= i < |a| ==> a[i] == lines[i];
    LoadLinesConcat(a, b, parse);
    if n < |lines| {
      assert b[0] == lines[n];
    } else {
      assert b == [];
    }
  }

  /** Loading a recording keeps, in file order, the keyframe of every tagged line
      before the first line that throws, and nothing else: the loaded keyframes are
      those of the lines `idx`, which are exactly the tagged lines before that one. */
  lemma ParseRecordingComplete(lines: seq<string>, num: string -> Option<real>)
    ensures var parse := line => ParseKeyframeLine(line, num);
            var r := ParseRecording(lines, num);
            var n := FirstThrow(lines, parse);
            var idx := Yielding(lines, parse, n);
            |r| == |idx|
            && (forall j :: 0 <= j < |idx| ==> ParseKeyframeLine(lines[idx[j]], num) == Ok(Some(r[j])))
            && (forall i :: 0 <= i < n ==> (i in idx <==> Contains(lines[i], KeyframeTag)))
            && (n < |lines| ==> ParseKeyframeLine(lines[n], num).Thrown?)
  {
    var parse := line => ParseKeyframeLine(line, num);
    ParseRecordingIsLoad(lines, num);
    LoadLinesComplete(lines, parse);
  }

  /** The keyframe time, the key replay keyframes are sorted by. */
  function TimeOf(kf: ReplayKeyframe): real { kf.t }

  // ---------------------------------------------------------------------------
  // Objects built from records
  // ---------------------------------------------------------------------------

  /** One render dimension: the recorded one when positive, else 30; at least 1. */
  function RenderDim(v: real): (d: real)
    ensures d >= 1.0
    ensures v > 0.0 ==> d == Max(1.0, v)
    ensures v <= 0.0 ==> d == DefaultSize
  {
    Max(1.0, if v > 0.0 then v else DefaultSize)
  }

  function RenderSize(w: real, h: real): Vec2
  {
    Vec2(RenderDim(w), RenderDim(h))
  }

  /** The shape of a new object: a circle exactly when `rt` is "CIRCLE". */
  function ShapeOf(rt: Option<string>): (s: RenderType)
    ensures s == Circle <==> rt == Some("CIRCLE")
  {
    if rt == Some("CIRCLE") then Circle else Rectangle
  }

  /** `buildObjectFromEntity`: named by the id, or by its creation index when the id is null. */
  function BuildObject(ei: EntityInfo, index: int): ReplayObject
  {
    ReplayObject(if ei.id.Some? then ei.id.value else "ReplayObj#" + IntToString(index),
                 ei.pos, ShapeOf(ei.rt), RenderSize(ei.w, ei.h), ei.color, true)
  }

  /** `updateRenderComponent`: colour and size follow the record, the shape never changes. */
  function RefreshRender(o: ReplayObject, ei: EntityInfo): ReplayObject
  {
    o.(color := ei.color, size := RenderSize(ei.w, ei.h))
  }

  /** The ids carried by a sequence of records. */
  function IdsOf(es: seq<EntityInfo>): set<Option<string>>
  {
    if es == [] then {} else IdsOf(es[..|es| - 1]) + {es[|es| - 1].id}
  }

  /** An id is carried by the records exactly when some record carries it. */
  lemma {:induction false} IdsOfMembers(es: seq<EntityInfo>)
    ensures forall i :: 0 <= i < |es| ==> es[i].id in IdsOf(es)
    ensures forall id :: id in IdsOf(es) ==> exists i :: 0 <= i < |es| && es[i].id == id
  {
    if es != [] {
      var init := es[..|es| - 1];
      IdsOfMembers(init);
      forall i | 0 <= i < |es| ensures es[i].id in IdsOf(es) {
        if i < |init| { assert init[i] == es[i]; }
      }
      forall id | id in IdsOf(es) ensures exists i :: 0 <= i < |es| && es[i].id == id {
        if id in IdsOf(init) {
          var i :| 0 <= i < |init| && init[i].id == id;
          assert es[i] == init[i];
        } else {
          assert es[|es| - 1].id == id;
        }
      }
    }
  }

  /** The objects built from the first keyframe's first `n` entities, keyed by id;
      a later entity with the same id replaces the earlier object. */
  function FirstFrameObjects(es: seq<EntityInfo>, n: nat): (m: map<Option<string>, ReplayObject>)
    requires n <= |es|
    ensures forall i :: 0 <= i < n ==> es[i].id in m
    ensures m.Keys == IdsOf(es[..n])
  {
    if n == 0 then map[]
    else
      assert es[..n][..n - 1] == es[..n - 1];
      var prev := FirstFrameObjects(es, n - 1);
      var m := prev[es[n - 1].id := BuildObject(es[n - 1], n - 1)];
      assert forall i :: 0 <= i < n - 1 ==> es[i].id in prev;
      m
  }

  /** No entity among the first `n` after index `i` has the id of entity `i`. */
  predicate LastOfId(es: seq<EntityInfo>, n: nat, i: nat)
    requires i < n <= |es|
  {
    forall j :: i < j < n ==> es[j].id != es[i].id
  }

  /** The object built for an id is built from the last entity carrying it. */
  lemma {:induction false} FirstFrameObjectsValue(es: seq<EntityInfo>, n: nat)
    requires n <= |es|
    ensures forall i :: 0 <= i < n && LastOfId(es, n, i) ==> FirstFrameObjects(es, n)[es[i].id] == BuildObject(es[i], i)
  {
    if n > 0 {
      FirstFrameObjectsValue(es, n - 1);
      forall i | 0 <= i < n && LastOfId(es, n, i)
        ensures FirstFrameObjects(es, n)[es[i].id] == BuildObject(es[i], i)
      {
        if i < n - 1 {
          assert es[n - 1].id != es[i].id;
          assert LastOfId(es, n - 1, i);
        }
      }
    }
  }

  // ---------------------------------------------------------------------------
  // Reconciliation by id
  // ---------------------------------------------------------------------------

  /** The `HashMap` built from a frame's entities: id to entity, later entries
      overwriting earlier ones with the same id. */
  function LastById(es: seq<EntityInfo>): (m: map<Option<string>, EntityInfo>)
    ensures forall i :: 0 <= i < |es| ==> es[i].id in m
    ensures m.Keys == IdsOf(es)
  {
    if es == [] then map[]
    else
      LastById(es[..|es| - 1])[es[|es| - 1].id := es[|es| - 1]]
  }

  /** The entity a frame's map holds for an id is the last one with that id. */
  lemma {:induction false} LastByIdValue(es: seq<EntityInfo>)
    ensures forall i :: 0 <= i < |es| && LastOfId(es, |es|, i) ==> LastById(es)[es[i].id] == es[i]
  {
    if es != [] {
      var init := es[..|es| - 1];
      LastByIdValue(init);
      forall i | 0 <= i < |es| && LastOfId(es, |es|, i)
        ensures LastById(es)[es[i].id] == es[i]
      {
        if i < |es| - 1 {
          assert es[|es| - 1].id != es[i].id;
          assert init[i] == es[i];
          assert LastOfId(init, |init|, i) by {
            forall j | i < j < |init| ensures init[j].id != init[i].id {
              assert init[j] == es[j];
            }
          }
        }
      }
    }
  }

  function Lookup<K(==)>(m: map<K, EntityInfo>, id: K): Option<EntityInfo>
  {
    if id in m then Some(m[id]) else None
  }

  /** One object brought up to date with the records of its id in frames a and b:
      interpolated with b's render data when in both, held at a when only in a,
      snapped to b when only in b; in every case active, name and shape kept. */
  function Reconcile(o: ReplayObject, eiA: Option<EntityInfo>, eiB: Option<EntityInfo>, u: real): ReplayObject
    requires eiA.Some? || eiB.Some?
  {
    if eiA.Some? && eiB.Some? then
      var p := Vec2(Lerp(eiA.value.pos.x, eiB.value.pos.x, u), Lerp(eiA.value.pos.y, eiB.value.pos.y, u));
      RefreshRender(o.(pos := p), eiB.value).(active := true)
    else if eiA.Some? then RefreshRender(o.(pos := eiA.value.pos), eiA.value).(active := true)
    else RefreshRender(o.(pos := eiB.value.pos), eiB.value).(active := true)
  }

  /** What reconciling does to an object: it becomes active, keeps its name and
      shape, takes the render data of b's record (a's when b has none), and moves to
      the interpolated position when both frames have the id, to a's position when
      only a has it, to b's when only b has it; with `0 <= u <= 1` an interpolated
      coordinate lies between the two recorded ones. */
  lemma ReconcileSpec(o: ReplayObject, eiA: Option<EntityInfo>, eiB: Option<EntityInfo>, u: real)
    requires eiA.Some? || eiB.Some?
    ensures var r := Reconcile(o, eiA, eiB, u);
      r.active && r.name == o.name && r.shape == o.shape
      && var cur := if eiB.Some? then eiB.value else eiA.value;
         r.color == cur.color && r.size == RenderSize(cur.w, cur.h)
    ensures var r := Reconcile(o, eiA, eiB, u);
      eiA.Some? && eiB.Some? ==>
        r.pos == Vec2(Lerp(eiA.value.pos.x, eiB.value.pos.x, u), Lerp(eiA.value.pos.y, eiB.value.pos.y, u))
        && (0.0 <= u <= 1.0 ==>
              Min(eiA.value.pos.x, eiB.value.pos.x) <= r.pos.x <= Max(eiA.value.pos.x, eiB.value.pos.x)
              && Min(eiA.value.pos.y, eiB.value.pos.y) <= r.pos.y <= Max(eiA.value.pos.y, eiB.value.pos.y))
    ensures var r := Reconcile(o, eiA, eiB, u);
      (eiA.Some? && eiB.None? ==> r.pos == eiA.value.pos) && (eiA.None? ==> r.pos == eiB.value.pos)
  {
    if eiA.Some? && eiB.Some? {
      LerpWithin(eiA.value.pos.x, eiB.value.pos.x, u);
      LerpWithin(eiA.value.pos.y, eiB.value.pos.y, u);
    }
  }

  /** An object for an id seen for the first time: built from a's record (b's when
      a has none) at creation index `index`, then reconciled. */
  function Created(index: nat, eiA: Option<EntityInfo>, eiB: Option<EntityInfo>, u: real): ReplayObject
    requires eiA.Some? || eiB.Some?
  {
    Reconcile(BuildObject(if eiA.Some? then eiA.value else eiB.value, index), eiA, eiB, u)
  }

  /** What reconciling makes of the object of an id of frame a's map or frame b's:
      the old object reconciled, or, for an id seen for the first time, a created
      object whose creation index (the map's size at that moment) is at least the
      size of the map before reconciling. */
  ghost predicate ReconciledAt<K(!new)>(o2: ReplayObject, before: map<K, ReplayObject>, id: K,
                                  mapA: map<K, EntityInfo>, mapB: map<K, EntityInfo>, u: real, index: nat)
    requires id in mapA || id in mapB
  {
    var eiA := Lookup(mapA, id);
    var eiB := Lookup(mapB, id);
    if id in before then o2 == Reconcile(before[id], eiA, eiB, u)
    else |before| <= index && o2 == Created(index, eiA, eiB, u)
  }

  /** The object map part way through the first loop: the ids in `done` are
      reconciled (`created` holding their creation indices), every other object is
      as it was. */
  ghost predicate PartlyReconciled<K(!new)>(before: map<K, ReplayObject>, m: map<K, ReplayObject>,
                                            done: set<K>, created: map<K, nat>,
                                            mapA: map<K, EntityInfo>, mapB: map<K, EntityInfo>, u: real)
  {
    (forall id :: id in m <==> id in before || id in done)
    && (forall id :: id in done ==> (id in mapA || id in mapB) && id in created)
    && (forall id {:trigger ReconciledAt(m[id], before, id, mapA, mapB, u, created[id])} :: id in done ==>
          ReconciledAt(m[id], before, id, mapA, mapB, u, created[id]))
    && (forall id :: id in before && id !in done ==> m[id] == before[id])
  }

  /** The ids of `ids` that are new to `before` were created at distinct indices,
      each at least the size of `before` and below `bound`. */
  ghost predicate NewIndices<K(!new)>(before: map<K, ReplayObject>, ids: set<K>, created: map<K, nat>, bound: nat)
  {
    (forall id {:trigger id in created} :: id in ids && id !in before ==> id in created && |before| <= created[id] < bound)
    && (forall x, y {:trigger created[x], created[y]} ::
          x in ids && y in ids && x !in before && y !in before && x != y && x in created && y in created
          ==> created[x] != created[y])
  }

  /** An id not yet reconciled is in the map exactly when it was before, with
      its old object. */
  lemma PartlyReconciledUntouched<K(!new)>(before: map<K, ReplayObject>, m: map<K, ReplayObject>,
                                           done: set<K>, created: map<K, nat>,
                                           mapA: map<K, EntityInfo>, mapB: map<K, EntityInfo>, u: real, id: K)
    requires PartlyReconciled(before, m, done, created, mapA, mapB, u) && id !in done
    ensures id in m <==> id in before
    ensures id in before ==> m[id] == before[id]
  {
  }

  lemma PartlyReconciledStep<K(!new)>(before: map<K, ReplayObject>, m: map<K, ReplayObject>,
                                      done: set<K>, created: map<K, nat>,
                                      mapA: map<K, EntityInfo>, mapB: map<K, EntityInfo>, u: real,
                                      id: K, o: ReplayObject, index: nat)
    requires PartlyReconciled(before, m, done, created, mapA, mapB, u)
    requires id !in done && (id in mapA || id in mapB) && ReconciledAt(o, before, id, mapA, mapB, u, index)
    ensures PartlyReconciled(before, m[id := o], done + {id}, created[id := index], mapA, mapB, u)
  {
  }

  /** The state of the first loop: part way through, with distinct creation
      indices counting up from the size of `before`. */
  ghost predicate Reconciling<K(!new)>(before: map<K, ReplayObject>, m: map<K, ReplayObject>,
                                       done: set<K>, created: map<K, nat>,
                                       mapA: map<K, EntityInfo>, mapB: map<K, EntityInfo>, u: real)
  {
    |before| <= |m| && PartlyReconciled(before, m, done, created, mapA, mapB, u) && NewIndices(before, done, created, |m|)
  }

  /** What one more id of the first loop may assume of the map. */
  lemma ReconcilingUntouched<K(!new)>(before: map<K, ReplayObject>, m: map<K, ReplayObject>,
                                      done: set<K>, created: map<K, nat>,
                                      mapA: map<K, EntityInfo>, mapB: map<K, EntityInfo>, u: real, id: K)
    requires Reconciling(before, m, done, created, mapA, mapB, u) && id !in done
    ensures |before| <= |m| && (id in m <==> id in before) && (id in before ==> m[id] == before[id])
  {
    PartlyReconciledUntouched(before, m, done, created, mapA, mapB, u, id);
  }

  /** Reconciling one more id, created at the map's size when new, keeps the
      state of the first loop. */
  lemma ReconcilingStep<K(!new)>(before: map<K, ReplayObject>, m: map<K, ReplayObject>,
                                 done: set<K>, created: map<K, nat>,
                                 mapA: map<K, EntityInfo>, mapB: map<K, EntityInfo>, u: real,
                                 id: K, o: ReplayObject, index: nat)
    requires Reconciling(before, m, done, created, mapA, mapB, u)
    requires id !in done && (id in mapA || id in mapB) && ReconciledAt(o, before, id, mapA, mapB, u, index)
    requires id !in before ==> index == |m|
    ensures Reconciling(before, m[id := o], done + {id}, created[id := index], mapA, mapB, u)
  {
    PartlyReconciledUntouched(before, m, done, created, mapA, mapB, u, id);
    PartlyReconciledStep(before, m, done, created, mapA, mapB, u, id, o, index);
    NewIndicesStep(before, done, created, m, id, o, index);
  }

  /** Creating one more id at the bound keeps the creation indices distinct. */
  lemma NewIndicesStep<K(!new)>(before: map<K, ReplayObject>, done: set<K>, created: map<K, nat>,
                                m: map<K, ReplayObject>, id: K, o: ReplayObject, index: nat)
    requires NewIndices(before, done, created, |m|) && id !in done && (id in m <==> id in before)
    requires id !in before ==> index == |m| && |before| <= |m|
    ensures NewIndices(before, done + {id}, created[id := index], |m[id := o]|)
  {
    assert |m[id := o]| == if id in before then |m| else |m| + 1;
  }

  /** The whole object map after reconciling `before` against the id maps of frames
      a and b, `created` holding the creation index of every id seen for the first
      time: the map gains those ids, every id of either frame is reconciled, and
      every other object is kept but deactivated. */
  ghost predicate ReconciledWith<K(!new)>(before: map<K, ReplayObject>, after: map<K, ReplayObject>,
                                          mapA: map<K, EntityInfo>, mapB: map<K, EntityInfo>, u: real,
                                          created: map<K, nat>)
  {
    (forall id :: id in after <==> id in before || id in mapA || id in mapB)
    && (forall id :: id in mapA || id in mapB ==> id in created)
    && (forall id {:trigger ReconciledAt(after[id], before, id, mapA, mapB, u, created[id])} ::
          id in mapA || id in mapB ==> ReconciledAt(after[id], before, id, mapA, mapB, u, created[id]))
    && (forall id :: id in before && id !in mapA && id !in mapB ==> after[id] == before[id].(active := false))
  }

  /** `ReconciledWith` for some choice of creation indices, distinct and counting
      up from the size of `before`. */
  ghost predicate ReconciledMap<K(!new)>(before: map<K, ReplayObject>, after: map<K, ReplayObject>,
                                         mapA: map<K, EntityInfo>, mapB: map<K, EntityInfo>, u: real)
  {
    exists created :: ReconciledWith(before, after, mapA, mapB, u, created)
                      && NewIndices(before, mapA.Keys + mapB.Keys, created, |after|)
  }

  /** The first loop finished and the second one deactivating the rest give the
      reconciled map. */
  lemma ReconciledAfterBothLoops<K(!new)>(before: map<K, ReplayObject>, m: map<K, ReplayObject>,
                                          after: map<K, ReplayObject>, created: map<K, nat>,
                                          mapA: map<K, EntityInfo>, mapB: map<K, EntityInfo>, u: real)
    requires PartlyReconciled(before, m, mapA.Keys + mapB.Keys, created, mapA, mapB, u)
    requires after.Keys == m.Keys
    requires forall id :: id in m ==> after[id] == (if id in mapA.Keys + mapB.Keys then m[id] else m[id].(active := false))
    ensures ReconciledWith(before, after, mapA, mapB, u, created)
  {
    forall id | id in mapA || id in mapB
      ensures ReconciledAt(after[id], before, id, mapA, mapB, u, created[id])
    {
      assert ReconciledAt(m[id], before, id, mapA, mapB, u, created[id]);
    }
  }

  /** Reconciliation only ever adds objects, exactly the objects of the two
      frames' ids are active afterwards, and no object changes name or shape. */
  lemma ReconciledMapShape<K(!new)>(before: map<K, ReplayObject>, after: map<K, ReplayObject>,
                                    mapA: map<K, EntityInfo>, mapB: map<K, EntityInfo>, u: real)
    requires ReconciledMap(before, after, mapA, mapB, u)
    ensures before.Keys <= after.Keys
    ensures forall id :: id in after ==> (after[id].active <==> id in mapA || id in mapB)
    ensures forall id :: id in before ==> after[id].name == before[id].name && after[id].shape == before[id].shape
  {
    var created :| ReconciledWith(before, after, mapA, mapB, u, created)
                   && NewIndices(before, mapA.Keys + mapB.Keys, created, |after|);
    ReconciledWithShape(before, after, mapA, mapB, u, created);
  }

  /** `ReconciledMapShape` for one choice of creation indices. */
  lemma ReconciledWithShape<K(!new)>(before: map<K, ReplayObject>, after: map<K, ReplayObject>,
                                     mapA: map<K, EntityInfo>, mapB: map<K, EntityInfo>, u: real,
                                     created: map<K, nat>)
    requires ReconciledWith(before, after, mapA, mapB, u, created)
    ensures before.Keys <= after.Keys
    ensures forall id :: id in after ==> (after[id].active <==> id in mapA || id in mapB)
    ensures forall id :: id in before ==> after[id].name == before[id].name && after[id].shape == before[id].shape
  {
    forall id | id in after && (id in mapA || id in mapB)
      ensures after[id].active
      ensures id in before ==> after[id].name == before[id].name && after[id].shape == before[id].shape
    {
      assert ReconciledAt(after[id], before, id, mapA, mapB, u, created[id]);
    }
  }

  /** One frame of the file picker, from the listing, cursor and recording path
      before to those after, with what it asks of its caller: the listing is taken
      once; up, else down, moves the cursor with wrap-around; else enter or space
      over a non-empty listing picks the file under the cursor to load. */
  predicate PickerStep(files: Option<seq<string>>, sel: int, path: Option<string>,
                       files': Option<seq<string>>, sel': int, path': Option<string>,
                       justPressed: set<int>, listing: seq<string>, outcome: Outcome)
    requires 0 <= sel < Modulus(|(if files.Some? then files else Some(listing)).value|)
  {
    files' == (if files.Some? then files else Some(listing))
    && (KeyUp in justPressed ==> sel' == WrapUp(sel, |files'.value|) && outcome == Continue)
    && (KeyUp !in justPressed && KeyDown in justPressed ==> sel' == WrapDown(sel, |files'.value|) && outcome == Continue)
    && (KeyUp !in justPressed && KeyDown !in justPressed ==> sel' == sel)
    && (outcome.Load? <==> KeyUp !in justPressed && KeyDown !in justPressed
                           && (KeyEnter in justPressed || KeySpace in justPressed) && files'.value != [])
    && (outcome.Load? ==> 0 <= sel' < |files'.value| && outcome.path == files'.value[sel'] && path' == Some(outcome.path))
    && (!outcome.Load? ==> path' == path)
  }

  // ---------------------------------------------------------------------------
  // Playback bracket
  // ---------------------------------------------------------------------------

  /** `time` lies within the consecutive pair (i, i+1). */
  predicate InSegment(q: seq<ReplayKeyframe>, i: int, time: real)
    requires 0 <= i && i + 1 < |q|
  {
    q[i].t <= time <= q[i + 1].t
  }

  /** The first consecutive pair at or after `from` whose times enclose `time`, or
      (first, last) when there is none. */
  function SegmentFrom(q: seq<ReplayKeyframe>, time: real, from: nat): (r: (nat, nat))
    requires q != []
    decreases |q| - from
    ensures r.0 < |q| && r.1 < |q|
    ensures r == (0, |q| - 1) || (from <= r.0 && r.1 == r.0 + 1 && InSegment(q, r.0, time))
    ensures r.1 == r.0 + 1 && from <= r.0 && InSegment(q, r.0, time) ==>
              forall j :: from <= j < r.0 ==> !InSegment(q, j, time)
    ensures !(r.1 == r.0 + 1 && from <= r.0 && InSegment(q, r.0, time)) ==>
              forall j :: from <= j && j + 1 < |q| ==> !InSegment(q, j, time)
  {
    if from + 1 >= |q| then (0, |q| - 1)
    else if InSegment(q, from, time) then (from, from + 1)
    else SegmentFrom(q, time, from + 1)
  }

  /** The bracket of the playback update. */
  function SegmentOf(q: seq<ReplayKeyframe>, time: real): (r: (nat, nat))
    requires q != []
    ensures r.0 < |q| && r.1 < |q|
  {
    SegmentFrom(q, time, 0)
  }

  /** Whenever the recording's first and last times enclose `time`, the bracket
      encloses it too (the keyframes need not even be sorted). */
  lemma SegmentEncloses(q: seq<ReplayKeyframe>, time: real)
    requires |q| >= 2 && q[0].t <= time <= q[|q| - 1].t
    ensures var (a, b) := SegmentOf(q, time); b == a + 1 && q[a].t <= time <= q[b].t
  {
    SomeSegmentFrom(q, time, 0);
  }

  /** Some consecutive pair from `i` on starts at or before `time` and ends at or after it. */
  lemma {:induction false} SomeSegmentFrom(q: seq<ReplayKeyframe>, time: real, i: nat)
    requires i + 1 < |q| && q[i].t <= time <= q[|q| - 1].t
    decreases |q| - i
    ensures exists j :: i <= j && j + 1 < |q| && InSegment(q, j, time)
  {
    if time <= q[i + 1].t {
      assert InSegment(q, i, time);
    } else {
      SomeSegmentFrom(q, time, i + 1);
    }
  }

  // ---------------------------------------------------------------------------
  // File selection
  // ---------------------------------------------------------------------------

  /** `Math.max(1, n)` */
  function Modulus(n: nat): (m: nat)
    ensures m >= 1 && (n >= 1 ==> m == n)
  {
    if n >= 1 then n else 1
  }

  /** The index after pressing up: `(i - 1 + m) % m` with Java's remainder. */
  function WrapUp(i: int, n: nat): (r: int)
    requires 0 <= i < Modulus(n)
    ensures 0 <= r < Modulus(n)
    ensures i > 0 ==> r == i - 1
    ensures i == 0 ==> r == Modulus(n) - 1
  {
    JavaRem(i - 1 + Modulus(n), Modulus(n))
  }

  /** The index after pressing down: `(i + 1) % m` with Java's remainder. */
  function WrapDown(i: int, n: nat): (r: int)
    requires 0 <= i < Modulus(n)
    ensures 0 <= r < Modulus(n)
    ensures i + 1 < Modulus(n) ==> r == i + 1
    ensures i + 1 == Modulus(n) ==> r == 0
  {
    JavaRem(i + 1, Modulus(n))
  }

  /** Up and down undo each other. */
  lemma WrapInverse(i: int, n: nat)
    requires 0 <= i < Modulus(n)
    ensures WrapDown(WrapUp(i, n), n) == i && WrapUp(WrapDown(i, n), n) == i
  {
  }

  // ---------------------------------------------------------------------------
  // The scene
  // ---------------------------------------------------------------------------

  class ReplayScene {
    var recordingPath: Option<string>
    var time: real
    var keyframes: seq<ReplayKeyframe>
    var objectMap: map<Option<string>, ReplayObject>
    /** The recordings listed the first time the picker runs (null before). */
    var recordingFiles: Option<seq<string>>
    var selectedIndex: int

    /** The picker's cursor stays on a listed file (or 0 while there is none). */
    predicate Valid()
      reads this
    {
      (recordingFiles.None? ==> selectedIndex == 0)
      && (recordingFiles.Some? ==> 0 <= selectedIndex < Modulus(|recordingFiles.value|))
    }

    constructor (path: Option<string>)
      ensures recordingPath == path && recordingFiles.None? && selectedIndex == 0
      ensures time == 0.0 && keyframes == [] && objectMap == map[]
      ensures Valid()
    {
      recordingPath := path;
      time := 0.0;
      keyframes := [];
      objectMap := map[];
      recordingFiles := None;
      selectedIndex := 0;
    }

    /** `initialize`: reset, then load the recording (its lines are given) and
        build objects from its first keyframe; without a path, reset the picker. */
    method Initialize(lines: seq<string>, num: string -> Option<real>)
      requires Valid()
      modifies this
      ensures recordingPath == old(recordingPath)
      ensures recordingPath.Some? ==>
                Sorting.SortedBy(keyframes, TimeOf) && multiset(keyframes) == multiset(ParseRecording(lines, num))
                && time == 0.0
                && objectMap == (if keyframes == [] then map[]
                                 else FirstFrameObjects(keyframes[0].entities, |keyframes[0].entities|))
      ensures recordingPath.None? ==> keyframes == [] && objectMap == map[] && time == 0.0
                                      && recordingFiles.None? && selectedIndex == 0
      ensures Valid()
    {
      time := 0.0;
      keyframes := [];
      objectMap := map[];
      if recordingPath.Some? {
        LoadRecording(lines, num);
        BuildObjectsFromFirstKeyframe();
      } else {
        recordingFiles := None;
        selectedIndex := 0;
      }
    }

    /** `loadRecording`: the keyframes of the recording, sorted by time. */
    method LoadRecording(lines: seq<string>, num: string -> Option<real>)
      modifies this
      ensures Sorting.SortedBy(keyframes, TimeOf)
      ensures multiset(keyframes) == multiset(ParseRecording(lines, num))
      ensures forall v :: Sorting.WithKey(keyframes, TimeOf, v) == Sorting.WithKey(ParseRecording(lines, num), TimeOf, v)
      ensures time == old(time) && objectMap == old(objectMap) && recordingPath == old(recordingPath)
      ensures recordingFiles == old(recordingFiles) && selectedIndex == old(selectedIndex)
    {
      var loaded := ReadKeyframes(lines, num);
      keyframes := Sorting.SortByKey(loaded, TimeOf);
    }

    /** The read loop of `loadRecording`: keyframes in file order until a line throws. */
    static method ReadKeyframes(lines: seq<string>, num: string -> Option<real>) returns (loaded: seq<ReplayKeyframe>)
      ensures loaded == ParseRecording(lines, num)
    {
      loaded := [];
      var i := 0;
      assert lines[0..] == lines;
      while i < |lines|
        invariant 0 <= i <= |lines|
        invariant loaded + ParseRecording(lines[i..], num) == ParseRecording(lines, num)
      {
        var r := ParseKeyframeLine(lines[i], num);
        ParseRecordingStep(lines, i, num);
        if r.Thrown? {
          loaded := loaded + ParseRecording(lines[i..], num);
          break;
        }
        if r.value.Some? {
          assert loaded + ParseRecording(lines[i..], num) == (loaded + [r.value.value]) + ParseRecording(lines[i + 1..], num);
          loaded := loaded + [r.value.value];
        }
        i := i + 1;
      }
      if i == |lines| {
        assert lines[i..] == [];
      }
    }

    /** `buildObjectsFromFirstKeyframe` */
    method BuildObjectsFromFirstKeyframe()
      modifies this
      ensures keyframes == old(keyframes) && recordingPath == old(recordingPath)
      ensures recordingFiles == old(recordingFiles) && selectedIndex == old(selectedIndex)
      ensures old(keyframes) == [] ==> objectMap == old(objectMap) && time == old(time)
      ensures old(keyframes) != [] ==>
                objectMap == FirstFrameObjects(keyframes[0].entities, |keyframes[0].entities|) && time == 0.0
    {
      if keyframes == [] {
        return;
      }
      var es := keyframes[0].entities;
      var m := map[];
      var i := 0;
      while i < |es|
        invariant 0 <= i <= |es|
        invariant m == FirstFrameObjects(es, i)
      {
        m := m[es[i].id := BuildObject(es[i], i)];
        i := i + 1;
      }
      objectMap := m;
      time := 0.0;
    }

    /** The id maps and the id union of `updateInterpolatedPositions`. */
    static method CollectIds(es: seq<EntityInfo>) returns (m: map<Option<string>, EntityInfo>)
      ensures m == LastById(es)
    {
      m := map[];
      var i := 0;
      while i < |es|
        invariant 0 <= i <= |es|
        invariant m == LastById(es[..i])
      {
        assert es[..i + 1][..i] == es[..i];
        m := m[es[i].id := es[i]];
        i := i + 1;
      }
      assert es[..|es|] == es;
    }

    /** `updateInterpolatedPositions` */
    method UpdateInterpolatedPositions(a: ReplayKeyframe, b: ReplayKeyframe, u: real)
      modifies this
      ensures ReconciledMap(old(objectMap), objectMap, LastById(a.entities), LastById(b.entities), u)
      ensures time == old(time) && keyframes == old(keyframes) && recordingPath == old(recordingPath)
      ensures recordingFiles == old(recordingFiles) && selectedIndex == old(selectedIndex)
    {
      objectMap := ReconcileFrames(objectMap, a, b, u);
    }

    /** The two loops of `updateInterpolatedPositions` over the object map `before`. */
    static method ReconcileFrames(before: map<Option<string>, ReplayObject>, a: ReplayKeyframe, b: ReplayKeyframe, u: real)
      returns (after: map<Option<string>, ReplayObject>)
      ensures ReconciledMap(before, after, LastById(a.entities), LastById(b.entities), u)
    {
      var mapA := CollectIds(a.entities);
      var mapB := CollectIds(b.entities);
      var m, created := ReconcileAll(before, mapA, mapB, u);
      after := DeactivateOthers(m, mapA.Keys + mapB.Keys);
      ReconciledAfterBothLoops(before, m, after, created, mapA, mapB, u);
      assert |after| == |after.Keys| == |m.Keys| == |m|;
      assert NewIndices(before, mapA.Keys + mapB.Keys, created, |after|);
    }

    /** The first loop of `updateInterpolatedPositions`: every id of either frame
        reconciled, created first when the map lacks it. */
    static method ReconcileAll<K(==,!new)>(before: map<K, ReplayObject>, mapA: map<K, EntityInfo>,
                                           mapB: map<K, EntityInfo>, u: real)
      returns (m: map<K, ReplayObject>, ghost created: map<K, nat>)
      ensures Reconciling(before, m, mapA.Keys + mapB.Keys, created, mapA, mapB, u)
    {
      var allIds := mapA.Keys + mapB.Keys;
      m := before;
      var remaining := allIds;
      created := map[];
      ghost var done: set<K> := {};
      while remaining != {}
        invariant forall id :: id in allIds <==> id in remaining || id in done
        invariant forall id :: id in remaining ==> id !in done
        invariant Reconciling(before, m, done, created, mapA, mapB, u)
        decreases remaining
      {
        var id :| id in remaining;
        ReconcilingUntouched(before, m, done, created, mapA, mapB, u, id);
        var o, index;
        o, index := ReconcileOne(before, m, id, mapA, mapB, u);
        ReconcilingStep(before, m, done, created, mapA, mapB, u, id, o, index);
        created := created[id := index];
        m := m[id := o];
        remaining := remaining - {id};
        done := done + {id};
      }
      assert done == allIds;
    }

    /** One id of the first loop: the object of the map, or a new one built at
        the map's current size as its index, brought up to date with the id's records. */
    static method ReconcileOne<K(==,!new)>(before: map<K, ReplayObject>, m: map<K, ReplayObject>,
                               id: K, mapA: map<K, EntityInfo>,
                               mapB: map<K, EntityInfo>, u: real)
      returns (o: ReplayObject, index: nat)
      requires id in mapA || id in mapB
      requires |before| <= |m|
      requires id in m <==> id in before
      requires id in before ==> m[id] == before[id]
      ensures ReconciledAt(o, before, id, mapA, mapB, u, index)
      ensures id !in before ==> index == |m|
    {
      var eiA := Lookup(mapA, id);
      var eiB := Lookup(mapB, id);
      index := |m|;
      if id !in m {
        o := BuildObject(if eiA.Some? then eiA.value else eiB.value, index);
      } else {
        o := m[id];
      }
      o := Reconcile(o, eiA, eiB, u);
    }

    /** The second loop of `updateInterpolatedPositions`: objects of no id in `ids`
        are deactivated, the rest are left alone. */
    static method DeactivateOthers<K(==,!new)>(mid: map<K, ReplayObject>, ids: set<K>)
      returns (m: map<K, ReplayObject>)
      ensures m.Keys == mid.Keys
      ensures forall id :: id in mid ==> m[id] == (if id in ids then mid[id] else mid[id].(active := false))
    {
      m := mid;
      var rest := m.Keys;
      while rest != {}
        invariant rest <= mid.Keys && m.Keys == mid.Keys
        invariant forall id :: id in mid && id !in rest ==>
                    m[id] == (if id in ids then mid[id] else mid[id].(active := false))
        invariant forall id :: id in rest ==> m[id] == mid[id]
        decreases rest
      {
        var id :| id in rest;
        if id !in ids {
          m := m[id := m[id].(active := false)];
        }
        rest := rest - {id};
      }
    }

    /** The bracketing scan of the playback update. */
    method FindSegment(t: real) returns (ia: nat, ib: nat)
      requires keyframes != []
      ensures (ia, ib) == SegmentOf(keyframes, t)
    {
      ia, ib := 0, |keyframes| - 1;
      var i := 0;
      while i < |keyframes| - 1
        invariant 0 <= i <= |keyframes|
        invariant SegmentFrom(keyframes, t, i) == SegmentOf(keyframes, t)
      {
        if keyframes[i].t <= t && t <= keyframes[i + 1].t {
          ia, ib := i, i + 1;
          return;
        }
        i := i + 1;
      }
    }

    /** `handleFileSelection`: list the recordings once, then up and down move the
        cursor with wrap-around and enter or space ask to load the selected one. */
    method HandleFileSelection(justPressed: set<int>, listing: seq<string>) returns (outcome: Outcome)
      requires Valid()
      modifies this
      ensures Valid()
      ensures PickerStep(old(recordingFiles), old(selectedIndex), old(recordingPath),
                         recordingFiles, selectedIndex, recordingPath, justPressed, listing, outcome)
      ensures time == old(time) && keyframes == old(keyframes) && objectMap == old(objectMap)
    {
      if recordingFiles.None? {
        recordingFiles := Some(listing);
      }
      var files := recordingFiles.value;
      outcome := Continue;
      if KeyUp in justPressed {
        selectedIndex := WrapUp(selectedIndex, |files|);
      } else if KeyDown in justPressed {
        selectedIndex := WrapDown(selectedIndex, |files|);
      } else if KeyEnter in justPressed || KeySpace in justPressed {
        if files != [] {
          var path := files[selectedIndex];
          recordingPath := Some(path);
          outcome := Load(path);
        }
      }
    }

    /** `update`: escape exits; without a recording the picker runs; otherwise the
        cursor advances by `dt`, is clamped to the last keyframe's time, and the
        objects are reconciled against the bracketing pair. */
    method Update(dt: real, justPressed: set<int>, listing: seq<string>) returns (outcome: Outcome)
      requires Valid()
      modifies this
      ensures Valid()
      ensures KeyEscape in justPressed ==> outcome == Exit && time == old(time) && objectMap == old(objectMap)
      ensures keyframes == old(keyframes)
      ensures KeyEscape !in justPressed && old(recordingPath).None? ==>
                PickerStep(old(recordingFiles), old(selectedIndex), old(recordingPath),
                           recordingFiles, selectedIndex, recordingPath, justPressed, listing, outcome)
                && time == old(time) && objectMap == old(objectMap)
      ensures KeyEscape !in justPressed && old(recordingPath).Some? ==>
                outcome == Continue
                && (keyframes == [] ==> time == old(time) && objectMap == old(objectMap))
                && (keyframes != [] ==>
                      time == Min(old(time) + dt, keyframes[|keyframes| - 1].t)
                      && var (ia, ib) := SegmentOf(keyframes, time);
                         ReconciledMap(old(objectMap), objectMap, LastById(keyframes[ia].entities), LastById(keyframes[ib].entities),
                                       BlendFactor(keyframes[ia].t, keyframes[ib].t, time)))
    {
      if KeyEscape in justPressed {
        return Exit;
      }
      if recordingPath.None? {
        outcome := HandleFileSelection(justPressed, listing);
        return;
      }
      outcome := Continue;
      if keyframes == [] {
        return;
      }
      time := time + dt;
      var lastT := keyframes[|keyframes| - 1].t;
      if time > lastT {
        time := lastT;
      }
      var ia, ib := FindSegment(time);
      var u := BlendFactor(keyframes[ia].t, keyframes[ib].t, time);
      UpdateInterpolatedPositions(keyframes[ia], keyframes[ib], u);
    }
  }
}
