/** The recorder: while recording it accumulates time, writes one input line
    per frame with newly pressed keys, and after a short warm-up writes a
    keyframe of every visible object each keyframe interval. Lines go into a
    bounded queue that drops a line rather than block when it is full; a writer
    drains the queue into storage, an append-only sequence of lines. */
module RecordingService {
  import opened Common
  import opened RecordingJson
  import ReplayScene

  /** Time after the first update before keyframes may be written. */
  const WarmupSec: real := 0.1

  /** `RecordingConfig`: the parts the recorder reads. The output path and
      the number of decimals live inside the storage and the formatter. */
  datatype Config = Config(keyframeIntervalSec: real, queueCapacity: nat)

  // ---------------------------------------------------------------------------
  // The recorded lines
  // ---------------------------------------------------------------------------

  /** The header enqueued by `start`. */
  function HeaderLine(width: int, height: int): string
  {
    "{\"type\":\"header\",\"version\":1,\"w\":" + IntToString(width) + ",\"h\":" + IntToString(height) + "}"
  }

  /** The keys of an input line, comma-separated in iteration order. */
  function KeyTexts(keys: seq<int>): (r: seq<string>)
    ensures |r| == |keys|
    ensures forall k :: 0 <= k < |r| ==> r[k] == IntToString(keys[k])
  {
    if keys == [] then [] else KeyTexts(keys[..|keys| - 1]) + [IntToString(keys[|keys| - 1])]
  }

  /** The input line enqueued by `update` for the keys pressed this frame. */
  function InputLine(t: real, keys: seq<int>, fmt: real -> string): string
  {
    "{\"type\":\"input\",\"t\":" + fmt(t) + ",\"keys\":[" + JoinComma(KeyTexts(keys)) + "]}"
  }

  /** `RenderType.name()` */
  function ShapeName(s: RenderType): string
  {
    match s
    case Rectangle => "RECTANGLE"
    case Circle => "CIRCLE"
  }

  /** The optional render part of an entity record: shape, size and colour. */
  function RenderText(r: Option<RenderView>, fmt: real -> string): string
  {
    match r
    case None => ""
    case Some(v) =>
      Concat([",\"rt\":\"", ShapeName(v.shape), "\",\"w\":", fmt(v.size.x), ",\"h\":", fmt(v.size.y),
              ",\"color\":[", fmt(v.color.r), ",", fmt(v.color.g), ",", fmt(v.color.b), ",", fmt(v.color.a), "]"])
  }

  /** The record of one visible object inside a keyframe. */
  function EntityText(o: GameObj, fmt: real -> string): string
    requires o.Visible()
  {
    Concat(["{\"id\":\"", o.WireId(), "\",\"x\":", fmt(o.transform.value.x),
            ",\"y\":", fmt(o.transform.value.y), RenderText(o.render, fmt), "}"])
  }

  /** The records of the visible objects of a scene, in list order. */
  function RecordedTexts(objs: seq<GameObj>, fmt: real -> string): seq<string>
  {
    if objs == [] then []
    else
      var o := objs[|objs| - 1];
      RecordedTexts(objs[..|objs| - 1], fmt) + (if o.Visible() then [EntityText(o, fmt)] else [])
  }

  /** The records are those of the visible objects, one each, in list order. */
  lemma {:induction false} RecordedTextsSpec(objs: seq<GameObj>, fmt: real -> string)
    ensures |RecordedTexts(objs, fmt)| == |VisibleObjects(objs)|
    ensures forall k :: 0 <= k < |VisibleObjects(objs)| ==>
              RecordedTexts(objs, fmt)[k] == EntityText(VisibleObjects(objs)[k], fmt)
  {
    if objs != [] {
      RecordedTextsSpec(objs[..|objs| - 1], fmt);
    }
  }

  /** The keyframe line `writeKeyframe` builds at time `t` over a scene's objects. */
  function KeyframeLine(t: real, objs: seq<GameObj>, fmt: real -> string): string
  {
    KeyframePrefix(t, fmt) + JoinComma(RecordedTexts(objs, fmt)) + "]}"
  }

  /** `{"type":"keyframe","t":<t>,"entities":[` */
  function KeyframePrefix(t: real, fmt: real -> string): string
  {
    "{" + ReplayScene.KeyframeTag + (",\"t\":" + fmt(t) + ",\"entities\":[")
  }

  /** One more object of the scan: a visible one adds its record, any other adds nothing. */
  lemma RecordStep(objs: seq<GameObj>, i: nat, fmt: real -> string)
    requires i < |objs|
    ensures RecordedTexts(objs[..i + 1], fmt) ==
              RecordedTexts(objs[..i], fmt) + (if objs[i].Visible() then [EntityText(objs[i], fmt)] else [])
  {
    assert objs[..i + 1][..i] == objs[..i];
  }

  /** Every keyframe line carries the marker by which the replay reader
      recognises keyframes. */
  lemma KeyframeLineIsReplayed(t: real, objs: seq<GameObj>, fmt: real -> string)
    ensures Contains(KeyframeLine(t, objs, fmt), ReplayScene.KeyframeTag)
  {
    var tag := ReplayScene.KeyframeTag;
    var rest := (",\"t\":" + fmt(t) + ",\"entities\":[") + JoinComma(RecordedTexts(objs, fmt)) + "]}";
    var line := "{" + tag + rest;
    assert KeyframeLine(t, objs, fmt) == line;
    assert line[1..1 + |tag|] == tag;
    ContainsWitness(line, tag, 1);
  }

  /** `offer` on a bounded queue: the line is appended when there is room and
      dropped otherwise. */
  function Offer(q: seq<string>, line: string, capacity: nat): seq<string>
  {
    if |q| < capacity then q + [line] else q
  }

  // ---------------------------------------------------------------------------
  // The recorder
  // ---------------------------------------------------------------------------

  class RecordingService {
    const config: Config
    /** The number formatter (`DecimalFormat` with the configured decimals). */
    const fmt: real -> string
    var lineQueue: seq<string>
    var recording: bool
    var elapsed: real
    var keyframeElapsed: real
    /** Whether `update` has remembered a scene for the final keyframe of `stop`. */
    var hasLastScene: bool
    /** What the writer has stored so far. */
    var written: seq<string>
    /** Every line the queue accepted, in order. */
    ghost var accepted: seq<string>

    /** The queue never holds more than its capacity, and storage followed by
        the queue is exactly what the queue accepted. */
    ghost predicate Valid()
      reads this
    {
      |lineQueue| <= config.queueCapacity && written + lineQueue == accepted
    }

    /** `ArrayBlockingQueue` refuses a capacity below one. */
    constructor(config: Config, fmt: real -> string)
      requires config.queueCapacity >= 1
      ensures Valid()
      ensures this.config == config && this.fmt == fmt
      ensures lineQueue == [] && written == [] && !recording && !hasLastScene
      ensures elapsed == 0.0 && keyframeElapsed == 0.0
    {
      this.config := config;
      this.fmt := fmt;
      lineQueue := [];
      recording := false;
      elapsed := 0.0;
      keyframeElapsed := 0.0;
      hasLastScene := false;
      written := [];
      accepted := [];
    }

    /** `enqueue`: never blocks; a line that does not fit is dropped. */
    method Enqueue(line: string) returns (offered: bool)
      requires Valid()
      modifies this
      ensures Valid()
      ensures offered <==> |old(lineQueue)| < config.queueCapacity
      ensures lineQueue == Offer(old(lineQueue), line, config.queueCapacity)
      ensures accepted == old(accepted) + (if offered then [line] else [])
      ensures written == old(written) && recording == old(recording) && elapsed == old(elapsed)
      ensures keyframeElapsed == old(keyframeElapsed) && hasLastScene == old(hasLastScene)
    {
      offered := |lineQueue| < config.queueCapacity;
      if offered {
        lineQueue := lineQueue + [line];
        accepted := accepted + [line];
      }
    }

    /** One step of the writer thread: the head line moves into storage. */
    method WriteOne()
      requires Valid()
      modifies this
      ensures Valid()
      ensures old(lineQueue) == [] ==> lineQueue == [] && written == old(written)
      ensures old(lineQueue) != [] ==>
                written == old(written) + [old(lineQueue)[0]] && lineQueue == old(lineQueue)[1..]
      ensures accepted == old(accepted) && recording == old(recording) && elapsed == old(elapsed)
      ensures keyframeElapsed == old(keyframeElapsed) && hasLastScene == old(hasLastScene)
    {
      if lineQueue != [] {
        written := written + [lineQueue[0]];
        lineQueue := lineQueue[1..];
      }
    }

    /** The writer thread's loop run to the end: once recording is off it keeps
        polling until the queue is empty, so storage ends up holding every line
        the queue ever accepted, in order. */
    method Drain()
      requires Valid()
      modifies this
      ensures Valid()
      ensures lineQueue == [] && written == accepted
      ensures written == old(written) + old(lineQueue)
      ensures accepted == old(accepted) && recording == old(recording) && elapsed == old(elapsed)
      ensures keyframeElapsed == old(keyframeElapsed) && hasLastScene == old(hasLastScene)
    {
      while lineQueue != []
        invariant Valid()
        invariant accepted == old(accepted) && recording == old(recording) && elapsed == old(elapsed)
        invariant keyframeElapsed == old(keyframeElapsed) && hasLastScene == old(hasLastScene)
        decreases |lineQueue|
      {
        WriteOne();
      }
      assert written + [] == written;
    }

    /** `start`: a no-op while recording; otherwise recording begins with the
        header line and a fresh keyframe timer. */
    method Start(width: int, height: int)
      requires Valid()
      modifies this
      ensures Valid()
      ensures old(recording) ==> lineQueue == old(lineQueue) && keyframeElapsed == old(keyframeElapsed)
                                 && accepted == old(accepted)
      ensures !old(recording) ==>
                recording && keyframeElapsed == 0.0
                && lineQueue == Offer(old(lineQueue), HeaderLine(width, height), config.queueCapacity)
      ensures recording && written == old(written) && elapsed == old(elapsed) && hasLastScene == old(hasLastScene)
    {
      if recording {
        return;
      }
      recording := true;
      var _ := Enqueue(HeaderLine(width, height));
      keyframeElapsed := 0.0;
    }

    /** `writeKeyframe`: a keyframe of the visible objects at the current
        elapsed time, enqueued only when there is at least one. */
    method WriteKeyframe(objs: seq<GameObj>) returns (ok: bool)
      requires Valid()
      modifies this
      ensures Valid()
      ensures ok <==> VisibleObjects(objs) != []
      ensures lineQueue == if ok then Offer(old(lineQueue), KeyframeLine(elapsed, objs, fmt), config.queueCapacity)
                           else old(lineQueue)
      ensures !ok ==> accepted == old(accepted)
      ensures written == old(written) && recording == old(recording) && elapsed == old(elapsed)
      ensures keyframeElapsed == old(keyframeElapsed) && hasLastScene == old(hasLastScene)
    {
      var line, count := BuildKeyframe(elapsed, objs, fmt);
      if count == 0 {
        return false;
      }
      var _ := Enqueue(line);
      ok := true;
    }

    /** The string building of `writeKeyframe`. */
    static method BuildKeyframe(t: real, objs: seq<GameObj>, fmt: real -> string) returns (line: string, count: nat)
      ensures line == KeyframeLine(t, objs, fmt)
      ensures count == |VisibleObjects(objs)|
    {
      var entities := "";
      var first := true;
      count := 0;
      ghost var texts: seq<string> := [];
      var i := 0;
      while i < |objs|
        invariant 0 <= i <= |objs|
        invariant texts == RecordedTexts(objs[..i], fmt)
        invariant count == |texts| && (first <==> texts == [])
        invariant entities == JoinComma(texts)
      {
        RecordStep(objs, i, fmt);
        if objs[i].Visible() {
          var text := EntityText(objs[i], fmt);
          JoinCommaSnoc(texts, text);
          if !first {
            entities := entities + ",";
          }
          entities := entities + text;
          texts := texts + [text];
          first := false;
          count := count + 1;
        }
        i := i + 1;
      }
      assert objs[..|objs|] == objs;
      RecordedTextsSpec(objs, fmt);
      line := KeyframePrefix(t, fmt) + entities + "]}";
    }

    /** The string building of the input line in `update`. */
    static method BuildInputLine(t: real, keys: seq<int>, fmt: real -> string) returns (line: string)
      ensures line == InputLine(t, keys, fmt)
    {
      var keyList := "";
      var first := true;
      var i := 0;
      while i < |keys|
        invariant 0 <= i <= |keys|
        invariant first <==> i == 0
        invariant keyList == JoinComma(KeyTexts(keys[..i]))
      {
        assert keys[..i + 1][..i] == keys[..i];
        JoinCommaSnoc(KeyTexts(keys[..i]), IntToString(keys[i]));
        if !first {
          keyList := keyList + ",";
        }
        keyList := keyList + IntToString(keys[i]);
        first := false;
        i := i + 1;
      }
      assert keys[..|keys|] == keys;
      line := "{\"type\":\"input\",\"t\":" + fmt(t) + ",\"keys\":[" + keyList + "]}";
    }

    /** `update`: while recording, time advances, an input line is written when
        keys were just pressed, and after the warm-up a keyframe is attempted once
        the interval has passed; the keyframe timer restarts only when one was
        written. `keys` is the just-pressed snapshot in its iteration order. */
    method Update(dt: real, objs: seq<GameObj>, keys: seq<int>)
      requires Valid()
      modifies this
      ensures Valid()
      ensures !old(recording) ==>
                lineQueue == old(lineQueue) && elapsed == old(elapsed) && keyframeElapsed == old(keyframeElapsed)
                && hasLastScene == old(hasLastScene) && accepted == old(accepted)
      ensures old(recording) ==>
                var q1 := if keys == [] then old(lineQueue)
                          else Offer(old(lineQueue), InputLine(elapsed, keys, fmt), config.queueCapacity);
                var due := elapsed >= WarmupSec && old(keyframeElapsed) + dt >= config.keyframeIntervalSec;
                var wrote := due && VisibleObjects(objs) != [];
                elapsed == old(elapsed) + dt && hasLastScene
                && keyframeElapsed == (if wrote then 0.0 else old(keyframeElapsed) + dt)
                && lineQueue == (if wrote then Offer(q1, KeyframeLine(elapsed, objs, fmt), config.queueCapacity) else q1)
      ensures written == old(written) && recording == old(recording)
    {
      if !recording {
        return;
      }
      elapsed := elapsed + dt;
      keyframeElapsed := keyframeElapsed + dt;
      hasLastScene := true;
      if keys != [] {
        var line := BuildInputLine(elapsed, keys, fmt);
        var _ := Enqueue(line);
      }
      if elapsed >= WarmupSec && keyframeElapsed >= config.keyframeIntervalSec {
        var ok := WriteKeyframe(objs);
        if ok {
          keyframeElapsed := 0.0;
        }
      }
    }

    /** `stop`: a no-op when not recording; otherwise a last keyframe of the
        remembered scene (its objects now are `objs`) is attempted before
        recording ends. */
    method Stop(objs: seq<GameObj>)
      requires Valid()
      modifies this
      ensures Valid()
      ensures !old(recording) ==> lineQueue == old(lineQueue) && accepted == old(accepted)
      ensures old(recording) ==>
                lineQueue == (if hasLastScene && VisibleObjects(objs) != []
                              then Offer(old(lineQueue), KeyframeLine(elapsed, objs, fmt), config.queueCapacity)
                              else old(lineQueue))
      ensures !recording
      ensures written == old(written) && elapsed == old(elapsed) && keyframeElapsed == old(keyframeElapsed)
      ensures hasLastScene == old(hasLastScene)
    {
      if !recording {
        return;
      }
      if hasLastScene {
        var _ := WriteKeyframe(objs);
      }
      recording := false;
    }
  }
}
