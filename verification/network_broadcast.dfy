/** The broadcaster: an actor that turns game-state snapshots into a keyframe
    line for the network clients, at most one every 50 ms, and publishes it
    into the shared slot the server reads, where the last write wins. Its time
    stamp `t` is in milliseconds, while the client buffer samples in seconds. */
module NetworkBroadcastActor {
  import opened Common
  import opened Actor
  import opened RecordingJson
  import NetworkBuffer

  const ActorName: string := "NetworkBroadcast"
  const MailboxCapacity: nat := 5000
  /** The smallest gap between two publications, in milliseconds (20 Hz). */
  const BroadcastIntervalMs: int := 50

  // ---------------------------------------------------------------------------
  // The published line
  // ---------------------------------------------------------------------------

  /** `,"color":[` */
  const ColorTag: string := ",\"color\":["

  /** The colour part of an entity record: the RGBA array of the render
      component, or nothing without one. */
  function ColorText(r: Option<RenderView>, num: real -> string): string
  {
    match r
    case None => ""
    case Some(v) =>
      ColorTag + Concat([num(v.color.r), ",", num(v.color.g), ",", num(v.color.b), ",", num(v.color.a), "]"])
  }

  /** The colour array is written exactly for objects with a render component. */
  lemma ColorOnlyWithRender(r: Option<RenderView>, num: real -> string)
    ensures ColorText(r, num) == "" <==> r.None?
    ensures r.Some? ==> OccursAt(ColorText(r, num), ColorTag, 0)
  {
    if r.Some? {
      var c := ColorText(r, num);
      assert c[..|ColorTag|] == ColorTag;
    }
  }

  /** The record of one visible object: wire id, position, and the colour when
      the object has a render component. */
  function EntityText(o: GameObj, num: real -> string): string
    requires o.Visible()
  {
    Concat(["{\"id\":\"", o.WireId(), "\",\"x\":", num(o.transform.value.x),
            ",\"y\":", num(o.transform.value.y), ColorText(o.render, num), "}"])
  }

  /** The records of the visible objects of a snapshot, in list order. */
  function EntityTexts(objs: seq<GameObj>, num: real -> string): seq<string>
  {
    if objs == [] then []
    else
      var o := objs[|objs| - 1];
      EntityTexts(objs[..|objs| - 1], num) + (if o.Visible() then [EntityText(o, num)] else [])
  }

  /** The records are those of the active objects with a transform, one each,
      in list order. */
  lemma {:induction false} EntityTextsSpec(objs: seq<GameObj>, num: real -> string)
    ensures |EntityTexts(objs, num)| == |VisibleObjects(objs)|
    ensures forall k :: 0 <= k < |VisibleObjects(objs)| ==>
              EntityTexts(objs, num)[k] == EntityText(VisibleObjects(objs)[k], num)
  {
    if objs != [] {
      EntityTextsSpec(objs[..|objs| - 1], num);
    }
  }

  /** One more object of the scan: a visible one adds its record, any other adds nothing. */
  lemma EntityStep(objs: seq<GameObj>, i: nat, num: real -> string)
    requires i < |objs|
    ensures EntityTexts(objs[..i + 1], num) ==
              EntityTexts(objs[..i], num) + (if objs[i].Visible() then [EntityText(objs[i], num)] else [])
  {
    assert objs[..i + 1][..i] == objs[..i];
  }

  /** `{"type":"kf","t":<stampMs>,"state":"<gameState>","entities":[` */
  function SnapshotPrefix(stampMs: int, gameState: string): string
  {
    "{" + NetworkBuffer.KeyframeTag + Concat([",\"t\":", IntToString(stampMs), ",\"state\":\"", gameState, "\",\"entities\":["])
  }

  /** The line `serializeGameState` builds; `stampMs` is the clock reading it takes. */
  function SnapshotLine(stampMs: int, gameState: string, objs: seq<GameObj>, num: real -> string): string
  {
    SnapshotPrefix(stampMs, gameState) + JoinComma(EntityTexts(objs, num)) + "]}"
  }

  /** Every published line carries the marker by which the client buffer
      recognises a keyframe, so the client never discards it as foreign. */
  lemma SnapshotIsKeyframe(stampMs: int, gameState: string, objs: seq<GameObj>, num: real -> string,
                           parse: string -> Option<real>)
    ensures NetworkBuffer.ParseJsonLine(SnapshotLine(stampMs, gameState, objs, num), parse).Some?
  {
    var tag := NetworkBuffer.KeyframeTag;
    var rest := Concat([",\"t\":", IntToString(stampMs), ",\"state\":\"", gameState, "\",\"entities\":["])
                + JoinComma(EntityTexts(objs, num)) + "]}";
    var line := "{" + tag + rest;
    assert SnapshotLine(stampMs, gameState, objs, num) == line;
    assert line[1..1 + |tag|] == tag;
    ContainsWitness(line, tag, 1);
  }

  // ---------------------------------------------------------------------------
  // The rate limiter
  // ---------------------------------------------------------------------------

  /** A snapshot handled at `now` is published iff at least the interval has
      passed since the last publication. */
  predicate Due(last: int, now: int)
  {
    now - last >= BroadcastIntervalMs
  }

  /** The times at which snapshots handled at `times` are published, when the
      last publication was at `last`. */
  function Publications(last: int, times: seq<int>): seq<int>
    decreases |times|
  {
    if times == [] then []
    else if Due(last, times[0]) then [times[0]] + Publications(times[0], times[1..])
    else Publications(last, times[1..])
  }

  /** The time of the latest publication, or `last` when there is none. */
  function LastPublication(last: int, pubs: seq<int>): int
  {
    if pubs == [] then last else pubs[|pubs| - 1]
  }

  /** Publications are among the handled times, the first comes at least an
      interval after `last`, and any two consecutive ones are at least an
      interval apart. */
  lemma {:induction false} PublicationsSpaced(last: int, times: seq<int>)
    ensures forall k :: 0 <= k < |Publications(last, times)| ==> Publications(last, times)[k] in times
    ensures Publications(last, times) != [] ==> Due(last, Publications(last, times)[0])
    ensures forall k :: 0 <= k < |Publications(last, times)| - 1 ==>
              Due(Publications(last, times)[k], Publications(last, times)[k + 1])
    decreases |times|
  {
    if times != [] {
      var rest := times[1..];
      if Due(last, times[0]) {
        PublicationsSpaced(times[0], rest);
        var p := Publications(times[0], rest);
        assert Publications(last, times) == [times[0]] + p;
        forall k | 0 <= k < |p| ensures p[k] in times {
          assert p[k] in rest;
        }
      } else {
        PublicationsSpaced(last, rest);
        var p := Publications(last, rest);
        forall k | 0 <= k < |p| ensures p[k] in times {
          assert p[k] in rest;
        }
      }
    }
  }

  /** Handling one more snapshot publishes it iff it is due after the latest
      publication so far. */
  lemma {:induction false} PublicationsSnoc(last: int, times: seq<int>, now: int)
    ensures var p := Publications(last, times);
            Publications(last, times + [now]) == p + (if Due(LastPublication(last, p), now) then [now] else [])
    decreases |times|
  {
    if times == [] {
      assert Publications(last, [now])
             == (if Due(last, now) then [now] + Publications(now, []) else Publications(last, []));
    } else {
      assert (times + [now])[1..] == times[1..] + [now];
      if Due(last, times[0]) {
        PublicationsSnoc(times[0], times[1..], now);
      } else {
        PublicationsSnoc(last, times[1..], now);
      }
    }
  }

  /** Two snapshots 10 ms apart publish once. */
  lemma TwoSnapshotsTenMsApart(last: int, t: int)
    requires Due(last, t)
    ensures Publications(last, [t, t + 10]) == [t]
  {
    assert [t, t + 10][1..] == [t + 10];
    assert Publications(t, [t + 10]) == Publications(t, []);
  }

  // ---------------------------------------------------------------------------
  // The actor
  // ---------------------------------------------------------------------------

  /** `NetworkBroadcastActor`: the mailbox machinery of its base actor, the
      time of the last publication, and the shared slot it writes. Its drop hook
      does nothing beyond being called. */
  class NetworkBroadcastActor {
    const base: Actor
    /** The formatter of a `float` appended to a `StringBuilder`. */
    const num: real -> string
    var lastBroadcastTime: int
    /** `NetState`'s last keyframe line, read by the server; None until the
        first publication. */
    var slot: Option<string>
    /** The clock readings of every snapshot handled, and of those published. */
    ghost var handled: seq<int>
    ghost var published: seq<int>

    /** The base actor is the broadcaster's, and the publications so far are
        exactly those the rate limiter allows over the snapshots handled. */
    ghost predicate Valid()
      reads this, base
    {
      base.Valid() && base.actorId == ActorName && base.mailboxCapacity == MailboxCapacity
      && published == Publications(0, handled)
      && lastBroadcastTime == LastPublication(0, published)
      && (slot.None? <==> published == [])
    }

    constructor(num: real -> string)
      ensures Valid() && fresh(base) && this.num == num
      ensures base.State() == ActorState(false, [], 0, 0, [])
      ensures base.actorId == ActorName && base.mailboxCapacity == MailboxCapacity
      ensures lastBroadcastTime == 0 && slot == None && handled == [] && published == []
    {
      base := new Actor(ActorName, MailboxCapacity);
      this.num := num;
      lastBroadcastTime := 0;
      slot := None;
      handled := [];
      published := [];
    }

    /** `serializeGameState` */
    static method Serialize(stampMs: int, gameState: string, objs: seq<GameObj>, num: real -> string)
      returns (json: string)
      ensures json == SnapshotLine(stampMs, gameState, objs, num)
    {
      var entities := "";
      var first := true;
      ghost var texts: seq<string> := [];
      var i := 0;
      while i < |objs|
        invariant 0 <= i <= |objs|
        invariant texts == EntityTexts(objs[..i], num)
        invariant first <==> texts == []
        invariant entities == JoinComma(texts)
      {
        EntityStep(objs, i, num);
        if objs[i].Visible() {
          var text := EntityText(objs[i], num);
          JoinCommaSnoc(texts, text);
          if !first {
            entities := entities + ",";
          }
          entities := entities + text;
          texts := texts + [text];
          first := false;
        }
        i := i + 1;
      }
      assert objs[..|objs|] == objs;
      json := SnapshotPrefix(stampMs, gameState) + entities + "]}";
    }

    /** `handleGameStateSnapshot`: `now` is the rate limiter's clock reading and
        `stampMs` the one written into the line. Within the interval nothing
        changes; otherwise the time is remembered and the line overwrites the slot. */
    method HandleSnapshot(objs: seq<GameObj>, gameState: string, now: int, stampMs: int)
      requires Valid()
      modifies this
      ensures Valid()
      ensures !Due(old(lastBroadcastTime), now) ==>
                lastBroadcastTime == old(lastBroadcastTime) && slot == old(slot) && published == old(published)
      ensures Due(old(lastBroadcastTime), now) ==>
                lastBroadcastTime == now && slot == Some(SnapshotLine(stampMs, gameState, objs, num))
                && published == old(published) + [now]
      ensures handled == old(handled) + [now]
    {
      PublicationsSnoc(0, handled, now);
      handled := handled + [now];
      if now - lastBroadcastTime < BroadcastIntervalMs {
        return;
      }
      lastBroadcastTime := now;
      published := published + [now];
      var json := Serialize(stampMs, gameState, objs, num);
      slot := Some(json);
    }

    /** `onReceive`: snapshots are handled, every other message is ignored. */
    method OnReceive(m: Message, now: int, stampMs: int)
      requires Valid()
      modifies this
      ensures Valid()
      ensures m.OtherMessage? ==>
                lastBroadcastTime == old(lastBroadcastTime) && slot == old(slot) && handled == old(handled)
      ensures m.GameStateSnapshot? ==>
                handled == old(handled) + [now]
                && (Due(old(lastBroadcastTime), now) <==> lastBroadcastTime == now && published == old(published) + [now])
                && (Due(old(lastBroadcastTime), now) ==>
                      slot == Some(SnapshotLine(stampMs, m.gameState, m.gameObjects, num)))
                && (!Due(old(lastBroadcastTime), now) ==> slot == old(slot))
    {
      if m.GameStateSnapshot? {
        HandleSnapshot(m.gameObjects, m.gameState, now, stampMs);
      }
    }

    /** One turn of the inherited processing loop with this actor's handler;
        the handler never throws. */
    method ProcessOne(now: int, stampMs: int) returns (m: Option<Message>)
      requires Valid()
      modifies this, base
      ensures Valid()
      ensures base.State() == Processed(old(base.State()), false)
      ensures m.Some? ==> old(base.mailbox) != [] && m.value == old(base.mailbox)[0]
      ensures m.None? || m.value.OtherMessage? ==>
                lastBroadcastTime == old(lastBroadcastTime) && slot == old(slot) && handled == old(handled)
      ensures m.Some? && m.value.GameStateSnapshot? ==>
                handled == old(handled) + [now]
                && (Due(old(lastBroadcastTime), now) ==>
                      slot == Some(SnapshotLine(stampMs, m.value.gameState, m.value.gameObjects, num)))
                && (!Due(old(lastBroadcastTime), now) ==> slot == old(slot))
    {
      m := base.ProcessOne(false);
      if m.Some? {
        OnReceive(m.value, now, stampMs);
      }
    }
  }
}
