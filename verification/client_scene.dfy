/** The client's scene: each frame it takes the keyframe sampled from the
    network buffer and reconciles its mirror objects with it, one mirror per
    entity id, named by that id. Mirrors are values held in the `objects`
    list; every mirror carries a transform and a render component, so only
    their position and colour are kept. The colour a new mirror gets from its
    base name (`createVisualObject`'s styling) is the parameter `style`. */
module ClientScene {
  import opened Common
  import NetworkBuffer

  /** A mirror object: its name is the full entity id, its kind the base name
      it was styled by. */
  datatype Mirror = Mirror(name: string, kind: string, position: Vec2, color: Rgba, active: bool)

  const InitialState: string := "PLAYING"

  // ---------------------------------------------------------------------------
  // Base names
  // ---------------------------------------------------------------------------

  /** The index of the first `#` in `id`, or its length when there is none. */
  function HashIndex(id: string): (i: nat)
    ensures i <= |id|
    ensures forall k :: 0 <= k < i ==> id[k] != '#'
    ensures i < |id| ==> id[i] == '#'
  {
    if id == [] then 0
    else if id[0] == '#' then 0
    else 1 + HashIndex(id[1..])
  }

  /** The base name of an entity id: the part before the first `#`, or the
      whole id when it has none. */
  function BaseName(id: string): (b: string)
    ensures b <= id && '#' !in b
    ensures '#' !in id ==> b == id
    ensures |b| < |id| ==> id[|b|] == '#'
  {
    id[..HashIndex(id)]
  }

  /** A base name followed by `#` and a suffix has that base name. */
  lemma BaseNameOfSuffixed(base: string, suffix: string)
    requires '#' !in base
    ensures BaseName(base + "#" + suffix) == base
  {
    var id := base + "#" + suffix;
    assert id[|base|] == '#';
    assert forall k :: 0 <= k < |base| ==> id[k] == base[k];
  }

  // ---------------------------------------------------------------------------
  // Mirrors
  // ---------------------------------------------------------------------------

  /** No two mirrors share a name. */
  predicate Distinct(objs: seq<Mirror>)
  {
    forall i, j :: 0 <= i < j < |objs| ==> objs[i].name != objs[j].name
  }

  /** Some mirror is named `id`. */
  predicate Named(objs: seq<Mirror>, id: string)
  {
    exists k :: 0 <= k < |objs| && objs[k].name == id
  }

  /** The index of the first mirror named `id`, or the length when there is none. */
  function NameIndex(objs: seq<Mirror>, id: string): (k: nat)
    ensures k <= |objs|
    ensures forall j :: 0 <= j < k ==> objs[j].name != id
    ensures k < |objs| ==> objs[k].name == id
  {
    if objs == [] then 0
    else if objs[0].name == id then 0
    else 1 + NameIndex(objs[1..], id)
  }

  /** A new mirror, at the origin and styled by its base name. */
  function Created(id: string, style: string -> Rgba): Mirror
  {
    Mirror(id, BaseName(id), Vec2(0.0, 0.0), style(BaseName(id)), true)
  }

  /** A mirror showing the entity: position and colour copied from it. */
  predicate Shows(m: Mirror, e: NetworkBuffer.Entity)
  {
    m.position == Vec2(e.x, e.y) && m.color == e.color
  }

  /** The first `n` entities all have an id. */
  predicate IdsBelow(es: seq<NetworkBuffer.Entity>, n: nat)
    requires n <= |es|
  {
    forall k :: 0 <= k < n ==> es[k].id.Some?
  }

  /** The index of the first entity without an id, or the length when all have one. */
  function FirstNullId(es: seq<NetworkBuffer.Entity>, from: nat): (i: nat)
    requires from <= |es| && IdsBelow(es, from)
    ensures from <= i <= |es| && IdsBelow(es, i)
    ensures i < |es| ==> es[i].id.None?
    decreases |es| - from
  {
    if from == |es| || es[from].id.None? then from
    else FirstNullId(es, from + 1)
  }

  /** The search for a null id may start anywhere before it. */
  lemma {:induction false} FirstNullIdFrom(es: seq<NetworkBuffer.Entity>, from: nat)
    requires from <= |es| && IdsBelow(es, from)
    ensures FirstNullId(es, 0) == FirstNullId(es, from)
    decreases from
  {
    if from > 0 {
      FirstNullIdFrom(es, from - 1);
    }
  }

  /** The ids of the first `n` entities (`receivedIds` after `n` iterations). */
  function IdsUpTo(es: seq<NetworkBuffer.Entity>, n: nat): set<string>
    requires n <= |es|
  {
    if n == 0 then {}
    else IdsUpTo(es, n - 1) + (if es[n - 1].id.Some? then {es[n - 1].id.value} else {})
  }

  /** The last of the first `n` entities with id `id`. */
  function LastWith(es: seq<NetworkBuffer.Entity>, n: nat, id: string): (r: Option<NetworkBuffer.Entity>)
    requires n <= |es|
    ensures r.Some? ==> r.value in es && r.value.id == Some(id)
    ensures r.Some? <==> id in IdsUpTo(es, n)
  {
    if n == 0 then None
    else if es[n - 1].id == Some(id) then Some(es[n - 1])
    else LastWith(es, n - 1, id)
  }

  /** The received ids are the ids of the whole keyframe. */
  lemma {:induction false} IdsUpToAll(es: seq<NetworkBuffer.Entity>, n: nat)
    requires n <= |es|
    ensures IdsUpTo(es, n) == NetworkBuffer.Ids(es[..n])
  {
    if n > 0 {
      IdsUpToAll(es, n - 1);
      assert es[..n][..n - 1] == es[..n - 1];
    }
  }

  /** One iteration of the reconciliation loop: the mirror named by the
      entity's id, found or appended, is set to show the entity. */
  function ApplyEntity(objs: seq<Mirror>, e: NetworkBuffer.Entity, style: string -> Rgba): seq<Mirror>
    requires e.id.Some?
  {
    var k := NameIndex(objs, e.id.value);
    var found := if k < |objs| then objs else objs + [Created(e.id.value, style)];
    found[k := found[k].(position := Vec2(e.x, e.y), color := e.color)]
  }

  /** One iteration keeps the names distinct and adds at most one mirror; the
      mirrors already there keep their places and names, and those with
      another name are untouched. */
  lemma ApplyEntityShape(objs: seq<Mirror>, e: NetworkBuffer.Entity, style: string -> Rgba)
    requires Distinct(objs) && e.id.Some?
    ensures var r := ApplyEntity(objs, e, style);
            Distinct(r) && |objs| <= |r| <= |objs| + 1
            && (forall j :: 0 <= j < |objs| ==> r[j].name == objs[j].name)
            && (forall j :: 0 <= j < |objs| && objs[j].name != e.id.value ==> r[j] == objs[j])
            && (|r| > |objs| ==> r[|objs|].name == e.id.value)
  {
  }

  /** After one iteration a mirror is named by the entity's id, and the mirror
      so named shows the entity. */
  lemma ApplyEntityShows(objs: seq<Mirror>, e: NetworkBuffer.Entity, style: string -> Rgba)
    requires Distinct(objs) && e.id.Some?
    ensures var r := ApplyEntity(objs, e, style);
            Named(r, e.id.value)
            && (forall j :: 0 <= j < |r| && r[j].name == e.id.value ==> Shows(r[j], e))
  {
    var k := NameIndex(objs, e.id.value);
    assert ApplyEntity(objs, e, style)[k].name == e.id.value;
  }

  /** A mirror is appended exactly when none had the entity's id; it is
      active, of the id's base name, and shows the entity (the colour it was
      styled with is overwritten by the entity's). */
  lemma ApplyEntityCreates(objs: seq<Mirror>, e: NetworkBuffer.Entity, style: string -> Rgba)
    requires e.id.Some?
    ensures var r := ApplyEntity(objs, e, style);
            var id := e.id.value;
            (|r| > |objs| <==> !Named(objs, id))
            && (|r| > |objs| ==> r == objs + [Mirror(id, BaseName(id), Vec2(e.x, e.y), e.color, true)])
  {
    var id := e.id.value;
    var k := NameIndex(objs, id);
    var r := ApplyEntity(objs, e, style);
    if k < |objs| {
      assert Named(objs, id);
    } else {
      var created := Mirror(id, BaseName(id), Vec2(e.x, e.y), e.color, true);
      var found := objs + [Created(id, style)];
      assert k == |objs| && r == found[k := found[k].(position := Vec2(e.x, e.y), color := e.color)];
      assert |r| == |objs| + 1 && r[k] == created;
      assert forall j :: 0 <= j < |r| ==> r[j] == (objs + [created])[j];
    }
  }

  /** The mirrors after the reconciliation loop has run over the first `n`
      entities. */
  function MirrorUpTo(objs: seq<Mirror>, es: seq<NetworkBuffer.Entity>, n: nat, style: string -> Rgba): seq<Mirror>
    requires n <= |es| && IdsBelow(es, n)
  {
    if n == 0 then objs
    else ApplyEntity(MirrorUpTo(objs, es, n - 1, style), es[n - 1], style)
  }

  /** One more entity with an id: the loop applies it to the mirrors so far
      and receives its id. */
  lemma MirrorUpToStep(objs: seq<Mirror>, es: seq<NetworkBuffer.Entity>, i: nat, style: string -> Rgba)
    requires i < |es| && IdsBelow(es, i) && es[i].id.Some?
    ensures IdsBelow(es, i + 1)
    ensures MirrorUpTo(objs, es, i + 1, style) == ApplyEntity(MirrorUpTo(objs, es, i, style), es[i], style)
    ensures IdsUpTo(es, i + 1) == IdsUpTo(es, i) + {es[i].id.value}
  {
  }

  /** The reconciliation loop keeps mirror names unique. */
  lemma {:induction false} MirrorDistinct(objs: seq<Mirror>, es: seq<NetworkBuffer.Entity>, n: nat, style: string -> Rgba)
    requires Distinct(objs) && n <= |es| && IdsBelow(es, n)
    ensures Distinct(MirrorUpTo(objs, es, n, style))
  {
    if n > 0 {
      MirrorDistinct(objs, es, n - 1, style);
      ApplyEntityShape(MirrorUpTo(objs, es, n - 1, style), es[n - 1], style);
    }
  }

  /** After the reconciliation loop the names stay distinct, and the old
      mirrors keep their places and names; those not named by any entity are
      untouched. */
  lemma {:induction false} MirrorShape(objs: seq<Mirror>, es: seq<NetworkBuffer.Entity>, n: nat, style: string -> Rgba)
    requires Distinct(objs) && n <= |es| && IdsBelow(es, n)
    ensures var r := MirrorUpTo(objs, es, n, style);
            Distinct(r) && |r| >= |objs|
            && (forall j :: 0 <= j < |objs| ==> r[j].name == objs[j].name)
            && (forall j :: 0 <= j < |objs| && objs[j].name !in IdsUpTo(es, n) ==> r[j] == objs[j])
  {
    if n > 0 {
      MirrorShape(objs, es, n - 1, style);
      ApplyEntityShape(MirrorUpTo(objs, es, n - 1, style), es[n - 1], style);
    }
  }

  /** Each of the first `n` entity ids names a mirror. */
  ghost predicate NamesAll(r: seq<Mirror>, es: seq<NetworkBuffer.Entity>, n: nat)
    requires n <= |es|
  {
    forall id :: id in IdsUpTo(es, n) ==> Named(r, id)
  }

  /** One iteration of the reconciliation loop keeps `NamesAll`. */
  lemma NamesAllStep(r0: seq<Mirror>, es: seq<NetworkBuffer.Entity>, n: nat, style: string -> Rgba)
    requires 0 < n <= |es| && es[n - 1].id.Some? && NamesAll(r0, es, n - 1)
    ensures NamesAll(ApplyEntity(r0, es[n - 1], style), es, n)
  {
    var e := es[n - 1];
    var k := NameIndex(r0, e.id.value);
    var r := ApplyEntity(r0, e, style);
    forall id | id in IdsUpTo(es, n)
      ensures Named(r, id)
    {
      if id == e.id.value {
        assert r[k].name == id;
      } else {
        assert id in IdsUpTo(es, n - 1);
        var j :| 0 <= j < |r0| && r0[j].name == id;
        assert r[j].name == id;
      }
    }
  }

  /** After the reconciliation loop every entity id names a mirror. */
  lemma {:induction false} MirrorNamed(objs: seq<Mirror>, es: seq<NetworkBuffer.Entity>, n: nat, style: string -> Rgba)
    requires n <= |es| && IdsBelow(es, n)
    ensures NamesAll(MirrorUpTo(objs, es, n, style), es, n)
  {
    if n > 0 {
      MirrorNamed(objs, es, n - 1, style);
      NamesAllStep(MirrorUpTo(objs, es, n - 1, style), es, n, style);
    }
  }

  /** Every mirror named by one of the first `n` entity ids shows the last
      entity with that id. */
  ghost predicate ShowsLast(r: seq<Mirror>, es: seq<NetworkBuffer.Entity>, n: nat)
    requires n <= |es|
  {
    forall j :: 0 <= j < |r| ==> var w := LastWith(es, n, r[j].name); w.Some? ==> Shows(r[j], w.value)
  }

  /** One iteration of the reconciliation loop keeps `ShowsLast`. */
  lemma ShowsLastStep(r0: seq<Mirror>, es: seq<NetworkBuffer.Entity>, n: nat, style: string -> Rgba)
    requires 0 < n <= |es| && es[n - 1].id.Some? && Distinct(r0) && ShowsLast(r0, es, n - 1)
    ensures ShowsLast(ApplyEntity(r0, es[n - 1], style), es, n)
  {
    var e := es[n - 1];
    var id := e.id.value;
    var k := NameIndex(r0, id);
    var r := ApplyEntity(r0, e, style);
    forall j | 0 <= j < |r|
      ensures var w := LastWith(es, n, r[j].name); w.Some? ==> Shows(r[j], w.value)
    {
      if j != k {
        assert j < |r0| && r[j] == r0[j];
        assert r0[j].name != id by {
          if j > k {
            assert r0[k].name == id;
          }
        }
        assert LastWith(es, n, r[j].name) == LastWith(es, n - 1, r0[j].name);
      }
    }
  }

  /** After the reconciliation loop every mirror named by an entity id shows
      the last entity with that id. */
  lemma {:induction false} MirrorShows(objs: seq<Mirror>, es: seq<NetworkBuffer.Entity>, n: nat, style: string -> Rgba)
    requires Distinct(objs) && n <= |es| && IdsBelow(es, n)
    ensures ShowsLast(MirrorUpTo(objs, es, n, style), es, n)
  {
    if n > 0 {
      MirrorShows(objs, es, n - 1, style);
      MirrorDistinct(objs, es, n - 1, style);
      ShowsLastStep(MirrorUpTo(objs, es, n - 1, style), es, n, style);
    }
  }

  /** The mirrors whose name is among `ids`, in order. */
  function Kept(objs: seq<Mirror>, ids: set<string>): (r: seq<Mirror>)
    ensures |r| <= |objs|
  {
    if objs == [] then []
    else
      var last := objs[|objs| - 1];
      Kept(objs[..|objs| - 1], ids) + (if last.name in ids then [last] else [])
  }

  /** The mirrors whose name is not among `ids`, in order, deactivated. */
  function Dropped(objs: seq<Mirror>, ids: set<string>): seq<Mirror>
  {
    if objs == [] then []
    else
      var last := objs[|objs| - 1];
      Dropped(objs[..|objs| - 1], ids) + (if last.name !in ids then [last.(active := false)] else [])
  }

  /** The removal loop splits the mirrors by whether their name was received:
      the received ones are kept, the others are deactivated and dropped. */
  lemma {:induction false} FilterMembers(objs: seq<Mirror>, ids: set<string>)
    ensures forall m :: m in Kept(objs, ids) <==> m in objs && m.name in ids
    ensures forall k :: 0 <= k < |Dropped(objs, ids)| ==> !Dropped(objs, ids)[k].active && Dropped(objs, ids)[k].name !in ids
    ensures forall m :: m in objs && m.name !in ids ==> m.(active := false) in Dropped(objs, ids)
  {
    if objs != [] {
      var init := objs[..|objs| - 1];
      FilterMembers(init, ids);
      assert objs == init + [objs[|objs| - 1]];
    }
  }

  /** One more mirror is one more iteration of the removal loop. */
  lemma FilterSnoc(objs: seq<Mirror>, j: nat, ids: set<string>)
    requires j < |objs|
    ensures Kept(objs[..j + 1], ids) == Kept(objs[..j], ids) + (if objs[j].name in ids then [objs[j]] else [])
    ensures Dropped(objs[..j + 1], ids) == Dropped(objs[..j], ids) + (if objs[j].name !in ids then [objs[j].(active := false)] else [])
  {
    assert objs[..j + 1][..j] == objs[..j];
  }

  lemma {:induction false} KeptDistinct(objs: seq<Mirror>, ids: set<string>)
    requires Distinct(objs)
    ensures Distinct(Kept(objs, ids))
  {
    if objs != [] {
      var init := objs[..|objs| - 1];
      var last := objs[|objs| - 1];
      KeptDistinct(init, ids);
      FilterMembers(init, ids);
      forall m | m in Kept(init, ids)
        ensures m.name != last.name
      {
        var k :| 0 <= k < |init| && init[k] == m;
        assert objs[k] == m;
      }
    }
  }

  /** What a full reconciliation leaves: exactly one mirror per received id,
      showing the last entity with that id, and no mirror whose name was not
      received. */
  lemma {:induction false} Reconciled(objs: seq<Mirror>, es: seq<NetworkBuffer.Entity>, style: string -> Rgba)
    requires Distinct(objs) && IdsBelow(es, |es|)
    ensures var ids := IdsUpTo(es, |es|);
            var r := Kept(MirrorUpTo(objs, es, |es|, style), ids);
            ids == NetworkBuffer.Ids(es)
            && Distinct(r)
            && (forall k :: 0 <= k < |r| ==> r[k].name in ids)
            && (forall id :: id in ids ==> Named(r, id))
            && (forall k :: 0 <= k < |r| ==> Shows(r[k], LastWith(es, |es|, r[k].name).value))
  {
    IdsUpToAll(es, |es|);
    assert es[..|es|] == es;
    var m := MirrorUpTo(objs, es, |es|, style);
    MirrorDistinct(objs, es, |es|, style);
    MirrorNamed(objs, es, |es|, style);
    MirrorShows(objs, es, |es|, style);
    KeptShows(m, es);
  }

  /** Keeping the received mirrors of a list in which every received id names
      a mirror and every such mirror shows its entity. */
  lemma KeptShows(m: seq<Mirror>, es: seq<NetworkBuffer.Entity>)
    requires Distinct(m) && NamesAll(m, es, |es|) && ShowsLast(m, es, |es|)
    ensures var ids := IdsUpTo(es, |es|);
            var r := Kept(m, ids);
            Distinct(r)
            && (forall k :: 0 <= k < |r| ==> r[k].name in ids)
            && (forall id :: id in ids ==> Named(r, id))
            && (forall k :: 0 <= k < |r| ==> Shows(r[k], LastWith(es, |es|, r[k].name).value))
  {
    var ids := IdsUpTo(es, |es|);
    KeptDistinct(m, ids);
    FilterMembers(m, ids);
    var r := Kept(m, ids);
    forall id | id in ids
      ensures Named(r, id)
    {
      var k :| 0 <= k < |m| && m[k].name == id;
      var x := m[k];
      assert x in m && x.name in ids;
      assert x in r;
      var j :| 0 <= j < |r| && r[j] == x;
    }
    forall k | 0 <= k < |r|
      ensures r[k].name in ids && Shows(r[k], LastWith(es, |es|, r[k].name).value)
    {
      var x := r[k];
      assert x in r;
      assert x in m;
      var j :| 0 <= j < |m| && m[j] == x;
      assert LastWith(es, |es|, m[j].name).Some?;
    }
  }

  class ClientScene {
    var currentGameState: string
    var objects: seq<Mirror>

    /** Mirror names are unique. */
    ghost predicate Valid()
      reads this
    {
      Distinct(objects)
    }

    constructor()
      ensures Valid() && currentGameState == InitialState && objects == []
    {
      currentGameState := InitialState;
      objects := [];
    }

    /** `findOrCreateMirror`: the first mirror named `id`, or a new one
        appended to the list. */
    method FindOrCreateMirror(id: string, style: string -> Rgba) returns (k: nat)
      requires Valid()
      modifies this
      ensures Valid()
      ensures k == NameIndex(old(objects), id) && k < |objects| && objects[k].name == id
      ensures objects == if k < |old(objects)| then old(objects) else old(objects) + [Created(id, style)]
      ensures currentGameState == old(currentGameState)
    {
      k := 0;
      while k < |objects|
        invariant 0 <= k <= |objects|
        invariant forall j :: 0 <= j < k ==> objects[j].name != id
      {
        if id == objects[k].name {
          return;
        }
        k := k + 1;
      }
      objects := objects + [Created(id, style)];
    }

    /** `update`: with no keyframe nothing changes. Otherwise the state is
        copied; each entity's mirror is found or created and set to show it;
        then every mirror whose name was not received is deactivated and
        removed, and is returned in `removed`. An entity without an id throws
        (`threw`) at its turn, after the entities before it were mirrored and
        before anything is removed. */
    method Update(kf: Option<NetworkBuffer.Keyframe>, style: string -> Rgba) returns (threw: bool, removed: seq<Mirror>)
      requires Valid()
      modifies this
      ensures Valid()
      ensures kf.None? ==> !threw && removed == [] && objects == old(objects) && currentGameState == old(currentGameState)
      ensures kf.Some? ==> currentGameState == kf.value.state
      ensures kf.Some? ==>
                var es := kf.value.entities;
                var n := FirstNullId(es, 0);
                threw == (n < |es|)
                && (threw ==> objects == MirrorUpTo(old(objects), es, n, style) && removed == [])
                && (!threw ==> objects == Kept(MirrorUpTo(old(objects), es, n, style), IdsUpTo(es, n))
                               && removed == Dropped(MirrorUpTo(old(objects), es, n, style), IdsUpTo(es, n)))
    {
      threw, removed := false, [];
      if kf.None? {
        return;
      }
      currentGameState := kf.value.state;
      var receivedIds;
      threw, receivedIds := MirrorEntities(kf.value.entities, style);
      if threw {
        return;
      }
      var kept;
      kept, removed := Partition(objects, receivedIds);
      KeptDistinct(objects, receivedIds);
      objects := kept;
    }

    /** The first loop of `update`: each entity's mirror is found or created
        and set to show it, and its id is received; an entity without an id
        throws. */
    method MirrorEntities(es: seq<NetworkBuffer.Entity>, style: string -> Rgba) returns (threw: bool, receivedIds: set<string>)
      requires Valid()
      modifies this
      ensures Valid() && currentGameState == old(currentGameState)
      ensures var n := FirstNullId(es, 0);
              threw == (n < |es|) && objects == MirrorUpTo(old(objects), es, n, style)
              && receivedIds == IdsUpTo(es, n)
    {
      threw, receivedIds := false, {};
      var i := 0;
      while i < |es|
        invariant 0 <= i <= |es| && IdsBelow(es, i)
        invariant currentGameState == old(currentGameState)
        invariant objects == MirrorUpTo(old(objects), es, i, style)
        invariant receivedIds == IdsUpTo(es, i)
      {
        MirrorDistinct(old(objects), es, i, style);
        var e := es[i];
        if e.id.None? {
          FirstNullIdFrom(es, i);
          return true, receivedIds;
        }
        MirrorUpToStep(old(objects), es, i, style);
        receivedIds := receivedIds + {e.id.value};
        ShowEntity(e, style);
        i := i + 1;
      }
      MirrorDistinct(old(objects), es, i, style);
      FirstNullIdFrom(es, i);
    }

    /** The body of the first loop of `update`: the mirror named by the
        entity's id is found or created, then moved to the entity's position
        and given its colour. */
    method ShowEntity(e: NetworkBuffer.Entity, style: string -> Rgba)
      requires Valid() && e.id.Some?
      modifies this
      ensures objects == ApplyEntity(old(objects), e, style) && currentGameState == old(currentGameState)
    {
      var k := FindOrCreateMirror(e.id.value, style);
      objects := objects[k := objects[k].(position := Vec2(e.x, e.y), color := e.color)];
    }

    /** The removal loop of `update`: the mirrors whose name was received are
        kept; the others are collected, deactivated. */
    static method Partition(all: seq<Mirror>, receivedIds: set<string>) returns (kept: seq<Mirror>, removed: seq<Mirror>)
      ensures kept == Kept(all, receivedIds) && removed == Dropped(all, receivedIds)
    {
      kept, removed := [], [];
      var j := 0;
      while j < |all|
        invariant 0 <= j <= |all|
        invariant kept == Kept(all[..j], receivedIds) && removed == Dropped(all[..j], receivedIds)
      {
        FilterSnoc(all, j, receivedIds);
        if all[j].name !in receivedIds {
          removed := removed + [all[j].(active := false)];
        } else {
          kept := kept + [all[j]];
        }
        j := j + 1;
      }
      assert all[..|all|] == all;
    }
  }
}
