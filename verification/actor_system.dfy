/** The actor directory: actors registered under their own ids, message
    delivery by id or to everyone, removal, shutdown, and a monitoring task
    scheduled at most once. The scheduler thread pool is reduced to a count of
    scheduled tasks and a shut-down flag. */
module ActorSystem {
  import opened Common
  import opened Actor

  class ActorSystem {
    var actors: map<string, Actor>
    /** Whether `startMonitoring` has run. */
    var started: bool
    /** The number of monitoring tasks handed to the scheduler. */
    var monitoringTasks: nat
    var schedulerShutDown: bool

    /** Every actor is registered under its own id and is itself consistent;
        there is at most one monitoring task, none before monitoring has started
        and none once the scheduler is shut down. */
    ghost predicate Valid()
      reads this, actors.Values
    {
      (forall id :: id in actors ==> actors[id].actorId == id && actors[id].Valid())
      && monitoringTasks <= 1
      && (!started ==> monitoringTasks == 0)
      && (schedulerShutDown ==> monitoringTasks == 0)
    }

    constructor()
      ensures Valid() && actors == map[] && !started && !schedulerShutDown && monitoringTasks == 0
    {
      actors := map[];
      started := false;
      monitoringTasks := 0;
      schedulerShutDown := false;
    }

    /** `getActor` */
    function Get(actorId: string): (r: Option<Actor>)
      reads this
      ensures r.Some? <==> actorId in actors
      ensures r.Some? ==> r.value == actors[actorId]
    {
      if actorId in actors then Some(actors[actorId]) else None
    }

    /** `registerActor`: an actor whose id is free is added and started; when the
        id is taken nothing changes, neither the entry nor its actor. */
    method RegisterActor(a: Actor)
      requires Valid() && a.Valid()
      modifies this, a
      ensures Valid()
      ensures old(a.actorId in actors) ==> actors == old(actors) && a.State() == old(a.State())
      ensures !old(a.actorId in actors) ==>
                actors == old(actors)[a.actorId := a] && a.State() == Started(old(a.State()))
      ensures forall b :: b in old(actors.Values) && b != a ==> b.State() == old(b.State())
      ensures started == old(started) && monitoringTasks == old(monitoringTasks)
      ensures schedulerShutDown == old(schedulerShutDown)
    {
      if a.actorId in actors {
        return;
      }
      assert a !in actors.Values;
      actors := actors[a.actorId := a];
      a.Start();
    }

    /** `removeActor`: the entry goes and its actor is stopped; an unknown id
        changes nothing. */
    method RemoveActor(actorId: string)
      requires Valid()
      modifies this, actors.Values
      ensures Valid()
      ensures actors == old(actors) - {actorId}
      ensures actorId in old(actors) ==> old(actors[actorId]).State() == Stopped(old(actors[actorId].State()))
      ensures forall id :: id in actors ==> actors[id].State() == old(actors[id].State())
      ensures started == old(started) && monitoringTasks == old(monitoringTasks)
      ensures schedulerShutDown == old(schedulerShutDown)
    {
      if actorId !in actors {
        return;
      }
      var a := actors[actorId];
      actors := actors - {actorId};
      a.Stop();
    }

    /** `send`: false for an unknown id, otherwise exactly the target's `tell`. */
    method Send(targetId: string, m: Message) returns (ok: bool)
      requires Valid()
      modifies actors.Values
      ensures Valid()
      ensures targetId !in actors ==> !ok
      ensures targetId in actors ==>
                (actors[targetId].State(), ok) == Told(old(actors[targetId].State()), m, actors[targetId].mailboxCapacity)
      ensures forall id :: id in actors && id != targetId ==> actors[id].State() == old(actors[id].State())
    {
      if targetId !in actors {
        return false;
      }
      ok := actors[targetId].Tell(m);
    }

    /** `broadcast`: every registered actor is told, whatever the others answered. */
    method Broadcast(m: Message)
      requires Valid()
      modifies actors.Values
      ensures Valid()
      ensures forall id :: id in actors ==>
                actors[id].State() == Told(old(actors[id].State()), m, actors[id].mailboxCapacity).0
    {
      var pending := actors.Keys;
      while pending != {}
        invariant pending <= actors.Keys
        invariant forall id :: id in actors ==> actors[id].Valid()
        invariant forall id :: id in actors ==>
                    actors[id].State() == if id in pending then old(actors[id].State())
                                          else Told(old(actors[id].State()), m, actors[id].mailboxCapacity).0
        modifies actors.Values
        decreases pending
      {
        var id :| id in pending;
        var _ := actors[id].Tell(m);
        pending := pending - {id};
      }
    }

    /** `startMonitoring`: the first call marks monitoring as started and hands
        the statistics task to the scheduler; every later call does nothing, so
        there is never more than one such task. The scheduler refuses the task,
        and the call throws (`threw`), when the period `intervalMs` is not
        positive or the scheduler is already shut down; monitoring then stays
        marked as started with no task. */
    method StartMonitoring(intervalMs: int) returns (threw: bool)
      requires Valid()
      modifies this
      ensures Valid() && started
      ensures threw <==> !old(started) && (schedulerShutDown || intervalMs <= 0)
      ensures monitoringTasks == if !old(started) && !threw then 1 else old(monitoringTasks)
      ensures actors == old(actors) && schedulerShutDown == old(schedulerShutDown)
    {
      threw := false;
      if !started {
        started := true;
        threw := ScheduleTask(intervalMs, intervalMs);
      }
    }

    /** `scheduleTask`, as `scheduleAtFixedRate` treats it: a non-positive
        period, or a scheduler already shut down, makes it throw (`threw`)
        without scheduling; otherwise one more task runs. */
    method ScheduleTask(delayMs: int, periodMs: int) returns (threw: bool)
      modifies this
      ensures threw <==> periodMs <= 0 || schedulerShutDown
      ensures monitoringTasks == if threw then old(monitoringTasks) else old(monitoringTasks) + 1
      ensures actors == old(actors) && started == old(started) && schedulerShutDown == old(schedulerShutDown)
    {
      if periodMs <= 0 || schedulerShutDown {
        return true;
      }
      monitoringTasks := monitoringTasks + 1;
      threw := false;
    }

    /** `shutdown`: every registered actor is stopped, the directory is emptied
        and the scheduler shut down, which cancels the periodic monitoring task
        (the default policy of a scheduled thread pool). */
    method Shutdown()
      requires Valid()
      modifies this, actors.Values
      ensures Valid() && actors == map[] && schedulerShutDown && monitoringTasks == 0
      ensures forall id :: id in old(actors) ==> old(actors[id]).State() == Stopped(old(actors[id].State()))
      ensures started == old(started)
    {
      var pending := actors.Keys;
      while pending != {}
        invariant pending <= actors.Keys
        invariant forall id :: id in actors ==> actors[id].Valid()
        invariant forall id :: id in actors ==>
                    actors[id].State() == if id in pending then old(actors[id].State()) else Stopped(old(actors[id].State()))
        modifies actors.Values
        decreases pending
      {
        var id :| id in pending;
        actors[id].Stop();
        pending := pending - {id};
      }
      actors := map[];
      schedulerShutDown := true;
      monitoringTasks := 0;
    }
  }
}
