/** The mailbox actor, as a sequential state machine: a running flag, a bounded
    FIFO mailbox, and counters of processed and dropped messages. The worker
    thread becomes an explicit processing step; the overridable callbacks become
    entries in a log of hook calls. */
module Actor {
  import opened Common

  /** The messages the core exchanges: a game-state snapshot, or any other kind. */
  datatype Message =
    | GameStateSnapshot(gameObjects: seq<GameObj>, gameState: string)
    | OtherMessage(typeName: string)

  /** A call of one of the overridable callbacks. */
  datatype Hook = OnStart | OnStop | OnMessageDropped(message: Message) | OnError(message: Message)

  /** The mailbox capacity of `new Actor(id)`. */
  const DefaultMailboxCapacity: nat := 10000

  /** What the fields of an actor hold. */
  datatype ActorState = ActorState(running: bool, mailbox: seq<Message>, processed: nat, dropped: nat, hooks: seq<Hook>)

  /** `start`: only a stopped actor starts, calling `onStart`. */
  function Started(s: ActorState): ActorState
  {
    if s.running then s else s.(running := true, hooks := s.hooks + [OnStart])
  }

  /** `stop`: only a running actor stops, calling `onStop`. */
  function Stopped(s: ActorState): ActorState
  {
    if !s.running then s else s.(running := false, hooks := s.hooks + [OnStop])
  }

  /** `tell`: the new state and whether the message was queued. */
  function Told(s: ActorState, m: Message, capacity: nat): (ActorState, bool)
  {
    if !s.running then (s, false)
    else if |s.mailbox| < capacity then (s.(mailbox := s.mailbox + [m]), true)
    else (s.(dropped := s.dropped + 1, hooks := s.hooks + [OnMessageDropped(m)]), false)
  }

  /** One turn of the processing loop: while running, the head message is taken
      and handled; it counts as processed unless `onReceive` threw, in which case
      `onError` is called. A stopped actor or an empty mailbox takes no turn. */
  function Processed(s: ActorState, threw: bool): ActorState
  {
    if !s.running || s.mailbox == [] then s
    else if threw then s.(mailbox := s.mailbox[1..], hooks := s.hooks + [OnError(s.mailbox[0])])
    else s.(mailbox := s.mailbox[1..], processed := s.processed + 1)
  }

  /** Starting twice is starting once, stopping twice is stopping once, and a
      stopped actor starts again with its mailbox and counters intact. */
  lemma StartStopIdempotent(s: ActorState)
    ensures Started(Started(s)) == Started(s)
    ensures Stopped(Stopped(s)) == Stopped(s)
    ensures var r := Started(Stopped(s));
            r.running && r.mailbox == s.mailbox && r.processed == s.processed && r.dropped == s.dropped
  {
  }

  /** `tell` on a stopped actor refuses the message and changes nothing, not even
      the drop counter; on a running one it queues the message iff there is room,
      and otherwise counts exactly one drop and calls `onMessageDropped`. */
  lemma TellCases(s: ActorState, m: Message, capacity: nat)
    ensures !s.running ==> Told(s, m, capacity) == (s, false)
    ensures s.running ==> (Told(s, m, capacity).1 <==> |s.mailbox| < capacity)
    ensures s.running && |s.mailbox| < capacity ==>
              Told(s, m, capacity).0.mailbox == s.mailbox + [m] && Told(s, m, capacity).0.dropped == s.dropped
    ensures s.running && |s.mailbox| >= capacity ==>
              var r := Told(s, m, capacity).0;
              r.mailbox == s.mailbox && r.dropped == s.dropped + 1 && r.hooks == s.hooks + [OnMessageDropped(m)]
  {
  }

  /** No operation lets the mailbox grow past its capacity. */
  lemma MailboxBounded(s: ActorState, m: Message, capacity: nat, threw: bool)
    requires |s.mailbox| <= capacity
    ensures |Started(s).mailbox| <= capacity && |Stopped(s).mailbox| <= capacity
    ensures |Told(s, m, capacity).0.mailbox| <= capacity
    ensures |Processed(s, threw).mailbox| <= capacity
  {
  }

  /** Telling `ms` one after another. */
  function TellAll(s: ActorState, ms: seq<Message>, capacity: nat): ActorState
    decreases |ms|
  {
    if ms == [] then s else TellAll(Told(s, ms[0], capacity).0, ms[1..], capacity)
  }

  /** The mailbox is first-in first-out: messages told while there is room queue
      up behind those already waiting, in the order told, and a turn takes exactly
      the head. */
  lemma {:induction false} FifoOrder(s: ActorState, ms: seq<Message>, capacity: nat, threw: bool)
    requires s.running && |s.mailbox| + |ms| <= capacity
    ensures TellAll(s, ms, capacity).mailbox == s.mailbox + ms
    ensures s.mailbox != [] ==> Processed(s, threw).mailbox == s.mailbox[1..]
    decreases |ms|
  {
    if ms != [] {
      var s' := Told(s, ms[0], capacity).0;
      assert s'.running && s'.mailbox == s.mailbox + [ms[0]];
      assert TellAll(s, ms, capacity) == TellAll(s', ms[1..], capacity);
      FifoOrder(s', ms[1..], capacity, threw);
      assert s.mailbox + [ms[0]] + ms[1..] == s.mailbox + ms;
    }
  }

  /** `Actor`: identity, capacity and the state its methods update. */
  class Actor {
    const actorId: string
    const mailboxCapacity: nat
    var running: bool
    var mailbox: seq<Message>
    var messagesProcessed: nat
    var messagesDropped: nat
    /** The callbacks called so far. */
    var hooks: seq<Hook>
    /** Every message the mailbox accepted, and every message taken from it, in order. */
    ghost var accepted: seq<Message>
    ghost var taken: seq<Message>

    function State(): ActorState
      reads this
    {
      ActorState(running, mailbox, messagesProcessed, messagesDropped, hooks)
    }

    /** The mailbox stays within its capacity, and what was accepted is what was
        taken followed by what is still queued. */
    ghost predicate Valid()
      reads this
    {
      |mailbox| <= mailboxCapacity && accepted == taken + mailbox
    }

    /** `LinkedBlockingQueue` refuses a capacity below one. */
    constructor(actorId: string, mailboxCapacity: nat)
      requires mailboxCapacity >= 1
      ensures Valid() && this.actorId == actorId && this.mailboxCapacity == mailboxCapacity
      ensures State() == ActorState(false, [], 0, 0, [])
    {
      this.actorId := actorId;
      this.mailboxCapacity := mailboxCapacity;
      running := false;
      mailbox := [];
      messagesProcessed := 0;
      messagesDropped := 0;
      hooks := [];
      accepted := [];
      taken := [];
    }

    method Start()
      requires Valid()
      modifies this
      ensures Valid() && State() == Started(old(State()))
      ensures accepted == old(accepted) && taken == old(taken)
    {
      if !running {
        running := true;
        hooks := hooks + [OnStart];
      }
    }

    method Stop()
      requires Valid()
      modifies this
      ensures Valid() && State() == Stopped(old(State()))
      ensures accepted == old(accepted) && taken == old(taken)
    {
      if running {
        running := false;
        hooks := hooks + [OnStop];
      }
    }

    method Tell(m: Message) returns (offered: bool)
      requires Valid()
      modifies this
      ensures Valid() && (State(), offered) == Told(old(State()), m, mailboxCapacity)
      ensures accepted == old(accepted) + (if offered then [m] else []) && taken == old(taken)
    {
      if !running {
        return false;
      }
      offered := |mailbox| < mailboxCapacity;
      if offered {
        mailbox := mailbox + [m];
        accepted := accepted + [m];
      } else {
        messagesDropped := messagesDropped + 1;
        hooks := hooks + [OnMessageDropped(m)];
      }
    }

    /** One turn of `processMessages`; `threw` says whether `onReceive` threw on
        the message. The taken message is returned for the handler to act on. */
    method ProcessOne(threw: bool) returns (m: Option<Message>)
      requires Valid()
      modifies this
      ensures Valid() && State() == Processed(old(State()), threw)
      ensures m.None? <==> !old(running) || old(mailbox) == []
      ensures m.Some? ==> m.value == old(mailbox)[0] && taken == old(taken) + [m.value]
      ensures m.None? ==> taken == old(taken)
      ensures accepted == old(accepted)
    {
      if !running || mailbox == [] {
        return None;
      }
      var head := mailbox[0];
      mailbox := mailbox[1..];
      taken := taken + [head];
      if threw {
        hooks := hooks + [OnError(head)];
      } else {
        messagesProcessed := messagesProcessed + 1;
      }
      m := Some(head);
    }
  }
}
