/**
 The gossip receiver actor: events from the stream meet waiting callers. Both
 queues are double-ended; items enter at the front and leave at the back.
 */
module ReceiverActor {
  import opened Sequences

  type Hash = string
  type Caller = nat

  datatype GossipEvent = Received(content: string) | NeighborUp(id: string) | NeighborDown(id: string) | Lagged

  /** What the underlying stream yields: its end, an error, or an event. */
  datatype StreamItem = Ended | Failed(error: string) | Yielded(event: GossipEvent)

  datatype Handover = Handover(caller: Caller, event: GossipEvent, alive: bool)

  datatype Farewell = Closed(caller: Caller) | Broken(caller: Caller, error: string)

  const MAX_UNREAD: nat := 1000
  const HASH_WINDOW: nat := 5

  /** The actor's variables, followed by the history of what came in and went out. */
  datatype Actor = Actor(queue: seq<GossipEvent>, waiters: seq<Caller>, hashes: seq<Hash>, running: bool,
                         registered: seq<Caller>, cancelled: set<Caller>, accepted: seq<GossipEvent>,
                         handed: seq<Handover>, farewells: seq<Farewell>, recorded: seq<Hash>)

  const Fresh: Actor := Actor([], [], [], true, [], {}, [], [], [], [])

  function PushHash(hashes: seq<Hash>, h: Hash): seq<Hash>
  {
    if |hashes| + 1 > HASH_WINDOW then (hashes + [h])[1..] else hashes + [h]
  }

  /** A caller asks for the next event. */
  function Register(a: Actor, caller: Caller): Actor
  {
    if !a.running then a
    else
      var a1 := a.(registered := a.registered + [caller]);
      if a.queue != [] then
        a1.(queue := a.queue[..|a.queue| - 1],
            handed := a.handed + [Handover(caller, a.queue[|a.queue| - 1], caller !in a.cancelled)])
      else a1.(waiters := [caller] + a.waiters)
  }

  /** The stream yields an event. */
  function Yield(a: Actor, event: GossipEvent, hash: string -> Hash): Actor
  {
    if a.waiters == [] && |a.queue| > MAX_UNREAD then a.(running := false)
    else
      var queue := [event] + a.queue;
      var a1 := a.(queue := queue, accepted := a.accepted + [event]);
      var a2 :=
        if a.waiters != [] then
          var caller := a.waiters[|a.waiters| - 1];
          a1.(waiters := a.waiters[..|a.waiters| - 1], queue := queue[..|queue| - 1],
              handed := a.handed + [Handover(caller, queue[|queue| - 1], caller !in a.cancelled)])
        else a1;
      if a2.queue != [] && a2.queue[0].Received? then
        a2.(hashes := PushHash(a.hashes, hash(a2.queue[0].content)), recorded := a.recorded + [hash(a2.queue[0].content)])
      else a2
  }

  /** All waiters, longest waiting first, are told that the stream has ended. */
  function Dismiss(waiters: seq<Caller>): seq<Farewell>
  {
    if waiters == [] then [] else [Closed(waiters[|waiters| - 1])] + Dismiss(waiters[..|waiters| - 1])
  }

  function Finish(a: Actor): Actor
  {
    a.(waiters := [], farewells := a.farewells + Dismiss(a.waiters), running := false)
  }

  function Break(a: Actor, error: string): Actor
  {
    if a.waiters == [] then a.(running := false)
    else
      Finish(a.(waiters := a.waiters[..|a.waiters| - 1],
                farewells := a.farewells + [Broken(a.waiters[|a.waiters| - 1], error)]))
  }

  datatype Action = Call(caller: Caller) | Cancel(caller: Caller) | Stream(item: StreamItem)

  function Step(a: Actor, act: Action, hash: string -> Hash): Actor
  {
    match act
    case Call(caller) => Register(a, caller)
    case Cancel(caller) => a.(cancelled := a.cancelled + {caller})
    case Stream(item) =>
      if !a.running then a
      else match item
        case Ended => Finish(a)
        case Failed(error) => Break(a, error)
        case Yielded(event) => Yield(a, event, hash)
  }

  function Run(acts: seq<Action>, hash: string -> Hash): Actor
  {
    if acts == [] then Fresh else Step(Run(acts[..|acts| - 1], hash), acts[|acts| - 1], hash)
  }

  // ----- the actor as it is written

  class GossipReceiverActor {
    const hash: string -> Hash
    var msgQueue: seq<GossipEvent>
    var waiters: seq<Caller>
    var lastMessageHashes: seq<Hash>
    var running: bool
    /** Callers whose reply channel is gone, because they timed out or were dropped. */
    var gone: set<Caller>
    ghost var record: Actor

    ghost predicate Valid()
      reads this
    {
      && msgQueue == record.queue && waiters == record.waiters && lastMessageHashes == record.hashes
      && running == record.running && gone == record.cancelled
    }

    constructor (hash: string -> Hash)
      ensures Valid() && this.hash == hash && record == Fresh
    {
      this.hash, msgQueue, waiters, lastMessageHashes, running, gone, record := hash, [], [], [], true, {}, Fresh;
    }

    /** A reply channel closes; the actor does not notice. */
    method Abandon(caller: Caller)
      requires Valid()
      modifies this`gone, this`record
      ensures Valid() && record == Step(old(record), Cancel(caller), hash)
    {
      gone := gone + {caller};
      record := Step(record, Cancel(caller), hash);
    }

    method RegisterNext(caller: Caller) returns (replies: seq<Handover>)
      requires Valid() && running
      modifies this
      ensures Valid() && record == Register(old(record), caller)
      ensures record.handed == old(record.handed) + replies
    {
      replies := [];
      if msgQueue != [] {
        replies := [Handover(caller, msgQueue[|msgQueue| - 1], caller !in gone)];
        msgQueue := msgQueue[..|msgQueue| - 1];
      } else {
        waiters := [caller] + waiters;
      }
      record := Register(record, caller);
    }

    method OnStream(item: StreamItem) returns (replies: seq<Handover>, goodbyes: seq<Farewell>)
      requires Valid() && running
      modifies this
      ensures Valid() && record == Step(old(record), Stream(item), hash)
      ensures record.handed == old(record.handed) + replies && record.farewells == old(record.farewells) + goodbyes
    {
      replies, goodbyes := [], [];
      if item.Yielded? {
        replies := OnEvent(item.event);
      } else if item.Failed? {
        goodbyes := OnFailure(item.error);
      } else {
        goodbyes := DismissAll();
        running := false;
        record := Finish(record);
      }
    }

    method OnFailure(error: string) returns (goodbyes: seq<Farewell>)
      requires Valid() && running
      modifies this
      ensures Valid() && record == Break(old(record), error)
      ensures record.farewells == old(record.farewells) + goodbyes && record.handed == old(record.handed)
    {
      goodbyes := [];
      if waiters != [] {
        goodbyes := [Broken(waiters[|waiters| - 1], error)];
        waiters := waiters[..|waiters| - 1];
      }
      var rest := DismissAll();
      goodbyes := goodbyes + rest;
      running := false;
      record := Break(record, error);
    }

    method OnEvent(event: GossipEvent) returns (replies: seq<Handover>)
      requires Valid() && running
      modifies this
      ensures Valid() && record == Yield(old(record), event, hash)
      ensures record.handed == old(record.handed) + replies && record.farewells == old(record.farewells)
    {
      replies := [];
      record := Yield(record, event, hash);
      if waiters == [] && |msgQueue| > MAX_UNREAD {
        running := false;
        return;
      }
      msgQueue := [event] + msgQueue;
      if waiters != [] {
        var caller := waiters[|waiters| - 1];
        waiters := waiters[..|waiters| - 1];
        replies := [Handover(caller, msgQueue[|msgQueue| - 1], caller !in gone)];
        msgQueue := msgQueue[..|msgQueue| - 1];
      }
      if msgQueue != [] && msgQueue[0].Received? {
        lastMessageHashes := lastMessageHashes + [hash(msgQueue[0].content)];
        if |lastMessageHashes| > HASH_WINDOW {
          lastMessageHashes := lastMessageHashes[1..];
        }
      }
    }

    method DismissAll() returns (goodbyes: seq<Farewell>)
      modifies this`waiters
      ensures waiters == [] && goodbyes == Dismiss(old(waiters))
    {
      goodbyes := [];
      while waiters != []
        invariant goodbyes + Dismiss(waiters) == Dismiss(old(waiters))
        decreases |waiters|
      {
        goodbyes := goodbyes + [Closed(waiters[|waiters| - 1])];
        waiters := waiters[..|waiters| - 1];
      }
    }
  }

  // ----- what every run keeps

  function Callers(handed: seq<Handover>): seq<Caller>
  {
    if handed == [] then [] else Callers(handed[..|handed| - 1]) + [handed[|handed| - 1].caller]
  }

  function Events(handed: seq<Handover>): seq<GossipEvent>
  {
    if handed == [] then [] else Events(handed[..|handed| - 1]) + [handed[|handed| - 1].event]
  }

  lemma HandedPush(handed: seq<Handover>, h: Handover)
    ensures Callers(handed + [h]) == Callers(handed) + [h.caller] && Events(handed + [h]) == Events(handed) + [h.event]
  {
    assert (handed + [h])[..|handed + [h]| - 1] == handed;
  }

  function Told(farewells: seq<Farewell>): seq<Caller>
  {
    if farewells == [] then [] else Told(farewells[..|farewells| - 1]) + [farewells[|farewells| - 1].caller]
  }

  ghost function Recent(hashes: seq<Hash>): seq<Hash>
  {
    if |hashes| <= HASH_WINDOW then hashes else hashes[|hashes| - HASH_WINDOW..]
  }

  ghost predicate Inv(a: Actor)
  {
    && (a.waiters == [] || a.queue == [])
    && |a.queue| <= MAX_UNREAD + 1
    && Callers(a.handed) + Told(a.farewells) + Reversed(a.waiters) == a.registered
    && Events(a.handed) + Reversed(a.queue) == a.accepted
    && a.hashes == Recent(a.recorded)
    && (a.running ==> a.farewells == [])
    && (!a.running ==> a.waiters == [])
  }

  lemma RegisterKeeps(a: Actor, caller: Caller)
    requires Inv(a)
    ensures Inv(Register(a, caller))
  {
    if a.running {
      hide Inv;
      if a.queue != [] { RegisterServed(a, caller); } else { RegisterWaits(a, caller); }
    }
  }

  lemma Ends<T>(xs: seq<T>)
    ensures xs + [] == xs && [] + xs == xs
  {
  }

  lemma RegisterServed(a: Actor, caller: Caller)
    requires Inv(a) && a.running && a.queue != []
    ensures Inv(Register(a, caller))
  {
    var event, rest := a.queue[|a.queue| - 1], a.queue[..|a.queue| - 1];
    var h := Handover(caller, event, caller !in a.cancelled);
    assert Told(a.farewells) == [] && Reversed(a.waiters) == [];
    hide Told, Callers, Events, Reversed, Recent;
    HandedPush(a.handed, h);
    ReversedBack(a.queue);
    Regroup(Events(a.handed), event, Reversed(rest));
    Ends(Callers(a.handed));
    Ends(Callers(a.handed + [h]));
  }

  lemma RegisterWaits(a: Actor, caller: Caller)
    requires Inv(a) && a.running && a.queue == []
    ensures Inv(Register(a, caller))
  {
    hide Told, Callers, Events, Reversed, Recent;
    ReversedFront(caller, a.waiters);
    Push(Callers(a.handed) + Told(a.farewells), Reversed(a.waiters), caller);
  }

  lemma Push<T>(xs: seq<T>, ys: seq<T>, z: T)
    ensures xs + (ys + [z]) == xs + ys + [z]
  {
  }

  lemma RecentPush(recorded: seq<Hash>, h: Hash)
    ensures PushHash(Recent(recorded), h) == Recent(recorded + [h])
  {
  }

  lemma YieldToWaiter(a: Actor, event: GossipEvent, hash: string -> Hash)
    requires Inv(a) && a.running && a.waiters != []
    ensures Inv(Yield(a, event, hash))
    ensures Yield(a, event, hash).recorded == a.recorded && Yield(a, event, hash).hashes == a.hashes
  {
    assert a.queue == [] && [event] + a.queue == [event];
    var caller, rest := a.waiters[|a.waiters| - 1], a.waiters[..|a.waiters| - 1];
    var h := Handover(caller, event, caller !in a.cancelled);
    assert Told(a.farewells) == [] && Reversed(a.queue) == [];
    hide Told, Callers, Events, Reversed, Recent;
    HandedPush(a.handed, h);
    ReversedBack(a.waiters);
    Regroup(Callers(a.handed), caller, Reversed(rest));
    Ends(Callers(a.handed));
    Ends(Events(a.handed));
    Ends(Callers(a.handed + [h]));
    Ends(Events(a.handed + [h]));
  }

  lemma YieldToQueue(a: Actor, event: GossipEvent, hash: string -> Hash)
    requires Inv(a) && a.running && a.waiters == [] && |a.queue| <= MAX_UNREAD
    ensures Inv(Yield(a, event, hash))
    ensures Yield(a, event, hash).recorded == if event.Received? then a.recorded + [hash(event.content)] else a.recorded
  {
    ReversedFront(event, a.queue);
    if event.Received? { RecentPush(a.recorded, hash(event.content)); }
  }

  lemma {:induction false} DismissTells(farewells: seq<Farewell>, waiters: seq<Caller>)
    ensures Told(farewells + Dismiss(waiters)) == Told(farewells) + Reversed(waiters)
    decreases |waiters|
  {
    if waiters == [] {
      assert farewells + Dismiss(waiters) == farewells;
      assert Told(farewells) + Reversed(waiters) == Told(farewells);
    } else {
      var w, rest := waiters[|waiters| - 1], waiters[..|waiters| - 1];
      assert Dismiss(waiters) == [Closed(w)] + Dismiss(rest);
      ReversedBack(waiters);
      hide Told, Reversed, Dismiss;
      DismissTells(farewells + [Closed(w)], rest);
      ToldPush(farewells, Closed(w));
      Regroup(farewells, Closed(w), Dismiss(rest));
      Regroup(Told(farewells), w, Reversed(rest));
    }
  }

  lemma ToldPush(farewells: seq<Farewell>, f: Farewell)
    ensures Told(farewells + [f]) == Told(farewells) + [f.caller]
  {
    assert (farewells + [f])[..|farewells + [f]| - 1] == farewells;
  }

  lemma FinishKeeps(a: Actor)
    requires Inv(a) && a.running
    ensures Inv(Finish(a))
  {
    DismissTells(a.farewells, a.waiters);
    NoneLeft<Caller>();
    hide Told, Callers, Events, Reversed, Recent, Dismiss;
    Joined(Callers(a.handed), Told(a.farewells), Reversed(a.waiters));
  }

  lemma NoneLeft<T>()
    ensures Reversed<T>([]) == []
  {
  }

  lemma Joined<T>(xs: seq<T>, ys: seq<T>, zs: seq<T>)
    ensures xs + (ys + zs) + [] == xs + ys + zs
  {
  }

  lemma BreakKeeps(a: Actor, error: string)
    requires Inv(a) && a.running
    ensures Inv(Break(a, error))
  {
    if a.waiters != [] {
      var w, rest := a.waiters[|a.waiters| - 1], a.waiters[..|a.waiters| - 1];
      var f := a.farewells + [Broken(w, error)];
      NoneLeft<Caller>();
      hide Told, Callers, Events, Reversed, Recent, Dismiss;
      ToldPush(a.farewells, Broken(w, error));
      DismissTells(f, rest);
      ReversedBack(a.waiters);
      Regroup(Told(a.farewells), w, Reversed(rest));
      Joined(Callers(a.handed), Told(a.farewells), Reversed(a.waiters));
    }
  }

  lemma StepKeeps(a: Actor, act: Action, hash: string -> Hash)
    requires Inv(a)
    ensures Inv(Step(a, act, hash))
  {
    match act
    case Call(caller) => RegisterKeeps(a, caller);
    case Cancel(_) =>
    case Stream(item) =>
      if a.running {
        match item
        case Ended => FinishKeeps(a);
        case Failed(error) => BreakKeeps(a, error);
        case Yielded(event) =>
          if a.waiters != [] { YieldToWaiter(a, event, hash); }
          else if |a.queue| <= MAX_UNREAD { YieldToQueue(a, event, hash); }
      }
  }

  lemma {:induction false} RunKeeps(acts: seq<Action>, hash: string -> Hash)
    ensures Inv(Run(acts, hash))
  {
    if acts != [] {
      RunKeeps(acts[..|acts| - 1], hash);
      hide Inv, Step;
      StepKeeps(Run(acts[..|acts| - 1], hash), acts[|acts| - 1], hash);
    }
  }

  lemma {:induction false} HandedAt(handed: seq<Handover>, k: nat)
    requires k < |handed|
    ensures |Callers(handed)| == |Events(handed)| == |handed|
    ensures Callers(handed)[k] == handed[k].caller && Events(handed)[k] == handed[k].event
  {
    if |handed| > 1 {
      HandedAt(handed[..|handed| - 1], if k < |handed| - 1 then k else 0);
    }
  }

  /**
   Rendezvous, over every run: the k-th handover gives the k-th accepted event
   to the k-th caller; waiters and unread events never coexist; the queue never
   exceeds 1001; and when the actor has stopped every caller has been answered.
   */
  lemma Rendezvous(acts: seq<Action>, hash: string -> Hash)
    ensures var a := Run(acts, hash);
            && (forall k :: 0 <= k < |a.handed| ==>
                  k < |a.registered| && k < |a.accepted|
                  && a.handed[k].caller == a.registered[k] && a.handed[k].event == a.accepted[k])
            && (a.waiters == [] || a.queue == []) && |a.queue| <= 1001
            && |a.accepted| == |a.handed| + |a.queue|
            && |a.registered| == |a.handed| + |a.waiters| + |a.farewells|
            && (!a.running ==> a.waiters == [])
  {
    RunKeeps(acts, hash);
    var a := Run(acts, hash);
    hide Run;
    forall k | 0 <= k < |a.handed|
      ensures k < |a.registered| && k < |a.accepted|
      ensures a.handed[k].caller == a.registered[k] && a.handed[k].event == a.accepted[k]
    {
      HandedAt(a.handed, k);
      assert a.registered[k] == Callers(a.handed)[k];
      assert a.accepted[k] == Events(a.handed)[k];
    }
    if a.handed != [] { HandedAt(a.handed, 0); }
    ToldLength(a.farewells);
  }

  lemma {:induction false} ToldLength(farewells: seq<Farewell>)
    ensures |Told(farewells)| == |farewells|
  {
    if farewells != [] { ToldLength(farewells[..|farewells| - 1]); }
  }

  // ----- the hash window

  /**
   A received message leaves its hash exactly when it is queued: with a caller
   already waiting it is handed over before the queue is looked at again.
   */
  lemma HashRecordedIff(a: Actor, content: string, hash: string -> Hash)
    requires Inv(a) && a.running
    ensures Yield(a, Received(content), hash).recorded == a.recorded + [hash(content)]
            <==> a.waiters == [] && |a.queue| <= MAX_UNREAD
    ensures !(a.waiters == [] && |a.queue| <= MAX_UNREAD) ==> Yield(a, Received(content), hash).recorded == a.recorded
  {
    if a.waiters != [] {
      YieldToWaiter(a, Received(content), hash);
    } else if |a.queue| <= MAX_UNREAD {
      YieldToQueue(a, Received(content), hash);
    }
  }

  // The actor's life told by the actions alone: callers count up, events count
  // down, and a positive balance is the number of callers waiting.

  function Balance(acts: seq<Action>): int
    decreases |acts|, 1
  {
    if acts == [] then 0
    else
      var before, last := acts[..|acts| - 1], acts[|acts| - 1];
      if !Alive(acts) then 0
      else Balance(before) + if last.Call? then 1 else if last.Stream? then -1 else 0
  }

  /** The stream has not ended or failed, and no event came with 1001 unread. */
  predicate Alive(acts: seq<Action>)
    decreases |acts|, 0
  {
    acts == []
    || (var before, last := acts[..|acts| - 1], acts[|acts| - 1];
        Alive(before) && (last.Stream? ==> last.item.Yielded? && Balance(before) > -1001))
  }

  /** The hashes of the messages that found nobody waiting. */
  function QueuedOnArrival(acts: seq<Action>, hash: string -> Hash): seq<Hash>
  {
    if acts == [] then []
    else
      var before, last := acts[..|acts| - 1], acts[|acts| - 1];
      QueuedOnArrival(before, hash)
      + if Alive(acts) && last.Stream? && last.item.event.Received? && Balance(before) <= 0 then [hash(last.item.event.content)] else []
  }

  /** Who waits and what is unread follow from the balance; what was recorded follows from the actions. */
  ghost predicate AsTold(acts: seq<Action>, hash: string -> Hash, a: Actor)
  {
    && a.running == Alive(acts) && a.recorded == QueuedOnArrival(acts, hash)
    && (a.running ==> |a.waiters| - |a.queue| == Balance(acts))
  }

  lemma StepAsTold(acts: seq<Action>, hash: string -> Hash, a: Actor)
    requires acts != [] && Inv(a) && AsTold(acts[..|acts| - 1], hash, a)
    ensures AsTold(acts, hash, Step(a, acts[|acts| - 1], hash))
  {
    var before, last := acts[..|acts| - 1], acts[|acts| - 1];
    assert a.waiters == [] || a.queue == [];
    assert Alive(acts) <==> Alive(before) && (last.Stream? ==> last.item.Yielded? && Balance(before) > -(MAX_UNREAD + 1));
    assert Alive(acts) ==> Balance(acts) == Balance(before) + if last.Call? then 1 else if last.Stream? then -1 else 0;
    QueuedLast(acts, hash);
    hide Inv, Alive, Balance, QueuedOnArrival, Register, Yield, Finish, Break;
    match last
    case Call(caller) => RegisterCounts(a, caller);
    case Cancel(_) =>
    case Stream(item) =>
      match item
      case Ended => EndCounts(a, "");
      case Failed(error) => EndCounts(a, error);
      case Yielded(event) => if a.running { YieldCounts(a, event, hash); }
  }

  lemma QueuedLast(acts: seq<Action>, hash: string -> Hash)
    requires acts != []
    ensures var before, last := acts[..|acts| - 1], acts[|acts| - 1];
            QueuedOnArrival(acts, hash)
            == if Alive(acts) && last.Stream? && last.item.event.Received? && Balance(before) <= 0
               then QueuedOnArrival(before, hash) + [hash(last.item.event.content)] else QueuedOnArrival(before, hash)
  {
    hide Balance;
  }

  lemma RegisterCounts(a: Actor, caller: Caller)
    requires a.waiters == [] || a.queue == []
    ensures var b := Register(a, caller);
            && b.running == a.running && b.recorded == a.recorded
            && (b.running ==> |b.waiters| - |b.queue| == |a.waiters| - |a.queue| + 1)
  {
  }

  lemma EndCounts(a: Actor, error: string)
    ensures !Finish(a).running && Finish(a).recorded == a.recorded
    ensures !Break(a, error).running && Break(a, error).recorded == a.recorded
  {
  }

  lemma YieldCounts(a: Actor, event: GossipEvent, hash: string -> Hash)
    requires a.running && (a.waiters == [] || a.queue == [])
    ensures var b := Yield(a, event, hash);
            && b.running == (|a.waiters| - |a.queue| > -(MAX_UNREAD + 1))
            && (b.running ==> |b.waiters| - |b.queue| == |a.waiters| - |a.queue| - 1)
            && b.recorded == a.recorded + if b.running && event.Received? && |a.waiters| - |a.queue| <= 0 then [hash(event.content)] else []
  {
  }

  lemma {:induction false} RunAsTold(acts: seq<Action>, hash: string -> Hash)
    ensures AsTold(acts, hash, Run(acts, hash))
  {
    if acts != [] {
      RunAsTold(acts[..|acts| - 1], hash);
      RunKeeps(acts[..|acts| - 1], hash);
      hide Inv, Step, AsTold;
      StepAsTold(acts, hash, Run(acts[..|acts| - 1], hash));
    }
  }

  /**
   Over every run, the window holds the last five hashes of the messages that
   arrived with nobody waiting, and the actor runs, with its callers waiting and
   its events unread, exactly as the balance of calls and events says.
   */
  lemma WindowIsRecent(acts: seq<Action>, hash: string -> Hash)
    ensures var a := Run(acts, hash);
            var queued := QueuedOnArrival(acts, hash);
            && a.hashes == (if |queued| <= 5 then queued else queued[|queued| - 5..])
            && a.running == Alive(acts)
            && (a.running ==> |a.waiters| == (if Balance(acts) > 0 then Balance(acts) else 0)
                              && |a.queue| == (if Balance(acts) < 0 then -Balance(acts) else 0))
  {
    RunKeeps(acts, hash);
    RunAsTold(acts, hash);
    hide Run, Step;
  }

  // ----- what the callers are told

  /** The callers that asked while the actor was running, in order. */
  function CallsOf(acts: seq<Action>): seq<Caller>
  {
    if acts == [] then []
    else
      var before, last := acts[..|acts| - 1], acts[|acts| - 1];
      CallsOf(before) + if Alive(acts) && last.Call? then [last.caller] else []
  }

  /** The callers that still wait, longest waiting first: as many of the last ones as the balance says. */
  function StillWaiting(acts: seq<Action>): seq<Caller>
  {
    var calls, n := CallsOf(acts), Balance(acts);
    if 0 < n <= |calls| then calls[|calls| - n..] else []
  }

  function AllClosed(callers: seq<Caller>): (r: seq<Farewell>)
    ensures |r| == |callers| && forall i :: 0 <= i < |callers| ==> r[i] == Closed(callers[i])
  {
    seq(|callers|, i requires 0 <= i < |callers| => Closed(callers[i]))
  }

  /**
   The farewells a run leaves, read off its actions: when the stream ends, all
   waiting callers are told so; when it fails, the longest waiting caller gets
   the error and the others are told of the end; nothing else sends any.
   */
  function FarewellsOf(acts: seq<Action>): seq<Farewell>
  {
    if acts == [] then []
    else
      var before, last := acts[..|acts| - 1], acts[|acts| - 1];
      if !Alive(before) then FarewellsOf(before)
      else if last == Stream(Ended) then AllClosed(StillWaiting(before))
      else if last.Stream? && last.item.Failed? && StillWaiting(before) != [] then
        [Broken(StillWaiting(before)[0], last.item.error)] + AllClosed(StillWaiting(before)[1..])
      else []
  }

  lemma {:induction false} CallsRegistered(acts: seq<Action>, hash: string -> Hash)
    ensures Run(acts, hash).registered == CallsOf(acts)
  {
    if acts != [] {
      var before, last := acts[..|acts| - 1], acts[|acts| - 1];
      CallsRegistered(before, hash);
      RunAsTold(before, hash);
      var a := Run(before, hash);
      assert Run(acts, hash) == Step(a, last, hash);
      assert last.Call? ==> (Alive(acts) <==> Alive(before));
      hide Run, Balance, QueuedOnArrival, Alive;
      StepRegisters(a, last, hash);
    }
  }

  lemma StepRegisters(a: Actor, act: Action, hash: string -> Hash)
    ensures Step(a, act, hash).registered == a.registered + if a.running && act.Call? then [act.caller] else []
  {
  }

  /** While the actor runs, its waiters are the callers that the balance leaves over. */
  lemma WaitersAre(acts: seq<Action>, hash: string -> Hash)
    requires Alive(acts)
    ensures Reversed(Run(acts, hash).waiters) == StillWaiting(acts) && Run(acts, hash).farewells == []
  {
    hide *;
    RunKeeps(acts, hash);
    RunAsTold(acts, hash);
    CallsRegistered(acts, hash);
    WaitersFrom(acts, hash, Run(acts, hash));
  }

  lemma WaitersFrom(acts: seq<Action>, hash: string -> Hash, a: Actor)
    requires Inv(a) && AsTold(acts, hash, a) && a.registered == CallsOf(acts) && Alive(acts)
    ensures Reversed(a.waiters) == StillWaiting(acts) && a.farewells == []
  {
    RegisteredAre(a);
    assert a.waiters == [] || a.queue == [];
    hide Inv, Alive, Balance, QueuedOnArrival, CallsOf, Callers;
    var handed, waiting := Callers(a.handed), Reversed(a.waiters);
    hide Reversed;
    SuffixIs(handed, waiting);
  }

  lemma RegisteredAre(a: Actor)
    requires Inv(a) && a.running
    ensures a.farewells == [] && a.registered == Callers(a.handed) + Reversed(a.waiters)
  {
    assert Told(a.farewells) == [];
    hide Callers, Events, Reversed, Recent;
    Ends(Callers(a.handed));
  }

  lemma SuffixIs<T>(xs: seq<T>, ys: seq<T>)
    ensures (xs + ys)[|xs + ys| - |ys|..] == ys
  {
  }

  lemma {:induction false} DismissIs(waiters: seq<Caller>)
    ensures Dismiss(waiters) == AllClosed(Reversed(waiters))
    decreases |waiters|
  {
    if waiters != [] {
      var rest := waiters[..|waiters| - 1];
      DismissIs(rest);
      ReversedBack(waiters);
      hide Reversed;
      assert AllClosed(Reversed(waiters)) == [Closed(waiters[|waiters| - 1])] + AllClosed(Reversed(rest));
    }
  }

  /** Over every run, the farewells are those the actions call for. */
  lemma {:induction false} FarewellsFromActions(acts: seq<Action>, hash: string -> Hash)
    ensures Run(acts, hash).farewells == FarewellsOf(acts)
  {
    if acts != [] {
      var before, last := acts[..|acts| - 1], acts[|acts| - 1];
      var a := Run(before, hash);
      assert Run(acts, hash) == Step(a, last, hash);
      assert a.running == Alive(before) by { RunAsTold(before, hash); hide Alive; }
      if Alive(before) {
        WaitersAre(before, hash);
        hide Run, Alive, StillWaiting, Dismiss, Reversed;
        StepFarewells(a, last, hash);
      } else {
        FarewellsFromActions(before, hash);
        hide Run, Alive;
      }
    }
  }

  lemma StepFarewells(a: Actor, act: Action, hash: string -> Hash)
    requires a.running && a.farewells == []
    ensures var waiting := Reversed(a.waiters);
            Step(a, act, hash).farewells
            == if act == Stream(Ended) then AllClosed(waiting)
               else if act.Stream? && act.item.Failed? && waiting != [] then [Broken(waiting[0], act.item.error)] + AllClosed(waiting[1..])
               else []
  {
    DismissIs(a.waiters);
    if a.waiters != [] {
      DismissIs(a.waiters[..|a.waiters| - 1]);
      ReversedBack(a.waiters);
    }
    hide Dismiss, Reversed, AllClosed;
  }

  /**
   A run whose stream fails, whatever happens afterwards: the longest waiting
   caller gets the error and the others are told of the end, in order; with
   nobody waiting, nobody is told.
   */
  lemma {:induction false} ErrorReachesOldestWaiter(before: seq<Action>, error: string, later: seq<Action>, hash: string -> Hash)
    requires Alive(before)
    ensures var waiting := StillWaiting(before);
            Run(before + [Stream(Failed(error))] + later, hash).farewells
            == if waiting == [] then [] else [Broken(waiting[0], error)] + AllClosed(waiting[1..])
  {
    var acts := before + [Stream(Failed(error))];
    assert acts[..|acts| - 1] == before;
    assert !Alive(acts);
    FarewellsFromActions(acts + later, hash);
    StoppedStays(acts, later);
  }

  lemma {:induction false} StoppedStays(acts: seq<Action>, later: seq<Action>)
    requires !Alive(acts)
    ensures !Alive(acts + later) && FarewellsOf(acts + later) == FarewellsOf(acts)
    decreases |later|
  {
    if later == [] {
      assert acts + later == acts;
    } else {
      var front := later[..|later| - 1];
      assert (acts + later)[..|acts + later| - 1] == acts + front;
      StoppedStays(acts, front);
    }
  }

  /** A caller is told of an error only in a run whose stream failed with it while the actor was running. */
  lemma {:induction false} ErrorsComeFromTheStream(acts: seq<Action>, f: Farewell)
    requires f in FarewellsOf(acts) && f.Broken?
    ensures exists k :: 0 <= k < |acts| && Alive(acts[..k]) && acts[k] == Stream(Failed(f.error))
  {
    var before, last := acts[..|acts| - 1], acts[|acts| - 1];
    if !Alive(before) {
      ErrorsComeFromTheStream(before, f);
      var k :| 0 <= k < |before| && Alive(before[..k]) && before[k] == Stream(Failed(f.error));
      assert acts[..k] == before[..k] && acts[k] == before[k];
    } else {
      assert acts[|acts| - 1] == Stream(Failed(f.error));
    }
  }

  // ----- callers that are gone

  lemma {:induction false} CancelledAre(acts: seq<Action>, hash: string -> Hash, caller: Caller)
    ensures caller in Run(acts, hash).cancelled <==> Cancel(caller) in acts
  {
    if acts != [] {
      var before, last := acts[..|acts| - 1], acts[|acts| - 1];
      var a := Run(before, hash);
      assert Run(acts, hash) == Step(a, last, hash);
      CancelledAre(before, hash, caller);
      assert acts == before + [last];
      hide Run, Step;
      StepCancels(a, last, hash);
    }
  }

  lemma StepCancels(a: Actor, act: Action, hash: string -> Hash)
    ensures Step(a, act, hash).cancelled == if act.Cancel? then a.cancelled + {act.caller} else a.cancelled
  {
  }

  /** A handover finds its caller alive exactly when that caller was not cancelled before. */
  lemma {:induction false} HandedAliveIff(acts: seq<Action>, hash: string -> Hash)
    requires acts != [] && |Run(acts, hash).handed| > |Run(acts[..|acts| - 1], hash).handed|
    ensures var handed := Run(acts, hash).handed;
            handed[|handed| - 1].alive <==> Cancel(handed[|handed| - 1].caller) !in acts[..|acts| - 1]
  {
    var handed := Run(acts, hash).handed;
    var a := Run(acts[..|acts| - 1], hash);
    assert Run(acts, hash) == Step(a, acts[|acts| - 1], hash);
    hide Run, Step;
    CancelledAre(acts[..|acts| - 1], hash, handed[|handed| - 1].caller);
    StepHands(a, acts[|acts| - 1], hash);
  }

  lemma StepHands(a: Actor, act: Action, hash: string -> Hash)
    ensures var handed := Step(a, act, hash).handed;
            |handed| > |a.handed| ==> (handed[|handed| - 1].alive <==> handed[|handed| - 1].caller !in a.cancelled)
  {
  }

  ghost predicate AlwaysWaiting(messages: seq<string>, acts: seq<Action>)
  {
    |acts| == 2 * |messages|
    && forall i :: 0 <= i < |messages| ==>
         acts[2 * i].Call? && acts[2 * i + 1] == Stream(Yielded(Received(messages[i])))
  }

  lemma AlwaysWaitingFront(messages: seq<string>, acts: seq<Action>)
    requires AlwaysWaiting(messages, acts) && messages != []
    ensures var n := |messages| - 1;
            && AlwaysWaiting(messages[..n], acts[..2 * n]) && |acts| == 2 * n + 2
            && acts[2 * n].Call? && acts[2 * n + 1] == Stream(Yielded(Received(messages[n])))
  {
    var n := |messages| - 1;
    forall i | 0 <= i < n
      ensures acts[..2 * n][2 * i].Call? && acts[..2 * n][2 * i + 1] == Stream(Yielded(Received(messages[..n][i])))
    {
      assert acts[2 * i].Call? && acts[2 * i + 1] == Stream(Yielded(Received(messages[i])));
    }
    assert acts[2 * n].Call? && acts[2 * n + 1] == Stream(Yielded(Received(messages[n])));
  }

  lemma RunTwoMore(acts: seq<Action>, hash: string -> Hash)
    requires |acts| >= 2
    ensures var n := |acts| - 2;
            Run(acts, hash) == Step(Step(Run(acts[..n], hash), acts[n], hash), acts[n + 1], hash)
  {
    hide Step;
    var n := |acts| - 2;
    assert acts[..n + 1][..n] == acts[..n];
    assert Run(acts[..n + 1], hash) == Step(Run(acts[..n], hash), acts[n], hash);
  }

  /** Nothing waiting, nothing unread, nothing recorded. */
  ghost predicate Clear(a: Actor)
  {
    a.running && a.queue == [] && a.waiters == [] && a.hashes == [] && a.recorded == []
  }

  lemma AskedThenServed(a: Actor, caller: Caller, content: string, hash: string -> Hash)
    requires Clear(a)
    ensures var b := Step(Step(a, Call(caller), hash), Stream(Yielded(Received(content))), hash);
            Clear(b) && |b.accepted| == |a.accepted| + 1
  {
    assert Register(a, caller).waiters == [caller];
  }

  /** A caller that always asks before the next message arrives keeps the window empty, whatever is received. */
  lemma {:induction false} EagerCallerLeavesNoHashes(messages: seq<string>, acts: seq<Action>, hash: string -> Hash)
    requires AlwaysWaiting(messages, acts)
    ensures Clear(Run(acts, hash)) && |Run(acts, hash).accepted| == |messages|
    decreases |messages|
  {
    if messages != [] {
      var n := |messages| - 1;
      AlwaysWaitingFront(messages, acts);
      hide AlwaysWaiting, Run, Step, Clear;
      EagerCallerLeavesNoHashes(messages[..n], acts[..2 * n], hash);
      RunTwoMore(acts, hash);
      AskedThenServed(Run(acts[..2 * n], hash), acts[2 * n].caller, messages[n], hash);
    }
  }
}
