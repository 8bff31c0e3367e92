/**
 The queue checker loop as it is written, with web requests served between its
 database calls. Whatever it does is a run of the queue protocol, so what holds
 in every run of the protocol holds of the loop.
 */
module QueueChecker {
  import opened Sequences
  import opened Wrappers
  import opened PingQueue
  import opened QueueProtocol

  /**
   What the loop meets in one round: the urls added before each of its steps
   (its database calls and sends are numbered through, over all rounds); at each
   look at the sockets the next message on the hive socket and the messages
   waiting on the gossip socket; whether the i-th send succeeds; and the clock
   at the fetch and at the reset.
   */
  datatype World = World(adds: nat -> seq<Ping>, hive: nat -> Option<WriterMessage>, gossip: nat -> seq<WriterMessage>,
                         sends: nat -> bool, fetchTime: int, resetTime: int)

  /** The pings that went to the hive writer. */
  ghost function SentPings(log: seq<Event>): seq<Ping>
  {
    if log == [] then []
    else SentPings(log[..|log| - 1]) + if log[|log| - 1].HiveSent? then [log[|log| - 1].ping] else []
  }

  lemma SentPush(log: seq<Event>, e: Event)
    ensures SentPings(log + [e]) == SentPings(log) + if e.HiveSent? then [e.ping] else []
  {
    assert (log + [e])[..|log + [e]| - 1] == log;
  }

  /** Every deletion made on a writer's word, with repetitions. */
  ghost function Removals(acts: seq<Action>): multiset<Url>
  {
    if acts == [] then multiset{}
    else
      var a := acts[|acts| - 1];
      Removals(acts[..|acts| - 1]) + if a.Receive? then multiset(RemovedBy(a.msg)) else multiset{}
  }

  lemma RemovalsPush(acts: seq<Action>, a: Action)
    ensures Removals(acts + [a]) == Removals(acts) + if a.Receive? then multiset(RemovedBy(a.msg)) else multiset{}
  {
    assert (acts + [a])[..|acts + [a]| - 1] == acts;
  }

  /** The urls a message names for removal. */
  function Named(msg: WriterMessage): seq<Url>
  {
    match msg
    case WriteError(iri) => if iri.Some? then [iri.value] else []
    case Transaction(block, iris) => if block == 0 then [] else iris
  }

  predicate AsksForMore(msg: WriterMessage)
  {
    msg.Transaction? && msg.block != 0
  }

  /** The urls named by the messages up to the first that ends the reading. */
  ghost function Heard(msgs: seq<WriterMessage>): seq<Url>
  {
    if msgs == [] then [] else Named(msgs[0]) + if AsksForMore(msgs[0]) then Heard(msgs[1..]) else []
  }

  lemma HeardStep(msgs: seq<WriterMessage>, i: nat)
    requires i <= |msgs|
    ensures i < |msgs| ==> Heard(msgs[i..]) == Named(msgs[i]) + if AsksForMore(msgs[i]) then Heard(msgs[i + 1..]) else []
    ensures i == |msgs| ==> Heard(msgs[i..]) == []
  {
    if i < |msgs| {
      assert msgs[i..][0] == msgs[i] && msgs[i..][1..] == msgs[i + 1..];
    }
  }

  ghost function NamedIf(msg: Option<WriterMessage>): seq<Url>
  {
    if msg.Some? then Named(msg.value) else []
  }

  lemma {:induction false} ResetsSendNothing(log: seq<Event>, table: Table, order: seq<Url>, now: int)
    ensures SentPings(log + Resets(table, order, now)) == SentPings(log)
  {
    if order == [] {
      assert log + Resets(table, order, now) == log;
    } else {
      var front, u := order[..|order| - 1], order[|order| - 1];
      ResetsSendNothing(log, table, front, now);
      if u in table {
        var e := RowReset(u, table[u].createdon, now);
        assert log + Resets(table, order, now) == log + Resets(table, front, now) + [e];
        SentPush(log + Resets(table, front, now), e);
      } else {
        assert Resets(table, order, now) == Resets(table, front, now);
      }
    }
  }

  lemma RunPush(st: State, acts: seq<Action>, a: Action)
    ensures Run(st, acts + [a]) == Step(Run(st, acts), a)
  {
    assert (acts + [a])[..|acts + [a]| - 1] == acts;
  }

  class Checker {
    const queue: Queue
    /** Everything sent successfully to the hive writer so far. */
    var hiveOut: seq<Ping>
    var totalSent: nat
    /** How many database calls and sends the loop has made. */
    var steps: nat
    /** The protocol steps taken so far by both threads. */
    ghost var acts: seq<Action>

    ghost function Now(): State
      reads this
    {
      Run(Empty, acts)
    }

    ghost predicate Valid()
      reads this, queue
    {
      queue.Valid() && Now().table == queue.table && SentPings(Now().log) == hiveOut
    }

    constructor (queue: Queue)
      requires queue.Valid() && queue.table == map[]
      ensures this.queue == queue && Valid() && acts == [] && Now() == Empty && steps == 0
    {
      this.queue, hiveOut, totalSent, steps, acts := queue, [], 0, 0, [];
    }

    /** The web requests served before the next step of the loop; each step has its own. */
    method ServeAdds(adds: nat -> seq<Ping>)
      requires Valid()
      modifies this`acts, this`steps, queue
      ensures Valid() && old(acts) <= acts && steps == old(steps) + 1
      ensures |acts| == |old(acts)| + |adds(old(steps))|
      ensures forall i :: |old(acts)| <= i < |acts| ==> acts[i].HttpAdd? && acts[i].ping == adds(old(steps))[i - |old(acts)|]
      ensures Now().batch == old(Now().batch) && Now().unmarked == old(Now().unmarked)
      ensures Removals(acts) == old(Removals(acts))
    {
      hide Run, Step, Removals;
      var pings := adds(steps);
      steps := steps + 1;
      for i := 0 to |pings|
        invariant Valid() && old(acts) <= acts && |acts| == |old(acts)| + i && steps == old(steps) + 1
        invariant forall j :: |old(acts)| <= j < |acts| ==> acts[j].HttpAdd? && acts[j].ping == pings[j - |old(acts)|]
        invariant Now().batch == old(Now().batch) && Now().unmarked == old(Now().unmarked)
        invariant Removals(acts) == old(Removals(acts))
      {
        ghost var before := Now();
        var _, id := queue.Add(pings[i]);
        RunPush(Empty, acts, HttpAdd(pings[i], id));
        RemovalsPush(acts, HttpAdd(pings[i], id));
        AddStep(before, pings[i], id);
        acts := acts + [HttpAdd(pings[i], id)];
      }
    }

    /** Processes one writer message; the answer says whether to look for another one. */
    method ReceiveMessage(msg: WriterMessage, adds: nat -> seq<Ping>) returns (more: bool)
      requires Valid()
      modifies this`acts, this`steps, queue
      ensures Valid() && old(acts) <= acts
      ensures Now().batch == old(Now().batch) && Now().unmarked == old(Now().unmarked)
      ensures Removals(acts) == old(Removals(acts)) + multiset(Named(msg))
      ensures more <==> AsksForMore(msg)
    {
      hide Run, Removals;
      match msg {
        case WriteError(iri) =>
          if iri.Some? {
            ServeAdds(adds);
            Remove(iri.value, msg);
          }
          return false;
        case Transaction(block, iris) =>
          if block == 0 {
            return false;
          }
          for i := 0 to |iris|
            invariant Valid() && old(acts) <= acts
            invariant Now().batch == old(Now().batch) && Now().unmarked == old(Now().unmarked)
            invariant Removals(acts) == old(Removals(acts)) + multiset(iris[..i])
          {
            ServeAdds(adds);
            Remove(iris[i], Transaction(block, [iris[i]]));
            assert iris[..i + 1] == iris[..i] + [iris[i]];
          }
          assert iris[..|iris|] == iris;
          return true;
      }
    }

    /** One deletion, as told by a message about this url alone. */
    method Remove(url: Url, ghost msg: WriterMessage)
      requires Valid() && RemovedBy(msg) == {url}
      modifies this`acts, queue
      ensures Valid() && old(acts) <= acts
      ensures Now().batch == old(Now().batch) && Now().unmarked == old(Now().unmarked)
      ensures Removals(acts) == old(Removals(acts)) + multiset{url}
    {
      RunPush(Empty, acts, Receive(msg));
      RemovalsPush(acts, Receive(msg));
      hide Run, Removals;
      queue.Delete(url);
      assert queue.table == old(queue.table) - {url};
      acts := acts + [Receive(msg)];
    }

    /** A look at both sockets: one message from the hive writer, then whatever waits on the gossip socket. */
    method ReceiveAll(world: World, k: nat)
      requires Valid()
      modifies this`acts, this`steps, queue
      ensures Valid() && old(acts) <= acts
      ensures Now().batch == old(Now().batch) && Now().unmarked == old(Now().unmarked)
      ensures Removals(acts) == old(Removals(acts)) + multiset(NamedIf(world.hive(k))) + multiset(Heard(world.gossip(k)))
    {
      hide Run, Removals, Named, Heard;
      var fromHive := world.hive(k);
      if fromHive.Some? {
        var _ := ReceiveMessage(fromHive.value, world.adds);
      }
      assert Removals(acts) == old(Removals(acts)) + multiset(NamedIf(world.hive(k)));
      hide NamedIf;
      ReceiveGossip(world.gossip(k), world.adds);
    }

    /** Gossip messages are read until one says stop. */
    method ReceiveGossip(msgs: seq<WriterMessage>, adds: nat -> seq<Ping>)
      requires Valid()
      modifies this`acts, this`steps, queue
      ensures Valid() && old(acts) <= acts
      ensures Now().batch == old(Now().batch) && Now().unmarked == old(Now().unmarked)
      ensures Removals(acts) == old(Removals(acts)) + multiset(Heard(msgs))
    {
      hide Run, Removals, Named, Heard, SentPings;
      ghost var goal := Removals(acts) + multiset(Heard(msgs));
      var i, more := 0, true;
      assert msgs[0..] == msgs;
      while i < |msgs| && more
        invariant i <= |msgs| && Valid() && old(acts) <= acts
        invariant Now().batch == old(Now().batch) && Now().unmarked == old(Now().unmarked)
        invariant Removals(acts) + multiset(if more then Heard(msgs[i..]) else []) == goal
      {
        HeardStep(msgs, i);
        more := ReceiveMessage(msgs[i], adds);
        i := i + 1;
      }
      if more { HeardStep(msgs, i); }
    }

    method FetchBatch(now: int) returns (pings: seq<Ping>)
      requires Valid() && Idle(Now())
      modifies this`acts
      ensures Valid() && acts == old(acts) + [Fetch(now, pings)]
      ensures Now().batch == pings && Now().unmarked.None?
    {
      pings := queue.Get(now, false);
      RunPush(Empty, acts, Fetch(now, pings));
      hide Run, IsFetch;
      acts := acts + [Fetch(now, pings)];
    }

    /** A send to the hive writer; a failure gives up the rest of the batch. */
    method SendOne(ping: Ping, ok: bool)
      requires Valid() && Now().batch != [] && Now().batch[0] == ping && Now().unmarked.None?
      modifies this`acts, this`hiveOut
      ensures Valid() && old(acts) <= acts
      ensures ok ==> hiveOut == old(hiveOut) + [ping] && Now().batch == old(Now().batch)[1..] && Now().unmarked == Some(ping.url)
      ensures !ok ==> hiveOut == old(hiveOut) && Idle(Now())
    {
      ghost var a := if ok then SendOk else SendFails;
      RunPush(Empty, acts, a);
      SentPush(Now().log, HiveSent(ping));
      hide Run, SentPings;
      acts := acts + [a];
      if ok {
        hiveOut := hiveOut + [ping];
      }
    }

    method MarkSent(ping: Ping)
      requires Valid() && Now().unmarked == Some(ping.url)
      modifies this`acts, queue
      ensures Valid() && old(acts) <= acts
      ensures Now().batch == old(Now().batch) && Now().unmarked.None?
    {
      RunPush(Empty, acts, Mark);
      hide Run, SentPings;
      queue.SetInflight(ping);
      assert queue.table == MarkInflight(old(queue.table), ping.url);
      acts := acts + [Mark];
    }

    method ResetStuck(now: int)
      requires Valid() && Idle(Now())
      modifies this`acts, queue
      ensures Valid() && old(acts) <= acts && Idle(Now())
      ensures acts != [] && acts[|acts| - 1].Reset? && acts[|acts| - 1].now == now
    {
      ghost var before := Now();
      var chosen := queue.ResetInflight(now);
      ghost var order := SomeListing(chosen);
      RunPush(Empty, acts, Reset(now, order));
      ResetsSendNothing(before.log, before.table, order, now);
      hide Run, SentPings;
      acts := acts + [Reset(now, order)];
    }

    /**
     One round of the loop: every database call and every send is a step of the
     protocol. What was fetched goes out in order up to the first failed send,
     and a quiet round ends with a reset.
     */
    method CheckQueue(world: World) returns (sent: nat, ghost fetched: nat)
      requires Valid() && Idle(Now())
      modifies this, queue
      ensures Valid() && old(acts) <= acts && Idle(Now())
      ensures |old(acts)| <= fetched < |acts| && acts[fetched].Fetch? && acts[fetched].now == world.fetchTime
      ensures sent <= |acts[fetched].pings| && hiveOut == old(hiveOut) + acts[fetched].pings[..sent]
      ensures forall i :: 0 <= i < sent ==> world.sends(i)
      ensures sent < |acts[fetched].pings| ==> !world.sends(sent)
      ensures sent < 25 ==> acts[|acts| - 1].Reset? && acts[|acts| - 1].now == world.resetTime
      ensures totalSent == old(totalSent) + sent
    {
      hide Run, SentPings, Removals, Heard, NamedIf;
      ReceiveAll(world, 0);
      ServeAdds(world.adds);
      fetched := |acts|;
      var pings := FetchBatch(world.fetchTime);
      sent := SendBatch(world, pings);
      totalSent := totalSent + sent;
      if sent < 25 {
        ServeAdds(world.adds);
        ResetStuck(world.resetTime);
      }
    }

    /** The loop over the fetched pings, with web requests between a send and its mark. */
    method SendBatch(world: World, pings: seq<Ping>) returns (sent: nat)
      requires Valid() && Now().batch == pings && Now().unmarked.None?
      modifies this`acts, this`hiveOut, this`steps, queue
      ensures Valid() && old(acts) <= acts && Idle(Now())
      ensures sent <= |pings| && hiveOut == old(hiveOut) + pings[..sent]
      ensures forall i :: 0 <= i < sent ==> world.sends(i)
      ensures sent < |pings| ==> !world.sends(sent)
    {
      hide Run, SentPings, Removals, Heard, NamedIf;
      sent := 0;
      while sent < |pings|
        invariant sent <= |pings| && Valid() && old(acts) <= acts
        invariant Now().batch == pings[sent..] && Now().unmarked.None?
        invariant hiveOut == old(hiveOut) + pings[..sent]
        invariant forall i :: 0 <= i < sent ==> world.sends(i)
      {
        SendNext(world, pings[sent], sent);
        if !world.sends(sent) { break; }
        sent := sent + 1;
      }
    }

    /** One ping of the batch: send it, mark it, and look at the sockets; or give up the batch. */
    method SendNext(world: World, ping: Ping, i: nat)
      requires Valid() && Now().batch != [] && Now().batch[0] == ping && Now().unmarked.None?
      modifies this`acts, this`hiveOut, this`steps, queue
      ensures Valid() && old(acts) <= acts && Now().unmarked.None?
      ensures world.sends(i) ==> hiveOut == old(hiveOut) + [ping] && Now().batch == old(Now().batch)[1..]
      ensures !world.sends(i) ==> hiveOut == old(hiveOut) && Idle(Now())
    {
      hide *;
      ServeAdds(world.adds);
      SendOne(ping, world.sends(i));
      if !world.sends(i) {
        IdleHas(Now());
        return;
      }
      ServeAdds(world.adds);
      MarkSent(ping);
      ReceiveAll(world, i + 1);
    }
  }

  lemma IdleHas(st: State)
    ensures Idle(st) <==> st.batch == [] && st.unmarked.None?
  {
  }

  lemma AddStep(st: State, ping: Ping, id: nat)
    requires NewRowid(st.table, id)
    ensures var st1 := Step(st, HttpAdd(ping, id));
            && st1.table == AddPing(st.table, ping, id) && SentPings(st1.log) == SentPings(st.log)
            && st1.batch == st.batch && st1.unmarked == st.unmarked
  {
    SentPush(st.log, Added(ping.url));
    SentPush(st.log, Readded(ping.url, ping.reason));
    hide SentPings;
  }
}
