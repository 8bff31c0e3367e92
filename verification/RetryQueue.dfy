/** The broadcast task: failed payloads wait in a bounded queue that a successful reconnect replays. */
module RetryQueue {

  type Payload = string

  const MAX_RETRY_QUEUE: nat := 500
  const RECONNECT_AFTER_FAILURES: nat := 5
  const ENDPOINT_RESET_AFTER_RECONNECTS: nat := 3

  /** How the network answers while one payload is handled. `replay(i)` is the answer to the i-th replayed one. */
  datatype Answers = Answers(sent: bool, coolingDown: bool, reconnected: bool, replay: nat -> bool)

  datatype Event =
    | Take(payload: Payload, answers: Answers)
    | Notified(requested: bool, forced: bool, coolingDown: bool, reconnected: bool)

  /** The task's variables, followed by a record of where each payload taken from the channel went. */
  datatype Task = Task(queue: seq<Payload>, failures: nat, reconnects: nat,
                       taken: seq<Payload>, direct: seq<Payload>, parked: seq<Payload>,
                       replayed: seq<Payload>, dropped: seq<Payload>)

  const Fresh: Task := Task([], 0, 0, [], [], [], [], [])

  /** How many of the queued payloads a replay gets through before the first failure. */
  function ReplayCount(queue: seq<Payload>, replay: nat -> bool, i: nat): (n: nat)
    ensures n <= |queue|
    decreases |queue|
  {
    if queue == [] || !replay(i) then 0 else 1 + ReplayCount(queue[1..], replay, i + 1)
  }

  /** The broadcast attempt and, on failure, the queueing or dropping of the payload. */
  function Attempt(t: Task, payload: Payload, sent: bool): Task
  {
    var t1 := t.(taken := t.taken + [payload]);
    if sent then t1.(direct := t.direct + [payload], failures := 0, reconnects := 0)
    else if |t.queue| < MAX_RETRY_QUEUE then
      t1.(failures := t.failures + 1, queue := t.queue + [payload], parked := t.parked + [payload])
    else
      t1.(failures := t.failures + 1, dropped := t.dropped + [payload])
  }

  function Replay(t: Task, replay: nat -> bool): Task
  {
    var n := ReplayCount(t.queue, replay, 0);
    t.(queue := t.queue[n..], replayed := t.replayed + t.queue[..n])
  }

  function HandlePayload(t: Task, payload: Payload, a: Answers): Task
  {
    var t1 := Attempt(t, payload, a.sent);
    if t1.failures < RECONNECT_AFTER_FAILURES then t1
    else
      var t2 := t1.(failures := 0);
      if a.coolingDown then t2
      else
        var t3 := t2.(reconnects := t2.reconnects + 1);
        if a.reconnected then Replay(t3, a.replay) else t3
  }

  function HandleNotify(t: Task, requested: bool, forced: bool, coolingDown: bool): Task
  {
    if (!requested && !forced) || (!forced && coolingDown) then t
    else t.(failures := 0, reconnects := if forced then ENDPOINT_RESET_AFTER_RECONNECTS + 1 else t.reconnects + 1)
  }

  function Step(t: Task, e: Event): Task
  {
    match e
    case Take(payload, answers) => HandlePayload(t, payload, answers)
    case Notified(requested, forced, coolingDown, _) => HandleNotify(t, requested, forced, coolingDown)
  }

  function Run(t: Task, events: seq<Event>): Task
  {
    if events == [] then t else Step(Run(t, events[..|events| - 1]), events[|events| - 1])
  }

  // ----- the task as it is written: a queue and two counters, updated in place

  class BroadcastTask {
    var queue: seq<Payload>
    var failures: nat
    var reconnects: nat
    ghost var record: Task

    /** The concrete variables are those of the record. */
    ghost predicate Valid()
      reads this
    {
      queue == record.queue && failures == record.failures && reconnects == record.reconnects
    }

    constructor ()
      ensures Valid() && record == Fresh
    {
      queue, failures, reconnects, record := [], 0, 0, Fresh;
    }

    /** One payload from the channel; returns what went out, in order. */
    method OnPayload(payload: Payload, a: Answers) returns (out: seq<Payload>)
      requires Valid()
      modifies this
      ensures Valid() && record == HandlePayload(old(record), payload, a)
      ensures a.sent ==> record.direct == old(record.direct) + out && record.replayed == old(record.replayed)
      ensures !a.sent ==> record.replayed == old(record.replayed) + out && record.direct == old(record.direct)
    {
      out := [];
      if a.sent {
        out := [payload];
        failures, reconnects := 0, 0;
      } else {
        failures := failures + 1;
        if |queue| < MAX_RETRY_QUEUE {
          queue := queue + [payload];
        }
      }
      record := HandlePayload(record, payload, a);
      if failures < RECONNECT_AFTER_FAILURES {
        return;
      }
      failures := 0;
      if a.coolingDown {
        return;
      }
      reconnects := reconnects + 1;
      if a.reconnected {
        var replayed := ReplayQueue(a.replay);
        out := out + replayed;
      }
    }

    /** Drains the queue through the new sender; a payload that fails goes back to the front. */
    method ReplayQueue(replay: nat -> bool) returns (out: seq<Payload>)
      modifies this`queue
      ensures queue == old(queue)[ReplayCount(old(queue), replay, 0)..]
      ensures out == old(queue)[..ReplayCount(old(queue), replay, 0)]
      ensures out + queue == old(queue) && (forall i :: 0 <= i < |out| ==> replay(i)) && (queue != [] ==> !replay(|out|))
    {
      var i := 0;
      out := [];
      while queue != []
        invariant i <= |old(queue)| && queue == old(queue)[i..] && out == old(queue)[..i]
        invariant ReplayCount(old(queue), replay, 0) == i + ReplayCount(queue, replay, i)
        invariant forall j :: 0 <= j < i ==> replay(j)
        decreases |queue|
      {
        var payload := queue[0];
        queue := queue[1..];
        if !replay(i) {
          queue := [payload] + queue;
          break;
        }
        out := out + [payload];
        i := i + 1;
      }
    }

    /** A reconnect requested by another task. */
    method OnNotify(requested: bool, forced: bool, coolingDown: bool, reconnected: bool)
      requires Valid()
      modifies this
      ensures Valid() && record == HandleNotify(old(record), requested, forced, coolingDown)
    {
      record := HandleNotify(record, requested, forced, coolingDown);
      if !requested && !forced {
        return;
      }
      if !forced && coolingDown {
        return;
      }
      reconnects := reconnects + 1;
      if forced {
        reconnects := ENDPOINT_RESET_AFTER_RECONNECTS + 1;
      }
      failures := 0;
    }
  }

  // ----- what every run keeps

  ghost predicate Accounted(t: Task)
  {
    && |t.queue| <= MAX_RETRY_QUEUE
    && t.replayed + t.queue == t.parked
    && multiset(t.taken) == multiset(t.direct) + multiset(t.parked) + multiset(t.dropped)
    && t.failures < RECONNECT_AFTER_FAILURES
  }

  lemma AttemptAccounted(t: Task, payload: Payload, sent: bool)
    requires Accounted(t)
    ensures var t1 := Attempt(t, payload, sent);
            && |t1.queue| <= MAX_RETRY_QUEUE && t1.replayed + t1.queue == t1.parked
            && multiset(t1.taken) == multiset(t1.direct) + multiset(t1.parked) + multiset(t1.dropped)
            && t1.failures <= RECONNECT_AFTER_FAILURES
  {
    assert t.replayed + (t.queue + [payload]) == t.replayed + t.queue + [payload];
    BagPush(t.taken, payload);
    BagPush(t.direct, payload);
    BagPush(t.parked, payload);
    BagPush(t.dropped, payload);
    BagMove(multiset(t.direct), multiset(t.parked), multiset(t.dropped), multiset{payload});
  }

  lemma BagMove<T>(a: multiset<T>, b: multiset<T>, c: multiset<T>, x: multiset<T>)
    ensures a + b + c + x == (a + x) + b + c == a + (b + x) + c == a + b + (c + x)
  {
  }

  lemma BagPush(xs: seq<Payload>, x: Payload)
    ensures multiset(xs + [x]) == multiset(xs) + multiset{x}
  {
  }

  lemma ReplayAccounted(t: Task, replay: nat -> bool)
    requires t.replayed + t.queue == t.parked
    ensures Replay(t, replay).replayed + Replay(t, replay).queue == t.parked
  {
    var n := ReplayCount(t.queue, replay, 0);
    var queue := t.queue;
    assert queue == queue[..n] + queue[n..];
    assert t.replayed + queue[..n] + queue[n..] == t.replayed + (queue[..n] + queue[n..]);
  }

  lemma StepAccounted(t: Task, e: Event)
    requires Accounted(t)
    ensures Accounted(Step(t, e))
  {
    if e.Take? {
      AttemptAccounted(t, e.payload, e.answers.sent);
      var t1 := Attempt(t, e.payload, e.answers.sent);
      ReplayAccounted(t1.(failures := 0, reconnects := t1.reconnects + 1), e.answers.replay);
    }
  }

  lemma {:induction false} RunAccounted(t: Task, events: seq<Event>)
    requires Accounted(t)
    ensures Accounted(Run(t, events))
  {
    if events != [] {
      RunAccounted(t, events[..|events| - 1]);
      StepAccounted(Run(t, events[..|events| - 1]), events[|events| - 1]);
    }
  }

  /**
   Conservation, over every run: each payload taken was broadcast directly,
   replayed, is still queued, or was dropped; the queue is bounded; and replays
   happen in the order in which the failures were queued.
   */
  lemma PayloadsConserved(events: seq<Event>)
    ensures var t := Run(Fresh, events);
            && multiset(t.taken) == multiset(t.direct) + multiset(t.replayed) + multiset(t.queue) + multiset(t.dropped)
            && |t.taken| == |t.direct| + |t.replayed| + |t.queue| + |t.dropped|
            && t.replayed + t.queue == t.parked
            && |t.queue| <= 500
  {
    RunAccounted(Fresh, events);
    var t := Run(Fresh, events);
    hide Run;
    assert multiset(t.parked) == multiset(t.replayed) + multiset(t.queue);
    assert |multiset(t.taken)| == |t.taken| && |multiset(t.direct)| == |t.direct| && |multiset(t.replayed)| == |t.replayed|;
    assert |multiset(t.queue)| == |t.queue| && |multiset(t.dropped)| == |t.dropped|;
  }

  /** A step drops a payload exactly when its broadcast failed with 500 payloads already waiting. */
  lemma DropsOnlyWhenFull(t: Task, e: Event)
    requires Accounted(t)
    ensures Step(t, e).dropped != t.dropped <==> e.Take? && !e.answers.sent && |t.queue| == 500
    ensures Step(t, e).dropped != t.dropped ==> Step(t, e).dropped == t.dropped + [e.payload]
  {
    if e.Take? {
      assert |Attempt(t, e.payload, e.answers.sent).dropped| == |Step(t, e).dropped|;
    }
  }

  // ----- when waiting payloads get another chance

  /**
   A step replays something exactly when it handles a payload whose failure is
   the fifth in a row, outside the cooldown, with a working reconnect and a
   first replay that succeeds.
   */
  lemma ReplayIff(t: Task, e: Event)
    requires Accounted(t)
    ensures Step(t, e).replayed != t.replayed <==>
            && e.Take? && !e.answers.sent && t.failures + 1 == RECONNECT_AFTER_FAILURES
            && !e.answers.coolingDown && e.answers.reconnected && e.answers.replay(0)
  {
    if e.Take? {
      var t1 := Attempt(t, e.payload, e.answers.sent);
      assert t1.replayed == t.replayed;
      if !e.answers.sent {
        assert t1.queue != [];
        var n := ReplayCount(t1.queue, e.answers.replay, 0);
        assert n > 0 <==> e.answers.replay(0);
        assert |Step(t, e).replayed| == |t.replayed| ||  |Step(t, e).replayed| == |t.replayed| + n;
      }
    }
  }

  ghost predicate Healthy(events: seq<Event>)
  {
    forall i :: 0 <= i < |events| ==> events[i].Take? ==> events[i].answers.sent
  }

  /**
   Once every broadcast succeeds again, waiting payloads are never sent: neither
   later successes nor reconnects requested by the watchdog replay the queue.
   */
  lemma {:induction false} HealthyNetworkNeverReplays(t: Task, events: seq<Event>)
    requires Accounted(t) && Healthy(events)
    ensures Run(t, events).queue == t.queue && Run(t, events).replayed == t.replayed
  {
    if events != [] {
      var before, e := events[..|events| - 1], events[|events| - 1];
      HealthyNetworkNeverReplays(t, before);
      RunAccounted(t, before);
      assert e.Take? ==> e.answers.sent;
    }
  }

  lemma {:induction false} RunAppend(t: Task, a: seq<Event>, b: seq<Event>)
    ensures Run(t, a + b) == Run(Run(t, a), b)
    decreases |b|
  {
    hide Step;
    if b == [] {
      assert a + b == a;
    } else {
      assert (a + b)[..|a + b| - 1] == a + b[..|b| - 1];
      RunAppend(t, a, b[..|b| - 1]);
    }
  }

  /** Such a queue is one failure away: a first payload that fails once, in a network that then stays healthy, is never sent. */
  lemma OneFailureStrands(payload: Payload, answers: Answers, events: seq<Event>)
    requires !answers.sent && Healthy(events)
    ensures var t := Run(Fresh, [Take(payload, answers)] + events);
            && t.queue == [payload] && t.replayed == []
  {
    var first := [Take(payload, answers)];
    assert first[..0] == [];
    var t := Run(Fresh, first);
    assert t == Step(Fresh, first[0]) by { assert Run(Fresh, []) == Fresh; hide Step; }
    assert [] + [payload] == [payload];
    assert t.queue == [payload] && t.replayed == [];
    RunAccounted(Fresh, first);
    RunAppend(Fresh, first, events);
    HealthyNetworkNeverReplays(t, events);
  }

  // ----- the counters, read off the events

  /** What ends a row of failures: a broadcast that succeeds, or a requested reconnect that is carried out. */
  predicate Breaks(e: Event)
  {
    match e
    case Take(_, answers) => answers.sent
    case Notified(requested, forced, coolingDown, _) => forced || (requested && !coolingDown)
  }

  /** The failed broadcasts since the last event that breaks the row. */
  function Streak(events: seq<Event>): nat
  {
    if events == [] then 0
    else
      var last := events[|events| - 1];
      if Breaks(last) then 0 else Streak(events[..|events| - 1]) + if last.Take? then 1 else 0
  }

  /** The reconnect attempts since the last success; a forced one counts as the fourth. */
  function Attempts(events: seq<Event>): nat
  {
    if events == [] then 0
    else
      var before, last := Attempts(events[..|events| - 1]), events[|events| - 1];
      if last.Take? then
        if last.answers.sent then 0
        else if Streak(events) % 5 == 0 && !last.answers.coolingDown then before + 1 else before
      else if last.forced then 4
      else if Breaks(last) then before + 1 else before
  }

  /** The payloads of the takes, and of those that succeed at once. */
  function TakenOf(events: seq<Event>, sentOnly: bool): seq<Payload>
  {
    if events == [] then []
    else
      var last := events[|events| - 1];
      TakenOf(events[..|events| - 1], sentOnly) + if last.Take? && (sentOnly ==> last.answers.sent) then [last.payload] else []
  }

  ghost predicate AsCounted(t: Task, events: seq<Event>)
  {
    && t.failures == Streak(events) % 5 && t.reconnects == Attempts(events)
    && t.taken == TakenOf(events, false) && t.direct == TakenOf(events, true)
  }

  lemma StepCounts(t: Task, events: seq<Event>)
    requires events != [] && AsCounted(t, events[..|events| - 1])
    ensures AsCounted(Step(t, events[|events| - 1]), events)
  {
    var before, e := events[..|events| - 1], events[|events| - 1];
    assert Streak(events) == if Breaks(e) then 0 else Streak(before) + if e.Take? then 1 else 0;
    if e.Take? {
      assert Step(t, e).direct == Attempt(t, e.payload, e.answers.sent).direct;
      assert Step(t, e).taken == t.taken + [e.payload];
    }
    hide Streak, TakenOf, Replay;
    FifthIs(Streak(before));
  }

  lemma FifthIs(n: nat)
    ensures (n + 1) % 5 == if n % 5 + 1 == 5 then 0 else n % 5 + 1
  {
  }

  /**
   In every run the task's counters and records are what the events say: the
   failures are those in a row, counted in fives; the reconnects are those since
   the last success; what was taken, and what was sent at once, is in order.
   */
  lemma {:induction false} CountersFromEvents(events: seq<Event>)
    ensures AsCounted(Run(Fresh, events), events)
  {
    if events != [] {
      CountersFromEvents(events[..|events| - 1]);
      hide AsCounted, Step;
      StepCounts(Run(Fresh, events[..|events| - 1]), events);
    }
  }

  /** The answers to the broadcasts, in order. */
  function Outcomes(events: seq<Event>): seq<bool>
  {
    if events == [] then []
    else
      var last := events[|events| - 1];
      Outcomes(events[..|events| - 1]) + if last.Take? then [last.answers.sent] else []
  }

  lemma {:induction false} StreakFailed(events: seq<Event>)
    ensures Streak(events) <= |Outcomes(events)|
    ensures forall i :: |Outcomes(events)| - Streak(events) <= i < |Outcomes(events)| ==> !Outcomes(events)[i]
  {
    if events != [] { StreakFailed(events[..|events| - 1]); }
  }

  /**
   In every run, an event replays something exactly when it is a failed
   broadcast that completes five, or a multiple of five, in a row, outside the
   cooldown, with a working reconnect and a first replay that succeeds. So the
   last five broadcasts have all failed.
   */
  lemma ReplayNeedsFive(events: seq<Event>)
    requires events != []
    ensures var before, e := events[..|events| - 1], events[|events| - 1];
            Run(Fresh, events).replayed != Run(Fresh, before).replayed
            <==> && e.Take? && !e.answers.sent && Streak(events) % 5 == 0
                 && !e.answers.coolingDown && e.answers.reconnected && e.answers.replay(0)
    ensures Run(Fresh, events).replayed != Run(Fresh, events[..|events| - 1]).replayed ==>
              |Outcomes(events)| >= 5 && forall i :: |Outcomes(events)| - 5 <= i < |Outcomes(events)| ==> !Outcomes(events)[i]
  {
    var before, e := events[..|events| - 1], events[|events| - 1];
    CountersFromEvents(before);
    RunAccounted(Fresh, before);
    StreakFailed(events);
    hide Step, Accounted, TakenOf, Attempts, Outcomes;
    ReplayIff(Run(Fresh, before), e);
    FifthIs(Streak(before));
  }
}
