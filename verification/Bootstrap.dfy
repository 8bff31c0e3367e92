/**
 The bootstrap loop: look for other nodes' records, try to join them, and
 publish an own record once per minute until the node has joined the topic.
 */
module Bootstrap {
  import opened Sequences

  /**
   What the loop learns from outside: the answer to the k-th question whether
   the node has joined; the clock's minute, whether records were found, which of
   the found nodes accept a join request, and whether a record can be signed,
   all in the i-th round.
   */
  datatype Env = Env(joined: nat -> bool, minute: nat -> nat, found: nat -> bool, peers: nat -> seq<bool>, signs: nat -> bool)

  /** What the loop does, as seen from outside. */
  datatype Event =
    | Asked(joined: bool)       // whether the node has joined, and the answer
    | Looked(minute: int)       // for the records of this minute and the one before
    | Requested(accepted: bool) // a join request to one node
    | Waited                    // half a second before the final question
    | Published(minute: int)

  /** The last minute dealt with, how often the join state was asked, the minutes published, all events, and whether completion was signalled. */
  datatype State = State(last: int, asked: nat, published: seq<int>, trace: seq<Event>, done: bool)

  const Fresh: State := State(0, 0, [], [], false)

  /** The first attempt looks at the previous minute, later ones at the current one. */
  function MinuteFor(last: int, now: nat): int
  {
    if last == 0 then now - 1 else now
  }

  ghost function Ask(joined: nat -> bool, s: State): State
  {
    s.(asked := s.asked + 1, trace := s.trace + [Asked(joined(s.asked))])
  }

  ghost function Note(s: State, e: Event): State
  {
    s.(trace := s.trace + [e])
  }

  /** Peers are tried one by one; after each accepted request the join state decides whether to go on. */
  ghost function TryAll(joined: nat -> bool, peers: seq<bool>, s: State): (r: State)
    ensures r.asked >= s.asked && r.last == s.last && r.published == s.published && r.done == s.done
    decreases |peers|
  {
    if peers == [] then s
    else
      var s1 := Note(s, Requested(peers[0]));
      if !peers[0] then TryAll(joined, peers[1..], s1)
      else if joined(s1.asked) then Ask(joined, s1)
      else TryAll(joined, peers[1..], Ask(joined, s1))
  }

  ghost function Publish(s: State, minute: int, signs: bool): (r: State)
    ensures r.asked == s.asked && r.done == s.done && r.last == minute
  {
    if minute == s.last then s
    else if !signs then s.(last := minute)
    else s.(last := minute, published := s.published + [minute], trace := s.trace + [Published(minute)])
  }

  /** One round of the loop. */
  ghost function Round(env: Env, i: nat, s: State): State
  {
    var s1 := Ask(env.joined, s);
    if env.joined(s.asked) then s1.(done := true)
    else
      var minute := MinuteFor(s.last, env.minute(i));
      var s2 := Note(s1, Looked(minute));
      if !env.found(i) then Publish(s2, minute, env.signs(i))
      else
        var s3 := Ask(env.joined, s2);
        if env.joined(s2.asked) then s3.(done := true) else LastChance(env, i, minute, TryAll(env.joined, env.peers(i), s3))
  }

  /** After all peers were tried: a question, a wait if the answer is no, and the final question. */
  ghost function LastChance(env: Env, i: nat, minute: int, s: State): State
  {
    var s1 := Ask(env.joined, s);
    var s2 := if env.joined(s.asked) then s1 else Note(s1, Waited);
    var s3 := Ask(env.joined, s2);
    if env.joined(s2.asked) then s3.(done := true) else Publish(s3, minute, env.signs(i))
  }

  /** The state after at most n rounds. */
  ghost function Run(env: Env, n: nat): State
  {
    if n == 0 then Fresh
    else
      var s := Run(env, n - 1);
      if s.done then s else Round(env, n - 1, s)
  }

  // ----- the loop as it is written

  method TryPeers(joined: nat -> bool, peers: seq<bool>, s: State) returns (r: State)
    ensures r == TryAll(joined, peers, s)
  {
    r := s;
    for i := 0 to |peers|
      invariant TryAll(joined, peers[i..], r) == TryAll(joined, peers, s)
    {
      assert peers[i..][0] == peers[i] && peers[i..][1..] == peers[i + 1..];
      r := r.(trace := r.trace + [Requested(peers[i])]);
      if !peers[i] { continue; }
      var yes := joined(r.asked);
      r := r.(asked := r.asked + 1, trace := r.trace + [Asked(yes)]);
      if yes { return; }
    }
  }

  method PublishOnce(s: State, minute: int, signs: bool) returns (r: State)
    ensures r == Publish(s, minute, signs)
  {
    r := s;
    if minute != r.last {
      r := r.(last := minute);
      if signs { r := r.(published := r.published + [minute], trace := r.trace + [Published(minute)]); }
    }
  }

  /** The body of the loop; returning a finished state is the loop's break. */
  method BootstrapRound(env: Env, i: nat, s: State) returns (r: State)
    requires !s.done
    ensures r == Round(env, i, s)
  {
    hide TryAll, Publish, LastChance;
    var yes := env.joined(s.asked);
    r := s.(asked := s.asked + 1, trace := s.trace + [Asked(yes)]);
    if yes { return r.(done := true); }
    var unixMinute := if s.last == 0 then env.minute(i) - 1 else env.minute(i);
    r := r.(trace := r.trace + [Looked(unixMinute)]);
    if !env.found(i) {
      r := PublishOnce(r, unixMinute, env.signs(i));
      return;
    }
    yes := env.joined(r.asked);
    r := r.(asked := r.asked + 1, trace := r.trace + [Asked(yes)]);
    if yes { return r.(done := true); }
    r := TryPeers(env.joined, env.peers(i), r);
    r := FinalCheck(env, i, unixMinute, r);
  }

  method FinalCheck(env: Env, i: nat, unixMinute: int, s: State) returns (r: State)
    ensures r == LastChance(env, i, unixMinute, s)
  {
    hide Publish;
    var yes := env.joined(s.asked);
    r := s.(asked := s.asked + 1, trace := s.trace + [Asked(yes)]);
    if !yes { r := r.(trace := r.trace + [Waited]); }
    yes := env.joined(r.asked);
    r := r.(asked := r.asked + 1, trace := r.trace + [Asked(yes)]);
    if yes {
      r := r.(done := true);
    } else {
      r := PublishOnce(r, unixMinute, env.signs(i));
    }
  }

  method StartBootstrap(env: Env, rounds: nat) returns (s: State)
    ensures s == Run(env, rounds)
  {
    hide Round;
    s := Fresh;
    var i := 0;
    while i < rounds && !s.done
      invariant 0 <= i <= rounds && s == Run(env, i)
    {
      s := BootstrapRound(env, i, s);
      i := i + 1;
    }
    RunStops(env, i, rounds);
  }

  lemma {:induction false} RunStops(env: Env, m: nat, n: nat)
    requires m <= n && (m == n || Run(env, m).done)
    ensures Run(env, n) == Run(env, m)
  {
    if m < n { RunStops(env, m, n - 1); }
  }

  // ----- completion

  /**
   Completion is signalled exactly when the latest answer about the join state
   was yes; so never before a join was observed, and the loop goes on only after a no.
   */
  lemma {:induction false} CompletionIff(env: Env, n: nat)
    ensures Run(env, n).done <==> Run(env, n).asked > 0 && env.joined(Run(env, n).asked - 1)
  {
    hide Round;
    if n > 0 {
      var s := Run(env, n - 1);
      assert Run(env, n) == if s.done then s else Round(env, n - 1, s);
      CompletionIff(env, n - 1);
      hide Run;
      if !s.done { RoundAsks(env, n - 1, s); }
    }
  }

  lemma RoundAsks(env: Env, i: nat, s: State)
    requires !s.done
    ensures Round(env, i, s).asked > s.asked
    ensures Round(env, i, s).done <==> env.joined(Round(env, i, s).asked - 1)
  {
    hide TryAll, Publish;
  }

  /** A round ends the loop and publishes nothing, or deals with its minute. */
  lemma RoundPublishes(env: Env, i: nat, s: State)
    requires !s.done
    ensures var r := Round(env, i, s);
            var p := if r.done then s else Publish(s, MinuteFor(s.last, env.minute(i)), env.signs(i));
            r.last == p.last && r.published == p.published
  {
    hide TryAll, MinuteFor;
  }

  // ----- publishing

  ghost predicate SteadyClock(env: Env)
  {
    env.minute(0) >= 2 && forall i: nat :: env.minute(i) <= env.minute(i + 1)
  }

  lemma {:induction false} ClockRises(env: Env, i: nat, j: nat)
    requires SteadyClock(env) && i <= j
    ensures 2 <= env.minute(i) <= env.minute(j)
    decreases j
  {
    if i < j { ClockRises(env, i, j - 1); }
    else if i > 0 { ClockRises(env, i - 1, i - 1); }
  }

  /** What a round leaves: minutes in order, none beyond the last one, all inside the clock's range. */
  ghost predicate Orderly(env: Env, n: nat, s: State)
  {
    && Increasing(s.published)
    && (s.last == 0 ==> s.published == [])
    && (s.last != 0 ==> n > 0 && env.minute(0) - 1 <= s.last <= env.minute(n - 1))
    && forall k :: 0 <= k < |s.published| ==> env.minute(0) - 1 <= s.published[k] <= s.last
  }

  lemma PublishKeeps(env: Env, n: nat, s: State)
    requires SteadyClock(env) && Orderly(env, n, s)
    ensures Orderly(env, n + 1, Publish(s, MinuteFor(s.last, env.minute(n)), env.signs(n)))
  {
    ClockRises(env, 0, n);
    if n > 0 { ClockRises(env, n - 1, n); }
    hide SteadyClock;
    var minute := MinuteFor(s.last, env.minute(n));
    if minute != s.last && env.signs(n) {
      assert forall k :: 0 <= k < |s.published| ==> s.published[k] < minute;
      IncreasingPush(s.published, minute);
      hide Increasing;
    }
  }

  lemma IncreasingPush(ms: seq<int>, m: int)
    requires Increasing(ms) && forall k :: 0 <= k < |ms| ==> ms[k] < m
    ensures Increasing(ms + [m])
  {
  }

  lemma OrderlyLater(env: Env, n: nat, s: State)
    requires SteadyClock(env) && Orderly(env, n, s)
    ensures Orderly(env, n + 1, s)
  {
    if n > 0 { ClockRises(env, n - 1, n); }
  }

  lemma {:induction false} RunOrderly(env: Env, n: nat)
    requires SteadyClock(env)
    ensures Orderly(env, n, Run(env, n))
  {
    if n > 0 {
      RunOrderly(env, n - 1);
      var s := Run(env, n - 1);
      hide Round, Publish, Increasing, SteadyClock;
      if !s.done { RoundPublishes(env, n - 1, s); }
      OrderlyLater(env, n - 1, s);
      PublishKeeps(env, n - 1, s);
    }
  }

  /**
   Under a clock that never goes back, the minutes published for strictly
   increase in spite of the change from the previous to the current minute,
   and there is at most one record for each minute that passed and one for the minute before.
   */
  lemma PublishedIncreasing(env: Env, n: nat)
    requires SteadyClock(env) && n > 0
    ensures Increasing(Run(env, n).published)
    ensures |Run(env, n).published| <= env.minute(n - 1) - env.minute(0) + 2
  {
    RunOrderly(env, n);
    var ms := Run(env, n).published;
    ClockRises(env, 0, n - 1);
    if ms != [] {
      IncreasingSpreads(ms, |ms| - 1);
    }
  }

  lemma {:induction false} IncreasingSpreads(ms: seq<int>, k: nat)
    requires Increasing(ms) && k < |ms|
    ensures ms[k] >= ms[0] + k
  {
    if k > 0 { IncreasingSpreads(ms, k - 1); }
  }

  /** If records can be signed, every round that does not end the loop leaves a record published for the minute it looked at. */
  lemma {:induction false} EveryMinuteCovered(env: Env, n: nat, i: nat)
    requires SteadyClock(env) && (forall k: nat :: env.signs(k))
    requires i < n && !Run(env, i + 1).done
    ensures MinuteFor(Run(env, i).last, env.minute(i)) in Run(env, n).published
  {
    if n == i + 1 {
      CoveredNow(env, i);
    } else {
      EveryMinuteCovered(env, n - 1, i);
      hide *;
      PublishedStays(env, n - 1, MinuteFor(Run(env, i).last, env.minute(i)));
    }
  }

  lemma {:induction false} CoveredNow(env: Env, i: nat)
    requires SteadyClock(env) && (forall k: nat :: env.signs(k)) && !Run(env, i + 1).done
    ensures MinuteFor(Run(env, i).last, env.minute(i)) in Run(env, i + 1).published
  {
    ClockRises(env, 0, i);
    LastIsPublished(env, i + 1);
    hide Round, Publish, SteadyClock;
    assert Run(env, i + 1) == if Run(env, i).done then Run(env, i) else Round(env, i, Run(env, i));
    hide Run;
    RoundPublishes(env, i, Run(env, i));
  }

  lemma {:induction false} PublishedStays(env: Env, n: nat, minute: int)
    requires minute in Run(env, n).published
    ensures minute in Run(env, n + 1).published
  {
    var s := Run(env, n);
    assert Run(env, n + 1) == if s.done then s else Round(env, n, s);
    hide Run, Round;
    if !s.done { RoundPublishes(env, n, s); }
  }

  lemma {:induction false} LastIsPublished(env: Env, n: nat)
    requires forall k: nat :: env.signs(k)
    ensures Run(env, n).last != 0 ==> Run(env, n).last in Run(env, n).published
  {
    if n > 0 {
      LastIsPublished(env, n - 1);
      hide Round;
      if !Run(env, n - 1).done { RoundPublishes(env, n - 1, Run(env, n - 1)); }
    }
  }

  // ----- the order of events

  /** The latest answer was no, and since then there were only refused requests. */
  predicate AfterNo(trace: seq<Event>)
  {
    if trace == [] then false
    else
      var last := trace[|trace| - 1];
      last == Asked(false) || (last == Requested(false) && AfterNo(trace[..|trace| - 1]))
  }

  /** The latest event is a no, or a look at the records right after one. */
  predicate NotJoined(trace: seq<Event>)
  {
    if trace == [] then false
    else
      var last := trace[|trace| - 1];
      last == Asked(false) || (last.Looked? && |trace| > 1 && trace[|trace| - 2] == Asked(false))
  }

  /** A request is only made, and a record only published, on a fresh no. */
  ghost predicate FreshlyAsked(trace: seq<Event>)
  {
    forall k :: 0 <= k < |trace| ==>
      && (trace[k].Requested? ==> AfterNo(trace[..k]))
      && (trace[k].Published? ==> NotJoined(trace[..k]))
  }

  function AnswersIn(trace: seq<Event>): seq<bool>
  {
    if trace == [] then []
    else AnswersIn(trace[..|trace| - 1]) + if trace[|trace| - 1].Asked? then [trace[|trace| - 1].joined] else []
  }

  function PublishedIn(trace: seq<Event>): seq<int>
  {
    if trace == [] then []
    else PublishedIn(trace[..|trace| - 1]) + if trace[|trace| - 1].Published? then [trace[|trace| - 1].minute] else []
  }

  /** The state agrees with its events: every answer is the one given, and every minute is in place. */
  ghost predicate Traced(joined: nat -> bool, s: State)
  {
    && FreshlyAsked(s.trace)
    && |AnswersIn(s.trace)| == s.asked && (forall k :: 0 <= k < s.asked ==> AnswersIn(s.trace)[k] == joined(k))
    && PublishedIn(s.trace) == s.published
  }

  lemma AddEvent(trace: seq<Event>, e: Event)
    requires FreshlyAsked(trace) && (e.Requested? ==> AfterNo(trace)) && (e.Published? ==> NotJoined(trace))
    ensures FreshlyAsked(trace + [e])
    ensures AnswersIn(trace + [e]) == AnswersIn(trace) + if e.Asked? then [e.joined] else []
    ensures PublishedIn(trace + [e]) == PublishedIn(trace) + if e.Published? then [e.minute] else []
    ensures AfterNo(trace + [e]) <==> e == Asked(false) || (e == Requested(false) && AfterNo(trace))
  {
    var more := trace + [e];
    assert more[..|more| - 1] == trace;
    forall k | 0 <= k < |more|
      ensures (more[k].Requested? ==> AfterNo(more[..k])) && (more[k].Published? ==> NotJoined(more[..k]))
    {
      if k < |trace| { assert more[..k] == trace[..k] && more[k] == trace[k]; }
    }
  }

  lemma AskTraced(joined: nat -> bool, s: State)
    requires Traced(joined, s)
    ensures Traced(joined, Ask(joined, s))
    ensures !joined(s.asked) ==> AfterNo(Ask(joined, s).trace) && NotJoined(Ask(joined, s).trace)
  {
    AddEvent(s.trace, Asked(joined(s.asked)));
    hide FreshlyAsked, AnswersIn, PublishedIn;
  }

  lemma NoteTraced(joined: nat -> bool, s: State, e: Event)
    requires Traced(joined, s) && (e.Requested? || e.Looked? || e.Waited?) && (e.Requested? ==> AfterNo(s.trace))
    ensures Traced(joined, Note(s, e))
    ensures e == Requested(false) ==> AfterNo(Note(s, e).trace)
  {
    AddEvent(s.trace, e);
    hide FreshlyAsked, AnswersIn, PublishedIn;
  }

  lemma PublishTraced(joined: nat -> bool, s: State, minute: int, signs: bool)
    requires Traced(joined, s) && NotJoined(s.trace)
    ensures Traced(joined, Publish(s, minute, signs))
  {
    AddEvent(s.trace, Published(minute));
    hide FreshlyAsked, AnswersIn, PublishedIn, NotJoined, AfterNo;
  }

  lemma {:induction false} TryTraced(joined: nat -> bool, peers: seq<bool>, s: State)
    requires Traced(joined, s) && AfterNo(s.trace)
    ensures Traced(joined, TryAll(joined, peers, s))
    decreases |peers|
  {
    if peers != [] {
      var s1 := Note(s, Requested(peers[0]));
      hide Traced, AfterNo, Ask, Note, NotJoined;
      NoteTraced(joined, s, Requested(peers[0]));
      if !peers[0] {
        TryTraced(joined, peers[1..], s1);
      } else {
        AskTraced(joined, s1);
        if !joined(s1.asked) { TryTraced(joined, peers[1..], Ask(joined, s1)); }
      }
    }
  }

  lemma DoneTraced(joined: nat -> bool, s: State)
    requires Traced(joined, s)
    ensures Traced(joined, s.(done := true))
  {
  }

  lemma LastChanceTraced(env: Env, i: nat, minute: int, s: State)
    requires Traced(env.joined, s)
    ensures Traced(env.joined, LastChance(env, i, minute, s))
  {
    hide Traced, AfterNo, Ask, Note, NotJoined, Publish;
    var s1 := Ask(env.joined, s);
    AskTraced(env.joined, s);
    if !env.joined(s.asked) { NoteTraced(env.joined, s1, Waited); }
    var s2 := if env.joined(s.asked) then s1 else Note(s1, Waited);
    AskTraced(env.joined, s2);
    DoneTraced(env.joined, Ask(env.joined, s2));
    if !env.joined(s2.asked) { PublishTraced(env.joined, Ask(env.joined, s2), minute, env.signs(i)); }
  }

  lemma LookedAfterNo(joined: nat -> bool, s: State, minute: int)
    requires !joined(s.asked)
    ensures NotJoined(Note(Ask(joined, s), Looked(minute)).trace)
  {
  }

  lemma RoundTraced(env: Env, i: nat, s: State)
    requires Traced(env.joined, s)
    ensures Traced(env.joined, Round(env, i, s))
  {
    hide Traced, AfterNo, NotJoined, Publish, LastChance, TryAll;
    var s1 := Ask(env.joined, s);
    AskTraced(env.joined, s);
    DoneTraced(env.joined, s1);
    var minute := MinuteFor(s.last, env.minute(i));
    hide MinuteFor;
    var s2 := Note(s1, Looked(minute));
    NoteTraced(env.joined, s1, Looked(minute));
    if !env.joined(s.asked) {
      LookedAfterNo(env.joined, s, minute);
      PublishTraced(env.joined, s2, minute, env.signs(i));
    }
    var s3 := Ask(env.joined, s2);
    AskTraced(env.joined, s2);
    DoneTraced(env.joined, s3);
    if !env.joined(s2.asked) {
      TryTraced(env.joined, env.peers(i), s3);
      LastChanceTraced(env, i, minute, TryAll(env.joined, env.peers(i), s3));
    }
  }

  lemma {:induction false} RunTraced(env: Env, n: nat)
    ensures Traced(env.joined, Run(env, n))
  {
    hide Round, Traced;
    if n == 0 {
      FreshTraced(env.joined);
    } else {
      var s := Run(env, n - 1);
      RunTraced(env, n - 1);
      RoundTraced(env, n - 1, s);
      assert Run(env, n) == if s.done then s else Round(env, n - 1, s);
    }
  }

  lemma FreshTraced(joined: nat -> bool)
    ensures Traced(joined, Fresh)
  {
  }

  lemma {:induction false} LastNo(trace: seq<Event>) returns (j: nat)
    requires AfterNo(trace)
    ensures j < |trace| && trace[j] == Asked(false) && forall i :: j < i < |trace| ==> trace[i] == Requested(false)
  {
    if trace[|trace| - 1] == Asked(false) {
      j := |trace| - 1;
    } else {
      j := LastNo(trace[..|trace| - 1]);
    }
  }

  /**
   In every run the events are in order: each join request directly follows a
   no, with only refused requests in between (so the question is asked again
   after the records were looked up and after every accepted request); each
   record is published right after a no, or after the look that followed it; the
   answers in the events are the answers given, one after the other; and the
   minutes published are those of the events.
   */
  lemma EventsInOrder(env: Env, n: nat)
    ensures var s := Run(env, n);
            && (forall k :: 0 <= k < |s.trace| && s.trace[k].Requested? ==>
                  exists j :: 0 <= j < k && s.trace[j] == Asked(false) && forall i :: j < i < k ==> s.trace[i] == Requested(false))
            && (forall k :: 0 <= k < |s.trace| && s.trace[k].Published? ==>
                  || (k > 0 && s.trace[k - 1] == Asked(false))
                  || (k > 1 && s.trace[k - 1].Looked? && s.trace[k - 2] == Asked(false)))
            && |AnswersIn(s.trace)| == s.asked && (forall k :: 0 <= k < s.asked ==> AnswersIn(s.trace)[k] == env.joined(k))
            && PublishedIn(s.trace) == s.published
  {
    RunTraced(env, n);
    var s := Run(env, n);
    hide Run, AnswersIn, PublishedIn;
    forall k | 0 <= k < |s.trace| && s.trace[k].Requested?
      ensures exists j :: 0 <= j < k && s.trace[j] == Asked(false) && forall i :: j < i < k ==> s.trace[i] == Requested(false)
    {
      hide AfterNo;
      var j := LastNo(s.trace[..k]);
      assert s.trace[j] == Asked(false) && forall i :: j < i < k ==> s.trace[..k][i] == s.trace[i];
    }
  }

  // ----- which minutes, exactly

  /**
   The minutes published for by n rounds that did not end the loop, told by the
   clock alone: the minute before in the first round, and later the minute of
   every round in which the clock shows a new one, as far as records can be signed.
   */
  function Stamps(env: Env, n: nat): seq<int>
  {
    if n == 0 then []
    else if n == 1 then if env.signs(0) then [env.minute(0) - 1] else []
    else
      Stamps(env, n - 1)
      + if (n == 2 || env.minute(n - 1) != env.minute(n - 2)) && env.signs(n - 1) then [env.minute(n - 1)] else []
  }

  ghost predicate Stamped(env: Env, n: nat, s: State)
  {
    s.published == Stamps(env, n) && s.last == if n == 0 then 0 else if n == 1 then env.minute(0) - 1 else env.minute(n - 1)
  }

  lemma {:induction false} RunStamped(env: Env, n: nat)
    requires SteadyClock(env) && !Run(env, n).done
    ensures Stamped(env, n, Run(env, n))
  {
    if n > 0 {
      var s := Run(env, n - 1);
      assert !s.done && Run(env, n) == Round(env, n - 1, s);
      RunStamped(env, n - 1);
      ClockRises(env, 0, n - 1);
      if n > 1 { ClockRises(env, 0, n - 2); ClockRises(env, n - 2, n - 1); }
      hide Run, Round, SteadyClock;
      RoundPublishes(env, n - 1, s);
    }
  }

  /**
   Exactly what is published, under a clock that never goes back, from minute 2
   on: with m rounds that did not end the loop, the stamps of those m rounds. In
   particular the first minute is the one before the first round's.
   */
  lemma {:induction false} PublishedExactly(env: Env, n: nat) returns (m: nat)
    requires SteadyClock(env)
    ensures m <= n && !Run(env, m).done && (m < n ==> Run(env, m + 1).done)
    ensures Run(env, n).published == Stamps(env, m)
    ensures Stamps(env, m) != [] && env.signs(0) ==> Stamps(env, m)[0] == env.minute(0) - 1
  {
    m := CompletedRounds(env, n);
    RunStamped(env, m);
    FirstStamp(env, m);
    if m < n {
      RunStops(env, m + 1, n);
      hide Round, SteadyClock, Stamps;
      RoundPublishes(env, m, Run(env, m));
    }
  }

  lemma {:induction false} CompletedRounds(env: Env, n: nat) returns (m: nat)
    ensures m <= n && !Run(env, m).done && (m < n ==> Run(env, m + 1).done)
  {
    if n == 0 || !Run(env, n).done {
      m := n;
    } else {
      m := CompletedRounds(env, n - 1);
    }
  }

  lemma {:induction false} FirstStamp(env: Env, n: nat)
    ensures n > 0 && env.signs(0) ==> Stamps(env, n) != [] && Stamps(env, n)[0] == env.minute(0) - 1
  {
    if n > 1 { FirstStamp(env, n - 1); }
  }
}
