/**
 The queue protocol of the front end: the HTTP handler adds urls while the
 sender thread fetches, sends, marks and resets them and removes what the
 writers acknowledge. Database calls succeed, and the mode is not ephemeral.
 */
module QueueProtocol {
  import opened Wrappers
  import opened PingQueue

  /** A message from a writer: a failed write, or a transaction with its block number and IRIs. */
  datatype WriterMessage = WriteError(iri: Option<Url>) | Transaction(block: nat, iris: seq<Url>)

  /** The urls that processing a message deletes. */
  function RemovedBy(msg: WriterMessage): set<Url>
  {
    match msg
    case WriteError(iri) => if iri.Some? then {iri.value} else {}
    case Transaction(block, iris) => if block == 0 then {} else set u | u in iris
  }

  datatype Event =
    | Added(url: Url)                            // a new row
    | Readded(url: Url, reason: Reason)          // an existing row rewritten
    | HiveSent(ping: Ping)                       // a successful send to the hive writer
    | RowReset(url: Url, createdon: int, now: int)

  /** The table, the rest of the fetched batch, the url sent but not yet marked, and the history. */
  datatype State = State(table: Table, batch: seq<Ping>, unmarked: Option<Url>, log: seq<Event>)

  datatype Action =
    | HttpAdd(ping: Ping, id: nat)
    | Fetch(now: int, pings: seq<Ping>)
    | SendOk
    | SendFails
    | Mark
    | Receive(msg: WriterMessage)
    | Reset(now: int, order: seq<Url>)

  const Empty: State := State(map[], [], None, [])

  ghost predicate Idle(st: State)
  {
    st.batch == [] && st.unmarked.None?
  }

  function Resets(table: Table, order: seq<Url>, now: int): seq<Event>
  {
    if order == [] then []
    else
      Resets(table, order[..|order| - 1], now)
      + if order[|order| - 1] in table then [RowReset(order[|order| - 1], table[order[|order| - 1]].createdon, now)] else []
  }

  ghost function UrlSet(urls: seq<Url>): set<Url>
  {
    set u | u in urls
  }

  /** One step of either thread; an action that is not enabled changes nothing. */
  ghost function Step(st: State, act: Action): State
  {
    match act
    case HttpAdd(ping, id) =>
      if !NewRowid(st.table, id) then st
      else
        var table := AddPing(st.table, ping, id);
        (match AddOutcome(st.table, ping)
         case Inserted => st.(table := table, log := st.log + [Added(ping.url)])
         case Refreshed => st.(table := table, log := st.log + [Readded(ping.url, ping.reason)])
         case AlreadyQueued => st)
    case Fetch(now, pings) =>
      if Idle(st) && IsFetch(st.table, now, false, pings) then st.(batch := pings) else st
    case SendOk =>
      if st.batch != [] && st.unmarked.None?
      then st.(batch := st.batch[1..], unmarked := Some(st.batch[0].url), log := st.log + [HiveSent(st.batch[0])])
      else st
    case SendFails =>
      if st.batch != [] && st.unmarked.None? then st.(batch := []) else st
    case Mark =>
      if st.unmarked.Some? then st.(table := MarkInflight(st.table, st.unmarked.value), unmarked := None) else st
    case Receive(msg) =>
      st.(table := st.table - RemovedBy(msg))
    case Reset(now, order) =>
      if Idle(st) && ResetChoice(st.table, now, UrlSet(order))
      then st.(table := ResetRows(st.table, now, UrlSet(order)), log := st.log + Resets(st.table, order, now)) else st
  }

  ghost function Run(st: State, acts: seq<Action>): State
    decreases |acts|
  {
    if acts == [] then st else Step(Run(st, acts[..|acts| - 1]), acts[|acts| - 1])
  }

  // ----- a queued url stays queued

  /** A step removes a url only by processing a writer error or a transaction in a block that names it. */
  lemma RemovalCause(st: State, act: Action, url: Url)
    requires url in st.table && url !in Step(st, act).table
    ensures act.Receive? && url in RemovedBy(act.msg)
    ensures act.msg == WriteError(Some(url)) || (act.msg.Transaction? && act.msg.block != 0 && url in act.msg.iris)
  {
  }

  /** And such a message always removes it. */
  lemma RemovalHappens(st: State, msg: WriterMessage, url: Url)
    requires msg == WriteError(Some(url)) || (msg.Transaction? && msg.block != 0 && url in msg.iris)
    ensures url !in Step(st, Receive(msg)).table
  {
  }

  lemma {:induction false} StaysQueued(st: State, acts: seq<Action>, url: Url)
    requires url in st.table
    requires forall i :: 0 <= i < |acts| ==> !(acts[i].Receive? && url in RemovedBy(acts[i].msg))
    ensures url in Run(st, acts).table
    decreases |acts|
  {
    hide Step;
    if acts != [] {
      var before, last := acts[..|acts| - 1], acts[|acts| - 1];
      StaysQueued(st, before, url);
      if url !in Step(Run(st, before), last).table {
        RemovalCause(Run(st, before), last, url);
      }
    }
  }

  // ----- no second send without a reason

  predicate Renews(e: Event, url: Url)
  {
    match e
    case Added(u) => u == url
    case Readded(u, reason) => u == url && reason != Update
    case RowReset(u, createdon, now) => u == url && createdon + 180 < now
    case HiveSent(_) => false
  }

  predicate Sends(e: Event, url: Url)
  {
    e.HiveSent? && e.ping.url == url
  }

  /** Not sent since it was last added, re-added live or reset. */
  predicate Due(log: seq<Event>, url: Url)
  {
    if log == [] then true
    else
      var last := log[|log| - 1];
      if Sends(last, url) then false
      else if Renews(last, url) then true
      else Due(log[..|log| - 1], url)
  }

  lemma DuePush(log: seq<Event>, e: Event, url: Url)
    ensures Due(log + [e], url) == if Sends(e, url) then false else if Renews(e, url) then true else Due(log, url)
  {
    assert (log + [e])[..|log + [e]| - 1] == log;
  }

  /** A url that is not due is not in the batch, and cannot be fetched: it is gone, in flight, or about to be marked. */
  ghost predicate Held(st: State, url: Url)
  {
    && (forall i :: 0 <= i < |st.batch| ==> st.batch[i].url != url)
    && (st.unmarked == Some(url) || url !in st.table || st.table[url].inflight)
  }

  ghost predicate SentWhenDue(log: seq<Event>)
  {
    forall j :: 0 <= j < |log| ==> log[j].HiveSent? ==> Due(log[..j], log[j].ping.url)
  }

  ghost predicate Inv(st: State)
  {
    && (forall i, j :: 0 <= i < j < |st.batch| ==> st.batch[i].url != st.batch[j].url)
    && (forall url :: !Due(st.log, url) ==> Held(st, url))
    && SentWhenDue(st.log)
  }

  lemma SentWhenDuePush(log: seq<Event>, e: Event)
    requires SentWhenDue(log) && (e.HiveSent? ==> Due(log, e.ping.url))
    ensures SentWhenDue(log + [e])
  {
    var more := log + [e];
    forall j | 0 <= j < |more| && more[j].HiveSent? ensures Due(more[..j], more[j].ping.url) {
      if j < |log| { assert more[..j] == log[..j]; } else { assert more[..j] == log; }
    }
  }

  lemma AddKeeps(st: State, ping: Ping, id: nat)
    requires Inv(st)
    ensures Inv(Step(st, HttpAdd(ping, id)))
  {
    var st' := Step(st, HttpAdd(ping, id));
    if st'.log != st.log {
      var e := st'.log[|st.log|];
      assert st'.log == st.log + [e];
      SentWhenDuePush(st.log, e);
      forall url | !Due(st'.log, url) ensures Held(st', url) {
        DuePush(st.log, e, url);
        assert Held(st, url);
      }
    }
  }

  lemma SendKeeps(st: State)
    requires Inv(st)
    ensures Inv(Step(st, SendOk))
  {
    if st.batch != [] && st.unmarked.None? {
      var st' := Step(st, SendOk);
      var e := HiveSent(st.batch[0]);
      assert Due(st.log, st.batch[0].url);
      SentWhenDuePush(st.log, e);
      forall url | !Due(st'.log, url) ensures Held(st', url) {
        DuePush(st.log, e, url);
        if url != st.batch[0].url { assert Held(st, url); }
      }
    }
  }

  lemma {:induction false} ResetsRenew(table: Table, now: int, order: seq<Url>, log: seq<Event>)
    requires UrlSet(order) <= Stuck(table, now)
    requires SentWhenDue(log)
    ensures SentWhenDue(log + Resets(table, order, now))
    ensures forall url :: Due(log + Resets(table, order, now), url) <==> Due(log, url) || url in order
    decreases |order|
  {
    if order == [] {
      assert log + Resets(table, order, now) == log;
    } else {
      var before, u := order[..|order| - 1], order[|order| - 1];
      assert u in UrlSet(order) && UrlSet(before) <= UrlSet(order);
      ResetsRenew(table, now, before, log);
      var e := RowReset(u, table[u].createdon, now);
      var more := log + Resets(table, before, now);
      assert log + Resets(table, order, now) == more + [e];
      assert e.createdon + 180 < now;
      hide Resets, SentWhenDue, Stuck, Due;
      SentWhenDuePush(more, e);
      forall url ensures Due(more + [e], url) <==> Due(log, url) || url in order {
        DuePush(more, e, url);
        assert order == before + [u];
      }
    }
  }

  lemma ResetKeeps(st: State, now: int, order: seq<Url>)
    requires Inv(st)
    ensures Inv(Step(st, Reset(now, order)))
  {
    if Idle(st) && ResetChoice(st.table, now, UrlSet(order)) {
      var st' := Step(st, Reset(now, order));
      ResetsRenew(st.table, now, order, st.log);
      forall url | !Due(st'.log, url) ensures Held(st', url) {
        assert Held(st, url) && url !in order;
      }
    }
  }

  lemma FetchKeeps(st: State, now: int, pings: seq<Ping>)
    requires Inv(st)
    ensures Inv(Step(st, Fetch(now, pings)))
  {
    if Idle(st) && IsFetch(st.table, now, false, pings) {
      var st' := Step(st, Fetch(now, pings));
      forall url | !Due(st'.log, url) ensures Held(st', url) {
        assert Held(st, url);
      }
    }
  }

  lemma StepKeeps(st: State, act: Action)
    requires Inv(st)
    ensures Inv(Step(st, act))
  {
    match act
    case HttpAdd(ping, id) => AddKeeps(st, ping, id);
    case Fetch(now, pings) => FetchKeeps(st, now, pings);
    case SendOk => SendKeeps(st);
    case Reset(now, order) => ResetKeeps(st, now, order);
    case _ =>
      forall url | !Due(st.log, url) ensures Held(Step(st, act), url) {
        assert Held(st, url);
      }
  }

  lemma {:induction false} RunKeeps(st: State, acts: seq<Action>)
    requires Inv(st)
    ensures Inv(Run(st, acts))
    decreases |acts|
  {
    hide Step, Inv;
    if acts != [] {
      RunKeeps(st, acts[..|acts| - 1]);
      StepKeeps(Run(st, acts[..|acts| - 1]), acts[|acts| - 1]);
    }
  }

  /** If a url was sent and is due again, something renewed it in between. */
  lemma {:induction false} RenewedSince(log: seq<Event>, i: nat, url: Url) returns (k: nat)
    requires i < |log| && Sends(log[i], url) && Due(log, url)
    ensures i < k < |log| && Renews(log[k], url)
    decreases |log|
  {
    var last := log[|log| - 1];
    if Renews(last, url) {
      k := |log| - 1;
    } else {
      var before := log[..|log| - 1];
      k := RenewedSince(before, i, url);
      assert before[k] == log[k];
    }
  }

  /**
   In every run, between two successful hive sends of one url there is a new
   row for it, a Live or LiveEnd re-add, or a reset of its row more than 180
   seconds after it was last added, re-added or reset.
   */
  lemma NoSpuriousResend(acts: seq<Action>, i: nat, j: nat, url: Url) returns (k: nat)
    requires i < j < |Run(Empty, acts).log|
    requires Sends(Run(Empty, acts).log[i], url) && Sends(Run(Empty, acts).log[j], url)
    ensures i < k < j && Renews(Run(Empty, acts).log[k], url)
  {
    hide Step;
    RunKeeps(Empty, acts);
    var log := Run(Empty, acts).log;
    hide Run;
    assert Due(log[..j], url);
    k := RenewedSince(log[..j], i, url);
  }

  // ----- which data a re-add gets out

  /** Wherever `url` is waiting, it waits with this reason and medium. */
  ghost predicate InSync(st: State, url: Url, reason: Reason, medium: string)
  {
    && (url in st.table ==> st.table[url].reason == reason && st.table[url].medium == medium)
    && BatchInSync(st.batch, url, reason, medium)
  }

  ghost predicate BatchInSync(batch: seq<Ping>, url: Url, reason: Reason, medium: string)
  {
    forall i :: 0 <= i < |batch| && batch[i].url == url ==> batch[i].reason == reason && batch[i].medium == medium
  }

  lemma StepInSync(st: State, act: Action, url: Url, reason: Reason, medium: string)
    requires InSync(st, url, reason, medium) && !(act.HttpAdd? && act.ping.url == url)
    ensures InSync(Step(st, act), url, reason, medium)
    ensures st.log <= Step(st, act).log
    ensures forall i :: |st.log| <= i < |Step(st, act).log| && Sends(Step(st, act).log[i], url) ==>
              Step(st, act).log[i].ping.reason == reason && Step(st, act).log[i].ping.medium == medium
  {
    if act.Reset? { NoSends(st.table, act.order, act.now); }
  }

  /** The url has gone out with this reason and medium since the log had length `from`. */
  ghost predicate SentAs(log: seq<Event>, from: nat, url: Url, reason: Reason, medium: string)
  {
    exists i :: from <= i < |log| && Sends(log[i], url) && log[i].ping.reason == reason && log[i].ping.medium == medium
  }

  /** The row of the url is not in flight, or the url has gone out with this data. */
  ghost predicate NotSwallowed(st: State, from: nat, url: Url, reason: Reason, medium: string)
  {
    url in st.table && st.table[url].inflight ==> SentAs(st.log, from, url, reason, medium)
  }

  /** In flight, or about to be marked as such, only after a send with this data. */
  ghost predicate SentFirst(st: State, from: nat, url: Url, reason: Reason, medium: string)
  {
    NotSwallowed(st, from, url, reason, medium) && (st.unmarked == Some(url) ==> SentAs(st.log, from, url, reason, medium))
  }

  lemma SentAsGrows(log: seq<Event>, more: seq<Event>, from: nat, url: Url, reason: Reason, medium: string)
    requires SentAs(log, from, url, reason, medium) && log <= more
    ensures SentAs(more, from, url, reason, medium)
  {
    var i :| from <= i < |log| && Sends(log[i], url) && log[i].ping.reason == reason && log[i].ping.medium == medium;
    assert more[i] == log[i];
  }

  lemma StepSentFirst(st: State, act: Action, from: nat, url: Url, reason: Reason, medium: string)
    requires InSync(st, url, reason, medium) && SentFirst(st, from, url, reason, medium) && from <= |st.log|
    requires !(act.HttpAdd? && act.ping.url == url)
    ensures SentFirst(Step(st, act), from, url, reason, medium) && from <= |Step(st, act).log|
  {
    var st' := Step(st, act);
    StepInSync(st, act, url, reason, medium);
    if SentAs(st.log, from, url, reason, medium) {
      SentAsGrows(st.log, st'.log, from, url, reason, medium);
    } else if act.SendOk? && st.batch != [] && st.unmarked.None? && st.batch[0].url == url {
      assert Sends(st'.log[|st.log|], url);
    }
  }

  lemma {:induction false} NoSends(table: Table, order: seq<Url>, now: int)
    ensures forall i :: 0 <= i < |Resets(table, order, now)| ==> !Resets(table, order, now)[i].HiveSent?
    decreases |order|
  {
    if order != [] { NoSends(table, order[..|order| - 1], now); }
  }

  ghost predicate NoAddOf(acts: seq<Action>, url: Url)
  {
    forall i :: 0 <= i < |acts| ==> !(acts[i].HttpAdd? && acts[i].ping.url == url)
  }

  /**
   A Live or LiveEnd re-add of a queued url, in every later run without a
   further add of that url. If the batch does not hold the url with other data,
   every send carries the new reason and medium; if moreover the url is not
   waiting for its mark, the row is in flight only after such a send.
   */
  lemma {:induction false} ReaddReachesWriter(st: State, ping: Ping, id: nat, acts: seq<Action>)
    requires ping.url in st.table && ping.reason != Update && NewRowid(st.table, id)
    requires BatchInSync(st.batch, ping.url, ping.reason, ping.medium) && NoAddOf(acts, ping.url)
    ensures var st1 := Step(st, HttpAdd(ping, id));
            var end := Run(st1, acts);
            && InSync(end, ping.url, ping.reason, ping.medium) && st1.log <= end.log
            && (forall i :: |st1.log| <= i < |end.log| && Sends(end.log[i], ping.url) ==>
                  end.log[i].ping.reason == ping.reason && end.log[i].ping.medium == ping.medium)
            && (st.unmarked != Some(ping.url) ==> SentFirst(end, |st1.log|, ping.url, ping.reason, ping.medium))
    decreases |acts|
  {
    var st1 := Step(st, HttpAdd(ping, id));
    assert InSync(st1, ping.url, ping.reason, ping.medium);
    if acts != [] {
      var before, last := acts[..|acts| - 1], acts[|acts| - 1];
      ReaddReachesWriter(st, ping, id, before);
      hide Step, SentFirst, InSync;
      StepInSync(Run(st1, before), last, ping.url, ping.reason, ping.medium);
      if st.unmarked != Some(ping.url) {
        StepSentFirst(Run(st1, before), last, |st1.log|, ping.url, ping.reason, ping.medium);
      }
    }
  }

  /** The run that sends what is left of the batch up to position `n`. */
  function SendMany(n: nat): seq<Action>
  {
    if n == 0 then [] else SendMany(n - 1) + [SendOk, Mark]
  }

  ghost function InflightIf(row: Row, sent: bool): Row
  {
    row.(inflight := row.inflight || sent)
  }

  lemma SendAndMark(st: State)
    requires st.batch != [] && st.unmarked.None?
    ensures var end := Step(Step(st, SendOk), Mark);
            && end.batch == st.batch[1..] && end.unmarked.None? && end.log == st.log + [HiveSent(st.batch[0])]
            && end.table.Keys == st.table.Keys
            && forall u :: u in st.table ==> end.table[u] == InflightIf(st.table[u], u == st.batch[0].url)
  {
  }

  /** Left alone, the sender goes on to send the batch as fetched and marks the rows as they are by then. */
  lemma {:induction false} BatchGoesOut(st: State, n: nat)
    requires n <= |st.batch| && st.unmarked.None?
    ensures var end := Run(st, SendMany(n));
            && end.batch == st.batch[n..] && end.unmarked.None? && |end.log| == |st.log| + n
            && (forall i :: 0 <= i < n ==> end.log[|st.log| + i] == HiveSent(st.batch[i]))
            && end.table.Keys == st.table.Keys
            && (forall u :: u in st.table ==> end.table[u] == InflightIf(st.table[u], u in UrlsOf(st.batch[..n])))
    decreases n
  {
    if n == 0 {
      assert st.batch[..0] == [];
    } else {
      assert SendMany(n) == SendMany(n - 1) + [SendOk, Mark];
      hide Step, Run, SendMany;
      BatchGoesOut(st, n - 1);
      var mid := Run(st, SendMany(n - 1));
      RunTwoMore(st, SendMany(n - 1), SendOk, Mark);
      assert mid.batch[0] == st.batch[n - 1];
      SendAndMark(mid);
      assert st.batch[..n] == st.batch[..n - 1] + [st.batch[n - 1]];
      UrlsPush(st.batch[..n - 1], st.batch[n - 1]);
      hide UrlsOf;
    }
  }

  lemma {:induction false} RunAppend(st: State, a: seq<Action>, b: seq<Action>)
    ensures Run(st, a + b) == Run(Run(st, a), b)
    decreases |b|
  {
    hide Step;
    if b == [] {
      assert a + b == a;
    } else {
      assert (a + b)[..|a + b| - 1] == a + b[..|b| - 1];
      RunAppend(st, a, b[..|b| - 1]);
    }
  }

  lemma {:induction false} RunFrom(st: State, a: Action, acts: seq<Action>)
    ensures Run(st, [a] + acts) == Run(Step(st, a), acts)
    decreases |acts|
  {
    hide Step;
    var all := [a] + acts;
    if acts == [] {
      assert all == [a] && all[..0] == [];
    } else {
      RunFrom(st, a, acts[..|acts| - 1]);
      assert all[..|all| - 1] == [a] + acts[..|acts| - 1];
    }
  }

  lemma {:induction false} NoAdds(n: nat)
    ensures forall i :: 0 <= i < |SendMany(n)| ==> !SendMany(n)[i].HttpAdd?
  {
    if n > 0 { NoAdds(n - 1); }
  }

  lemma BatchSends(st: State, k: nat)
    requires k < |st.batch| && st.unmarked.None?
    ensures |Run(st, SendMany(k + 1)).log| == |st.log| + k + 1
    ensures Run(st, SendMany(k + 1)).log[|st.log| + k] == HiveSent(st.batch[k])
  {
    hide Run, SendMany, UrlsOf;
    BatchGoesOut(st, k + 1);
  }

  lemma AddFrame(st: State, ping: Ping, id: nat)
    ensures var st1 := Step(st, HttpAdd(ping, id));
            && st1.batch == st.batch && st1.unmarked == st.unmarked
  {
  }

  lemma SendsIt(p: Ping)
    ensures Sends(HiveSent(p), p.url)
  {
  }

  lemma MarkFrame(st: State)
    requires st.unmarked.Some?
    ensures var st1 := Step(st, Mark);
            && st1.batch == st.batch && st1.unmarked.None? && st1.log == st.log
  {
  }

  /** When the batch holds the url with other data, the run that sends the batch sends that data after the re-add. */
  lemma ReaddMissed(st: State, ping: Ping, id: nat) returns (acts: seq<Action>, i: nat)
    requires ping.url in st.table && ping.reason != Update && NewRowid(st.table, id)
    requires !BatchInSync(st.batch, ping.url, ping.reason, ping.medium)
    ensures forall i :: 0 <= i < |acts| ==> !acts[i].HttpAdd?
    ensures var st1 := Step(st, HttpAdd(ping, id));
            var end := Run(st1, acts);
            && |st1.log| <= i < |end.log| && Sends(end.log[i], ping.url)
            && (end.log[i].ping.reason != ping.reason || end.log[i].ping.medium != ping.medium)
  {
    var k :| 0 <= k < |st.batch| && st.batch[k].url == ping.url
             && !(st.batch[k].reason == ping.reason && st.batch[k].medium == ping.medium);
    hide *;
    var st1 := Step(st, HttpAdd(ping, id));
    AddFrame(st, ping, id);
    NoAdds(k + 1);
    i := |st1.log| + k;
    assert Sends(HiveSent(st.batch[k]), ping.url) by { SendsIt(st.batch[k]); }
    if st1.unmarked.None? {
      acts := SendMany(k + 1);
      BatchSends(st1, k);
    } else {
      MarkFrame(st1);
      acts := [Mark] + SendMany(k + 1);
      BatchSends(Step(st1, Mark), k);
      RunFrom(st1, Mark, SendMany(k + 1));
    }
  }

  ghost function UrlsOf(pings: seq<Ping>): set<Url>
  {
    set i | 0 <= i < |pings| :: pings[i].url
  }

  lemma UrlsPush(pings: seq<Ping>, p: Ping)
    ensures UrlsOf(pings + [p]) == UrlsOf(pings) + {p.url}
  {
    var more := pings + [p];
    assert more[|pings|] == p;
    forall u | u in UrlsOf(pings) ensures u in UrlsOf(more) {
      var i :| 0 <= i < |pings| && pings[i].url == u;
      assert more[i].url == u;
    }
  }

  lemma RunTwoMore(st: State, acts: seq<Action>, a: Action, b: Action)
    ensures Run(st, acts + [a, b]) == Step(Step(Run(st, acts), a), b)
  {
    hide Step;
    var all := acts + [a, b];
    assert all[..|all| - 1] == acts + [a];
    assert (acts + [a])[..|acts + [a]| - 1] == acts;
  }

  // ----- when a re-add is swallowed

  ghost predicate DistinctUrls(batch: seq<Ping>)
  {
    forall i, j :: 0 <= i < j < |batch| ==> batch[i].url != batch[j].url
  }

  /** Sending the batch up to a url that it holds with other data puts the row in flight with nothing else sent for it. */
  lemma BatchSwallows(st: State, k: nat, url: Url, reason: Reason, medium: string)
    requires k < |st.batch| && st.unmarked.None? && url in st.table && DistinctUrls(st.batch) && st.batch[k].url == url
    requires !(st.batch[k].reason == reason && st.batch[k].medium == medium)
    ensures !NotSwallowed(Run(st, SendMany(k + 1)), |st.log|, url, reason, medium)
  {
    hide Run, Step, SendMany;
    var end := Run(st, SendMany(k + 1));
    assert st.batch[..k + 1][k].url == url;
    assert url in UrlsOf(st.batch[..k + 1]);
    hide UrlsOf;
    BatchGoesOut(st, k + 1);
    forall i | |st.log| <= i < |end.log| && Sends(end.log[i], url)
      ensures !(end.log[i].ping.reason == reason && end.log[i].ping.medium == medium)
    {
      assert end.log[|st.log| + (i - |st.log|)] == HiveSent(st.batch[i - |st.log|]);
    }
  }

  lemma ReaddFrame(st: State, ping: Ping, id: nat)
    requires ping.url in st.table && ping.reason != Update && NewRowid(st.table, id)
    ensures var st1 := Step(st, HttpAdd(ping, id));
            && st1.batch == st.batch && st1.unmarked == st.unmarked && st1.log == st.log + [Readded(ping.url, ping.reason)]
            && ping.url in st1.table && !st1.table[ping.url].inflight
  {
  }

  lemma MarkSwallows(st: State, url: Url)
    requires st.unmarked.Some?
    ensures var st1 := Step(st, Mark);
            && st1.batch == st.batch && st1.unmarked.None? && st1.log == st.log
            && (url in st.table ==> url in st1.table)
            && (url in st.table && st.unmarked == Some(url) ==> st1.table[url].inflight)
  {
  }

  lemma NoAddSends(n: nat, url: Url)
    ensures NoAddOf(SendMany(n), url) && NoAddOf([Mark] + SendMany(n), url) && NoAddOf([Mark], url)
  {
    NoAdds(n);
  }

  /** Otherwise it can be swallowed: a run without adds marks the row in flight, and the new data was never sent. */
  lemma ReaddSwallowed(st: State, ping: Ping, id: nat) returns (acts: seq<Action>)
    requires ping.url in st.table && ping.reason != Update && NewRowid(st.table, id) && DistinctUrls(st.batch)
    requires !BatchInSync(st.batch, ping.url, ping.reason, ping.medium) || st.unmarked == Some(ping.url)
    ensures NoAddOf(acts, ping.url)
    ensures var st1 := Step(st, HttpAdd(ping, id));
            !NotSwallowed(Run(st1, acts), |st1.log|, ping.url, ping.reason, ping.medium)
  {
    var url := ping.url;
    var st1 := Step(st, HttpAdd(ping, id));
    ReaddFrame(st, ping, id);
    if st.unmarked == Some(url) {
      acts := [Mark];
      NoAddSends(0, url);
      MarkSwallows(st1, url);
      assert Run(st1, [Mark]) == Step(st1, Mark) by {
        assert [Mark][..0] == [];
        assert Run(st1, []) == st1;
      }
    } else {
      var k :| 0 <= k < |st.batch| && st.batch[k].url == url
               && !(st.batch[k].reason == ping.reason && st.batch[k].medium == ping.medium);
      hide Step, Run, SendMany, BatchInSync, NewRowid, NotSwallowed;
      NoAddSends(k + 1, url);
      if st1.unmarked.None? {
        acts := SendMany(k + 1);
        BatchSwallows(st1, k, url, ping.reason, ping.medium);
      } else {
        MarkSwallows(st1, url);
        acts := [Mark] + SendMany(k + 1);
        RunFrom(st1, Mark, SendMany(k + 1));
        BatchSwallows(Step(st1, Mark), k, url, ping.reason, ping.medium);
      }
    }
  }

  /** In every run from `st1` without an add of the url: in flight only after a send with the new data. */
  ghost predicate NeverSwallowed(st1: State, ping: Ping)
  {
    forall acts :: NoAddOf(acts, ping.url) ==> NotSwallowed(Run(st1, acts), |st1.log|, ping.url, ping.reason, ping.medium)
  }

  /**
   Exactly when a re-add is safe. In every reachable state with the url queued:
   its new data goes out before the row is in flight, whatever happens next, if
   and only if the batch being sent does not hold the url with other data and
   the url was not just sent and is still to be marked.
   */
  lemma ReaddSafeIff(before: seq<Action>, ping: Ping, id: nat)
    requires ping.url in Run(Empty, before).table && ping.reason != Update && NewRowid(Run(Empty, before).table, id)
    ensures var st := Run(Empty, before);
            NeverSwallowed(Step(st, HttpAdd(ping, id)), ping)
            <==> BatchInSync(st.batch, ping.url, ping.reason, ping.medium) && st.unmarked != Some(ping.url)
  {
    var st := Run(Empty, before);
    assert DistinctUrls(st.batch) by { RunKeeps(Empty, before); }
    hide Run, Step, BatchInSync, NewRowid, NotSwallowed;
    var st1 := Step(st, HttpAdd(ping, id));
    if BatchInSync(st.batch, ping.url, ping.reason, ping.medium) && st.unmarked != Some(ping.url) {
      forall acts | NoAddOf(acts, ping.url)
        ensures NotSwallowed(Run(st1, acts), |st1.log|, ping.url, ping.reason, ping.medium)
      {
        ReaddReachesWriter(st, ping, id, acts);
      }
    } else {
      var acts := ReaddSwallowed(st, ping, id);
      assert !NotSwallowed(Run(st1, acts), |st1.log|, ping.url, ping.reason, ping.medium);
    }
  }
}
