/**
 Histories of the queue protocol, action by action: what lies between two sends
 of one url, and the runs that show which promises the protocol does not keep.
 */
module QueueHistory {
  import opened Wrappers
  import opened PingQueue
  import opened QueueProtocol
  import opened QueueProgress

  /** The state before the k-th action. */
  ghost function At(acts: seq<Action>, k: nat): State
    requires k <= |acts|
  {
    Run(Empty, acts[..k])
  }

  lemma AtNext(acts: seq<Action>, k: nat)
    requires k < |acts|
    ensures At(acts, k + 1) == Step(At(acts, k), acts[k])
  {
    hide Step;
    assert acts[..k + 1][..k] == acts[..k];
  }

  ghost predicate Sending(st: State, act: Action, url: Url)
  {
    act.SendOk? && st.batch != [] && st.unmarked.None? && st.batch[0].url == url
  }

  ghost predicate NewRow(st: State, act: Action, url: Url)
  {
    act.HttpAdd? && act.ping.url == url && url !in st.table && NewRowid(st.table, act.id)
  }

  ghost predicate LiveReadd(st: State, act: Action, url: Url)
  {
    act.HttpAdd? && act.ping.url == url && url in st.table && act.ping.reason != Update && NewRowid(st.table, act.id)
  }

  /** A reset of a row that was last added, re-added or reset more than 180 seconds before. */
  ghost predicate OldReset(st: State, act: Action, url: Url)
  {
    && act.Reset? && Idle(st) && ResetChoice(st.table, act.now, UrlSet(act.order)) && url in act.order
    && url in st.table && st.table[url].inflight && st.table[url].createdon + 180 < act.now
  }

  /** A writer's word takes the url out of the queue. */
  ghost predicate Removal(st: State, act: Action, url: Url)
  {
    url in st.table && act.Receive? && url in RemovedBy(act.msg)
  }

  // ----- between two sends

  lemma SendRenewsNothing(st: State, url: Url)
    ensures Due(Step(st, SendOk).log, url) ==> Due(st.log, url)
  {
    if st.batch != [] && st.unmarked.None? { DuePush(st.log, HiveSent(st.batch[0]), url); }
  }

  /** A step that makes a url due again adds, re-adds or resets it. */
  lemma RenewingStep(st: State, act: Action, url: Url)
    requires Inv(st) && !Due(st.log, url) && Due(Step(st, act).log, url)
    ensures NewRow(st, act, url) || LiveReadd(st, act, url) || OldReset(st, act, url)
  {
    match act
    case HttpAdd(ping, id) =>
      DuePush(st.log, Added(ping.url), url);
      DuePush(st.log, Readded(ping.url, ping.reason), url);
    case SendOk => SendRenewsNothing(st, url);
    case Reset(now, order) =>
      if Idle(st) && ResetChoice(st.table, now, UrlSet(order)) {
        ResetsRenew(st.table, now, order, st.log);
        assert url in UrlSet(order);
      }
    case _ =>
  }

  lemma {:induction false} DueAgain(acts: seq<Action>, m: nat, n: nat, url: Url) returns (k: nat)
    requires m <= n <= |acts| && !Due(At(acts, m).log, url) && Due(At(acts, n).log, url)
    ensures m <= k < n && !Due(At(acts, k).log, url) && Due(At(acts, k + 1).log, url)
    decreases n
  {
    hide At, Due;
    if Due(At(acts, n - 1).log, url) {
      k := DueAgain(acts, m, n - 1, url);
    } else {
      k := n - 1;
    }
  }

  /** A queued url that is gone later was removed in between. */
  lemma {:induction false} RemovedBetween(acts: seq<Action>, m: nat, n: nat, url: Url) returns (r: nat)
    requires m <= n <= |acts| && url in At(acts, m).table && url !in At(acts, n).table
    ensures m <= r < n && Removal(At(acts, r), acts[r], url)
    decreases n
  {
    hide At, Step;
    if url in At(acts, n - 1).table {
      r := n - 1;
      AtNext(acts, r);
      RemovalCause(At(acts, r), acts[r], url);
    } else {
      r := RemovedBetween(acts, m, n - 1, url);
    }
  }

  lemma SendDue(st: State, act: Action, url: Url)
    requires Inv(st) && Sending(st, act, url)
    ensures Due(st.log, url) && !Due(Step(st, act).log, url) && Step(st, act).table == st.table
  {
    assert !Due(st.log, url) ==> Held(st, url);
    DuePush(st.log, HiveSent(st.batch[0]), url);
  }

  /** What makes the second of two sends, the actions m and n of a run, legitimate. */
  ghost predicate Justified(acts: seq<Action>, m: nat, n: nat, url: Url)
    requires m < n < |acts|
  {
    exists k :: m < k < n &&
      (|| LiveReadd(At(acts, k), acts[k], url) || OldReset(At(acts, k), acts[k], url)
       || (NewRow(At(acts, k), acts[k], url) && exists r :: m < r < k && Removal(At(acts, r), acts[r], url)))
  }

  /** In every run there is a new row, a Live or LiveEnd re-add, or a reset between two sends of a url. */
  lemma RenewedBetween(acts: seq<Action>, m: nat, n: nat, url: Url) returns (k: nat)
    requires m < n < |acts| && Sending(At(acts, m), acts[m], url) && Sending(At(acts, n), acts[n], url)
    ensures m < k < n
    ensures NewRow(At(acts, k), acts[k], url) || LiveReadd(At(acts, k), acts[k], url) || OldReset(At(acts, k), acts[k], url)
  {
    RunKeeps(Empty, acts[..m]);
    RunKeeps(Empty, acts[..n]);
    assert Inv(At(acts, m)) && Inv(At(acts, n));
    hide Inv, Step, Sending;
    SendDue(At(acts, m), acts[m], url);
    SendDue(At(acts, n), acts[n], url);
    AtNext(acts, m);
    k := DueAgain(acts, m + 1, n, url);
    AtNext(acts, k);
    RunKeeps(Empty, acts[..k]);
    assert Inv(At(acts, k));
    RenewingStep(At(acts, k), acts[k], url);
  }

  /**
   In every run in which a url is sent twice and is queued when it is first
   sent: in between it is re-added as Live or LiveEnd, or reset, or else removed
   by a writer's word and then added anew.
   */
  lemma ResendCause(acts: seq<Action>, m: nat, n: nat, url: Url)
    requires m < n < |acts| && Sending(At(acts, m), acts[m], url) && Sending(At(acts, n), acts[n], url)
    requires url in At(acts, m).table
    ensures Justified(acts, m, n, url)
  {
    var k := RenewedBetween(acts, m, n, url);
    if NewRow(At(acts, k), acts[k], url) {
      AtNext(acts, m);
      assert url in At(acts, m + 1).table;
      hide At, Step, NewRowid;
      var r := RemovedBetween(acts, m + 1, k, url);
      assert NewRow(At(acts, k), acts[k], url) && m < r < k && Removal(At(acts, r), acts[r], url);
    }
  }

  // ----- and only then

  lemma {:induction false} SomeRowid(table: Table, keys: set<Url>) returns (id: nat)
    requires keys <= table.Keys
    ensures forall u :: u in keys ==> table[u].rowid < id
    ensures keys == {} || exists u :: u in keys && table[u].rowid + 1 == id
    decreases |keys|
  {
    if keys == {} {
      id := 1;
    } else {
      var u :| u in keys;
      var rest := SomeRowid(table, keys - {u});
      if keys - {u} == {} || rest <= table[u].rowid {
        id := table[u].rowid + 1;
      } else {
        id := rest;
      }
      assert forall v :: v in keys ==> v == u || v in keys - {u};
    }
  }

  lemma {:induction false} AfterAll(table: Table, keys: set<Url>) returns (time: int)
    requires keys <= table.Keys
    ensures forall u :: u in keys ==> table[u].createdon <= time
    decreases |keys|
  {
    if keys == {} {
      time := 0;
    } else {
      var u :| u in keys;
      var rest := AfterAll(table, keys - {u});
      time := if rest > table[u].createdon then rest else table[u].createdon;
      assert forall v :: v in keys ==> v == u || v in keys - {u};
    }
  }

  /** A query that finds a single eligible row. */
  lemma FetchOnly(table: Table, now: int, url: Url)
    requires url in table && !table[url].inflight && table[url].createdon < now - SETTLE_SECONDS
    requires forall u :: u in table && u != url ==> table[u].createdon >= now - SETTLE_SECONDS
    ensures IsFetch(table, now, false, [PingOf(table, url)])
  {
    assert Eligible(table, now, false) == {url};
  }

  lemma AddOnly(st: State, ping: Ping, id: nat)
    requires ping.url !in st.table && NewRowid(st.table, id)
    ensures Step(st, HttpAdd(ping, id))
            == State(InsertRow(st.table, ping, id), st.batch, st.unmarked, st.log + [Added(ping.url)])
  {
  }

  /** Adding a url and fetching it alone, with an idle sender. */
  lemma AddThenFetch(st: State, ping: Ping, id: nat, now: int)
    requires Idle(st) && ping.url !in st.table && NewRowid(st.table, id) && ping.time < now - SETTLE_SECONDS
    requires forall u :: u in st.table ==> st.table[u].createdon >= now - SETTLE_SECONDS
    ensures Step(Step(st, HttpAdd(ping, id)), Fetch(now, [ping]))
            == State(InsertRow(st.table, ping, id), [ping], None, st.log + [Added(ping.url)])
  {
    AddOnly(st, ping, id);
    FetchOnly(InsertRow(st.table, ping, id), now, ping.url);
  }

  lemma GiveUpBatch(st: State, url: Url)
    requires st.unmarked == Some(url) && url !in st.table
    ensures Step(Step(st, Mark), SendFails) == State(st.table, [], None, st.log)
  {
  }

  /** The clock does not go back: times of adds, fetches and resets never decrease. */
  ghost predicate Steady(acts: seq<Action>)
  {
    forall i, j :: 0 <= i < j < |acts| && TimeOf(acts[i]).Some? && TimeOf(acts[j]).Some? ==>
      TimeOf(acts[i]).value <= TimeOf(acts[j]).value
  }

  ghost predicate Until(acts: seq<Action>, time: int)
  {
    forall i :: 0 <= i < |acts| && TimeOf(acts[i]).Some? ==> TimeOf(acts[i]).value <= time
  }

  ghost predicate From(acts: seq<Action>, time: int)
  {
    forall i :: 0 <= i < |acts| && TimeOf(acts[i]).Some? ==> TimeOf(acts[i]).value >= time
  }

  lemma SteadyJoin(a: seq<Action>, b: seq<Action>, time: int)
    requires Steady(a) && Steady(b) && Until(a, time) && From(b, time)
    ensures Steady(a + b)
  {
    hide TimeOf;
    var all := a + b;
    assert forall i :: 0 <= i < |a| ==> all[i] == a[i];
    assert forall i :: |a| <= i < |all| ==> all[i] == b[i - |a|];
  }

  lemma {:induction false} SomeLatest(acts: seq<Action>) returns (time: int)
    ensures Until(acts, time)
  {
    if acts == [] {
      time := 0;
    } else {
      time := SomeLatest(acts[..|acts| - 1]);
      var last := TimeOf(acts[|acts| - 1]);
      hide TimeOf;
      if last.Some? && last.value > time { time := last.value; }
    }
  }

  /** The web request that puts a url back, once the sender is idle again. */
  function AddBack(ping: Ping, id: nat): seq<Action>
  {
    [Mark, SendFails, HttpAdd(ping, id)]
  }

  lemma NothingElse(acts: seq<Action>, rest: seq<Action>, m: nat, url: Url)
    requires |acts| == m + 1 && Plain(rest) && rest != []
    ensures !Justified(acts + rest, m, |acts + rest| - 1, url)
  {
    var all := acts + rest;
    hide Run, NewRowid;
    forall k | m < k < |all|
      ensures !LiveReadd(At(all, k), all[k], url) && !OldReset(At(all, k), all[k], url) && !Removal(At(all, k), all[k], url)
    {
      assert all[k] == rest[k - m - 1];
    }
  }

  lemma AddedBack(st: State, ping: Ping, id: nat)
    requires st.unmarked == Some(ping.url) && ping.url !in st.table && NewRowid(st.table, id) && UniqueRowids(st.table)
    ensures Run(st, AddBack(ping, id)) == State(InsertRow(st.table, ping, id), [], None, st.log + [Added(ping.url)])
    ensures UniqueRowids(InsertRow(st.table, ping, id))
  {
    RunThree(st, Mark, SendFails, HttpAdd(ping, id));
    GiveUpBatch(st, ping.url);
    AddKeepsRowids(st.table, ping, id);
    hide Run, Step;
    AddOnly(State(st.table, [], None, st.log), ping, id);
  }

  lemma RestIsSteady(acts: seq<Action>, ping: Ping, id: nat, reach: seq<Action>, now: int)
    requires Steady(acts) && Until(acts, ping.time) && ping.time <= now && AllAt(reach, now) && Plain(reach) && ping.reason == Update
    ensures var rest := AddBack(ping, id) + reach + [SendOk];
            Plain(rest) && Steady(acts + rest)
  {
    var rest := AddBack(ping, id) + reach + [SendOk];
    forall i | 0 <= i < |rest|
      ensures !rest[i].Receive? && !rest[i].Reset? && (rest[i].HttpAdd? ==> rest[i].ping.reason == Update)
      ensures TimeOf(rest[i]).Some? ==> TimeOf(rest[i]).value == if i < 3 then ping.time else now
    {
      if 3 <= i < |rest| - 1 { assert rest[i] == reach[i - 3]; }
    }
    hide TimeOf, AddBack;
    SteadyJoin(acts, rest, ping.time);
  }

  /** A url that was just sent and is no longer queued can be put back and reached, no earlier than `latest`. */
  lemma PutBack(st: State, url: Url, latest: int) returns (ping: Ping, id: nat, reach: seq<Action>, now: int)
    requires st.unmarked == Some(url) && url !in st.table && UniqueRowids(st.table)
    ensures ping.url == url && ping.reason == Update && latest <= ping.time <= now && AllAt(reach, now) && Plain(reach)
    ensures Sending(Run(Run(st, AddBack(ping, id)), reach), SendOk, url)
  {
    id := SomeRowid(st.table, st.table.Keys);
    var newest := AfterAll(st.table, st.table.Keys);
    ping := Ping(url, if newest > latest then newest else latest, Update, "");
    now := ping.time + 16;
    AddedBack(st, ping, id);
    hide Run, Step, UniqueRowids, AddBack;
    var mid := Run(st, AddBack(ping, id));
    assert url in Eligible(mid.table, now, false);
    reach := Reach(mid, now, url);
  }

  lemma Positions(acts: seq<Action>, a: seq<Action>, b: seq<Action>, m: nat)
    requires |acts| == m + 1
    ensures var all := acts + (a + b + [SendOk]);
            && At(all, |all| - 1) == Run(Run(Run(Empty, acts), a), b) && all[|all| - 1] == SendOk
  {
    var all := acts + (a + b + [SendOk]);
    assert all[..|all| - 1] == acts + (a + b);
    hide Run;
    RunAppend(Empty, acts, a + b);
    RunAppend(Run(Empty, acts), a, b);
  }

  /**
   A url that is not queued when it is first sent, because a writer's word came
   between its fetch and its send, can be sent again with no removal, re-add or
   reset in between, and with a clock that does not go back: once it has a new
   row, the sender gets past everything ahead of it.
   */
  lemma ResendWithoutRemoval(acts: seq<Action>, m: nat, url: Url) returns (rest: seq<Action>)
    requires |acts| == m + 1 && Sending(At(acts, m), acts[m], url) && url !in At(acts, m).table && Steady(acts)
    ensures var all := acts + rest;
            var n := |all| - 1;
            && rest != [] && Steady(all) && Sending(At(all, n), all[n], url) && !Justified(all, m, n, url)
  {
    hide *;
    var st := Run(Empty, acts);
    JustSent(acts, m, url);
    var latest := SomeLatest(acts);
    var ping, id, reach, now := PutBack(st, url, latest);
    UntilLater(acts, latest, ping.time);
    rest := AddBack(ping, id) + reach + [SendOk];
    RestIsSteady(acts, ping, id, reach, now);
    NothingElse(acts, rest, m, url);
    Positions(acts, AddBack(ping, id), reach, m);
  }

  lemma JustSent(acts: seq<Action>, m: nat, url: Url)
    requires |acts| == m + 1 && Sending(At(acts, m), acts[m], url) && url !in At(acts, m).table
    ensures var st := Run(Empty, acts);
            st.unmarked == Some(url) && url !in st.table && UniqueRowids(st.table)
  {
    RowidsUnique(acts);
    AtNext(acts, m);
    hide UniqueRowids;
    assert acts[..m + 1] == acts;
  }

  lemma UntilLater(acts: seq<Action>, time: int, later: int)
    requires Until(acts, time) && time <= later
    ensures Until(acts, later)
  {
  }

  /** Every later send of the url, in every continuation with a steady clock, is justified. */
  ghost predicate AlwaysJustified(acts: seq<Action>, m: nat, url: Url)
    requires m < |acts|
  {
    forall rest, n :: Steady(acts + rest) && m < n < |acts + rest| && Sending(At(acts + rest, n), (acts + rest)[n], url)
                      ==> Justified(acts + rest, m, n, url)
  }

  /**
   The exact condition, with a clock that does not go back. After any run that
   ends with a send of a url: every later send of it is justified by a re-add, a
   reset, or a removal and a new add in between, if and only if the url was
   queued when it was sent.
   */
  lemma ResendIff(acts: seq<Action>, m: nat, url: Url)
    requires |acts| == m + 1 && Sending(At(acts, m), acts[m], url) && Steady(acts)
    ensures AlwaysJustified(acts, m, url) <==> url in At(acts, m).table
  {
    if url in At(acts, m).table {
      forall rest, n | m < n < |acts + rest| && Sending(At(acts + rest, n), (acts + rest)[n], url)
        ensures Justified(acts + rest, m, n, url)
      {
        assert (acts + rest)[..m] == acts[..m];
        ResendCause(acts + rest, m, n, url);
      }
    } else {
      var rest := ResendWithoutRemoval(acts, m, url);
      assert !Justified(acts + rest, m, |acts + rest| - 1, url);
    }
  }

  // ----- runs from the empty queue

  /** Adding and fetching one url. */
  function Begin(ping: Ping, now: int): seq<Action>
  {
    [HttpAdd(ping, 1), Fetch(now, [ping])]
  }

  ghost function RowOf(ping: Ping, inflight: bool): Row
  {
    Row(1, ping.time, ping.reason, ping.medium, inflight)
  }

  lemma BeginState(log: seq<Event>, ping: Ping, now: int)
    requires ping.time < now - SETTLE_SECONDS
    ensures Run(State(map[], [], None, log), Begin(ping, now))
            == State(map[ping.url := RowOf(ping, false)], [ping], None, log + [Added(ping.url)])
  {
    var st := State(map[], [], None, log);
    AddThenFetch(st, ping, 1, now);
    hide Step;
    RunTwoMore(st, [], HttpAdd(ping, 1), Fetch(now, [ping]));
    assert [] + Begin(ping, now) == Begin(ping, now);
  }

  lemma RunThree(st: State, a: Action, b: Action, c: Action)
    ensures Run(st, [a, b, c]) == Step(Step(Step(st, a), b), c)
  {
    hide Step;
    RunTwoMore(st, [a], b, c);
    assert [a] + [b, c] == [a, b, c];
    assert [a][..0] == [];
  }

  lemma FromBegin(ping: Ping, now: int, a: Action, b: Action, c: Action)
    requires ping.time < now - SETTLE_SECONDS
    ensures Run(Empty, Begin(ping, now) + [a, b, c])
            == Step(Step(Step(State(map[ping.url := RowOf(ping, false)], [ping], None, [Added(ping.url)]), a), b), c)
  {
    BeginState([], ping, now);
    hide Step;
    RunAppend(Empty, Begin(ping, now), [a, b, c]);
    RunThree(Run(Empty, Begin(ping, now)), a, b, c);
    assert [] + [Added(ping.url)] == [Added(ping.url)];
  }

  /** A Live re-add of a fetched url is swallowed: the row is in flight as Live, and only the update was sent. */
  lemma LiveReaddSwallowed(p: Ping, live: Ping, now: int)
    requires p.time < now - SETTLE_SECONDS && p.reason == Update && live.url == p.url && live.reason == Live
    ensures var end := Run(Empty, Begin(p, now) + [HttpAdd(live, 2), SendOk, Mark]);
            && end.table == map[p.url := RowOf(live, true)]
            && end.log == [Added(p.url), Readded(p.url, Live), HiveSent(p)]
  {
    FromBegin(p, now, HttpAdd(live, 2), SendOk, Mark);
    hide Run;
    Refreshes(State(map[p.url := RowOf(p, false)], [p], None, [Added(p.url)]), live);
  }

  /** So is one that comes between the send of the url and its mark: nothing at all is sent for it. */
  lemma LiveReaddSwallowedByMark(p: Ping, live: Ping, now: int)
    requires p.time < now - SETTLE_SECONDS && p.reason == Update && live.url == p.url && live.reason == Live
    ensures var end := Run(Empty, Begin(p, now) + [SendOk, HttpAdd(live, 2), Mark]);
            && end.table == map[p.url := RowOf(live, true)]
            && end.log == [Added(p.url), HiveSent(p), Readded(p.url, Live)]
  {
    FromBegin(p, now, SendOk, HttpAdd(live, 2), Mark);
    hide Run;
    Refreshes(State(map[p.url := RowOf(p, false)], [], Some(p.url), [Added(p.url), HiveSent(p)]), live);
  }

  lemma Refreshes(st: State, live: Ping)
    requires live.reason == Live && st.table.Keys == {live.url} && st.table[live.url].rowid == 1
    ensures Step(st, HttpAdd(live, 2)) == st.(table := map[live.url := RowOf(live, false)], log := st.log + [Readded(live.url, Live)])
  {
    assert NewRowid(st.table, 2) by { assert live.url in st.table; }
    assert RefreshRow(st.table, live) == map[live.url := RowOf(live, false)];
  }

  /**
   Two sends with a new row between them and the removal before both: the url
   is acknowledged, by an earlier transaction, between its fetch and its send.
   */
  lemma RemovalBeforeBothSends(p: Ping, q: Ping, now: int, later: int)
    requires p.time < now - SETTLE_SECONDS && now <= q.time < later - SETTLE_SECONDS && q.url == p.url
    ensures var acts := Begin(p, now) + [Receive(Transaction(7, [p.url])), SendOk, Mark] + (Begin(q, later) + [SendOk]);
            Steady(acts) && Run(Empty, acts).log == [Added(p.url), HiveSent(p), Added(p.url), HiveSent(q)]
  {
    var first := Begin(p, now) + [Receive(Transaction(7, [p.url])), SendOk, Mark];
    var second := Begin(q, later) + [SendOk];
    SteadyWitness(p, q, now, later);
    FromBegin(p, now, Receive(Transaction(7, [p.url])), SendOk, Mark);
    AcknowledgedFirst(p);
    hide Run, Step, Steady, RowOf, Begin;
    var mid := Run(Empty, first);
    BeginState(mid.log, q, later);
    RunAppend(Empty, first, second);
    RunAppend(mid, Begin(q, later), [SendOk]);
    RunOne(Run(mid, Begin(q, later)), SendOk);
    SendsHead(Run(mid, Begin(q, later)), q);
  }

  lemma SteadyWitness(p: Ping, q: Ping, now: int, later: int)
    requires p.time <= now <= q.time <= later
    ensures Steady(Begin(p, now) + [Receive(Transaction(7, [p.url])), SendOk, Mark] + (Begin(q, later) + [SendOk]))
  {
  }

  lemma AcknowledgedFirst(p: Ping)
    ensures var st := State(map[p.url := RowOf(p, false)], [p], None, [Added(p.url)]);
            Step(Step(Step(st, Receive(Transaction(7, [p.url]))), SendOk), Mark)
            == State(map[], [], None, [Added(p.url), HiveSent(p)])
  {
    assert map[p.url := RowOf(p, false)] - {p.url} == map[];
  }

  lemma SendsHead(st: State, q: Ping)
    requires st.batch == [q] && st.unmarked.None?
    ensures Step(st, SendOk).log == st.log + [HiveSent(q)]
  {
  }

  lemma RunOne(st: State, a: Action)
    ensures Run(st, [a]) == Step(st, a)
  {
    assert [a][..0] == [];
  }

  /**
   The 180 seconds are counted from the add, not from the send: a row that
   waited that long before it was fetched is reset as soon as it is marked, and
   goes out again sixteen seconds later.
   */
  lemma ResetRightAfterMark(p: Ping, now: int)
    requires p.time < now - STUCK_SECONDS
    ensures var again := p.(time := now);
            Run(Empty, Begin(p, now) + [SendOk, Mark, Reset(now, [p.url])] + [Fetch(now + 16, [again]), SendOk]).log
            == [Added(p.url), HiveSent(p), RowReset(p.url, p.time, now), HiveSent(again)]
  {
    var first := Begin(p, now) + [SendOk, Mark, Reset(now, [p.url])];
    var again := p.(time := now);
    FromBegin(p, now, SendOk, Mark, Reset(now, [p.url]));
    MarkOnly(p);
    ResetOnly(p, now);
    hide Step, Run, RowOf;
    AddReset([Added(p.url)], HiveSent(p), RowReset(p.url, p.time, now));
    var mid := Run(Empty, first);
    assert mid == State(map[p.url := RowOf(again, false)], [], None, [Added(p.url), HiveSent(p), RowReset(p.url, p.time, now)]);
    RunAppend(Empty, first, [Fetch(now + 16, [again]), SendOk]);
    RunTwoMore(mid, [], Fetch(now + 16, [again]), SendOk);
    assert [] + [Fetch(now + 16, [again]), SendOk] == [Fetch(now + 16, [again]), SendOk];
    assert Run(mid, []) == mid by { RunNone(mid); }
    FetchAndSend(again, now + 16, mid.log);
  }

  lemma AddReset(log: seq<Event>, a: Event, b: Event)
    requires |log| == 1
    ensures log + [a] == [log[0], a] && log + [a] + [b] == [log[0], a, b]
  {
  }

  lemma RunNone(st: State)
    ensures Run(st, []) == st
  {
  }

  lemma FetchAndSend(p: Ping, now: int, log: seq<Event>)
    requires p.time < now - SETTLE_SECONDS
    ensures Step(Step(State(map[p.url := RowOf(p, false)], [], None, log), Fetch(now, [p])), SendOk).log == log + [HiveSent(p)]
  {
    FetchOnly(map[p.url := RowOf(p, false)], now, p.url);
  }

  lemma MarkOnly(p: Ping)
    ensures Step(Step(State(map[p.url := RowOf(p, false)], [p], None, [Added(p.url)]), SendOk), Mark)
            == State(map[p.url := RowOf(p, true)], [], None, [Added(p.url), HiveSent(p)])
  {
  }

  lemma ResetOnly(p: Ping, now: int)
    requires p.time < now - STUCK_SECONDS
    ensures var st := State(map[p.url := RowOf(p, true)], [], None, [Added(p.url), HiveSent(p)]);
            Step(st, Reset(now, [p.url]))
            == State(map[p.url := RowOf(p.(time := now), false)], [], None, st.log + [RowReset(p.url, p.time, now)])
  {
    var table := map[p.url := RowOf(p, true)];
    assert Stuck(table, now) == {p.url} && UrlSet([p.url]) == {p.url};
    assert [p.url][..0] == [] && Resets(table, [], now) == [];
    assert Resets(table, [p.url], now) == [RowReset(p.url, p.time, now)];
    assert ResetRows(table, now, {p.url}) == map[p.url := RowOf(p.(time := now), false)];
  }
}
