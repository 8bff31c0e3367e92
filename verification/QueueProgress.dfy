/**
 Progress of the queue: left to itself, with sends that succeed, the sender gets
 past whatever is ahead of a row, a batch at a time.
 */
module QueueProgress {
  import opened Wrappers
  import opened PingQueue
  import opened QueueProtocol

  // ----- row ids stay unique

  lemma AddKeepsRowids(table: Table, ping: Ping, id: nat)
    requires UniqueRowids(table) && NewRowid(table, id)
    ensures UniqueRowids(AddPing(table, ping, id))
  {
  }

  lemma StepKeepsRowids(st: State, act: Action)
    requires UniqueRowids(st.table)
    ensures UniqueRowids(Step(st, act).table)
  {
    if act.HttpAdd? && NewRowid(st.table, act.id) { AddKeepsRowids(st.table, act.ping, act.id); }
  }

  lemma {:induction false} RowidsUnique(acts: seq<Action>)
    ensures UniqueRowids(Run(Empty, acts).table)
  {
    if acts != [] {
      var st, last := Run(Empty, acts[..|acts| - 1]), acts[|acts| - 1];
      hide Step, UniqueRowids;
      RowidsUnique(acts[..|acts| - 1]);
      StepKeepsRowids(st, last);
    }
  }

  // ----- one round

  /** A fetch, and then every ping of the batch sent and marked. */
  function RoundActs(now: int, pings: seq<Ping>): seq<Action>
  {
    [Fetch(now, pings)] + SendMany(|pings|)
  }

  /** The rows that are not in flight. */
  ghost function Waiting(table: Table): set<Url>
  {
    set u | u in table && !table[u].inflight
  }

  lemma FetchBatch(st: State, now: int, pings: seq<Ping>)
    requires Idle(st) && IsFetch(st.table, now, false, pings)
    ensures Step(st, Fetch(now, pings)) == st.(batch := pings)
    ensures DistinctUrls(pings) && UrlsOf(pings) <= Eligible(st.table, now, false) <= Waiting(st.table)
    ensures |pings| < PING_BATCH_SIZE ==> UrlsOf(pings) == Eligible(st.table, now, false)
  {
    var eligible := Eligible(st.table, now, false);
    DistinctSize(pings);
    forall u | u in UrlsOf(pings) ensures u in eligible {
      var i :| 0 <= i < |pings| && pings[i].url == u;
    }
    if |pings| < PING_BATCH_SIZE { SameSets(UrlsOf(pings), eligible); }
  }

  lemma {:induction false} DistinctSize(pings: seq<Ping>)
    requires DistinctUrls(pings)
    ensures |UrlsOf(pings)| == |pings|
  {
    if pings != [] {
      var front, last := pings[..|pings| - 1], pings[|pings| - 1];
      DistinctSize(front);
      assert pings == front + [last];
      UrlsPush(front, last);
      assert last.url !in UrlsOf(front);
    }
  }

  /** A round sends the batch in order and puts exactly its rows in flight. */
  lemma RoundEffect(st: State, now: int, pings: seq<Ping>)
    requires Idle(st) && IsFetch(st.table, now, false, pings)
    ensures var end := Run(st, RoundActs(now, pings));
            && Idle(end) && end.table.Keys == st.table.Keys
            && (forall u :: u in st.table ==> end.table[u] == InflightIf(st.table[u], u in UrlsOf(pings)))
            && st.log <= end.log && |end.log| == |st.log| + |pings|
            && (forall i :: 0 <= i < |pings| ==> end.log[|st.log| + i] == HiveSent(pings[i]))
            && Waiting(end.table) == Waiting(st.table) - UrlsOf(pings)
            && |Waiting(end.table)| == |Waiting(st.table)| - |pings|
  {
    hide Step, Run, IsFetch, SendMany, Eligible, UrlsOf, Waiting, DistinctUrls;
    FetchBatch(st, now, pings);
    RunFrom(st, Fetch(now, pings), SendMany(|pings|));
    var mid := st.(batch := pings);
    BatchGoesOut(mid, |pings|);
    LogGrows(mid, SendMany(|pings|));
    assert pings[..|pings|] == pings && pings[|pings|..] == [];
    var end := Run(st, RoundActs(now, pings));
    FewerWaiting(st.table, end.table, UrlsOf(pings));
    DistinctSize(pings);
  }

  lemma FewerWaiting(table: Table, after: Table, sent: set<Url>)
    requires after.Keys == table.Keys && sent <= Waiting(table)
    requires forall u :: u in table ==> after[u] == InflightIf(table[u], u in sent)
    ensures Waiting(after) == Waiting(table) - sent && |Waiting(after)| == |Waiting(table)| - |sent|
  {
  }

  lemma StepLog(st: State, act: Action)
    ensures st.log <= Step(st, act).log
  {
  }

  lemma {:induction false} LogGrows(st: State, acts: seq<Action>)
    ensures st.log <= Run(st, acts).log
    decreases |acts|
  {
    if acts != [] {
      var mid, last := Run(st, acts[..|acts| - 1]), acts[|acts| - 1];
      hide Step;
      LogGrows(st, acts[..|acts| - 1]);
      StepLog(mid, last);
    }
  }

  // ----- many rounds

  datatype Round = Round(now: int, pings: seq<Ping>)

  function RoundsActs(rounds: seq<Round>): seq<Action>
  {
    if rounds == [] then []
    else RoundsActs(rounds[..|rounds| - 1]) + RoundActs(rounds[|rounds| - 1].now, rounds[|rounds| - 1].pings)
  }

  /** Each round fetches what the queue then answers; none is earlier than `since`. */
  ghost predicate Proceeds(st: State, rounds: seq<Round>, since: int)
  {
    forall i :: 0 <= i < |rounds| ==>
      rounds[i].now >= since && IsFetch(Run(st, RoundsActs(rounds[..i])).table, rounds[i].now, false, rounds[i].pings)
  }

  ghost predicate SentSince(st: State, from: nat, url: Url)
  {
    exists i :: from <= i < |st.log| && Sends(st.log[i], url)
  }

  /** After some rounds the row has gone out, or it waits as before and each round has taken a full batch. */
  ghost predicate OutOrAhead(st: State, end: State, url: Url, rounds: nat)
  {
    && Idle(end) && st.log <= end.log
    && (SentSince(end, |st.log|, url)
        || (url in st.table && url in end.table && end.table[url] == st.table[url]
            && |Waiting(end.table)| + rounds * PING_BATCH_SIZE <= |Waiting(st.table)|))
  }

  lemma RoundProgress(st: State, mid: State, now: int, pings: seq<Ping>, url: Url, since: int, rounds: nat)
    requires OutOrAhead(st, mid, url, rounds) && IsFetch(mid.table, now, false, pings) && now >= since
    requires url in Eligible(st.table, since, false)
    ensures OutOrAhead(st, Run(mid, RoundActs(now, pings)), url, rounds + 1)
  {
    var end := Run(mid, RoundActs(now, pings));
    hide Run, Step, IsFetch, Waiting, RoundActs, SentSince;
    RoundEffect(mid, now, pings);
    FetchBatch(mid, now, pings);
    if SentSince(mid, |st.log|, url) {
      SentBefore(mid, end, |st.log|, url);
    } else if url in UrlsOf(pings) {
      SentNow(mid, end, pings, |st.log|, url);
    } else {
      hide UrlsOf;
      assert url in Eligible(mid.table, now, false);
      hide Eligible;
      assert |pings| >= PING_BATCH_SIZE;
    }
  }

  lemma SentBefore(mid: State, end: State, from: nat, url: Url)
    requires mid.log <= end.log && SentSince(mid, from, url)
    ensures SentSince(end, from, url)
  {
    var i :| from <= i < |mid.log| && Sends(mid.log[i], url);
    assert end.log[i] == mid.log[i];
  }

  lemma SentNow(mid: State, end: State, pings: seq<Ping>, from: nat, url: Url)
    requires from <= |mid.log| && |end.log| == |mid.log| + |pings| && url in UrlsOf(pings)
    requires forall i :: 0 <= i < |pings| ==> end.log[|mid.log| + i] == HiveSent(pings[i])
    ensures SentSince(end, from, url)
  {
    var i :| 0 <= i < |pings| && pings[i].url == url;
    assert Sends(end.log[|mid.log| + i], url);
  }

  lemma ProceedsFront(st: State, rounds: seq<Round>, since: int)
    requires Proceeds(st, rounds, since) && rounds != []
    ensures var front, last := rounds[..|rounds| - 1], rounds[|rounds| - 1];
            && Proceeds(st, front, since) && last.now >= since
            && IsFetch(Run(st, RoundsActs(front)).table, last.now, false, last.pings)
  {
    hide Run, IsFetch, RoundsActs;
    var front := rounds[..|rounds| - 1];
    forall i | 0 <= i < |front|
      ensures front[i].now >= since && IsFetch(Run(st, RoundsActs(front[..i])).table, front[i].now, false, front[i].pings)
    {
      assert front[..i] == rounds[..i] && front[i] == rounds[i];
    }
  }

  lemma {:induction false} RoundsProgress(st: State, rounds: seq<Round>, url: Url, since: int)
    requires Idle(st) && url in Eligible(st.table, since, false) && Proceeds(st, rounds, since)
    ensures OutOrAhead(st, Run(st, RoundsActs(rounds)), url, |rounds|)
  {
    if rounds != [] {
      var front, last := rounds[..|rounds| - 1], rounds[|rounds| - 1];
      ProceedsFront(st, rounds, since);
      hide Run, IsFetch, Eligible, OutOrAhead, RoundActs, Proceeds, Idle;
      RoundsProgress(st, front, url, since);
      RunAppend(st, RoundsActs(front), RoundActs(last.now, last.pings));
      RoundProgress(st, Run(st, RoundsActs(front)), last.now, last.pings, url, since, |front|);
    }
  }

  /**
   With sends that succeed and nothing added or removed, every row that is
   eligible at some time goes out within as many rounds, at that time or later,
   as there are batches of 1000 in the rows not in flight, whatever is ahead of it.
   */
  lemma EveryRowGoesOut(st: State, rounds: seq<Round>, url: Url, since: int)
    requires Idle(st) && url in Eligible(st.table, since, false) && Proceeds(st, rounds, since)
    requires |rounds| * 1000 >= |Waiting(st.table)|
    ensures SentSince(Run(st, RoundsActs(rounds)), |st.log|, url)
  {
    var end := Run(st, RoundsActs(rounds));
    RoundsProgress(st, rounds, url, since);
    hide Run;
    if url in end.table && end.table[url] == st.table[url] {
      assert url in Waiting(end.table);
      assert |Waiting(end.table)| > 0;
    }
  }

  // ----- reaching one row

  /** Nothing is added as Live or LiveEnd, nothing removed and nothing reset. */
  ghost predicate Plain(acts: seq<Action>)
  {
    forall i :: 0 <= i < |acts| ==>
      !acts[i].Receive? && !acts[i].Reset? && (acts[i].HttpAdd? ==> acts[i].ping.reason == Update)
  }

  /** The time an action carries: that of the add, of the fetch or of the reset. */
  function TimeOf(act: Action): Option<int>
  {
    match act
    case HttpAdd(ping, _) => Some(ping.time)
    case Fetch(now, _) => Some(now)
    case Reset(now, _) => Some(now)
    case _ => None
  }

  ghost predicate AllAt(acts: seq<Action>, now: int)
  {
    forall i :: 0 <= i < |acts| && TimeOf(acts[i]).Some? ==> TimeOf(acts[i]).value == now
  }

  lemma {:induction false} PlainSends(n: nat)
    ensures Plain(SendMany(n)) && forall i :: 0 <= i < |SendMany(n)| ==> TimeOf(SendMany(n)[i]).None?
  {
    if n > 0 { PlainSends(n - 1); }
  }

  lemma PlainRound(now: int, pings: seq<Ping>, n: nat)
    ensures Plain([Fetch(now, pings)] + SendMany(n)) && AllAt([Fetch(now, pings)] + SendMany(n), now)
  {
    PlainSends(n);
  }

  lemma PlainAppend(a: seq<Action>, b: seq<Action>, now: int)
    requires Plain(a) && Plain(b) && AllAt(a, now) && AllAt(b, now)
    ensures Plain(a + b) && AllAt(a + b, now)
  {
  }

  lemma RoundKeepsRowids(table: Table, after: Table, sent: set<Url>)
    requires UniqueRowids(table) && after.Keys == table.Keys
    requires forall u :: u in table ==> after[u] == InflightIf(table[u], u in sent)
    ensures UniqueRowids(after)
  {
  }

  /** An idle sender can bring any eligible row to the head of its batch, all at one time. */
  lemma {:induction false} Reach(st: State, now: int, url: Url) returns (acts: seq<Action>)
    requires Idle(st) && UniqueRowids(st.table) && url in Eligible(st.table, now, false)
    ensures Plain(acts) && AllAt(acts, now)
    ensures var end := Run(st, acts); end.unmarked.None? && end.batch != [] && end.batch[0].url == url
    decreases |Waiting(st.table)|
  {
    var pings := FetchExists(st.table, now);
    FetchBatch(st, now, pings);
    if url in UrlsOf(pings) {
      var k :| 0 <= k < |pings| && pings[k].url == url;
      acts := [Fetch(now, pings)] + SendMany(k);
      PlainRound(now, pings, k);
      RunFrom(st, Fetch(now, pings), SendMany(k));
      hide Run, Step, SendMany, IsFetch;
      BatchGoesOut(st.(batch := pings), k);
    } else {
      var round := RoundActs(now, pings);
      PlainRound(now, pings, |pings|);
      RoundEffect(st, now, pings);
      var mid := Run(st, round);
      hide Run, Step, SendMany, IsFetch, Waiting;
      RoundKeepsRowids(st.table, mid.table, UrlsOf(pings));
      assert |pings| > 0;
      assert url in Eligible(mid.table, now, false);
      var rest := Reach(mid, now, url);
      RunAppend(st, round, rest);
      PlainAppend(round, rest, now);
      acts := round + rest;
    }
  }
}
