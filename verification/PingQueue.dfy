/** The front end's queue table: one row per url, and the statements that read and change it. */
module PingQueue {

  type Url = string

  /** In the alphabetical order of the stored texts, which is also the fetch order. */
  datatype Reason = Live | LiveEnd | Update

  datatype Ping = Ping(url: Url, time: int, reason: Reason, medium: string)

  datatype Row = Row(rowid: nat, createdon: int, reason: Reason, medium: string, inflight: bool)

  type Table = map<Url, Row>

  const PING_BATCH_SIZE: nat := 1000
  const SETTLE_SECONDS := 15
  const STUCK_SECONDS := 180
  const RESET_LIMIT: nat := 25

  function Rank(r: Reason): nat
  {
    match r
    case Live => 0
    case LiveEnd => 1
    case Update => 2
  }

  /** The row id an insert gets: one more than the largest in use. */
  ghost predicate NewRowid(table: Table, id: nat)
  {
    (forall u :: u in table ==> table[u].rowid < id) && (table == map[] || exists u :: u in table && table[u].rowid + 1 == id)
  }

  datatype AddResult = Inserted | Refreshed | AlreadyQueued

  function AddOutcome(table: Table, ping: Ping): AddResult
  {
    if ping.url !in table then Inserted
    else if ping.reason == Update then AlreadyQueued
    else Refreshed
  }

  function InsertRow(table: Table, ping: Ping, id: nat): Table
  {
    table[ping.url := Row(id, ping.time, ping.reason, ping.medium, false)]
  }

  /** UPDATE ... WHERE url: every column but the row id, and the row is no longer in flight. */
  function RefreshRow(table: Table, ping: Ping): Table
  {
    if ping.url in table
    then table[ping.url := table[ping.url].(createdon := ping.time, reason := ping.reason, medium := ping.medium, inflight := false)]
    else table
  }

  function AddPing(table: Table, ping: Ping, id: nat): Table
  {
    match AddOutcome(table, ping)
    case Inserted => InsertRow(table, ping, id)
    case Refreshed => RefreshRow(table, ping)
    case AlreadyQueued => table
  }

  function MarkInflight(table: Table, url: Url): Table
  {
    if url in table then table[url := table[url].(inflight := true)] else table
  }

  ghost predicate SameButInflight(a: Row, b: Row)
  {
    a.rowid == b.rowid && a.createdon == b.createdon && a.reason == b.reason && a.medium == b.medium
  }

  /** The rows an inflight reset may touch: the 180 seconds count from the last add, re-add or reset of the row. */
  function Stuck(table: Table, now: int): set<Url>
  {
    set u | u in table && table[u].inflight && table[u].createdon < now - STUCK_SECONDS
  }

  /** Some 25 of the stuck rows, or all of them if there are fewer. */
  ghost predicate ResetChoice(table: Table, now: int, chosen: set<Url>)
  {
    chosen <= Stuck(table, now)
    && |chosen| == if |Stuck(table, now)| < RESET_LIMIT then |Stuck(table, now)| else RESET_LIMIT
  }

  function ResetRows(table: Table, now: int, chosen: set<Url>): Table
  {
    map u | u in table :: if u in chosen then table[u].(inflight := false, createdon := now) else table[u]
  }

  // ----- fetching

  function Eligible(table: Table, now: int, withInflight: bool): set<Url>
  {
    set u | u in table && (withInflight || !table[u].inflight) && table[u].createdon < now - SETTLE_SECONDS
  }

  /** `a` is fetched before `b`: by reason first, then by row id. */
  predicate Earlier(a: Row, b: Row)
  {
    Rank(a.reason) < Rank(b.reason) || (Rank(a.reason) == Rank(b.reason) && a.rowid < b.rowid)
  }

  function PingOf(table: Table, u: Url): Ping
    requires u in table
  {
    Ping(u, table[u].createdon, table[u].reason, table[u].medium)
  }

  /** `urls` lists distinct rows, each before the next ones. */
  ghost predicate InFetchOrder(table: Table, urls: seq<Url>)
  {
    && (forall i :: 0 <= i < |urls| ==> urls[i] in table)
    && (forall i, j :: 0 <= i < j < |urls| ==> urls[i] != urls[j] && Earlier(table[urls[i]], table[urls[j]]))
  }

  ghost predicate UniqueRowids(table: Table)
  {
    forall u, v :: u in table && v in table && u != v ==> table[u].rowid != table[v].rowid
  }

  /** The first rows, in fetch order, of those eligible; at most a batch, and nothing left out comes before them. */
  ghost predicate IsFetch(table: Table, now: int, withInflight: bool, pings: seq<Ping>)
  {
    var eligible := Eligible(table, now, withInflight);
    && (forall i :: 0 <= i < |pings| ==> pings[i].url in eligible && pings[i] == PingOf(table, pings[i].url))
    && (forall i, j :: 0 <= i < j < |pings| ==>
          pings[i].url != pings[j].url && Earlier(table[pings[i].url], table[pings[j].url]))
    && |pings| == (if |eligible| < PING_BATCH_SIZE then |eligible| else PING_BATCH_SIZE)
    && (forall u :: u in eligible && (forall i :: 0 <= i < |pings| ==> pings[i].url != u) ==>
          forall i :: 0 <= i < |pings| ==> Earlier(table[pings[i].url], table[u]))
  }

  /** How many of the listed rows come before `u`, counted from the front. */
  function PlaceOf(table: Table, urls: seq<Url>, u: Url): (k: nat)
    requires u in table && forall i :: 0 <= i < |urls| ==> urls[i] in table
    ensures k <= |urls| && forall i :: 0 <= i < k ==> Earlier(table[urls[i]], table[u])
    ensures k < |urls| ==> !Earlier(table[urls[k]], table[u])
  {
    if urls == [] || !Earlier(table[urls[0]], table[u]) then 0 else 1 + PlaceOf(table, urls[1..], u)
  }

  /** Inserts `u` at its place in a listing kept in fetch order. */
  function Placed(table: Table, urls: seq<Url>, u: Url): seq<Url>
    requires u in table && forall i :: 0 <= i < |urls| ==> urls[i] in table
  {
    var k := PlaceOf(table, urls, u);
    urls[..k] + [u] + urls[k..]
  }

  lemma PlacedInOrder(table: Table, urls: seq<Url>, u: Url)
    requires UniqueRowids(table) && InFetchOrder(table, urls) && u in table && u !in urls
    ensures InFetchOrder(table, Placed(table, urls, u)) && |Placed(table, urls, u)| == |urls| + 1
    ensures forall x :: x in Placed(table, urls, u) <==> x in urls || x == u
  {
    var k := PlaceOf(table, urls, u);
    hide PlaceOf;
    forall i | k <= i < |urls| ensures Earlier(table[u], table[urls[i]]) {
      assert urls[i] in urls && urls[k] in urls;
    }
  }

  method ListInOrder(table: Table, chosen: set<Url>) returns (urls: seq<Url>)
    requires UniqueRowids(table) && chosen <= table.Keys
    ensures InFetchOrder(table, urls) && |urls| == |chosen| && forall x :: x in urls <==> x in chosen
  {
    hide Placed;
    urls := [];
    var rest := chosen;
    while rest != {}
      invariant rest <= chosen && InFetchOrder(table, urls) && |urls| + |rest| == |chosen|
      invariant forall x :: x in urls <==> x in chosen && x !in rest
      decreases rest
    {
      var u :| u in rest;
      PlacedInOrder(table, urls, u);
      urls := Placed(table, urls, u);
      rest := rest - {u};
    }
  }

  lemma {:induction false} OrderExists(table: Table, chosen: set<Url>) returns (urls: seq<Url>)
    requires UniqueRowids(table) && chosen <= table.Keys
    ensures InFetchOrder(table, urls) && |urls| == |chosen| && forall x :: x in urls <==> x in chosen
    decreases |chosen|
  {
    if chosen == {} {
      urls := [];
    } else {
      var u :| u in chosen;
      var rest := OrderExists(table, chosen - {u});
      PlacedInOrder(table, rest, u);
      hide Placed;
      urls := Placed(table, rest, u);
    }
  }

  /** A fetch always has an answer. */
  lemma FetchExists(table: Table, now: int) returns (pings: seq<Ping>)
    requires UniqueRowids(table)
    ensures IsFetch(table, now, false, pings)
  {
    var urls := OrderExists(table, Eligible(table, now, false));
    var n := if |urls| < PING_BATCH_SIZE then |urls| else PING_BATCH_SIZE;
    pings := seq(n, i requires 0 <= i < n => assert urls[i] in urls; PingOf(table, urls[i]));
    hide Eligible, IsFetch;
    FetchIsPrefix(table, now, false, urls, pings);
  }

  lemma FetchIsPrefix(table: Table, now: int, withInflight: bool, urls: seq<Url>, pings: seq<Ping>)
    requires InFetchOrder(table, urls) && |urls| == |Eligible(table, now, withInflight)|
    requires forall x :: x in urls <==> x in Eligible(table, now, withInflight)
    requires |pings| == if |urls| < PING_BATCH_SIZE then |urls| else PING_BATCH_SIZE
    requires forall i :: 0 <= i < |pings| ==> pings[i] == PingOf(table, urls[i])
    ensures IsFetch(table, now, withInflight, pings)
  {
    var eligible := Eligible(table, now, withInflight);
    forall i | 0 <= i < |pings| ensures pings[i].url in eligible && pings[i] == PingOf(table, pings[i].url) {
      assert urls[i] in urls;
    }
    forall u, i | u in eligible && (forall i :: 0 <= i < |pings| ==> pings[i].url != u) && 0 <= i < |pings|
      ensures Earlier(table[pings[i].url], table[u])
    {
      var j :| 0 <= j < |urls| && urls[j] == u;
      assert forall k :: 0 <= k < |pings| ==> pings[k].url == urls[k];
    }
  }

  // ----- the order of the query

  /** The text stored in the reason column. */
  function ReasonText(r: Reason): string
  {
    match r
    case Live => "Live"
    case LiveEnd => "LiveEnd"
    case Update => "Update"
  }

  /** Texts are compared character by character; a text comes before its continuations. */
  predicate TextBefore(a: string, b: string)
  {
    if b == "" then false
    else if a == "" then true
    else if a[0] != b[0] then a[0] < b[0]
    else TextBefore(a[1..], b[1..])
  }

  lemma {:induction false} CommonStart(p: string, a: string, b: string)
    ensures TextBefore(p + a, p + b) <==> TextBefore(a, b)
  {
    if p == "" {
      assert p + a == a && p + b == b;
    } else {
      assert (p + a)[1..] == p[1..] + a && (p + b)[1..] == p[1..] + b;
      CommonStart(p[1..], a, b);
    }
  }

  lemma LiveTexts()
    ensures TextBefore("Live", "LiveEnd") && !TextBefore("LiveEnd", "Live") && !TextBefore("Live", "Live")
    ensures !TextBefore("LiveEnd", "LiveEnd") && !TextBefore("Update", "Update")
  {
    assert "Live" + "" == "Live" && "Live" + "End" == "LiveEnd" && "LiveEnd" + "" == "LiveEnd" && "Update" + "" == "Update";
    CommonStart("Live", "", "End");
    CommonStart("Live", "End", "");
    CommonStart("Live", "", "");
    CommonStart("LiveEnd", "", "");
    CommonStart("Update", "", "");
  }

  /** Fetch order is the order of the stored texts, and then of the row ids. */
  lemma EarlierIsTextOrder(a: Row, b: Row)
    ensures Earlier(a, b) <==>
            TextBefore(ReasonText(a.reason), ReasonText(b.reason)) || (a.reason == b.reason && a.rowid < b.rowid)
  {
    LiveTexts();
  }

  /**
   What a fetch returns, row by row. Every ping stands for a row of the table
   whose time is more than 15 seconds past and which is not in flight, unless
   rows in flight are asked for too; pings stand in the order of the stored
   reasons and row ids; and a row that qualifies is left out only if 1000 rows
   were taken, all of them before it.
   */
  lemma FetchMeaning(table: Table, now: int, withInflight: bool, pings: seq<Ping>)
    requires IsFetch(table, now, withInflight, pings)
    ensures |pings| <= 1000
    ensures forall i :: 0 <= i < |pings| ==>
              && pings[i].url in table && table[pings[i].url].createdon + 15 < now && (withInflight || !table[pings[i].url].inflight)
              && pings[i].time == table[pings[i].url].createdon && pings[i].reason == table[pings[i].url].reason
              && pings[i].medium == table[pings[i].url].medium
    ensures forall i, j :: 0 <= i < j < |pings| ==>
              || TextBefore(ReasonText(pings[i].reason), ReasonText(pings[j].reason))
              || (pings[i].reason == pings[j].reason && table[pings[i].url].rowid < table[pings[j].url].rowid)
    ensures forall u :: u in table && table[u].createdon + 15 < now && (withInflight || !table[u].inflight)
                        && (forall i :: 0 <= i < |pings| ==> pings[i].url != u) ==>
              && |pings| == 1000
              && forall i :: 0 <= i < |pings| ==>
                   || TextBefore(ReasonText(pings[i].reason), ReasonText(table[u].reason))
                   || (pings[i].reason == table[u].reason && table[pings[i].url].rowid < table[u].rowid)
  {
    var eligible := Eligible(table, now, withInflight);
    hide TextBefore, ReasonText, Rank;
    forall i, j | 0 <= i < j < |pings|
      ensures || TextBefore(ReasonText(pings[i].reason), ReasonText(pings[j].reason))
              || (pings[i].reason == pings[j].reason && table[pings[i].url].rowid < table[pings[j].url].rowid)
    {
      EarlierIsTextOrder(table[pings[i].url], table[pings[j].url]);
    }
    forall u | u in eligible && (forall i :: 0 <= i < |pings| ==> pings[i].url != u)
      ensures |pings| == 1000
      ensures forall i :: 0 <= i < |pings| ==>
                || TextBefore(ReasonText(pings[i].reason), ReasonText(table[u].reason))
                || (pings[i].reason == table[u].reason && table[pings[i].url].rowid < table[u].rowid)
    {
      LeftOutMeansFull(eligible, pings, u);
      forall i | 0 <= i < |pings|
        ensures || TextBefore(ReasonText(pings[i].reason), ReasonText(table[u].reason))
                || (pings[i].reason == table[u].reason && table[pings[i].url].rowid < table[u].rowid)
      {
        EarlierIsTextOrder(table[pings[i].url], table[u]);
      }
    }
  }

  lemma {:induction false} DistinctInside(eligible: set<Url>, pings: seq<Ping>)
    requires forall i, j :: 0 <= i < j < |pings| ==> pings[i].url != pings[j].url
    requires forall i :: 0 <= i < |pings| ==> pings[i].url in eligible
    ensures |pings| <= |eligible|
  {
    if pings != [] {
      var front, last := pings[..|pings| - 1], pings[|pings| - 1];
      assert forall i :: 0 <= i < |front| ==> front[i] == pings[i];
      DistinctInside(eligible - {last.url}, front);
    }
  }

  lemma LeftOutMeansFull(eligible: set<Url>, pings: seq<Ping>, u: Url)
    requires u in eligible && forall i :: 0 <= i < |pings| ==> pings[i].url != u
    requires forall i, j :: 0 <= i < j < |pings| ==> pings[i].url != pings[j].url
    requires forall i :: 0 <= i < |pings| ==> pings[i].url in eligible
    requires |pings| == if |eligible| < PING_BATCH_SIZE then |eligible| else PING_BATCH_SIZE
    ensures |pings| == 1000
  {
    DistinctInside(eligible - {u}, pings);
  }

  /**
   So Live goes before LiveEnd and LiveEnd before Update, and a Live row that
   qualifies is left out only by a batch that is Live throughout.
   */
  lemma LiveFirst(table: Table, now: int, pings: seq<Ping>)
    requires IsFetch(table, now, false, pings)
    ensures forall i, j :: 0 <= i < j < |pings| ==>
              && (pings[i].reason == Update ==> pings[j].reason == Update)
              && (pings[i].reason == LiveEnd ==> pings[j].reason != Live)
    ensures forall u :: u in table && table[u].reason == Live && !table[u].inflight && table[u].createdon + 15 < now
                        && (forall i :: 0 <= i < |pings| ==> pings[i].url != u) ==>
              |pings| == 1000 && forall i :: 0 <= i < |pings| ==> pings[i].reason == Live
  {
    hide IsFetch;
    FetchMeaning(table, now, false, pings);
    TextsOrdered();
    hide TextBefore;
  }

  lemma TextsOrdered()
    ensures !TextBefore("Update", "Live") && !TextBefore("Update", "LiveEnd") && !TextBefore("LiveEnd", "Live")
  {
    LiveTexts();
  }

  /** Some `limit` elements, or all of them if there are fewer. */
  method PickSome(s: set<Url>, limit: nat) returns (picked: set<Url>)
    ensures picked <= s && |picked| == if |s| < limit then |s| else limit
  {
    picked := {};
    var rest := s;
    while rest != {} && |picked| < limit
      invariant picked <= s && rest <= s && picked !! rest && |picked| + |rest| == |s| && |picked| <= limit
      decreases rest
    {
      var u :| u in rest;
      picked, rest := picked + {u}, rest - {u};
    }
  }

  // ----- the table behind its statements

  lemma SameSets(a: set<Url>, b: set<Url>)
    requires a <= b && |a| == |b|
    ensures a == b
  {
    assert |b - a| == 0;
  }

  class Queue {
    var table: Table

    ghost predicate Valid()
      reads this
    {
      UniqueRowids(table)
    }

    constructor ()
      ensures Valid() && table == map[]
    {
      table := map[];
    }

    method NextRowid() returns (id: nat)
      ensures NewRowid(table, id)
    {
      id := 1;
      var rest := table.Keys;
      ghost var top: Url := "";
      while rest != {}
        invariant rest <= table.Keys
        invariant forall u :: u in table && u !in rest ==> table[u].rowid < id
        invariant rest == table.Keys || (top in table && table[top].rowid + 1 == id) || id == 1
        invariant id > 1 ==> top in table && table[top].rowid + 1 == id
        invariant id == 1 ==> forall u :: u in table && u !in rest ==> table[u].rowid == 0
        decreases rest
      {
        var u :| u in rest;
        if table[u].rowid >= id {
          id := table[u].rowid + 1;
          top := u;
        }
        rest := rest - {u};
      }
      if id == 1 && table != map[] {
        ghost var u :| u in table;
        assert table[u].rowid + 1 == id;
      }
    }

    method Add(ping: Ping) returns (r: AddResult, ghost id: nat)
      requires Valid()
      modifies this
      ensures Valid() && r == AddOutcome(old(table), ping)
      ensures NewRowid(old(table), id) && table == AddPing(old(table), ping, id)
    {
      var inserted;
      inserted, id := Insert(ping);
      if inserted {
        r := Inserted;
      } else if ping.reason == Live || ping.reason == LiveEnd {
        ghost var before := table;
        UpdatePing(ping);
        assert table == RefreshRow(before, ping);
        r := Refreshed;
      } else {
        r := AlreadyQueued;
      }
    }

    /** The insert alone: it fails, and changes nothing, when the url is queued. */
    method Insert(ping: Ping) returns (inserted: bool, ghost id: nat)
      requires Valid()
      modifies this
      ensures Valid() && NewRowid(old(table), id) && (inserted <==> ping.url !in old(table))
      ensures table == if inserted then InsertRow(old(table), ping, id) else old(table)
      ensures inserted ==> table[ping.url] == Row(id, ping.time, ping.reason, ping.medium, false)
    {
      var next := NextRowid();
      id := next;
      inserted := ping.url !in table;
      if inserted {
        table := InsertRow(table, ping, next);
      }
    }

    /** The update alone: the row of that url, if there still is one, takes the new data; it is never created. */
    method UpdatePing(ping: Ping)
      requires Valid()
      modifies this
      ensures Valid() && table.Keys == old(table).Keys
      ensures forall u :: u in table && u != ping.url ==> table[u] == old(table)[u]
      ensures ping.url in table ==>
                table[ping.url] == Row(old(table)[ping.url].rowid, ping.time, ping.reason, ping.medium, false)
    {
      if ping.url in table {
        table := table[ping.url := table[ping.url].(createdon := ping.time, reason := ping.reason, medium := ping.medium, inflight := false)];
      }
    }

    /** Puts the row of that url, if there is one, in flight as it is now, whatever was sent; no other row changes. */
    method SetInflight(ping: Ping)
      requires Valid()
      modifies this
      ensures Valid() && table.Keys == old(table).Keys
      ensures forall u :: u in table && u != ping.url ==> table[u] == old(table)[u]
      ensures ping.url in table ==> table[ping.url].inflight && SameButInflight(table[ping.url], old(table)[ping.url])
    {
      if ping.url in table {
        table := table[ping.url := table[ping.url].(inflight := true)];
      }
    }

    /** The url is gone; no other row changes. */
    method Delete(url: Url)
      requires Valid()
      modifies this
      ensures Valid() && url !in table
      ensures forall u :: u != url ==> (u in table <==> u in old(table))
      ensures forall u :: u in table ==> table[u] == old(table)[u]
    {
      table := table - {url};
    }

    method ResetInflight(now: int) returns (ghost chosen: set<Url>)
      requires Valid()
      modifies this
      ensures Valid() && ResetChoice(old(table), now, chosen) && table == ResetRows(old(table), now, chosen)
      ensures table.Keys == old(table).Keys && |chosen| <= 25
      ensures forall u :: u in chosen ==>
                && u in table && old(table)[u].inflight && old(table)[u].createdon + 180 < now
                && table[u] == old(table)[u].(inflight := false, createdon := now)
      ensures forall u :: u in table && u !in chosen ==> table[u] == old(table)[u]
      ensures forall u :: u in table && old(table)[u].inflight && old(table)[u].createdon + 180 < now && u !in chosen ==> |chosen| == 25
    {
      var picked := PickSome(Stuck(table, now), RESET_LIMIT);
      chosen := picked;
      if |picked| < RESET_LIMIT { SameSets(picked, Stuck(table, now)); }
      table := ResetRows(table, now, picked);
    }

    /** The rows of the next batch, as pings. */
    method Get(now: int, withInflight: bool) returns (pings: seq<Ping>)
      requires Valid()
      ensures IsFetch(table, now, withInflight, pings)
    {
      var urls := ListInOrder(table, Eligible(table, now, withInflight));
      var n := if |urls| < PING_BATCH_SIZE then |urls| else PING_BATCH_SIZE;
      pings := [];
      for i := 0 to n
        invariant |pings| == i && forall j :: 0 <= j < i ==> urls[j] in table && pings[j] == PingOf(table, urls[j])
      {
        assert urls[i] in urls;
        pings := pings + [PingOf(table, urls[i])];
      }
      FetchIsPrefix(table, now, withInflight, urls, pings);
    }
  }
}
