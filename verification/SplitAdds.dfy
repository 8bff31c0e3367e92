/**
 Adds as the two statements they are: an insert, and, when it fails for a Live or
 LiveEnd ping, an update that may come later. Anything can happen in between.
 */
module SplitAdds {
  import opened Wrappers
  import opened PingQueue
  import opened QueueProtocol
  import opened QueueProgress
  import opened QueueHistory

  /** A step of the protocol, or the update of an add whose insert has failed before. */
  datatype SplitAction = Whole(act: Action) | LateUpdate(ping: Ping)

  /** The update rewrites the row if it is still there, and answers yes either way. */
  ghost function UpdateStep(st: State, ping: Ping): State
  {
    if ping.url in st.table
    then st.(table := RefreshRow(st.table, ping), log := st.log + [Readded(ping.url, ping.reason)])
    else st
  }

  ghost function StepSplit(st: State, act: SplitAction): State
  {
    match act
    case Whole(act) => Step(st, act)
    case LateUpdate(ping) => if ping.reason == Update then st else UpdateStep(st, ping)
  }

  ghost function RunSplit(st: State, acts: seq<SplitAction>): State
    decreases |acts|
  {
    if acts == [] then st else StepSplit(RunSplit(st, acts[..|acts| - 1]), acts[|acts| - 1])
  }

  /** The late update is a whole add at the time of the update, or nothing. */
  lemma UpdateIsAdd(st: State, ping: Ping, id: nat)
    requires ping.reason != Update && NewRowid(st.table, id)
    ensures UpdateStep(st, ping) == if ping.url in st.table then Step(st, HttpAdd(ping, id)) else st
  {
  }

  /**
   Every run with split adds ends like a run of the protocol, with each late
   update replaced by a whole add or left out: what holds in every run of the
   protocol holds with split adds.
   */
  lemma {:induction false} SplitRunsAreRuns(acts: seq<SplitAction>) returns (whole: seq<Action>)
    ensures Run(Empty, whole) == RunSplit(Empty, acts)
    decreases |acts|
  {
    if acts == [] {
      whole := [];
    } else {
      var last := acts[|acts| - 1];
      var before := SplitRunsAreRuns(acts[..|acts| - 1]);
      var st := Run(Empty, before);
      if last.Whole? {
        whole := before + [last.act];
        RunAppend(Empty, before, [last.act]);
        RunOne(st, last.act);
      } else if last.ping.reason == Update || last.ping.url !in st.table {
        whole := before;
      } else {
        var id := SomeRowid(st.table, st.table.Keys);
        assert NewRowid(st.table, id);
        UpdateIsAdd(st, last.ping, id);
        hide Step, NewRowid;
        whole := before + [HttpAdd(last.ping, id)];
        RunAppend(Empty, before, [HttpAdd(last.ping, id)]);
        RunOne(st, HttpAdd(last.ping, id));
      }
    }
  }

  // ----- is an accepted add queued?

  /** Between the actions m and n, every removal of the url is made good by a new row. */
  ghost predicate MadeGood(acts: seq<Action>, m: nat, n: nat, url: Url)
    requires m <= n <= |acts|
  {
    forall r :: m <= r < n && Removal(At(acts, r), acts[r], url) ==> exists a :: r < a < n && NewRow(At(acts, a), acts[a], url)
  }

  lemma StepQueued(st: State, act: Action, url: Url)
    ensures url in Step(st, act).table <==> NewRow(st, act, url) || (url in st.table && !Removal(st, act, url))
  {
  }

  lemma {:induction false} QueuedLaterIff(acts: seq<Action>, m: nat, n: nat, url: Url)
    requires m <= n <= |acts| && url in At(acts, m).table
    ensures url in At(acts, n).table <==> MadeGood(acts, m, n, url)
    decreases n
  {
    hide *;
    if m == n {
      NoneToMakeGood(acts, m, url);
    } else {
      var k := n - 1;
      AtNext(acts, k);
      StepQueued(At(acts, k), acts[k], url);
      QueuedLaterIff(acts, m, k, url);
      MadeGoodStep(acts, m, k, url);
    }
  }

  lemma NoneToMakeGood(acts: seq<Action>, m: nat, url: Url)
    requires m <= |acts|
    ensures MadeGood(acts, m, m, url)
  {
  }

  lemma MadeGoodStep(acts: seq<Action>, m: nat, k: nat, url: Url)
    requires m <= k < |acts|
    ensures MadeGood(acts, m, k + 1, url)
            <==> NewRow(At(acts, k), acts[k], url) || (MadeGood(acts, m, k, url) && !Removal(At(acts, k), acts[k], url))
  {
    hide At, Removal, NewRow;
    assert NewRow(At(acts, k), acts[k], url) ==> !Removal(At(acts, k), acts[k], url) by { NotBoth(At(acts, k), acts[k], url); }
    if MadeGood(acts, m, k + 1, url) && !NewRow(At(acts, k), acts[k], url) {
      forall r | m <= r < k && Removal(At(acts, r), acts[r], url) ensures exists a :: r < a < k && NewRow(At(acts, a), acts[a], url) {
        var a :| r < a < k + 1 && NewRow(At(acts, a), acts[a], url);
      }
    }
    if MadeGood(acts, m, k, url) && !Removal(At(acts, k), acts[k], url) {
      forall r | m <= r < k + 1 && Removal(At(acts, r), acts[r], url) ensures exists a :: r < a < k + 1 && NewRow(At(acts, a), acts[a], url) {
        var a :| r < a < k && NewRow(At(acts, a), acts[a], url);
      }
    }
  }

  lemma NotBoth(st: State, act: Action, url: Url)
    ensures !(NewRow(st, act, url) && Removal(st, act, url))
  {
  }

  /**
   A Live or LiveEnd add whose insert fails before the action m, because the url
   is queued, and whose update follows before the action n, is accepted. Its url
   is queued afterwards, with its data, if and only if every removal of the url
   in between was made good by a new row.
   */
  lemma AcceptedIsQueuedIff(acts: seq<Action>, m: nat, n: nat, ping: Ping)
    requires m <= n <= |acts| && ping.reason != Update && ping.url in At(acts, m).table
    ensures var after := UpdateStep(At(acts, n), ping).table;
            && (ping.url in after <==> MadeGood(acts, m, n, ping.url))
            && (ping.url in after ==> PingOf(after, ping.url) == ping && !after[ping.url].inflight)
  {
    QueuedLaterIff(acts, m, n, ping.url);
  }

  /** A Live add that is accepted and lost: a transaction removes the url between its insert and its update. */
  lemma LiveAddLost(p: Ping, live: Ping)
    requires live.url == p.url && live.reason == Live
    ensures p.url in Run(Empty, [HttpAdd(p, 1)]).table
    ensures live.url !in UpdateStep(Run(Empty, [HttpAdd(p, 1), Receive(Transaction(7, [p.url]))]), live).table
  {
    RunOne(Empty, HttpAdd(p, 1));
    AddOnly(Empty, p, 1);
    RunTwoMore(Empty, [], HttpAdd(p, 1), Receive(Transaction(7, [p.url])));
    assert [] + [HttpAdd(p, 1), Receive(Transaction(7, [p.url]))] == [HttpAdd(p, 1), Receive(Transaction(7, [p.url]))];
  }
}
