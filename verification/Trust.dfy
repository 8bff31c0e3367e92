/**
 Trust propagation by signed endorsements: every node periodically broadcasts
 its whole trusted set, and a receiver that already trusts the sender merges it.
 A signature is ideal: `Good` means made by the stated sender.
 */
module Trust {
  import opened Sequences

  type Key = string

  datatype Signature = Missing | Bad | Good

  datatype Endorse = Endorse(sender: Key, keys: seq<Key>, signature: Signature)

  function KeySet(keys: seq<Key>): set<Key>
  {
    set k | k in keys
  }

  lemma KeySetAppend(keys: seq<Key>, k: Key)
    ensures KeySet(keys + [k]) == KeySet(keys) + {k}
  {
    assert forall x :: x in keys + [k] <==> x in keys || x == k;
  }

  lemma GrowByOne(start: set<Key>, now: set<Key>, keys: seq<Key>, k: Key)
    requires now == start + KeySet(keys)
    ensures now + {k} == start + KeySet(keys + [k])
    ensures |(now + {k}) - start| == |now - start| + if k in now then 0 else 1
  {
    KeySetAppend(keys, k);
    if k in now {
      assert now + {k} == now;
    } else {
      assert (now + {k}) - start == (now - start) + {k};
    }
  }

  /** Inserts the keys one by one and counts the new ones. */
  method InsertAll(tp: set<Key>, keys: seq<Key>) returns (tp': set<Key>, added: nat)
    ensures tp' == tp + KeySet(keys) && added == |tp' - tp|
  {
    tp', added := tp, 0;
    assert KeySet(keys[..0]) == {};
    hide KeySet;
    for i := 0 to |keys|
      invariant tp' == tp + KeySet(keys[..i])
      invariant added == |tp' - tp|
    {
      assert keys[..i + 1] == keys[..i] + [keys[i]];
      GrowByOne(tp, tp', keys[..i], keys[i]);
      if keys[i] !in tp' {
        added := added + 1;
      }
      tp' := tp' + {keys[i]};
    }
    assert keys[..|keys|] == keys;
  }

  /** The trusted set after an endorsement; `process` says whether the node acts on endorsements at all. */
  function Merge(process: bool, trusted: set<Key>, msg: Endorse): set<Key>
  {
    if process && msg.signature == Good && msg.sender in trusted then trusted + KeySet(msg.keys) else trusted
  }

  /** A node's trusted publishers, as the event handler and the periodic sender use them. */
  class TrustNode {
    const me: Key
    const process: bool
    var trusted: set<Key>

    constructor (me: Key, process: bool, loaded: set<Key>)
      ensures this.me == me && this.process == process && trusted == loaded
    {
      this.me, this.process, trusted := me, process, loaded;
    }

    method HandleEndorse(msg: Endorse) returns (added: nat)
      modifies this`trusted
      ensures trusted == Merge(process, old(trusted), msg)
      ensures added == |trusted - old(trusted)|
    {
      added := 0;
      if process && msg.signature == Good && msg.sender in trusted {
        trusted, added := InsertAll(trusted, msg.keys);
      }
    }

    /** The periodic broadcast: nothing while the set is empty, otherwise a signed listing of it. */
    method Snapshot() returns (sent: seq<Endorse>)
      ensures trusted == {} ==> sent == []
      ensures trusted != {} ==>
                |sent| == 1 && sent[0].sender == me && sent[0].signature == Good && KeySet(sent[0].keys) == trusted
    {
      if trusted == {} {
        return [];
      }
      var keys: seq<Key> := [];
      var rest := trusted;
      while rest != {}
        invariant rest <= trusted && KeySet(keys) == trusted - rest
        decreases rest
      {
        var k :| k in rest;
        KeySetAppend(keys, k);
        keys := keys + [k];
        rest := rest - {k};
      }
      return [Endorse(me, keys, Good)];
    }
  }

  // ----- the network

  /** Who starts out trusting whom, who runs the broadcast task, and who acts on endorsements. */
  datatype Config = Config(initial: map<Key, set<Key>>, speaks: set<Key>, listens: set<Key>)

  /** Trusted sets, and every message ever sent: it may be delivered late, repeatedly, to anyone, or never. */
  datatype Net = Net(trusted: map<Key, set<Key>>, wire: seq<Endorse>)

  datatype Action =
    | Send(node: Key, listing: seq<Key>)
    | Deliver(node: Key, index: nat)
    | Inject(msg: Endorse)

  function Start(cfg: Config): Net
  {
    Net(cfg.initial, [])
  }

  /** One step. Anyone may inject a message, but not one with a good signature. */
  function Step(cfg: Config, net: Net, act: Action): Net
  {
    match act
    case Send(n, listing) =>
      if n in net.trusted && n in cfg.speaks && net.trusted[n] != {} && KeySet(listing) == net.trusted[n]
      then net.(wire := net.wire + [Endorse(n, listing, Good)]) else net
    case Deliver(n, i) =>
      if n in net.trusted && i < |net.wire|
      then net.(trusted := net.trusted[n := Merge(n in cfg.listens, net.trusted[n], net.wire[i])]) else net
    case Inject(msg) =>
      if msg.signature != Good then net.(wire := net.wire + [msg]) else net
  }

  function Run(cfg: Config, net: Net, acts: seq<Action>): Net
    decreases |acts|
  {
    if acts == [] then net else Step(cfg, Run(cfg, net, acts[..|acts| - 1]), acts[|acts| - 1])
  }

  /** The last stop of `p` is reached from `n` over initial trust, through nodes that broadcast. */
  ghost predicate Trail(cfg: Config, n: Key, p: seq<Key>)
  {
    && p != [] && n in cfg.initial && p[0] in cfg.initial[n]
    && forall i :: 0 <= i < |p| - 1 ==> p[i] in cfg.speaks && p[i] in cfg.initial && p[i + 1] in cfg.initial[p[i]]
  }

  ghost predicate Vouched(cfg: Config, n: Key, k: Key)
  {
    exists p :: Trail(cfg, n, p) && p[|p| - 1] == k
  }

  ghost function AllKeys(cfg: Config): set<Key>
  {
    set n, k | n in cfg.initial && k in cfg.initial[n] :: k
  }

  /** Every key reachable from `n` by initial trust. */
  ghost function Closure(cfg: Config, n: Key): set<Key>
  {
    set k | k in AllKeys(cfg) && Vouched(cfg, n, k)
  }

  lemma VouchedInClosure(cfg: Config, n: Key, k: Key)
    requires Vouched(cfg, n, k)
    ensures k in Closure(cfg, n)
  {
    var p :| Trail(cfg, n, p) && p[|p| - 1] == k;
    if |p| > 1 {
      assert p[|p| - 2 + 1] in cfg.initial[p[|p| - 2]];
    }
  }

  lemma InitialVouched(cfg: Config, n: Key)
    requires n in cfg.initial
    ensures cfg.initial[n] <= Closure(cfg, n)
  {
    forall k | k in cfg.initial[n] ensures k in Closure(cfg, n) {
      assert Trail(cfg, n, [k]) && [k][|[k]| - 1] == k;
      VouchedInClosure(cfg, n, k);
    }
  }

  lemma ClosureThrough(cfg: Config, n: Key, u: Key)
    requires u in Closure(cfg, n) && u in cfg.speaks
    ensures Closure(cfg, u) <= Closure(cfg, n)
  {
    forall k | k in Closure(cfg, u) ensures k in Closure(cfg, n) {
      var p :| Trail(cfg, n, p) && p[|p| - 1] == u;
      var q :| Trail(cfg, u, q) && q[|q| - 1] == k;
      var r := p + q;
      forall i | 0 <= i < |r| - 1 ensures r[i] in cfg.speaks && r[i] in cfg.initial && r[i + 1] in cfg.initial[r[i]] {
        if i >= |p| { assert q[i - |p| + 1] in cfg.initial[q[i - |p|]]; }
      }
      assert Trail(cfg, n, r) && r[|r| - 1] == k;
      VouchedInClosure(cfg, n, k);
    }
  }

  // ----- safety, over every run

  ghost predicate NodeOk(cfg: Config, n: Key, trusted: set<Key>)
    requires n in cfg.initial
  {
    && cfg.initial[n] <= trusted <= Closure(cfg, n)
    && (n !in cfg.listens ==> trusted == cfg.initial[n])
    && (cfg.initial[n] == {} ==> trusted == {})
  }

  ghost predicate MessageOk(cfg: Config, msg: Endorse)
  {
    msg.signature == Good ==> msg.sender in cfg.speaks && KeySet(msg.keys) <= Closure(cfg, msg.sender)
  }

  ghost predicate Inv(cfg: Config, net: Net)
  {
    && net.trusted.Keys == cfg.initial.Keys
    && (forall n :: n in cfg.initial ==> NodeOk(cfg, n, net.trusted[n]))
    && (forall i :: 0 <= i < |net.wire| ==> MessageOk(cfg, net.wire[i]))
  }

  lemma MergeOk(cfg: Config, n: Key, trusted: set<Key>, msg: Endorse)
    requires n in cfg.initial && NodeOk(cfg, n, trusted) && MessageOk(cfg, msg)
    ensures NodeOk(cfg, n, Merge(n in cfg.listens, trusted, msg))
  {
    if msg.signature == Good && msg.sender in trusted {
      ClosureThrough(cfg, n, msg.sender);
    }
  }

  lemma StepOk(cfg: Config, net: Net, act: Action)
    requires Inv(cfg, net)
    ensures Inv(cfg, Step(cfg, net, act))
    ensures forall n :: n in cfg.initial ==> net.trusted[n] <= Step(cfg, net, act).trusted[n]
  {
    hide Closure;
    if act.Deliver? && act.node in net.trusted && act.index < |net.wire| {
      MergeOk(cfg, act.node, net.trusted[act.node], net.wire[act.index]);
    }
    if act.Send? && act.node in net.trusted {
      assert NodeOk(cfg, act.node, net.trusted[act.node]);
    }
  }

  lemma StartOk(cfg: Config)
    ensures Inv(cfg, Start(cfg))
  {
    forall n | n in cfg.initial ensures NodeOk(cfg, n, cfg.initial[n]) {
      InitialVouched(cfg, n);
    }
  }

  lemma {:induction false} RunOk(cfg: Config, net: Net, acts: seq<Action>)
    requires Inv(cfg, net)
    ensures Inv(cfg, Run(cfg, net, acts))
    ensures forall n :: n in cfg.initial ==> net.trusted[n] <= Run(cfg, net, acts).trusted[n]
    decreases |acts|
  {
    hide Inv, Step;
    if acts == [] {
      assert Run(cfg, net, acts) == net;
    } else {
      var before := acts[..|acts| - 1];
      RunOk(cfg, net, before);
      StepOk(cfg, Run(cfg, net, before), acts[|acts| - 1]);
    }
  }

  /** Safety: whatever is trusted in a run was vouched for along initial trust, and accept-all mode never flips. */
  lemma TrustSafety(cfg: Config, acts: seq<Action>, n: Key)
    requires n in cfg.initial
    ensures var net := Run(cfg, Start(cfg), acts);
            && n in net.trusted
            && cfg.initial[n] <= net.trusted[n]
            && (forall k :: k in net.trusted[n] ==> Vouched(cfg, n, k))
            && (net.trusted[n] == {} <==> cfg.initial[n] == {})
  {
    StartOk(cfg);
    RunOk(cfg, Start(cfg), acts);
    assert NodeOk(cfg, n, Run(cfg, Start(cfg), acts).trusted[n]);
  }

  // ----- convergence

  /** No broadcast of a current trusted set would change any node that acts on endorsements. */
  ghost predicate Quiet(cfg: Config, net: Net)
  {
    forall n, u :: n in cfg.listens && n in net.trusted && u in cfg.speaks && u in net.trusted && u in net.trusted[n]
      ==> net.trusted[u] <= net.trusted[n]
  }

  lemma QuietAt(cfg: Config, net: Net, n: Key, u: Key)
    requires Quiet(cfg, net) && n in cfg.listens && n in net.trusted && u in cfg.speaks && u in net.trusted
    requires u in net.trusted[n]
    ensures net.trusted[u] <= net.trusted[n]
  {
  }

  lemma TrailAt(cfg: Config, n: Key, p: seq<Key>, i: nat)
    requires Trail(cfg, n, p) && i < |p|
    ensures n in cfg.initial
    ensures i == 0 ==> p[i] in cfg.initial[n]
    ensures i > 0 ==> p[i - 1] in cfg.speaks && p[i - 1] in cfg.initial && p[i] in cfg.initial[p[i - 1]]
  {
    if i > 0 { assert p[i - 1 + 1] in cfg.initial[p[i - 1]]; }
  }

  lemma {:induction false} TrailLearned(cfg: Config, net: Net, n: Key, p: seq<Key>, i: nat)
    requires Inv(cfg, net) && Quiet(cfg, net) && n in cfg.listens && n in cfg.initial && Trail(cfg, n, p) && i < |p|
    ensures p[i] in net.trusted[n]
  {
    hide Quiet, Trail, Closure;
    TrailAt(cfg, n, p, i);
    assert NodeOk(cfg, n, net.trusted[n]);
    if i > 0 {
      TrailLearned(cfg, net, n, p, i - 1);
      var u := p[i - 1];
      assert NodeOk(cfg, u, net.trusted[u]);
      QuietAt(cfg, net, n, u);
    }
  }

  lemma {:induction false} TrailTo(cfg: Config, n: Key, k: Key) returns (p: seq<Key>)
    requires k in Closure(cfg, n)
    ensures Trail(cfg, n, p) && p != [] && p[|p| - 1] == k
  {
    hide AllKeys;
    p :| Trail(cfg, n, p) && p[|p| - 1] == k;
  }

  lemma {:induction false} StaysInside(cfg: Config, net: Net, n: Key)
    requires Inv(cfg, net) && n in cfg.initial
    ensures n in net.trusted && net.trusted[n] <= Closure(cfg, n)
  {
    hide Closure;
    assert NodeOk(cfg, n, net.trusted[n]);
  }

  /** When the network is quiet, every node that acts on endorsements trusts exactly what is reachable from it. */
  lemma {:induction false} QuietMeansClosed(cfg: Config, net: Net, n: Key)
    requires Inv(cfg, net) && Quiet(cfg, net) && n in cfg.listens && n in cfg.initial
    ensures net.trusted[n] == Closure(cfg, n)
  {
    hide *;
    StaysInside(cfg, net, n);
    forall k ensures k in Closure(cfg, n) ==> k in net.trusted[n] {
      if k in Closure(cfg, n) {
        var p := TrailTo(cfg, n, k);
        TrailLearned(cfg, net, n, p, |p| - 1);
      }
    }
  }

  /** The closure keys still missing, node by node. */
  ghost function Lacking(cfg: Config, net: Net): set<(Key, Key)>
  {
    set n, k | n in cfg.initial && n in net.trusted && k in Closure(cfg, n) && k !in net.trusted[n] :: (n, k)
  }

  lemma ProperSubsetSize<T>(a: set<T>, b: set<T>)
    requires a < b
    ensures |a| < |b|
  {
    assert b == a + (b - a);
  }

  lemma StepFrame(cfg: Config, net: Net, act: Action)
    ensures Step(cfg, net, act).trusted.Keys == net.trusted.Keys
    ensures Step(cfg, net, act).trusted == net.trusted || (act.Deliver? && act.node in net.trusted)
    ensures forall n :: n in net.trusted && Step(cfg, net, act).trusted[n] != net.trusted[n] ==> act.Deliver? && n == act.node
  {
  }

  lemma LackingShrinks(cfg: Config, net: Net, after: Net, n: Key, k: Key)
    requires after.trusted.Keys == net.trusted.Keys && n in cfg.initial && n in net.trusted
    requires forall m :: m in net.trusted ==> net.trusted[m] <= after.trusted[m]
    requires k in Closure(cfg, n) && k in after.trusted[n] && k !in net.trusted[n]
    ensures |Lacking(cfg, after)| < |Lacking(cfg, net)|
  {
    hide Closure;
    assert (n, k) in Lacking(cfg, net) && (n, k) !in Lacking(cfg, after);
    assert Lacking(cfg, after) <= Lacking(cfg, net);
    ProperSubsetSize(Lacking(cfg, after), Lacking(cfg, net));
  }

  /** Every step that changes a trusted set strictly decreases the number of missing closure keys. */
  lemma StepProgress(cfg: Config, net: Net, act: Action)
    requires Inv(cfg, net)
    ensures Step(cfg, net, act).trusted == net.trusted || |Lacking(cfg, Step(cfg, net, act))| < |Lacking(cfg, net)|
  {
    hide Closure, Step, Lacking, MessageOk;
    var after := Step(cfg, net, act);
    StepOk(cfg, net, act);
    StepFrame(cfg, net, act);
    if after.trusted != net.trusted {
      var n := act.node;
      assert net.trusted[n] != after.trusted[n];
      var k :| k in after.trusted[n] && k !in net.trusted[n];
      assert NodeOk(cfg, n, after.trusted[n]);
      LackingShrinks(cfg, net, after, n, k);
    }
  }

  ghost function Changes(cfg: Config, net: Net, acts: seq<Action>): nat
    decreases |acts|
  {
    if acts == [] then 0
    else
      var before := Run(cfg, net, acts[..|acts| - 1]);
      Changes(cfg, net, acts[..|acts| - 1]) + (if Step(cfg, before, acts[|acts| - 1]).trusted != before.trusted then 1 else 0)
  }

  /** In every run, the number of effective deliveries is bounded by the closure keys missing at its start. */
  lemma {:induction false} BoundedChanges(cfg: Config, net: Net, acts: seq<Action>)
    requires Inv(cfg, net)
    ensures Changes(cfg, net, acts) + |Lacking(cfg, Run(cfg, net, acts))| <= |Lacking(cfg, net)|
    decreases |acts|
  {
    if acts != [] {
      var before := acts[..|acts| - 1];
      var mid := Run(cfg, net, before);
      BoundedChanges(cfg, net, before);
      RunOk(cfg, net, before);
      StepProgress(cfg, mid, acts[|acts| - 1]);
      var after := Step(cfg, mid, acts[|acts| - 1]);
      if after.trusted == mid.trusted {
        SameLacking(cfg, after, mid);
      }
    }
  }

  lemma {:induction false} RunAppend(cfg: Config, net: Net, a: seq<Action>, b: seq<Action>)
    ensures Run(cfg, net, a + b) == Run(cfg, Run(cfg, net, a), b)
    decreases |b|
  {
    if b == [] {
      assert a + b == a;
    } else {
      RunAppend(cfg, net, a, b[..|b| - 1]);
      assert (a + b)[..|a + b| - 1] == a + b[..|b| - 1];
    }
  }

  lemma BroadcastReaches(cfg: Config, net: Net, n: Key, u: Key, listing: seq<Key>)
    requires n in cfg.listens && n in net.trusted && u in cfg.speaks && u in net.trusted && u in net.trusted[n]
    requires KeySet(listing) == net.trusted[u] && net.trusted[u] != {}
    ensures var sent := Step(cfg, net, Send(u, listing));
            && sent.trusted == net.trusted
            && Step(cfg, sent, Deliver(n, |net.wire|)).trusted[n] == net.trusted[n] + net.trusted[u]
  {
  }

  lemma RunTwo(cfg: Config, net: Net, a: Action, b: Action)
    ensures Run(cfg, net, [a, b]) == Step(cfg, Step(cfg, net, a), b)
  {
    hide Step;
    assert [a, b][..1] == [a] && [a][..0] == [];
    assert Run(cfg, net, [a]) == Step(cfg, Run(cfg, net, []), a);
  }

  lemma SomethingToSay(cfg: Config, net: Net) returns (n: Key, u: Key)
    requires !Quiet(cfg, net)
    ensures n in cfg.listens && n in net.trusted && u in cfg.speaks && u in net.trusted && u in net.trusted[n]
    ensures !(net.trusted[u] <= net.trusted[n])
  {
    n, u :| n in cfg.listens && n in net.trusted && u in cfg.speaks && u in net.trusted && u in net.trusted[n]
            && !(net.trusted[u] <= net.trusted[n]);
  }

  lemma KeySetIs(listing: seq<Key>, s: set<Key>)
    requires (set k | k in listing) == s
    ensures KeySet(listing) == s
  {
  }

  lemma NextBroadcast(cfg: Config, net: Net) returns (acts: seq<Action>)
    requires Inv(cfg, net) && !Quiet(cfg, net)
    ensures Inv(cfg, Run(cfg, net, acts)) && |Lacking(cfg, Run(cfg, net, acts))| < |Lacking(cfg, net)|
  {
    hide Inv, Step, Run, Quiet, Lacking, KeySet;
    var n, u := SomethingToSay(cfg, net);
    var listing := SomeListing(net.trusted[u]);
    KeySetIs(listing, net.trusted[u]);
    var send, deliver := Send(u, listing), Deliver(n, |net.wire|);
    BroadcastReaches(cfg, net, n, u, listing);
    var sent := Step(cfg, net, send);
    StepOk(cfg, net, send);
    StepProgress(cfg, sent, deliver);
    StepOk(cfg, sent, deliver);
    SameLacking(cfg, net, sent);
    RunTwo(cfg, net, send, deliver);
    acts := [send, deliver];
  }

  lemma SameLacking(cfg: Config, net: Net, net': Net)
    requires net.trusted == net'.trusted
    ensures Lacking(cfg, net) == Lacking(cfg, net')
  {
  }

  /** From every reachable state, some further broadcasts and deliveries make the network quiet. */
  lemma {:induction false} Converges(cfg: Config, net: Net) returns (acts: seq<Action>)
    requires Inv(cfg, net)
    ensures Inv(cfg, Run(cfg, net, acts)) && Quiet(cfg, Run(cfg, net, acts))
    decreases |Lacking(cfg, net)|
  {
    hide Inv, Quiet, Lacking, Step;
    if Quiet(cfg, net) {
      acts := [];
    } else {
      var first := NextBroadcast(cfg, net);
      var rest := Converges(cfg, Run(cfg, net, first));
      RunAppend(cfg, net, first, rest);
      acts := first + rest;
    }
  }

  /** A quiet network stays as it is: no schedule of further steps changes any trusted set. */
  lemma QuietIsFinal(cfg: Config, net: Net, acts: seq<Action>)
    requires Inv(cfg, net) && Quiet(cfg, net)
    ensures Run(cfg, net, acts).trusted == net.trusted
  {
    hide Quiet, Closure, Run, MessageOk;
    RunOk(cfg, net, acts);
    var after := Run(cfg, net, acts);
    forall n | n in cfg.initial ensures after.trusted[n] == net.trusted[n] {
      assert NodeOk(cfg, n, after.trusted[n]) && NodeOk(cfg, n, net.trusted[n]);
      if n in cfg.listens { QuietMeansClosed(cfg, net, n); }
    }
  }

  // ----- every fair schedule converges

  /** `act` delivers to `n` a broadcast of `u` that lists at least what `u` trusted in `start`. */
  ghost predicate Reaches(start: Net, at: Net, n: Key, u: Key, act: Action)
  {
    && act.Deliver? && act.node == n && act.index < |at.wire|
    && at.wire[act.index].sender == u && at.wire[act.index].signature == Good
    && u in start.trusted && start.trusted[u] <= KeySet(at.wire[act.index].keys)
  }

  ghost predicate Hears(cfg: Config, net: Net, n: Key, u: Key)
  {
    n in cfg.listens && n in net.trusted && u in cfg.speaks && u in net.trusted && u in net.trusted[n] && net.trusted[u] != {}
  }

  /** Among anything else, every listener is reached once by every broadcaster that it trusted at the start. */
  ghost predicate FairRound(cfg: Config, net: Net, acts: seq<Action>)
  {
    forall n, u :: Hears(cfg, net, n, u) ==> exists j :: 0 <= j < |acts| && Reaches(net, Run(cfg, net, acts[..j]), n, u, acts[j])
  }

  ghost function RunRounds(cfg: Config, net: Net, rounds: seq<seq<Action>>): Net
    decreases |rounds|
  {
    if rounds == [] then net else RunRounds(cfg, Run(cfg, net, rounds[0]), rounds[1..])
  }

  ghost predicate FairSchedule(cfg: Config, net: Net, rounds: seq<seq<Action>>)
    decreases |rounds|
  {
    rounds == [] || (FairRound(cfg, net, rounds[0]) && FairSchedule(cfg, Run(cfg, net, rounds[0]), rounds[1..]))
  }

  lemma ReachedLearns(cfg: Config, start: Net, at: Net, n: Key, u: Key, act: Action)
    requires Reaches(start, at, n, u, act) && n in cfg.listens && n in at.trusted && u in at.trusted[n]
    ensures n in Step(cfg, at, act).trusted && start.trusted[u] <= Step(cfg, at, act).trusted[n]
  {
  }

  /** Within a fair round a listener learns all that a broadcaster it trusted had at the start. */
  lemma {:induction false} RoundTeaches(cfg: Config, net: Net, acts: seq<Action>, n: Key, u: Key)
    requires Inv(cfg, net) && FairRound(cfg, net, acts) && Hears(cfg, net, n, u) && n in cfg.initial
    ensures n in Run(cfg, net, acts).trusted && net.trusted[u] <= Run(cfg, net, acts).trusted[n]
  {
    hide *;
    var j := RoundReaches(cfg, net, acts, n, u);
    var at, next, end := Run(cfg, net, acts[..j]), Run(cfg, net, acts[..j + 1]), Run(cfg, net, acts);
    RunBreaks(cfg, net, acts, j);
    RunOk(cfg, net, acts[..j]);
    RunOk(cfg, net, acts[..j + 1]);
    RunOk(cfg, next, acts[j + 1..]);
    TrustedHere(cfg, at, n);
    TrustedHere(cfg, end, n);
    StillHears(cfg, net, at, n, u);
    ReachedLearns(cfg, net, at, n, u, acts[j]);
    assert next.trusted[n] <= end.trusted[n];
  }

  lemma {:induction false} RoundReaches(cfg: Config, net: Net, acts: seq<Action>, n: Key, u: Key) returns (j: nat)
    requires FairRound(cfg, net, acts) && Hears(cfg, net, n, u)
    ensures j < |acts| && Reaches(net, Run(cfg, net, acts[..j]), n, u, acts[j])
  {
    hide Run;
    j :| 0 <= j < |acts| && Reaches(net, Run(cfg, net, acts[..j]), n, u, acts[j]);
  }

  lemma {:induction false} RunBreaks(cfg: Config, net: Net, acts: seq<Action>, j: nat)
    requires j < |acts|
    ensures Run(cfg, net, acts[..j + 1]) == Step(cfg, Run(cfg, net, acts[..j]), acts[j])
    ensures Run(cfg, net, acts) == Run(cfg, Run(cfg, net, acts[..j + 1]), acts[j + 1..])
  {
    hide Step;
    assert acts[..j + 1][..j] == acts[..j] && acts == acts[..j + 1] + acts[j + 1..];
    RunAppend(cfg, net, acts[..j + 1], acts[j + 1..]);
  }

  lemma StillHears(cfg: Config, net: Net, at: Net, n: Key, u: Key)
    requires Hears(cfg, net, n, u) && n in at.trusted && net.trusted[n] <= at.trusted[n]
    ensures n in cfg.listens && u in at.trusted[n] && n in net.trusted && u in net.trusted
  {
  }

  lemma TrustedHere(cfg: Config, net: Net, n: Key)
    requires Inv(cfg, net)
    ensures net.trusted.Keys == cfg.initial.Keys
    ensures n in cfg.initial ==> net.trusted[n] <= Closure(cfg, n)
  {
    hide Closure;
    if n in cfg.initial { assert NodeOk(cfg, n, net.trusted[n]); }
  }

  /** A fair round finds the network quiet or makes it lack less. */
  lemma {:induction false} FairProgress(cfg: Config, net: Net, acts: seq<Action>)
    requires Inv(cfg, net) && FairRound(cfg, net, acts) && !Quiet(cfg, net)
    ensures |Lacking(cfg, Run(cfg, net, acts))| < |Lacking(cfg, net)|
  {
    hide *;
    var n, u := SomethingToSay(cfg, net);
    var k :| k in net.trusted[u] && k !in net.trusted[n];
    var after := Run(cfg, net, acts);
    TrustedHere(cfg, net, n);
    HearsHere(cfg, net, n, u, k);
    RoundTeaches(cfg, net, acts, n, u);
    RunOk(cfg, net, acts);
    TrustedHere(cfg, after, n);
    LackingShrinks(cfg, net, after, n, k);
  }

  lemma HearsHere(cfg: Config, net: Net, n: Key, u: Key, k: Key)
    requires n in cfg.listens && n in net.trusted && u in cfg.speaks && u in net.trusted && u in net.trusted[n]
    requires k in net.trusted[u]
    ensures Hears(cfg, net, n, u)
  {
  }

  lemma {:induction false} QuietRounds(cfg: Config, net: Net, rounds: seq<seq<Action>>)
    requires Inv(cfg, net) && Quiet(cfg, net)
    ensures Inv(cfg, RunRounds(cfg, net, rounds)) && Quiet(cfg, RunRounds(cfg, net, rounds))
    decreases |rounds|
  {
    if rounds != [] {
      var next := Run(cfg, net, rounds[0]);
      QuietIsFinal(cfg, net, rounds[0]);
      assert Quiet(cfg, next);
      hide Inv, Quiet, Run;
      RunOk(cfg, net, rounds[0]);
      QuietRounds(cfg, next, rounds[1..]);
    }
  }

  lemma {:induction false} LackingSomething(cfg: Config, net: Net)
    requires Inv(cfg, net) && !Quiet(cfg, net)
    ensures |Lacking(cfg, net)| > 0
  {
    hide *;
    var _ := NextBroadcast(cfg, net);
  }

  /**
   Convergence under every fair schedule: rounds in which, among lost, late,
   repeated and forged messages, each listener is reached once by each
   broadcaster that it trusts. As many rounds as closure keys are missing make
   the network quiet, so that every listener trusts exactly its closure.
   */
  lemma {:induction false} FairSchedulesConverge(cfg: Config, net: Net, rounds: seq<seq<Action>>)
    requires Inv(cfg, net) && FairSchedule(cfg, net, rounds) && |rounds| >= |Lacking(cfg, net)|
    ensures Inv(cfg, RunRounds(cfg, net, rounds)) && Quiet(cfg, RunRounds(cfg, net, rounds))
    decreases |rounds|
  {
    hide Inv, Quiet, Lacking, Run, FairRound;
    if Quiet(cfg, net) {
      QuietRounds(cfg, net, rounds);
    } else {
      LackingSomething(cfg, net);
      FairProgress(cfg, net, rounds[0]);
      RunOk(cfg, net, rounds[0]);
      FairSchedulesConverge(cfg, Run(cfg, net, rounds[0]), rounds[1..]);
    }
  }

  /** Any two runs that become quiet end with the same trusted sets. */
  lemma SameOutcome(cfg: Config, acts: seq<Action>, acts': seq<Action>)
    requires Quiet(cfg, Run(cfg, Start(cfg), acts)) && Quiet(cfg, Run(cfg, Start(cfg), acts'))
    ensures Run(cfg, Start(cfg), acts).trusted == Run(cfg, Start(cfg), acts').trusted
  {
    hide Quiet, Closure, Run, MessageOk;
    StartOk(cfg);
    RunOk(cfg, Start(cfg), acts);
    RunOk(cfg, Start(cfg), acts');
    var one, two := Run(cfg, Start(cfg), acts), Run(cfg, Start(cfg), acts');
    forall n | n in cfg.initial ensures one.trusted[n] == two.trusted[n] {
      assert NodeOk(cfg, n, one.trusted[n]) && NodeOk(cfg, n, two.trusted[n]);
      if n in cfg.listens {
        QuietMeansClosed(cfg, one, n);
        QuietMeansClosed(cfg, two, n);
      }
    }
  }
}
