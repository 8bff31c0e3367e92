/** Flushing pending pings: grouping by kind, splitting, numbering and queueing the notifications. */
module FlushBatch {
  import opened Wrappers
  import opened Notification
  import opened Splitter

  type Kind = (string, string)

  datatype Ping = Ping(iri: string, medium: string, reason: string)

  /** A notification as it is handed to the broadcast channel: its number, (medium, reason) and IRIs. */
  datatype Sent = Sent(seqno: nat, kind: Kind, iris: seq<string>)

  function KindOf(p: Ping): Kind
  {
    (p.medium, p.reason)
  }

  /** The pending IRIs of one kind, in order. */
  function IrisOf(pending: seq<Ping>, k: Kind): seq<string>
  {
    if pending == [] then []
    else
      var last := pending[|pending| - 1];
      IrisOf(pending[..|pending| - 1], k) + if KindOf(last) == k then [last.iri] else []
  }

  /** The IRIs sent for one kind, in order. */
  function IrisSent(sent: seq<Sent>, k: Kind): seq<string>
  {
    if sent == [] then []
    else
      var last := sent[|sent| - 1];
      IrisSent(sent[..|sent| - 1], k) + if last.kind == k then last.iris else []
  }

  lemma IrisOfPush(pending: seq<Ping>, p: Ping, k: Kind)
    ensures IrisOf(pending + [p], k) == IrisOf(pending, k) + if KindOf(p) == k then [p.iri] else []
  {
    assert (pending + [p])[..|pending + [p]| - 1] == pending;
  }

  lemma IrisSentPush(sent: seq<Sent>, n: Sent, k: Kind)
    ensures IrisSent(sent + [n], k) == IrisSent(sent, k) + if n.kind == k then n.iris else []
  {
    assert (sent + [n])[..|sent + [n]| - 1] == sent;
  }

  // ----- grouping

  ghost predicate Grouped(pending: seq<Ping>, groups: map<Kind, seq<string>>)
  {
    && (forall k :: k in groups ==> groups[k] != [] && groups[k] == IrisOf(pending, k))
    && (forall k :: k !in groups ==> IrisOf(pending, k) == [])
  }

  method GroupByKind(pending: seq<Ping>) returns (groups: map<Kind, seq<string>>)
    ensures Grouped(pending, groups)
  {
    groups := map[];
    for i := 0 to |pending|
      invariant Grouped(pending[..i], groups)
    {
      var ping := pending[i];
      var k := KindOf(ping);
      forall k' ensures IrisOf(pending[..i + 1], k') == IrisOf(pending[..i], k') + if k == k' then [ping.iri] else [] {
        assert pending[..i + 1] == pending[..i] + [ping];
        IrisOfPush(pending[..i], ping, k');
      }
      groups := groups[k := (if k in groups then groups[k] else []) + [ping.iri]];
    }
    assert pending[..|pending|] == pending;
  }

  // ----- numbering

  /** What fetch_add leaves in a 64-bit counter. */
  function Next(n: nat): nat
  {
    if n + 1 == U64_LIMIT then 0 else n + 1
  }

  /** The notifications carry consecutive counter values from `start` on; `counter` is the one to come. */
  ghost predicate Numbered(start: nat, sent: seq<Sent>, counter: nat)
  {
    if sent == [] then counter == start
    else
      var last := sent[|sent| - 1];
      counter == Next(last.seqno) && Numbered(start, sent[..|sent| - 1], last.seqno)
  }

  /** Below the 64-bit limit the i-th number is simply `start + i`: contiguous, and never used twice. */
  lemma {:induction false} NumberedAt(start: nat, sent: seq<Sent>, counter: nat, i: nat)
    requires Numbered(start, sent, counter) && start + |sent| <= U64_LIMIT && i < |sent|
    ensures sent[i].seqno == start + i
    decreases |sent|
  {
    var before, last := sent[..|sent| - 1], sent[|sent| - 1];
    if before != [] {
      NumberedAt(start, before, last.seqno, |before| - 1);
      if i < |before| { NumberedAt(start, before, last.seqno, i); }
    }
  }

  /** Two flushes in a row number their notifications like one. */
  lemma {:induction false} NumberedAcross(start: nat, a: seq<Sent>, middle: nat, b: seq<Sent>, counter: nat)
    requires Numbered(start, a, middle) && Numbered(middle, b, counter)
    ensures Numbered(start, a + b, counter)
    decreases |b|
  {
    if b == [] {
      assert a + b == a;
    } else {
      NumberedAcross(start, a, middle, b[..|b| - 1], b[|b| - 1].seqno);
      assert (a + b)[..|a + b| - 1] == a + b[..|b| - 1];
    }
  }

  ghost predicate Sendable(key: Signer, now: nat, sent: seq<Sent>)
  {
    forall i :: 0 <= i < |sent| ==>
      Acceptable(Envelope(key, now, sent[i].kind.0, sent[i].kind.1), sent[i].iris)
  }

  /** The state of the send loops: what went out so far, numbered from `start`. */
  ghost predicate Sending(key: Signer, now: nat, start: nat, counter: nat, sent: seq<Sent>)
  {
    Numbered(start, sent, counter) && Sendable(key, now, sent)
  }

  lemma SendOne(key: Signer, now: nat, start: nat, counter: nat, sent: seq<Sent>, k: Kind, iris: seq<string>)
    requires Sending(key, now, start, counter, sent) && Acceptable(Envelope(key, now, k.0, k.1), iris)
    ensures Sending(key, now, start, Next(counter), sent + [Sent(counter, k, iris)])
  {
    var more := sent + [Sent(counter, k, iris)];
    assert more[..|more| - 1] == sent;
  }

  /** Between `sent` and `more`, exactly these IRIs went out, all of one kind and in order. */
  ghost predicate WentOut(sent: seq<Sent>, more: seq<Sent>, k: Kind, iris: seq<string>)
  {
    && sent <= more && IrisSent(more, k) == IrisSent(sent, k) + iris
    && forall k' :: k' != k ==> IrisSent(more, k') == IrisSent(sent, k')
  }

  lemma OneMoreOut(sent: seq<Sent>, more: seq<Sent>, k: Kind, iris: seq<string>, n: Sent)
    requires WentOut(sent, more, k, iris) && n.kind == k
    ensures WentOut(sent, more + [n], k, iris + n.iris)
  {
    forall k' ensures IrisSent(more + [n], k') == IrisSent(more, k') + if k == k' then n.iris else [] {
      IrisSentPush(more, n, k');
    }
    hide IrisSent;
    assert IrisSent(sent, k) + iris + n.iris == IrisSent(sent, k) + (iris + n.iris);
  }

  /** Splits the IRIs of one group and numbers the chunks with the shared counter. */
  method SendGroup(key: Signer, now: nat, ghost start: nat, k: Kind, iris: seq<string>, counter: nat, sent: seq<Sent>)
    returns (counter': nat, sent': seq<Sent>)
    requires HexSigner(key) && iris != [] && Sending(key, now, start, counter, sent)
    ensures Sending(key, now, start, counter', sent') && WentOut(sent, sent', k, iris)
  {
    hide HexSigner, Sending, Acceptable, Flatten, AllFit, FitsIn;
    var e := Envelope(key, now, k.0, k.1);
    var chunks := SplitIrisToFit(e, iris);
    counter', sent' := counter, sent;
    assert chunks[..0] == [] && Flatten(chunks[..0]) == [] by { EmptyFlatten(); }
    assert WentOut(sent, sent, k, []);
    hide WentOut, IrisSent;
    for i := 0 to |chunks|
      invariant Sending(key, now, start, counter', sent') && WentOut(sent, sent', k, Flatten(chunks[..i]))
    {
      var n := Sent(counter', k, chunks[i]);
      assert Acceptable(e, chunks[i]);
      SendOne(key, now, start, counter', sent', k, chunks[i]);
      OneMoreOut(sent, sent', k, Flatten(chunks[..i]), n);
      assert chunks[..i + 1] == chunks[..i] + [chunks[i]];
      FlattenPush(chunks[..i], chunks[i]);
      sent' := sent' + [n];
      counter' := Next(counter');
    }
    assert chunks[..|chunks|] == chunks;
  }

  lemma EmptyFlatten()
    ensures Flatten<string>([]) == []
  {
  }

  /** Every pending IRI goes out exactly once under its own kind, in order within each kind. */
  ghost predicate Faithful(pending: seq<Ping>, sent: seq<Sent>)
  {
    forall k :: IrisSent(sent, k) == IrisOf(pending, k)
  }

  /** The groups outside `rest` have gone out completely, the others not at all. */
  ghost predicate GroupsSent(groups: map<Kind, seq<string>>, rest: set<Kind>, sent: seq<Sent>)
  {
    forall k :: IrisSent(sent, k) == if k in groups && k !in rest then groups[k] else []
  }

  lemma GroupSent(groups: map<Kind, seq<string>>, rest: set<Kind>, sent: seq<Sent>, k: Kind, sent': seq<Sent>)
    requires GroupsSent(groups, rest, sent) && k in rest && k in groups
    requires IrisSent(sent', k) == IrisSent(sent, k) + groups[k]
    requires forall k' :: k' != k ==> IrisSent(sent', k') == IrisSent(sent, k')
    ensures GroupsSent(groups, rest - {k}, sent')
  {
    hide IrisSent;
    assert IrisSent(sent, k) == [];
    assert [] + groups[k] == groups[k];
  }

  lemma AllGroupsSent(pending: seq<Ping>, groups: map<Kind, seq<string>>, sent: seq<Sent>)
    requires Grouped(pending, groups) && GroupsSent(groups, {}, sent)
    ensures Faithful(pending, sent)
  {
    hide IrisSent, IrisOf;
  }

  method SendAll(key: Signer, now: nat, pending: seq<Ping>, counter: nat) returns (counter': nat, sent: seq<Sent>)
    requires HexSigner(key)
    ensures Sending(key, now, counter, counter', sent) && Faithful(pending, sent)
  {
    var groups := GroupByKind(pending);
    counter', sent := counter, [];
    var rest := groups.Keys;
    assert Sending(key, now, counter, counter', sent) && GroupsSent(groups, rest, sent);
    hide HexSigner, IrisSent, IrisOf, GroupsSent, Sending, Faithful;
    while rest != {}
      invariant rest <= groups.Keys
      invariant Sending(key, now, counter, counter', sent)
      invariant GroupsSent(groups, rest, sent)
      decreases rest
    {
      var k :| k in rest;
      ghost var before := sent;
      counter', sent := SendGroup(key, now, counter, k, groups[k], counter', sent);
      GroupSent(groups, rest, before, k, sent);
      rest := rest - {k};
    }
    AllGroupsSent(pending, groups, sent);
  }

  // ----- the flush

  datatype Outcome = Queued | ChannelFull | ChannelClosed

  ghost function QueuedOf(sent: seq<Sent>, outcome: nat -> Outcome): seq<Sent>
  {
    if sent == [] then []
    else QueuedOf(sent[..|sent| - 1], outcome) + if outcome(|sent| - 1) == Queued then [sent[|sent| - 1]] else []
  }

  /** The channel took at least one notification, or was full; then every pending IRI is acknowledged. */
  ghost predicate Replied(sent: seq<Sent>, outcome: nat -> Outcome)
  {
    exists i :: 0 <= i < |sent| && outcome(i) != ChannelClosed
  }

  ghost predicate AllSay(sent: seq<Sent>, outcome: nat -> Outcome, answer: Outcome)
  {
    forall i :: 0 <= i < |sent| ==> outcome(i) == answer
  }

  function Iris(pending: seq<Ping>): (r: seq<string>)
    ensures |r| == |pending| && forall i :: 0 <= i < |pending| ==> r[i] == pending[i].iri
  {
    if pending == [] then [] else Iris(pending[..|pending| - 1]) + [pending[|pending| - 1].iri]
  }

  /** The batching side of the writer: the sequence counter lives as long as the process. */
  class BatchWriter {
    const key: Signer
    var seqCounter: nat

    constructor (key: Signer)
      ensures this.key == key && seqCounter == 1
    {
      this.key, seqCounter := key, 1;
    }

    /** `outcome(i)` is what the bounded broadcast channel says to the i-th notification of this flush. */
    method Flush(pending: seq<Ping>, now: nat, outcome: nat -> Outcome)
      returns (sent: seq<Sent>, queued: seq<Sent>, replies: seq<string>)
      requires HexSigner(key)
      modifies this`seqCounter
      ensures Numbered(old(seqCounter), sent, seqCounter) && Sendable(key, now, sent) && Faithful(pending, sent)
      ensures queued == QueuedOf(sent, outcome)
      ensures Replied(sent, outcome) ==> |replies| == |pending| && forall i :: 0 <= i < |pending| ==> replies[i] == pending[i].iri
      ensures !Replied(sent, outcome) ==> replies == []
      ensures (Replied(sent, outcome) ==> SentBag(queued) == PendingBag(pending))
              <==> AllSay(sent, outcome, Queued) || AllSay(sent, outcome, ChannelClosed)
    {
      hide Faithful, Sendable, Numbered, SentBag, PendingBag, QueuedOf, Replied, AllSay, HexSigner, Iris;
      seqCounter, sent := SendAll(key, now, pending, seqCounter);
      var broadcastOk;
      queued, broadcastOk := Enqueue(sent, outcome);
      replies := if broadcastOk then Iris(pending) else [];
      RepliesBackedIff(key, now, pending, sent, outcome);
    }

    /** Offers the notifications to the channel one by one; a full one counts as a success. */
    method Enqueue(sent: seq<Sent>, outcome: nat -> Outcome) returns (queued: seq<Sent>, broadcastOk: bool)
      ensures queued == QueuedOf(sent, outcome) && (broadcastOk <==> Replied(sent, outcome))
    {
      queued, broadcastOk := [], false;
      for i := 0 to |sent|
        invariant queued == QueuedOf(sent[..i], outcome)
        invariant broadcastOk <==> exists j :: 0 <= j < i && outcome(j) != ChannelClosed
      {
        assert sent[..i + 1][..i] == sent[..i];
        match outcome(i) {
          case Queued => queued, broadcastOk := queued + [sent[i]], true;
          case ChannelFull => broadcastOk := true;
          case ChannelClosed =>
        }
      }
      assert sent[..|sent|] == sent;
    }
  }

  // ----- nothing lost, nothing invented

  type Item = (Kind, string)

  ghost function PendingBag(pending: seq<Ping>): multiset<Item>
  {
    if pending == [] then multiset{}
    else PendingBag(pending[..|pending| - 1]) + multiset{((pending[|pending| - 1].medium, pending[|pending| - 1].reason), pending[|pending| - 1].iri)}
  }

  ghost function BagOf(k: Kind, iris: seq<string>): multiset<Item>
  {
    if iris == [] then multiset{} else multiset{(k, iris[0])} + BagOf(k, iris[1..])
  }

  ghost function SentBag(sent: seq<Sent>): multiset<Item>
  {
    if sent == [] then multiset{}
    else SentBag(sent[..|sent| - 1]) + BagOf(sent[|sent| - 1].kind, sent[|sent| - 1].iris)
  }

  lemma {:induction false} BagOfCount(k: Kind, iris: seq<string>, k': Kind, x: string)
    ensures BagOf(k, iris)[(k', x)] == if k == k' then multiset(iris)[x] else 0
  {
    if iris != [] {
      BagOfCount(k, iris[1..], k', x);
      assert iris == [iris[0]] + iris[1..];
      assert multiset(iris) == multiset{iris[0]} + multiset(iris[1..]);
    }
  }

  lemma {:induction false} PendingCount(pending: seq<Ping>, k: Kind, x: string)
    ensures PendingBag(pending)[(k, x)] == multiset(IrisOf(pending, k))[x]
  {
    if pending != [] {
      PendingCount(pending[..|pending| - 1], k, x);
    }
  }

  lemma {:induction false} SentCount(sent: seq<Sent>, k: Kind, x: string)
    ensures SentBag(sent)[(k, x)] == multiset(IrisSent(sent, k))[x]
  {
    if sent != [] {
      var last := sent[|sent| - 1];
      SentCount(sent[..|sent| - 1], k, x);
      BagOfCount(last.kind, last.iris, k, x);
    }
  }

  /** The notifications of a flush carry exactly the pending (medium, reason, iri) items, with multiplicity. */
  lemma FaithfulBag(pending: seq<Ping>, sent: seq<Sent>)
    requires Faithful(pending, sent)
    ensures SentBag(sent) == PendingBag(pending)
  {
    forall item: Item ensures SentBag(sent)[item] == PendingBag(pending)[item] {
      SentCount(sent, item.0, item.1);
      PendingCount(pending, item.0, item.1);
    }
  }

  // ----- acknowledged and queued

  lemma {:induction false} QueuedSize(key: Signer, now: nat, sent: seq<Sent>, outcome: nat -> Outcome)
    requires Sendable(key, now, sent)
    ensures |SentBag(QueuedOf(sent, outcome))| <= |SentBag(sent)|
    ensures AllSay(sent, outcome, Queued) ==> QueuedOf(sent, outcome) == sent
    ensures !AllSay(sent, outcome, Queued) ==> |SentBag(QueuedOf(sent, outcome))| < |SentBag(sent)|
  {
    if sent != [] {
      var front, last := sent[..|sent| - 1], sent[|sent| - 1];
      var queued := QueuedOf(front, outcome);
      assert last.iris != [] && Sendable(key, now, front);
      hide *;
      assert sent == front + [last];
      AllSayFront(sent, outcome, Queued);
      QueuedLast(sent, outcome);
      QueuedSize(key, now, front, outcome);
      BagNotEmpty(last.kind, last.iris);
      SentPush(front, last);
      SentPush(queued, last);
    }
  }

  lemma QueuedLast(sent: seq<Sent>, outcome: nat -> Outcome)
    requires sent != []
    ensures var front := sent[..|sent| - 1];
            QueuedOf(sent, outcome)
            == if outcome(|front|) == Queued then QueuedOf(front, outcome) + [sent[|front|]] else QueuedOf(front, outcome)
  {
  }

  lemma AllSayFront(sent: seq<Sent>, outcome: nat -> Outcome, answer: Outcome)
    requires sent != []
    ensures AllSay(sent, outcome, answer) <==> AllSay(sent[..|sent| - 1], outcome, answer) && outcome(|sent| - 1) == answer
  {
  }

  lemma BagNotEmpty(k: Kind, iris: seq<string>)
    requires iris != []
    ensures |BagOf(k, iris)| > 0
  {
  }

  lemma SentPush(sent: seq<Sent>, last: Sent)
    ensures SentBag(sent + [last]) == SentBag(sent) + BagOf(last.kind, last.iris)
  {
    assert (sent + [last])[..|sent + [last]| - 1] == sent;
  }

  /**
   Whenever a flush is acknowledged, all of it was queued: this holds if and
   only if the channel took every notification, or refused every one as closed
   (which leaves the flush unacknowledged). A full channel breaks it.
   */
  lemma RepliesBackedIff(key: Signer, now: nat, pending: seq<Ping>, sent: seq<Sent>, outcome: nat -> Outcome)
    requires Sendable(key, now, sent) && Faithful(pending, sent)
    ensures (Replied(sent, outcome) ==> SentBag(QueuedOf(sent, outcome)) == PendingBag(pending))
            <==> AllSay(sent, outcome, Queued) || AllSay(sent, outcome, ChannelClosed)
  {
    QueuedSize(key, now, sent, outcome);
    FaithfulBag(pending, sent);
    hide SentBag, PendingBag, QueuedOf, Faithful, Sendable;
  }

  /** With a full channel a flush of one ping or more queues nothing and acknowledges everything. */
  lemma FullChannelAcknowledges(key: Signer, now: nat, pending: seq<Ping>, sent: seq<Sent>, outcome: nat -> Outcome)
    requires Sendable(key, now, sent) && Faithful(pending, sent) && pending != []
    requires forall i :: outcome(i) == ChannelFull
    ensures QueuedOf(sent, outcome) == [] && Replied(sent, outcome)
    ensures SentBag(QueuedOf(sent, outcome)) != PendingBag(pending)
  {
    FaithfulBag(pending, sent);
    assert |PendingBag(pending)| > 0;
    assert outcome(0) != ChannelClosed;
    NothingQueued(sent, outcome);
  }

  lemma {:induction false} NothingQueued(sent: seq<Sent>, outcome: nat -> Outcome)
    requires AllSay(sent, outcome, ChannelFull)
    ensures QueuedOf(sent, outcome) == []
  {
    if sent != [] {
      NothingQueued(sent[..|sent| - 1], outcome);
    }
  }

  // ----- what goes over the wire

  lemma {:induction false} NumbersFit(start: nat, sent: seq<Sent>, counter: nat)
    requires Numbered(start, sent, counter) && start < U64_LIMIT
    ensures counter < U64_LIMIT && forall i :: 0 <= i < |sent| ==> sent[i].seqno < U64_LIMIT
  {
    if sent != [] {
      NumbersFit(start, sent[..|sent| - 1], sent[|sent| - 1].seqno);
    }
  }

  /** The notification that is built for a chunk, at some time. */
  function NotificationOf(key: Signer, time: nat, n: Sent): Notification
  {
    New(key.pubkeyHex, time, n.kind.0, n.kind.1, n.iris, Some(n.seqno))
  }

  /** Its signed payload. */
  function PayloadOf(key: Signer, time: nat, n: Sent): string
  {
    Serialize(Sign(key, NotificationOf(key, time, n)))
  }

  /** Every pending ping is announced: some notification carries its IRI under its own medium and reason, signed by this writer. */
  lemma {:induction false} EveryPingAnnounced(key: Signer, time: nat, pending: seq<Ping>, sent: seq<Sent>, p: Ping)
    requires Faithful(pending, sent) && p in pending
    ensures exists n :: n in sent
              && NotificationOf(key, time, n).medium == p.medium && NotificationOf(key, time, n).reason == p.reason
              && p.iri in NotificationOf(key, time, n).iris && NotificationOf(key, time, n).sender == key.pubkeyHex
  {
    var k := (p.medium, p.reason);
    PendingIri(pending, p);
    assert p.iri in IrisSent(sent, k);
    var n := SomeSent(sent, k, p.iri);
    assert NotificationOf(key, time, n).medium == p.medium;
  }

  lemma {:induction false} PendingIri(pending: seq<Ping>, p: Ping)
    requires p in pending
    ensures p.iri in IrisOf(pending, (p.medium, p.reason))
  {
    var front, last := pending[..|pending| - 1], pending[|pending| - 1];
    assert pending == front + [last];
    IrisOfPush(front, last, (p.medium, p.reason));
    if p in front { PendingIri(front, p); }
  }

  lemma {:induction false} SomeSent(sent: seq<Sent>, k: Kind, iri: string) returns (n: Sent)
    requires iri in IrisSent(sent, k)
    ensures n in sent && n.kind == k && iri in n.iris
  {
    var front, last := sent[..|sent| - 1], sent[|sent| - 1];
    assert sent == front + [last];
    IrisSentPush(front, last, k);
    if last.kind == k && iri in last.iris {
      n := last;
    } else {
      n := SomeSent(front, k, iri);
    }
  }

  /** The length of the payload of a single IRI. */
  ghost function LoneLength(key: Signer, time: nat, n: Sent): nat
    requires n.iris != []
  {
    Overhead(key, n.kind.0, n.kind.1) + |Decimal(time)| + |Escape(n.iris[0])| + 2 + |SeqField(Some(n.seqno))|
  }

  lemma PayloadBelowIff(key: Signer, now: nat, time: nat, n: Sent)
    requires HexSigner(key) && Acceptable(Envelope(key, now, n.kind.0, n.kind.1), n.iris)
    requires time < U64_LIMIT && n.seqno < U64_LIMIT
    ensures |PayloadOf(key, time, n)| < MAX_MESSAGE_SIZE <==> (|n.iris| == 1 ==> LoneLength(key, time, n) < MAX_MESSAGE_SIZE)
    ensures Fits(key, now, n.kind.0, n.kind.1, n.iris) ==> |PayloadOf(key, time, n)| < MAX_MESSAGE_SIZE
  {
    if |n.iris| == 1 {
      PayloadLength(key, time, n.kind.0, n.kind.1, n.iris, Some(n.seqno));
      assert |Elements(n.iris)| == |Escape(n.iris[0])| + 2;
    }
    hide Payload, Decimal, Escape, Overhead, SeqField, HexSigner, Fits, Elements;
    if Fits(key, now, n.kind.0, n.kind.1, n.iris) {
      FinalPayloadBound(key, now, time, n.kind.0, n.kind.1, n.iris, n.seqno);
    }
  }

  /**
   All that a flush puts on the wire, each notification built at its own time,
   stays below the message limit if and only if those with a single IRI do, by
   the length of its escaped text; in particular if every IRI fits alone.
   */
  lemma FlushBelowLimitIff(key: Signer, now: nat, start: nat, sent: seq<Sent>, counter: nat, times: nat -> nat)
    requires HexSigner(key) && Sendable(key, now, sent) && Numbered(start, sent, counter) && start < U64_LIMIT
    requires forall i :: 0 <= i < |sent| ==> times(i) < U64_LIMIT
    ensures (forall i :: 0 <= i < |sent| ==> |PayloadOf(key, times(i), sent[i])| < MAX_MESSAGE_SIZE)
            <==> forall i :: 0 <= i < |sent| && |sent[i].iris| == 1 ==> LoneLength(key, times(i), sent[i]) < MAX_MESSAGE_SIZE
    ensures (forall i, x :: 0 <= i < |sent| && x in sent[i].iris ==> Fits(key, now, sent[i].kind.0, sent[i].kind.1, [x]))
            ==> forall i :: 0 <= i < |sent| ==> |PayloadOf(key, times(i), sent[i])| < MAX_MESSAGE_SIZE
  {
    hide HexSigner, PayloadOf, LoneLength, Fits, Numbered, FitsIn;
    NumbersFit(start, sent, counter);
    forall i | 0 <= i < |sent|
      ensures |PayloadOf(key, times(i), sent[i])| < MAX_MESSAGE_SIZE
              <==> (|sent[i].iris| == 1 ==> LoneLength(key, times(i), sent[i]) < MAX_MESSAGE_SIZE)
      ensures (forall x :: x in sent[i].iris ==> Fits(key, now, sent[i].kind.0, sent[i].kind.1, [x]))
              ==> |PayloadOf(key, times(i), sent[i])| < MAX_MESSAGE_SIZE
    {
      PayloadBelowIff(key, now, times(i), sent[i]);
      assert |sent[i].iris| > 1 ==> |PayloadOf(key, times(i), sent[i])| < MAX_MESSAGE_SIZE;
      if |sent[i].iris| == 1 { assert sent[i].iris == [sent[i].iris[0]]; }
    }
  }
}
