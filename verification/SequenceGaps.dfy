/** The listener's sequence-gap accounting, and what its reports add up to. */
module SequenceGaps {
  import opened Sequences
  import opened Notification
  import opened FlushBatch

  datatype Arrival = Arrival(sender: string, seqno: nat)

  /** The number of missed notifications reported when `a` arrives. */
  function MissedBy(last: map<string, nat>, a: Arrival): nat
  {
    if a.sender in last && a.seqno > last[a.sender] + 1 then a.seqno - last[a.sender] - 1 else 0
  }

  /** The last number seen from each sender. */
  class GapDetector {
    var last: map<string, nat>

    constructor ()
      ensures last == map[]
    {
      last := map[];
    }

    method Note(a: Arrival) returns (missed: nat)
      modifies this
      ensures missed == MissedBy(old(last), a) && last == old(last)[a.sender := a.seqno]
    {
      missed := 0;
      if a.sender in last {
        if a.seqno > last[a.sender] + 1 {
          missed := a.seqno - last[a.sender] - 1;
        }
      }
      last := last[a.sender := a.seqno];
    }
  }

  // ----- a whole run of arrivals, senders interleaved in any way

  function LastSeen(arrivals: seq<Arrival>): map<string, nat>
  {
    if arrivals == [] then map[]
    else
      var a := arrivals[|arrivals| - 1];
      LastSeen(arrivals[..|arrivals| - 1])[a.sender := a.seqno]
  }

  /** Everything reported as missed from `sender` during the run. */
  function Reported(arrivals: seq<Arrival>, sender: string): nat
  {
    if arrivals == [] then 0
    else
      var before, a := arrivals[..|arrivals| - 1], arrivals[|arrivals| - 1];
      Reported(before, sender) + if a.sender == sender then MissedBy(LastSeen(before), a) else 0
  }

  function NumbersFrom(arrivals: seq<Arrival>, sender: string): seq<nat>
  {
    if arrivals == [] then []
    else
      var a := arrivals[|arrivals| - 1];
      NumbersFrom(arrivals[..|arrivals| - 1], sender) + if a.sender == sender then [a.seqno] else []
  }

  /** The gaps between neighbouring numbers of a sequence. */
  function Gaps(ns: seq<nat>): nat
  {
    if |ns| < 2 then 0
    else
      var x, y := ns[|ns| - 2], ns[|ns| - 1];
      Gaps(ns[..|ns| - 1]) + if y > x + 1 then y - x - 1 else 0
  }

  lemma GapsPush(ns: seq<nat>, y: nat)
    ensures Gaps(ns + [y]) == if ns == [] then 0 else Gaps(ns) + if y > ns[|ns| - 1] + 1 then y - ns[|ns| - 1] - 1 else 0
  {
    var more := ns + [y];
    assert more[..|more| - 1] == ns;
  }

  lemma {:induction false} LastSeenIs(arrivals: seq<Arrival>, sender: string)
    ensures sender in LastSeen(arrivals) <==> NumbersFrom(arrivals, sender) != []
    ensures sender in LastSeen(arrivals) ==>
              LastSeen(arrivals)[sender] == NumbersFrom(arrivals, sender)[|NumbersFrom(arrivals, sender)| - 1]
  {
    if arrivals != [] {
      LastSeenIs(arrivals[..|arrivals| - 1], sender);
    }
  }

  /** Reports about one sender depend on that sender's numbers only, and are exactly their gaps. */
  lemma {:induction false} ReportedIsGaps(arrivals: seq<Arrival>, sender: string)
    ensures Reported(arrivals, sender) == Gaps(NumbersFrom(arrivals, sender))
  {
    if arrivals != [] {
      var before, a := arrivals[..|arrivals| - 1], arrivals[|arrivals| - 1];
      ReportedIsGaps(before, sender);
      LastSeenIs(before, sender);
      if a.sender == sender {
        GapsPush(NumbersFrom(before, sender), a.seqno);
      } else {
        assert NumbersFrom(arrivals, sender) == NumbersFrom(before, sender);
      }
    }
  }

  /** How many numbers lie from the first to the last one received, both included. */
  ghost function Span(ns: seq<nat>): int
    requires ns != []
  {
    var first: int, last: int := ns[0], ns[|ns| - 1];
    last - first + 1
  }

  /** Gaps and numbers together cover at least the span; they cover it exactly when the numbers increase. */
  lemma {:induction false} GapsCoverSpan(ns: seq<nat>)
    requires ns != []
    ensures Gaps(ns) + |ns| >= Span(ns)
    ensures Gaps(ns) + |ns| == Span(ns) <==> Increasing(ns)
  {
    if |ns| >= 2 {
      var before := ns[..|ns| - 1];
      GapsCoverSpan(before);
      var x, y := ns[|ns| - 2], ns[|ns| - 1];
      assert Increasing(ns) <==> Increasing(before) && x < y;
    }
  }

  /**
   For any interleaving of senders: the misses reported for a sender plus its
   receipts equal last - first + 1 if and only if its numbers arrived in
   increasing order; otherwise they exceed it.
   */
  lemma ReportsAreExact(arrivals: seq<Arrival>, sender: string)
    requires NumbersFrom(arrivals, sender) != []
    ensures var ns := NumbersFrom(arrivals, sender);
            && Reported(arrivals, sender) + |ns| >= Span(ns)
            && (Reported(arrivals, sender) + |ns| == Span(ns) <==> Increasing(ns))
  {
    ReportedIsGaps(arrivals, sender);
    GapsCoverSpan(NumbersFrom(arrivals, sender));
  }

  // ----- from the writer's flush to the listener's reports

  /** The numbers of the notifications at the positions `kept`. */
  ghost function NumbersAt(sent: seq<Sent>, kept: seq<nat>): (ns: seq<nat>)
    requires forall i :: 0 <= i < |kept| ==> kept[i] < |sent|
    ensures |ns| == |kept| && forall i :: 0 <= i < |kept| ==> ns[i] == sent[kept[i]].seqno
  {
    if kept == [] then [] else [sent[kept[0]].seqno] + NumbersAt(sent, kept[1..])
  }

  /**
   One writer run, its notifications delivered in order with any of them lost:
   the listener reports exactly the number of lost notifications between the
   first and the last one it received.
   */
  lemma LossIsReported(start: nat, sent: seq<Sent>, counter: nat, kept: seq<nat>, arrivals: seq<Arrival>, writer: string)
    requires Numbered(start, sent, counter) && start + |sent| <= U64_LIMIT
    requires kept != [] && Increasing(kept) && forall i :: 0 <= i < |kept| ==> kept[i] < |sent|
    requires NumbersFrom(arrivals, writer) == NumbersAt(sent, kept)
    ensures Reported(arrivals, writer) == Span(kept) - |kept|
  {
    var ns := NumbersAt(sent, kept);
    forall i | 0 <= i < |kept| ensures ns[i] == start + kept[i] { NumberedAt(start, sent, counter, kept[i]); }
    hide Numbered, NumbersFrom, Reported;
    assert Increasing(ns);
    ReportsAreExact(arrivals, writer);
  }
}
