/**
 Catch-up between listeners: a peer serves its archive as a stream of
 length-prefixed payloads, and the client files what it accepts in its own
 content-addressed archive.
 */
module Catchup {
  import opened Sequences
  import opened Wrappers
  import opened Bytes
  import opened Notification

  const MAX_RESPONSE: nat := 50_000
  const MAX_PAYLOAD: nat := 10_000_000
  const DAY: nat := 86400

  // ----- the stream

  /** The server cuts the length to 32 bits and then writes the whole payload. */
  function Frame(p: Data): (r: Data)
    ensures |r| == 4 + |p|
  {
    ToBig(|p|, 4) + p
  }

  ghost function Stream(ps: seq<Data>): Data
  {
    if ps == [] then [] else Frame(ps[0]) + Stream(ps[1..])
  }

  ghost function Capped(ps: seq<Data>): seq<Data>
  {
    if |ps| > MAX_RESPONSE then ps[..MAX_RESPONSE] else ps
  }

  method Serve(payloads: seq<Data>) returns (sent: Data)
    ensures sent == Stream(Capped(payloads))
    ensures sent == Stream(if |payloads| > 50_000 then payloads[..50_000] else payloads)
  {
    var ps := if |payloads| > MAX_RESPONSE then payloads[..MAX_RESPONSE] else payloads;
    sent := [];
    for i := 0 to |ps|
      invariant sent == Stream(ps[..i])
    {
      ghost var before := sent;
      sent := sent + ToBig(|ps[i]|, 4);
      sent := sent + ps[i];
      assert sent == before + Frame(ps[i]);
      StreamPush(ps[..i], ps[i]);
      assert ps[..i + 1] == ps[..i] + [ps[i]];
    }
    assert ps[..|ps|] == ps;
  }

  lemma {:induction false} StreamPush(ps: seq<Data>, p: Data)
    ensures Stream(ps + [p]) == Stream(ps) + Frame(p)
  {
    if ps == [] {
      assert ps + [p] == [p] && [p][1..] == [];
    } else {
      StreamPush(ps[1..], p);
      assert (ps + [p])[1..] == ps[1..] + [p] && (ps + [p])[0] == ps[0];
      hide Frame;
    }
  }

  /** One read of the client: a length and that many bytes, or the reason to stop. */
  function ReadFrame(b: Data): (r: Option<Data>)
    ensures r.Some? ==> 0 < |r.value| <= MAX_PAYLOAD && 4 + |r.value| <= |b|
  {
    if |b| < 4 then None
    else
      var n := FromBig(b[..4]);
      if n == 0 || n > MAX_PAYLOAD || n > |b| - 4 then None else Some(b[4..4 + n])
  }

  /** All payloads the client takes from a stream. */
  function Payloads(b: Data): seq<Data>
    decreases |b|
  {
    match ReadFrame(b)
    case None => []
    case Some(p) => [p] + Payloads(b[4 + |p|..])
  }

  predicate Sound(p: Data) { 0 < |p| <= MAX_PAYLOAD }

  /** The payloads before the first one the client refuses. */
  ghost function SoundPrefix(ps: seq<Data>): seq<Data>
  {
    if ps == [] || !Sound(ps[0]) then [] else [ps[0]] + SoundPrefix(ps[1..])
  }

  /** Four bytes of length, the most significant first, then the payload. */
  lemma FrameLayout(p: Data)
    ensures |Frame(p)| == 4 + |p| && Frame(p)[4..] == p
    ensures forall i :: 0 <= i < 4 ==> Frame(p)[i] == |p| / Span(3 - i) % 256
  {
    forall i | 0 <= i < 4 ensures Frame(p)[i] == |p| / Span(3 - i) % 256 {
      BigByte(|p|, 4, i);
    }
  }

  /** What a frame reads back as, alone or followed by more. */
  lemma FrameReads(p: Data, rest: Data)
    ensures Sound(p) ==> ReadFrame(Frame(p) + rest) == Some(p)
    ensures !Sound(p) ==> ReadFrame(Frame(p) + rest) != Some(p)
    ensures !Sound(p) && |p| < 0x1_0000_0000 ==> ReadFrame(Frame(p) + rest) == None
  {
    var b := Frame(p) + rest;
    BigRoundTrip(|p|, 4);
    Span4();
    assert b[..4] == ToBig(|p|, 4);
    hide ToBig, FromBig, Span;
    if Sound(p) {
      assert b[4..4 + |p|] == p;
    }
  }

  lemma FrameStep(p: Data, rest: Data)
    requires Sound(p)
    ensures Payloads(Frame(p) + rest) == [p] + Payloads(rest)
  {
    FrameReads(p, rest);
    assert (Frame(p) + rest)[4 + |p|..] == rest;
  }

  /** The client takes exactly the payloads before the first empty or oversized one. */
  lemma {:induction false} StreamDelivers(ps: seq<Data>)
    requires forall i :: 0 <= i < |ps| ==> |ps[i]| < 0x1_0000_0000
    ensures Payloads(Stream(ps)) == SoundPrefix(ps)
  {
    if ps != [] {
      FrameReads(ps[0], Stream(ps[1..]));
      if Sound(ps[0]) {
        FrameStep(ps[0], Stream(ps[1..]));
        StreamDelivers(ps[1..]);
      }
    }
  }

  /** The round trip is exact if and only if every payload has between 1 and 10,000,000 bytes. */
  lemma StreamRoundTripIff(ps: seq<Data>)
    ensures Payloads(Stream(ps)) == ps <==> forall i :: 0 <= i < |ps| ==> 0 < |ps[i]| <= 10_000_000
  {
    SoundRoundTripIff(ps);
    hide Payloads, Stream;
  }

  lemma {:induction false} SoundRoundTripIff(ps: seq<Data>)
    ensures Payloads(Stream(ps)) == ps <==> forall i :: 0 <= i < |ps| ==> Sound(ps[i])
  {
    if ps != [] {
      var rest := ps[1..];
      assert Stream(ps) == Frame(ps[0]) + Stream(rest);
      hide ReadFrame, Frame, Payloads, Stream, Sound;
      FrameReads(ps[0], Stream(rest));
      assert ps == [ps[0]] + rest;
      if Sound(ps[0]) {
        FrameStep(ps[0], Stream(rest));
        SoundRoundTripIff(rest);
        assert forall i :: 0 < i < |ps| ==> ps[i] == rest[i - 1];
      } else {
        HeadIsRead(Stream(ps));
      }
    }
  }

  lemma HeadIsRead(b: Data)
    ensures Payloads(b) == [] || ReadFrame(b) == Some(Payloads(b)[0])
  {
  }

  /** A frame that can be read from the start of a stream is read from the whole stream as well. */
  lemma FrameOfPrefix(b: Data, k: nat)
    requires k <= |b| && ReadFrame(b[..k]).Some?
    ensures ReadFrame(b) == ReadFrame(b[..k])
  {
    hide FromBig;
    var p := ReadFrame(b[..k]).value;
    assert b[..k][..4] == b[..4];
    assert b[..k][4..4 + |p|] == b[4..4 + |p|];
  }

  lemma CutThenDrop(b: Data, k: nat, m: nat)
    requires m <= k <= |b|
    ensures b[..k][m..] == b[m..][..k - m]
  {
  }

  /** Any byte stream, cut anywhere: the client takes a prefix of what the whole stream would have given. */
  lemma {:induction false} TruncationGivesPrefix(b: Data, k: nat)
    requires k <= |b|
    ensures Payloads(b[..k]) <= Payloads(b)
    decreases |b|
  {
    hide ReadFrame;
    if ReadFrame(b[..k]).Some? {
      var p := ReadFrame(b[..k]).value;
      var m := 4 + |p|;
      FrameOfPrefix(b, k);
      assert Payloads(b[..k]) == [p] + Payloads(b[..k][m..]) && Payloads(b) == [p] + Payloads(b[m..]);
      hide Payloads;
      CutThenDrop(b, k, m);
      TruncationGivesPrefix(b[m..], k - m);
    }
  }

  // ----- the archive

  type Hash = string

  /** A payload together with what it parsed to. */
  datatype Item = Item(payload: Data, notification: Notification)

  datatype Row = Row(payload: Data, createdAt: int)

  datatype HourKey = HourKey(day: nat, hour: nat)

  datatype Entry = Entry(sender: string, medium: string, reason: string, timestamp: int, iriCount: int)

  datatype Tables = Tables(messages: map<Hash, Row>, manifest: map<(HourKey, Hash), Entry>)

  /** A 64-bit unsigned number stored in a signed column. */
  function AsSigned(n: nat): int
  {
    if n < 0x8000_0000_0000_0000 then n else n - 0x1_0000_0000_0000_0000
  }

  function HourOf(timestamp: nat): HourKey
  {
    HourKey(timestamp / 3600 / 24, timestamp / 3600 % 24)
  }

  /** The hour of the day, and the day since the epoch, in which the time lies. */
  ghost predicate InHour(key: HourKey, timestamp: nat)
  {
    key.hour < 24 && key.day * 86400 + key.hour * 3600 <= timestamp < key.day * 86400 + (key.hour + 1) * 3600
  }

  ghost predicate Describes(entry: Entry, n: Notification)
  {
    && entry.sender == n.sender && entry.medium == n.medium && entry.reason == n.reason
    && entry.timestamp == AsSigned(n.timestamp) && entry.iriCount == |n.iris|
  }

  lemma HourIs(timestamp: nat)
    ensures InHour(HourOf(timestamp), timestamp)
  {
  }

  /** A number below 2^63 is stored as it is; a larger one wraps round to a negative number. */
  lemma AsSignedIs(n: nat)
    requires n < 0x1_0000_0000_0000_0000
    ensures -0x8000_0000_0000_0000 <= AsSigned(n) < 0x8000_0000_0000_0000
    ensures AsSigned(n) == n || AsSigned(n) + 0x1_0000_0000_0000_0000 == n
  {
  }

  /** Insert-or-ignore into both tables. */
  ghost function Put(hash: Data -> Hash, t: Tables, item: Item, now: nat): Tables
  {
    var h, n := hash(item.payload), item.notification;
    var key := (HourOf(n.timestamp), h);
    Tables(if h in t.messages then t.messages else t.messages[h := Row(item.payload, AsSigned(now))],
           if key in t.manifest then t.manifest
           else t.manifest[key := Entry(n.sender, n.medium, n.reason, AsSigned(n.timestamp), |n.iris|)])
  }

  /** Filing a list in order; clock(i) is the time at which the i-th item is stored. */
  ghost function PutAll(hash: Data -> Hash, t: Tables, items: seq<Item>, clock: nat -> nat): Tables
  {
    if items == [] then t
    else Put(hash, PutAll(hash, t, items[..|items| - 1], clock), items[|items| - 1], clock(|items| - 1))
  }

  /** The rows a query for everything since a time returns: each matching row once, oldest first, ties in any order. */
  ghost predicate Answers(messages: map<Hash, Row>, since: int, hashes: seq<Hash>)
  {
    && (forall i, j :: 0 <= i < j < |hashes| ==> hashes[i] != hashes[j])
    && (forall h :: h in hashes <==> h in messages && messages[h].createdAt >= since)
    && forall i, j :: 0 <= i < j < |hashes| ==>
         hashes[i] in messages && hashes[j] in messages && messages[hashes[i]].createdAt <= messages[hashes[j]].createdAt
  }

  ghost predicate AreBodies(messages: map<Hash, Row>, hashes: seq<Hash>, payloads: seq<Data>)
  {
    |payloads| == |hashes| && forall i :: 0 <= i < |hashes| ==> hashes[i] in messages && payloads[i] == messages[hashes[i]].payload
  }

  lemma {:induction false} OldestExists(messages: map<Hash, Row>, keys: set<Hash>)
    requires keys != {} && keys <= messages.Keys
    ensures exists h :: h in keys && forall g :: g in keys ==> messages[h].createdAt <= messages[g].createdAt
    decreases |keys|
  {
    var x :| x in keys;
    if keys - {x} == {} {
      assert keys == {x};
    } else {
      OldestExists(messages, keys - {x});
      var y :| y in keys - {x} && forall g :: g in keys - {x} ==> messages[y].createdAt <= messages[g].createdAt;
      assert forall g :: g in keys ==> g == x || g in keys - {x};
      if messages[x].createdAt <= messages[y].createdAt {
        assert forall g :: g in keys ==> messages[x].createdAt <= messages[g].createdAt;
      } else {
        assert forall g :: g in keys ==> messages[y].createdAt <= messages[g].createdAt;
      }
    }
  }

  /** The rows listed so far, oldest first, none of them newer than one still to be listed. */
  ghost predicate Listing(messages: map<Hash, Row>, since: int, todo: set<Hash>, hashes: seq<Hash>)
  {
    && (forall h :: h in todo ==> h in messages && messages[h].createdAt >= since)
    && (forall h :: h in hashes <==> h in messages && messages[h].createdAt >= since && h !in todo)
    && (forall i, j :: 0 <= i < j < |hashes| ==> hashes[i] != hashes[j])
    && (forall i, j :: 0 <= i < j < |hashes| ==> messages[hashes[i]].createdAt <= messages[hashes[j]].createdAt)
    && forall h, g :: h in hashes && g in todo ==> messages[h].createdAt <= messages[g].createdAt
  }

  lemma ListOne(messages: map<Hash, Row>, since: int, todo: set<Hash>, hashes: seq<Hash>, h: Hash)
    requires Listing(messages, since, todo, hashes) && h in todo
    requires forall g :: g in todo ==> messages[h].createdAt <= messages[g].createdAt
    ensures Listing(messages, since, todo - {h}, hashes + [h])
  {
    assert forall i :: 0 <= i < |hashes| ==> hashes[i] in hashes;
  }

  lemma ListedAll(messages: map<Hash, Row>, since: int, hashes: seq<Hash>)
    requires Listing(messages, since, {}, hashes)
    ensures Answers(messages, since, hashes)
  {
    assert forall i :: 0 <= i < |hashes| ==> hashes[i] in hashes;
  }

  class Archive {
    const hash: Data -> Hash
    var messages: map<Hash, Row>
    var manifest: map<(HourKey, Hash), Entry>

    ghost function Contents(): Tables
      reads this
    {
      Tables(messages, manifest)
    }

    constructor (hash: Data -> Hash)
      ensures this.hash == hash && Contents() == Tables(map[], map[])
    {
      this.hash, messages, manifest := hash, map[], map[];
    }

    method Store(payload: Data, n: Notification, now: nat) returns (inserted: bool)
      modifies this
      ensures Contents() == Put(hash, old(Contents()), Item(payload, n), now)
      ensures inserted <==> hash(payload) !in old(messages)
      ensures messages.Keys == old(messages).Keys + {hash(payload)}
      ensures forall h :: h in old(messages) ==> messages[h] == old(messages)[h]
      ensures inserted ==> messages[hash(payload)] == Row(payload, AsSigned(now))
      ensures forall k :: k in old(manifest) ==> k in manifest && manifest[k] == old(manifest)[k]
      ensures exists key ::
                && key in manifest && manifest.Keys == old(manifest).Keys + {key} && key.1 == hash(payload)
                && InHour(key.0, n.timestamp) && (key !in old(manifest) ==> Describes(manifest[key], n))
    {
      var h := hash(payload);
      inserted := h !in messages;
      if inserted {
        messages := messages[h := Row(payload, AsSigned(now))];
      }
      var hours := n.timestamp / 3600;
      var key := (HourKey(hours / 24, hours % 24), h);
      if key !in manifest {
        manifest := manifest[key := Entry(n.sender, n.medium, n.reason, AsSigned(n.timestamp), |n.iris|)];
      }
      HourIs(n.timestamp);
      assert InHour(key.0, n.timestamp);
    }

    method MessagesSince(since: nat) returns (payloads: seq<Data>)
      ensures exists hashes :: Answers(messages, AsSigned(since), hashes) && AreBodies(messages, hashes, payloads)
    {
      var todo := set h | h in messages && messages[h].createdAt >= AsSigned(since);
      ghost var hashes: seq<Hash> := [];
      payloads := [];
      while todo != {}
        invariant Listing(messages, AsSigned(since), todo, hashes) && AreBodies(messages, hashes, payloads)
        decreases todo
      {
        OldestExists(messages, todo);
        var h :| h in todo && forall g :: g in todo ==> messages[h].createdAt <= messages[g].createdAt;
        ListOne(messages, AsSigned(since), todo, hashes, h);
        payloads := payloads + [messages[h].payload];
        hashes := hashes + [h];
        todo := todo - {h};
      }
      ListedAll(messages, AsSigned(since), hashes);
    }

    method LatestTimestamp() returns (latest: Option<int>)
      ensures latest.None? <==> messages == map[]
      ensures latest.Some? ==> IsLatest(messages, latest.value)
    {
      var todo := messages.Keys;
      latest := None;
      while todo != {}
        invariant todo <= messages.Keys
        invariant latest.None? <==> todo == messages.Keys
        invariant latest.Some? ==> exists h :: h in messages && messages[h].createdAt == latest.value
        invariant latest.Some? ==> forall h :: h in messages && h !in todo ==> messages[h].createdAt <= latest.value
        decreases todo
      {
        var h :| h in todo;
        if latest.None? || messages[h].createdAt > latest.value {
          latest := Some(messages[h].createdAt);
        }
        todo := todo - {h};
      }
    }

    /** The client's loop over the incoming stream, filing each accepted payload as it is read. */
    method RunCatchup(stream: Data, parse: Data -> Option<Notification>, trusted: set<string>, clock: nat -> nat)
      returns (count: nat)
      modifies this
      ensures Contents() == PutAll(hash, old(Contents()), Accepted(parse, trusted, Payloads(stream)), clock)
      ensures count == |Accepted(parse, trusted, Payloads(stream))|
    {
      hide Payloads, ReadFrame, FromBig, Put;
      count := 0;
      var recv := stream;
      ghost var done: seq<Data> := [];
      assert Accepted(parse, trusted, done) == [] && PutAll(hash, Contents(), [], clock) == Contents();
      assert done + Payloads(stream) == Payloads(stream);
      hide Accepted, PutAll;
      while |recv| >= 4
        invariant done + Payloads(recv) == Payloads(stream)
        invariant count == |Accepted(parse, trusted, done)|
        invariant Contents() == PutAll(hash, old(Contents()), Accepted(parse, trusted, done), clock)
        decreases |recv|
      {
        var length, rest := FromBig(recv[..4]), recv[4..];
        if length == 0 || length > MAX_PAYLOAD { break; }
        if length > |rest| { break; }
        var payload := rest[..length];
        TakesFrame(recv);
        Regroup(done, payload, Payloads(rest[length..]));
        TakePayload(payload, parse, trusted, clock, count, old(Contents()), Accepted(parse, trusted, done));
        AcceptedPush(parse, trusted, done, payload);
        if Acceptable(parse, trusted, payload) {
          count := count + 1;
        }
        done := done + [payload];
        recv := rest[length..];
      }
      StopsReading(recv);
      assert done == done + [];
    }

    /** One payload of the stream: parse it, check its sender, file it. */
    method TakePayload(payload: Data, parse: Data -> Option<Notification>, trusted: set<string>, clock: nat -> nat,
                       count: nat, ghost start: Tables, ghost filed: seq<Item>)
      requires count == |filed| && Contents() == PutAll(hash, start, filed, clock)
      modifies this
      ensures Contents() == PutAll(hash, start, filed + AcceptedOne(parse, trusted, payload), clock)
    {
      var n := parse(payload);
      if n.Some? && (trusted == {} || n.value.sender in trusted) {
        var _ := Store(payload, n.value, clock(count));
        PutAllPush(hash, start, filed, Item(payload, n.value), clock);
      } else {
        assert filed + AcceptedOne(parse, trusted, payload) == filed;
      }
    }
  }

  lemma SliceTwice(b: Data, n: nat)
    requires 4 + n <= |b|
    ensures b[4..4 + n] == b[4..][..n] && b[4 + n..] == b[4..][n..]
  {
  }

  lemma TakesFrame(b: Data)
    requires |b| >= 4 && 0 < FromBig(b[..4]) <= MAX_PAYLOAD && FromBig(b[..4]) <= |b| - 4
    ensures var n := FromBig(b[..4]); Payloads(b) == [b[4..][..n]] + Payloads(b[4..][n..])
  {
    hide FromBig;
    var n := FromBig(b[..4]);
    assert ReadFrame(b) == Some(b[4..4 + n]);
    hide ReadFrame;
    assert Payloads(b) == [b[4..4 + n]] + Payloads(b[4 + n..]);
    hide Payloads;
    SliceTwice(b, n);
  }

  lemma StopsReading(b: Data)
    requires |b| < 4 || FromBig(b[..4]) == 0 || FromBig(b[..4]) > MAX_PAYLOAD || FromBig(b[..4]) > |b| - 4
    ensures Payloads(b) == []
  {
  }

  ghost predicate IsLatest(messages: map<Hash, Row>, t: int)
  {
    && (exists h :: h in messages && messages[h].createdAt == t)
    && forall h :: h in messages ==> messages[h].createdAt <= t
  }

  // ----- what the client keeps

  predicate Acceptable(parse: Data -> Option<Notification>, trusted: set<string>, p: Data)
  {
    parse(p).Some? && (trusted == {} || parse(p).value.sender in trusted)
  }

  function AcceptedOne(parse: Data -> Option<Notification>, trusted: set<string>, p: Data): seq<Item>
  {
    if Acceptable(parse, trusted, p) then [Item(p, parse(p).value)] else []
  }

  ghost function Accepted(parse: Data -> Option<Notification>, trusted: set<string>, ps: seq<Data>): seq<Item>
  {
    if ps == [] then []
    else
      Accepted(parse, trusted, ps[..|ps| - 1]) + AcceptedOne(parse, trusted, ps[|ps| - 1])
  }

  lemma AcceptedPush(parse: Data -> Option<Notification>, trusted: set<string>, ps: seq<Data>, p: Data)
    ensures Accepted(parse, trusted, ps + [p])
            == Accepted(parse, trusted, ps) + AcceptedOne(parse, trusted, p)
  {
    assert (ps + [p])[..|ps + [p]| - 1] == ps;
  }

  lemma PutAllPush(hash: Data -> Hash, t: Tables, items: seq<Item>, item: Item, clock: nat -> nat)
    ensures PutAll(hash, t, items + [item], clock) == Put(hash, PutAll(hash, t, items, clock), item, clock(|items|))
  {
    assert (items + [item])[..|items + [item]| - 1] == items;
  }

  lemma {:induction false} AcceptedMembers(parse: Data -> Option<Notification>, trusted: set<string>, ps: seq<Data>, item: Item)
    ensures item in Accepted(parse, trusted, ps)
            <==> && item.payload in ps && parse(item.payload) == Some(item.notification)
                 && (trusted == {} || item.notification.sender in trusted)
  {
    if ps != [] {
      AcceptedMembers(parse, trusted, ps[..|ps| - 1], item);
      assert ps == ps[..|ps| - 1] + [ps[|ps| - 1]];
    }
  }

  ghost predicate Filed(hash: Data -> Hash, t: Tables, item: Item)
  {
    hash(item.payload) in t.messages && (HourOf(item.notification.timestamp), hash(item.payload)) in t.manifest
  }

  lemma {:induction false} PutAllFiles(hash: Data -> Hash, t: Tables, items: seq<Item>, clock: nat -> nat, item: Item)
    ensures item in items || Filed(hash, t, item) ==> Filed(hash, PutAll(hash, t, items, clock), item)
  {
    if items != [] {
      var front, last := items[..|items| - 1], items[|items| - 1];
      PutAllFiles(hash, t, front, clock, item);
      assert item in items ==> item in front || item == last;
    }
  }

  lemma {:induction false} NothingNew(hash: Data -> Hash, t: Tables, items: seq<Item>, clock: nat -> nat)
    requires forall i :: 0 <= i < |items| ==> Filed(hash, t, items[i])
    ensures PutAll(hash, t, items, clock) == t
  {
    if items != [] {
      NothingNew(hash, t, items[..|items| - 1], clock);
      assert Filed(hash, t, items[|items| - 1]);
    }
  }

  /**
   Filing a second list made only of items of the first, in whatever order and
   however often, at whatever time, leaves both tables exactly as they were.
   */
  lemma StoringAgainChangesNothing(hash: Data -> Hash, t: Tables, items: seq<Item>, again: seq<Item>,
                                   clock: nat -> nat, later: nat -> nat)
    requires forall i :: 0 <= i < |again| ==> again[i] in items
    ensures PutAll(hash, PutAll(hash, t, items, clock), again, later) == PutAll(hash, t, items, clock)
  {
    var once := PutAll(hash, t, items, clock);
    forall i | 0 <= i < |again| ensures Filed(hash, once, again[i]) {
      PutAllFiles(hash, t, items, clock, again[i]);
    }
    NothingNew(hash, once, again, later);
  }

  ghost function Bodies(t: Tables): set<Data>
  {
    set h | h in t.messages :: t.messages[h].payload
  }

  ghost function PayloadsOf(items: seq<Item>): set<Data>
  {
    set item | item in items :: item.payload
  }

  ghost predicate WellKeyed(hash: Data -> Hash, t: Tables)
  {
    forall h :: h in t.messages ==> hash(t.messages[h].payload) == h
  }

  ghost predicate CollisionFree(hash: Data -> Hash, universe: set<Data>)
  {
    forall p, q :: p in universe && q in universe && hash(p) == hash(q) ==> p == q
  }

  lemma CollisionSub(hash: Data -> Hash, universe: set<Data>, part: set<Data>)
    requires CollisionFree(hash, universe) && part <= universe
    ensures CollisionFree(hash, part)
  {
  }

  lemma PutBodies(hash: Data -> Hash, t: Tables, item: Item, now: nat)
    requires WellKeyed(hash, t) && CollisionFree(hash, Bodies(t) + {item.payload})
    ensures WellKeyed(hash, Put(hash, t, item, now))
    ensures Bodies(Put(hash, t, item, now)) == Bodies(t) + {item.payload}
  {
    var h := hash(item.payload);
    var t' := Put(hash, t, item, now);
    assert forall g :: g in t.messages ==> g in t'.messages && t'.messages[g] == t.messages[g];
    if h in t.messages {
      assert t.messages[h].payload in Bodies(t);
      assert t.messages[h].payload == item.payload;
    } else {
      assert t'.messages[h].payload == item.payload;
    }
  }

  /** Without hash collisions, what is archived afterwards is what was there and what was filed: no loss, no invention. */
  lemma {:induction false} PutAllBodies(hash: Data -> Hash, t: Tables, items: seq<Item>, clock: nat -> nat)
    requires WellKeyed(hash, t) && CollisionFree(hash, Bodies(t) + PayloadsOf(items))
    ensures WellKeyed(hash, PutAll(hash, t, items, clock))
    ensures Bodies(PutAll(hash, t, items, clock)) == Bodies(t) + PayloadsOf(items)
  {
    if items != [] {
      var front, last := items[..|items| - 1], items[|items| - 1];
      assert items == front + [last];
      var whole := Bodies(t) + PayloadsOf(items);
      var mid := PutAll(hash, t, front, clock);
      assert PutAll(hash, t, items, clock) == Put(hash, mid, last, clock(|items| - 1));
      hide PayloadsOf, Put, PutAll, WellKeyed, Bodies, CollisionFree;
      PayloadsPush(front, last);
      assert whole == Bodies(t) + PayloadsOf(front) + {last.payload};
      CollisionSub(hash, whole, Bodies(t) + PayloadsOf(front));
      PutAllBodies(hash, t, front, clock);
      PutBodies(hash, mid, last, clock(|items| - 1));
    }
  }

  lemma PayloadsPush(items: seq<Item>, item: Item)
    ensures PayloadsOf(items + [item]) == PayloadsOf(items) + {item.payload}
  {
    forall p ensures p in PayloadsOf(items) + {item.payload} ==> p in PayloadsOf(items + [item]) {
      if p == item.payload {
        assert item in items + [item];
      } else if x :| x in items && x.payload == p {
        assert x in items + [item];
      }
    }
  }

  lemma PartAccepted(parse: Data -> Option<Notification>, trusted: set<string>, stream: Data, k: nat)
    requires k <= |stream|
    ensures PayloadsOf(Accepted(parse, trusted, Payloads(stream[..k]))) <= PayloadsOf(Accepted(parse, trusted, Payloads(stream)))
  {
    var some, all := Payloads(stream[..k]), Payloads(stream);
    TruncationGivesPrefix(stream, k);
    hide Accepted, Payloads;
    AcceptedFewer(parse, trusted, some, all);
  }

  /** An interrupted catch-up followed by a complete one archives the same messages as the complete one alone. */
  lemma InterruptedThenComplete(hash: Data -> Hash, t: Tables, parse: Data -> Option<Notification>, trusted: set<string>,
                                stream: Data, k: nat, clock: nat -> nat, later: nat -> nat, alone: nat -> nat)
    requires k <= |stream| && WellKeyed(hash, t)
    requires CollisionFree(hash, Bodies(t) + PayloadsOf(Accepted(parse, trusted, Payloads(stream))))
    ensures var part := Accepted(parse, trusted, Payloads(stream[..k]));
            var whole := Accepted(parse, trusted, Payloads(stream));
            Bodies(PutAll(hash, PutAll(hash, t, part, clock), whole, later)) == Bodies(PutAll(hash, t, whole, alone))
  {
    var part := Accepted(parse, trusted, Payloads(stream[..k]));
    var whole := Accepted(parse, trusted, Payloads(stream));
    PartAccepted(parse, trusted, stream, k);
    hide Accepted, Payloads, PutAll, PayloadsOf, Bodies, WellKeyed, CollisionFree;
    CollisionSub(hash, Bodies(t) + PayloadsOf(whole), Bodies(t) + PayloadsOf(part));
    PutAllBodies(hash, t, part, clock);
    CollisionSub(hash, Bodies(t) + PayloadsOf(whole), Bodies(PutAll(hash, t, part, clock)) + PayloadsOf(whole));
    PutAllBodies(hash, PutAll(hash, t, part, clock), whole, later);
    PutAllBodies(hash, t, whole, alone);
    assert Bodies(t) + PayloadsOf(part) + PayloadsOf(whole) == Bodies(t) + PayloadsOf(whole);
  }

  // ----- server to client

  /** Which of the server's messages a client should end up with. */
  ghost function Wanted(server: map<Hash, Row>, since: int, parse: Data -> Option<Notification>, trusted: set<string>): set<Data>
  {
    set h | h in server && server[h].createdAt >= since && Acceptable(parse, trusted, server[h].payload) :: server[h].payload
  }

  lemma {:induction false} SoundPrefixIsPrefix(ps: seq<Data>)
    ensures SoundPrefix(ps) <= ps
    ensures (forall i :: 0 <= i < |ps| ==> Sound(ps[i])) ==> SoundPrefix(ps) == ps
  {
    if ps != [] {
      SoundPrefixIsPrefix(ps[1..]);
      assert ps == [ps[0]] + ps[1..];
    }
  }

  /**
   From archive to archive, for every server: the client ends up with exactly
   its own messages and the acceptable ones among the first 50,000 of the
   answer, up to the first that is empty or too large. Lengths are below 2^32,
   as the length field needs.
   */
  lemma CatchupDelivers(hash: Data -> Hash, client: Tables, server: map<Hash, Row>, since: nat, hashes: seq<Hash>, payloads: seq<Data>,
                        parse: Data -> Option<Notification>, trusted: set<string>, clock: nat -> nat)
    requires Answers(server, AsSigned(since), hashes) && AreBodies(server, hashes, payloads)
    requires forall i :: 0 <= i < |payloads| ==> |payloads[i]| < 0x1_0000_0000
    requires WellKeyed(hash, client)
    requires CollisionFree(hash, Bodies(client) + Wanted(server, AsSigned(since), parse, trusted))
    ensures var delivered := SoundPrefix(Capped(payloads));
            && Payloads(Stream(Capped(payloads))) == delivered
            && Bodies(PutAll(hash, client, Accepted(parse, trusted, delivered), clock))
               == Bodies(client) + PayloadsOf(Accepted(parse, trusted, delivered))
            && PayloadsOf(Accepted(parse, trusted, delivered)) <= Wanted(server, AsSigned(since), parse, trusted)
  {
    var delivered := SoundPrefix(Capped(payloads));
    StreamDelivers(Capped(payloads));
    SoundPrefixIsPrefix(Capped(payloads));
    assert forall p :: p in delivered ==> p in payloads;
    AcceptedAreWanted(server, AsSigned(since), hashes, payloads, parse, trusted);
    AcceptedFewer(parse, trusted, delivered, payloads);
    hide Accepted, Wanted, PayloadsOf, Bodies, WellKeyed, PutAll, CollisionFree, SoundPrefix;
    var some := PayloadsOf(Accepted(parse, trusted, delivered));
    CollisionSub(hash, Bodies(client) + Wanted(server, AsSigned(since), parse, trusted), Bodies(client) + some);
    PutAllBodies(hash, client, Accepted(parse, trusted, delivered), clock);
  }

  lemma AcceptedFewer(parse: Data -> Option<Notification>, trusted: set<string>, some: seq<Data>, all: seq<Data>)
    requires forall p :: p in some ==> p in all
    ensures PayloadsOf(Accepted(parse, trusted, some)) <= PayloadsOf(Accepted(parse, trusted, all))
  {
    hide Accepted;
    forall item ensures item in Accepted(parse, trusted, some) ==> item in Accepted(parse, trusted, all) {
      AcceptedMembers(parse, trusted, some, item);
      AcceptedMembers(parse, trusted, all, item);
    }
  }

  /**
   So a catch-up is complete, and brings every acceptable message the server
   archived since then, if there are at most 50,000 matching messages and each
   has a length the client takes.
   */
  lemma CatchupComplete(hash: Data -> Hash, client: Tables, server: map<Hash, Row>, since: nat, hashes: seq<Hash>, payloads: seq<Data>,
                        parse: Data -> Option<Notification>, trusted: set<string>, clock: nat -> nat)
    requires Answers(server, AsSigned(since), hashes) && AreBodies(server, hashes, payloads)
    requires |payloads| <= 50_000 && forall i :: 0 <= i < |payloads| ==> 0 < |payloads[i]| <= 10_000_000
    requires WellKeyed(hash, client)
    requires CollisionFree(hash, Bodies(client) + Wanted(server, AsSigned(since), parse, trusted))
    ensures Bodies(PutAll(hash, client, Accepted(parse, trusted, Payloads(Stream(Capped(payloads)))), clock))
            == Bodies(client) + Wanted(server, AsSigned(since), parse, trusted)
  {
    assert forall i :: 0 <= i < |payloads| ==> Sound(payloads[i]);
    SoundPrefixIsPrefix(payloads);
    hide Accepted, Wanted, PayloadsOf, Bodies, WellKeyed, PutAll, CollisionFree, SoundPrefix, Sound;
    CatchupDelivers(hash, client, server, since, hashes, payloads, parse, trusted, clock);
    AcceptedAreWanted(server, AsSigned(since), hashes, payloads, parse, trusted);
  }

  lemma AcceptedAreWanted(server: map<Hash, Row>, since: int, hashes: seq<Hash>, payloads: seq<Data>,
                          parse: Data -> Option<Notification>, trusted: set<string>)
    requires Answers(server, since, hashes) && AreBodies(server, hashes, payloads)
    ensures PayloadsOf(Accepted(parse, trusted, payloads)) == Wanted(server, since, parse, trusted)
  {
    var items := Accepted(parse, trusted, payloads);
    hide Accepted;
    forall p ensures p in PayloadsOf(items) ==> p in Wanted(server, since, parse, trusted) {
      if item :| item in items && item.payload == p {
        AcceptedMembers(parse, trusted, payloads, item);
        var i :| 0 <= i < |payloads| && payloads[i] == p;
        assert hashes[i] in hashes;
      }
    }
    forall p ensures p in Wanted(server, since, parse, trusted) ==> p in PayloadsOf(items) {
      if h :| h in server && server[h].createdAt >= since && Acceptable(parse, trusted, server[h].payload) && server[h].payload == p {
        assert h in hashes;
        var i :| 0 <= i < |hashes| && hashes[i] == h;
        assert payloads[i] == p;
        AcceptedMembers(parse, trusted, payloads, Item(p, parse(p).value));
      }
    }
  }

  // ----- resuming

  /** With every store happening after time t, a table that gains a message has its latest entry after t. */
  lemma {:induction false} NewRowsAreLate(hash: Data -> Hash, t: Tables, items: seq<Item>, clock: nat -> nat, time: nat, h: Hash)
    requires forall i :: 0 <= i < |items| ==> time < clock(i) < 0x8000_0000_0000_0000
    requires h in PutAll(hash, t, items, clock).messages && h !in t.messages
    ensures PutAll(hash, t, items, clock).messages[h].createdAt > time
  {
    if items != [] {
      var front := items[..|items| - 1];
      if h in PutAll(hash, t, front, clock).messages {
        NewRowsAreLate(hash, t, front, clock, time, h);
      }
    }
  }

  /**
   The next catch-up asks from the newest entry on. An interrupted catch-up that
   stored anything new therefore never has its remainder offered again: whatever
   the server had archived before it began lies before that entry.
   */
  lemma InterruptedCatchupIsNotResumed(hash: Data -> Hash, client: Tables, part: seq<Item>, clock: nat -> nat, began: nat,
                                       server: map<Hash, Row>, latest: int, offered: seq<Hash>)
    requires forall i :: 0 <= i < |part| ==> began < clock(i) < 0x8000_0000_0000_0000
    requires exists i :: 0 <= i < |part| && hash(part[i].payload) !in client.messages
    requires IsLatest(PutAll(hash, client, part, clock).messages, latest)
    requires Answers(server, latest, offered)
    ensures forall h :: h in server && server[h].createdAt <= began ==> h !in offered
  {
    var i :| 0 <= i < |part| && hash(part[i].payload) !in client.messages;
    var h := hash(part[i].payload);
    PutAllFiles(hash, client, part, clock, part[i]);
    NewRowsAreLate(hash, client, part, clock, began, h);
    assert latest > began;
  }

  lemma {:induction false} KnownMessages(hash: Data -> Hash, t: Tables, items: seq<Item>, clock: nat -> nat)
    requires forall i :: 0 <= i < |items| ==> hash(items[i].payload) in t.messages
    ensures PutAll(hash, t, items, clock).messages == t.messages
  {
    if items != [] {
      KnownMessages(hash, t, items[..|items| - 1], clock);
      assert hash(items[|items| - 1].payload) in t.messages;
    }
  }

  /** Where the next catch-up starts: at the newest entry, or a day ago with an empty archive. */
  ghost predicate AsksFrom(messages: map<Hash, Row>, now: int, since: int)
  {
    if messages == map[] then since == now - DAY else IsLatest(messages, since)
  }

  lemma {:induction false} RowsStay(hash: Data -> Hash, t: Tables, items: seq<Item>, clock: nat -> nat, h: Hash)
    requires h in t.messages
    ensures h in PutAll(hash, t, items, clock).messages && PutAll(hash, t, items, clock).messages[h] == t.messages[h]
  {
    if items != [] {
      RowsStay(hash, t, items[..|items| - 1], clock, h);
    }
  }

  /** Nothing stored since then is newer than the time. */
  ghost predicate NoneNewer(before: map<Hash, Row>, after: map<Hash, Row>, time: int)
  {
    forall g :: g in after && g !in before ==> after[g].createdAt <= time
  }

  /**
   Exactly when a message is offered again, whatever the clocks say: a message
   the server offered the first time is offered the second time if and only if
   no row stored in between is newer than it and, for a client that is still
   empty, it is less than a day old.
   */
  lemma ResumedIff(hash: Data -> Hash, client: Tables, part: seq<Item>, clock: nat -> nat, server: map<Hash, Row>,
                   now: int, first: int, offered: seq<Hash>, later: int, second: int, offeredAgain: seq<Hash>, h: Hash)
    requires AsksFrom(client.messages, now, first) && Answers(server, first, offered)
    requires AsksFrom(PutAll(hash, client, part, clock).messages, later, second) && Answers(server, second, offeredAgain)
    requires h in offered
    ensures var after := PutAll(hash, client, part, clock).messages;
            h in offeredAgain
            <==> && NoneNewer(client.messages, after, server[h].createdAt)
                 && (after == map[] ==> server[h].createdAt >= later - 86400)
  {
    var after := PutAll(hash, client, part, clock).messages;
    forall g ensures g in client.messages ==> g in after && after[g] == client.messages[g] {
      if g in client.messages { RowsStay(hash, client, part, clock, g); }
    }
    hide PutAll;
    if after != map[] {
      var g :| g in after && after[g].createdAt == second;
      assert g in client.messages ==> client.messages[g].createdAt <= first;
    }
  }

  /**
   With every store in a later second than the one in which the catch-up began,
   and a message archived by then: it is offered again if and only if nothing
   delivered in between was new to the client and, for a client whose archive is
   empty, it is less than a day old.
   */
  lemma ResumedIffNothingNew(hash: Data -> Hash, client: Tables, part: seq<Item>, clock: nat -> nat, began: nat, server: map<Hash, Row>,
                             now: int, first: int, offered: seq<Hash>, later: int, second: int, offeredAgain: seq<Hash>, h: Hash)
    requires forall i :: 0 <= i < |part| ==> began < clock(i) < 0x8000_0000_0000_0000
    requires AsksFrom(client.messages, now, first) && Answers(server, first, offered)
    requires AsksFrom(PutAll(hash, client, part, clock).messages, later, second) && Answers(server, second, offeredAgain)
    requires h in offered && server[h].createdAt <= began
    ensures h in offeredAgain
            <==> && (forall i :: 0 <= i < |part| ==> hash(part[i].payload) in client.messages)
                 && (client.messages == map[] ==> server[h].createdAt >= later - DAY)
  {
    if forall i :: 0 <= i < |part| ==> hash(part[i].payload) in client.messages {
      KnownMessages(hash, client, part, clock);
      assert client.messages != map[] ==> first == second;
    } else {
      var i :| 0 <= i < |part| && hash(part[i].payload) !in client.messages;
      PutAllFiles(hash, client, part, clock, part[i]);
      InterruptedCatchupIsNotResumed(hash, client, part, clock, began, server, second, offeredAgain);
    }
  }

  /** What lies past the cap is not fetched later: a capped catch-up that stored anything new is its own last. */
  lemma CappedRestIsNotOffered(hash: Data -> Hash, client: Tables, server: map<Hash, Row>, since: nat, hashes: seq<Hash>, payloads: seq<Data>,
                               parse: Data -> Option<Notification>, trusted: set<string>, clock: nat -> nat, began: nat,
                               latest: int, offered: seq<Hash>)
    requires Answers(server, AsSigned(since), hashes) && AreBodies(server, hashes, payloads)
    requires forall h :: h in server ==> server[h].createdAt <= began
    requires forall i: nat :: began < clock(i) < 0x8000_0000_0000_0000
    requires var part := Accepted(parse, trusted, Payloads(Stream(Capped(payloads))));
             && (exists i :: 0 <= i < |part| && hash(part[i].payload) !in client.messages)
             && IsLatest(PutAll(hash, client, part, clock).messages, latest)
    requires Answers(server, latest, offered)
    ensures forall i :: 50_000 <= i < |hashes| ==> hashes[i] !in offered
    ensures forall i, j :: 0 <= i < 50_000 <= j < |hashes| ==> server[hashes[i]].createdAt <= server[hashes[j]].createdAt
  {
    var part := Accepted(parse, trusted, Payloads(Stream(Capped(payloads))));
    hide Accepted, Payloads, Stream, Capped, PutAll;
    InterruptedCatchupIsNotResumed(hash, client, part, clock, began, server, latest, offered);
    forall i | 50_000 <= i < |hashes| ensures hashes[i] !in offered {
      assert hashes[i] in hashes;
    }
  }
}
