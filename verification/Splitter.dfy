/** Greedy splitting of a list of IRIs into chunks whose signed payloads stay within the gossip limit. */
module Splitter {
  import opened Notification

  function Flatten<T>(chunks: seq<seq<T>>): seq<T>
  {
    if chunks == [] then [] else chunks[0] + Flatten(chunks[1..])
  }

  lemma {:induction false} FlattenAppend<T>(a: seq<seq<T>>, b: seq<seq<T>>)
    ensures Flatten(a + b) == Flatten(a) + Flatten(b)
  {
    if a == [] {
      assert a + b == b;
    } else {
      FlattenAppend(a[1..], b);
      assert (a + b)[1..] == a[1..] + b;
      assert Flatten(a + b) == a[0] + Flatten(a[1..] + b);
    }
  }

  lemma FlattenPush<T>(chunks: seq<seq<T>>, c: seq<T>)
    ensures Flatten(chunks + [c]) == Flatten(chunks) + c
  {
    FlattenAppend(chunks, [c]);
    assert [c][1..] == [];
    assert Flatten([c]) == c + [];
  }

  /** What the size limit depends on besides the IRIs. */
  datatype Envelope = Envelope(key: Signer, now: nat, medium: string, reason: string)

  predicate FitsIn(e: Envelope, iris: seq<string>)
  {
    Fits(e.key, e.now, e.medium, e.reason, iris)
  }

  /** A chunk may be sent when it fits, or when it is a single IRI that nothing can make smaller. */
  predicate Acceptable(e: Envelope, chunk: seq<string>)
  {
    chunk != [] && (|chunk| == 1 || FitsIn(e, chunk))
  }

  ghost predicate AllAcceptable(e: Envelope, chunks: seq<seq<string>>)
  {
    forall i :: 0 <= i < |chunks| ==> Acceptable(e, chunks[i])
  }

  /** `chunk` could not have taken the first IRI of `next`. */
  ghost predicate Full(e: Envelope, chunk: seq<string>, next: seq<string>)
  {
    next != [] && !Acceptable(e, chunk + [next[0]])
  }

  ghost predicate Saturated(e: Envelope, chunks: seq<seq<string>>)
  {
    forall i, j :: 0 <= i && j == i + 1 && j < |chunks| ==> Full(e, chunks[i], chunks[j])
  }

  lemma AcceptableStretch(e: Envelope, a: seq<string>, b: seq<string>, c: seq<string>)
    requires HexSigner(e.key) && Acceptable(e, a + b + c) && b != []
    ensures Acceptable(e, b)
  {
    if |a + b + c| != 1 {
      FitsHereditary(e.key, e.now, e.medium, e.reason, a, b, c);
    }
  }

  /** `xs` is a suffix of `ys`. */
  ghost predicate Suffix<T>(xs: seq<T>, ys: seq<T>)
  {
    |xs| <= |ys| && ys[|ys| - |xs|..] == xs
  }

  lemma SuffixDrop<T>(xs: seq<T>, ys: seq<T>, i: nat, j: nat)
    requires Suffix(xs, ys) && i <= |xs| && j <= |ys| && |xs| - i <= |ys| - j
    ensures Suffix(xs[i..], ys[j..])
  {
    var k := |ys| - |xs|;
    assert ys[j..][|ys| - j - (|xs| - i)..] == ys[k + i..] == ys[k..][i..];
  }

  lemma Stretch(xs: seq<string>, ys: seq<string>, p: seq<string>, n: nat)
    requires Suffix(xs, ys) && p <= ys && n <= |xs| && |ys| - |xs| + n <= |p|
    ensures var k := |ys| - |xs|;
            p == p[..k] + xs[..n] + p[k + n..]
  {
    var k := |ys| - |xs|;
    forall i | 0 <= i < n ensures p[k + i] == xs[..n][i] {
      assert p[k + i] == ys[k + i] == ys[k..][i];
    }
  }

  /** A saturated first chunk and the next IRI do not fit inside a chunk of any acceptable partition. */
  lemma FirstChunkBound(e: Envelope, g: seq<string>, next: string, xs: seq<string>, p: seq<string>, ys: seq<string>)
    requires HexSigner(e.key) && Acceptable(e, p) && !Acceptable(e, g + [next])
    requires g + [next] <= xs && p <= ys && Suffix(xs, ys)
    ensures |p| <= |ys| - |xs| + |g|
  {
    hide Acceptable, HexSigner;
    var k, n := |ys| - |xs|, |g| + 1;
    if k + n <= |p| {
      Stretch(xs, ys, p, n);
      assert xs[..n] == g + [next];
      hide Suffix;
      AcceptableStretch(e, p[..k], g + [next], p[k + n..]);
    }
  }

  lemma OneMore<T>(first: seq<T>, rest: seq<T>, next: seq<T>)
    requires next <= rest && next != []
    ensures first + [next[0]] <= first + rest
  {
    assert rest[0] == next[0];
  }

  lemma FirstTwo(e: Envelope, gs: seq<seq<string>>)
    requires |gs| >= 2 && Saturated(e, gs)
    ensures gs[1] != [] && !Acceptable(e, gs[0] + [gs[1][0]]) && gs[0] + [gs[1][0]] <= Flatten(gs)
  {
    assert Full(e, gs[0], gs[1]);
    hide Acceptable, Saturated;
    var rest := gs[1..];
    assert rest[0] == gs[1];
    assert gs[1] <= Flatten(rest);
    OneMore(gs[0], Flatten(rest), gs[1]);
  }

  lemma FlattenTail<T>(gs: seq<seq<T>>)
    requires gs != []
    ensures gs[0] <= Flatten(gs) && Flatten(gs)[|gs[0]|..] == Flatten(gs[1..])
  {
  }

  /** Greedy is optimal: a saturated partition has no more chunks than any acceptable partition of as much or more. */
  lemma {:induction false} GreedyLeast(e: Envelope, gs: seq<seq<string>>, ps: seq<seq<string>>)
    requires HexSigner(e.key) && AllAcceptable(e, gs) && Saturated(e, gs) && AllAcceptable(e, ps)
    requires Suffix(Flatten(gs), Flatten(ps))
    ensures |gs| <= |ps|
    decreases |gs|
  {
    hide HexSigner, Saturated;
    if gs != [] {
      assert Acceptable(e, gs[0]);
      FlattenTail(gs);
      assert ps != [];
    }
    if |gs| >= 2 {
      var xs, ys := Flatten(gs), Flatten(ps);
      assert Acceptable(e, ps[0]);
      FirstTwo(e, gs);
      FlattenTail(ps);
      hide Flatten, Acceptable;
      FirstChunkBound(e, gs[0], gs[1][0], xs, ps[0], ys);
      SuffixDrop(xs, ys, |gs[0]|, |ps[0]|);
      GreedyLater(e, gs, ps);
      hide Suffix, AllAcceptable;
      GreedyLeast(e, gs[1..], ps[1..]);
    }
  }

  lemma GreedyLater(e: Envelope, gs: seq<seq<string>>, ps: seq<seq<string>>)
    requires gs != [] && ps != [] && AllAcceptable(e, gs) && Saturated(e, gs) && AllAcceptable(e, ps)
    ensures AllAcceptable(e, gs[1..]) && Saturated(e, gs[1..]) && AllAcceptable(e, ps[1..])
  {
    hide Acceptable, Full;
  }

  ghost predicate IsPartition(e: Envelope, iris: seq<string>, ps: seq<seq<string>>)
  {
    AllAcceptable(e, ps) && Flatten(ps) == iris
  }

  /** `chunks` splits `iris` acceptably, into as few chunks as any acceptable partition has. */
  ghost predicate FewestChunks(e: Envelope, iris: seq<string>, chunks: seq<seq<string>>)
  {
    IsPartition(e, iris, chunks) && forall ps :: IsPartition(e, iris, ps) ==> |chunks| <= |ps|
  }

  lemma SaturatedIsFewest(e: Envelope, iris: seq<string>, chunks: seq<seq<string>>)
    requires HexSigner(e.key) && IsPartition(e, iris, chunks) && Saturated(e, chunks)
    ensures FewestChunks(e, iris, chunks)
  {
    forall ps | IsPartition(e, iris, ps) ensures |chunks| <= |ps| {
      assert Suffix(Flatten(chunks), Flatten(ps)) by { assert iris[0..] == iris; }
      GreedyLeast(e, chunks, ps);
    }
  }

  ghost predicate AllFit(e: Envelope, chunks: seq<seq<string>>)
  {
    forall i :: 0 <= i < |chunks| ==> FitsIn(e, chunks[i])
  }

  lemma {:induction false} InSomeChunk<T>(chunks: seq<seq<T>>, x: T)
    ensures x in Flatten(chunks) <==> exists i :: 0 <= i < |chunks| && x in chunks[i]
  {
    if chunks != [] {
      var rest := chunks[1..];
      InSomeChunk(rest, x);
      if i :| 0 <= i < |rest| && x in rest[i] {
        assert x in chunks[i + 1];
      }
      if i :| 0 < i < |chunks| && x in chunks[i] {
        assert x in rest[i - 1];
      }
    }
  }

  /** Every chunk of a partition fits if and only if every IRI fits alone. */
  lemma ChunksFitIff(e: Envelope, iris: seq<string>, chunks: seq<seq<string>>)
    requires HexSigner(e.key) && IsPartition(e, iris, chunks)
    ensures AllFit(e, chunks) <==> forall x :: x in iris ==> FitsIn(e, [x])
  {
    hide FitsIn, Fits, HexSigner, Flatten;
    if AllFit(e, chunks) {
      forall x | x in iris ensures FitsIn(e, [x]) {
        InSomeChunk(chunks, x);
        var i :| 0 <= i < |chunks| && x in chunks[i];
        MemberFits(e, chunks[i], x);
      }
    }
    if forall x :: x in iris ==> FitsIn(e, [x]) {
      forall i | 0 <= i < |chunks| ensures FitsIn(e, chunks[i]) {
        assert Acceptable(e, chunks[i]);
        if |chunks[i]| == 1 {
          InSomeChunk(chunks, chunks[i][0]);
          assert chunks[i] == [chunks[i][0]];
        }
      }
    }
  }

  lemma MemberFits(e: Envelope, chunk: seq<string>, x: string)
    requires HexSigner(e.key) && FitsIn(e, chunk) && x in chunk
    ensures FitsIn(e, [x])
  {
    hide Fits, HexSigner;
    var j :| 0 <= j < |chunk| && chunk[j] == x;
    assert chunk == chunk[..j] + [x] + chunk[j + 1..];
    FitsHereditary(e.key, e.now, e.medium, e.reason, chunk[..j], [x], chunk[j + 1..]);
  }

  /** An IRI of 60000 bytes or more fits nowhere, so the chunk that holds it is over the limit, whatever the partition. */
  lemma OversizedIri(e: Envelope, iris: seq<string>, x: string, chunks: seq<seq<string>>)
    requires HexSigner(e.key) && |x| >= 60000 && x in iris && IsPartition(e, iris, chunks)
    ensures !FitsIn(e, [x]) && [x] in chunks && !AllFit(e, chunks)
  {
    hide FitsIn, Fits, Flatten, HexSigner;
    TooLong(e, x);
    InSomeChunk(chunks, x);
    var i :| 0 <= i < |chunks| && x in chunks[i];
    assert Acceptable(e, chunks[i]);
    assert !FitsIn(e, chunks[i]) by {
      if FitsIn(e, chunks[i]) { MemberFits(e, chunks[i], x); }
    }
    assert chunks[i] == [x];
  }

  lemma TooLong(e: Envelope, x: string)
    requires HexSigner(e.key) && |x| >= MAX_GOSSIP_PAYLOAD
    ensures !FitsIn(e, [x])
  {
    EscapeGrows(x);
    hide Fits, HexSigner, Escape;
    LoneIriFits(e.key, e.now, e.medium, e.reason, x);
  }

  lemma PushKeeps(e: Envelope, chunks: seq<seq<string>>, chunk: seq<string>, next: string)
    requires AllAcceptable(e, chunks + [chunk]) && Saturated(e, chunks + [chunk])
    requires !Acceptable(e, chunk + [next])
    ensures AllAcceptable(e, chunks + [chunk] + [[next]]) && Saturated(e, chunks + [chunk] + [[next]])
  {
    assert Full(e, chunk, [next]) && Acceptable(e, [next]);
    hide Acceptable, Full;
    var before, after := chunks + [chunk], chunks + [chunk] + [[next]];
    forall i, j | 0 <= i && j == i + 1 && j < |after| ensures Full(e, after[i], after[j]) {
      if j < |before| { assert Full(e, before[i], before[j]); }
    }
  }

  lemma ExtendKeeps(e: Envelope, chunks: seq<seq<string>>, chunk: seq<string>, next: string)
    requires chunk != [] && AllAcceptable(e, chunks + [chunk]) && Saturated(e, chunks + [chunk])
    requires Acceptable(e, chunk + [next])
    ensures AllAcceptable(e, chunks + [chunk + [next]]) && Saturated(e, chunks + [chunk + [next]])
  {
    assert forall c :: Full(e, c, chunk) ==> Full(e, c, chunk + [next]);
    hide Acceptable, Full;
    var before, after, last := chunks + [chunk], chunks + [chunk + [next]], |chunks|;
    assert |before| == |after| == last + 1 && before[last] == chunk && after[last] == chunk + [next];
    assert forall i :: 0 <= i < last ==> after[i] == before[i];
    forall i, j | 0 <= i && j == i + 1 && j < |after| ensures Full(e, after[i], after[j]) {
      assert Full(e, before[i], before[j]);
    }
  }

  /** The loop's state after some IRIs: the finished chunks and, once there is one, the current chunk. */
  ghost predicate Splitting(e: Envelope, done: seq<string>, chunks: seq<seq<string>>, current: seq<string>)
  {
    if done == [] then chunks == [] && current == []
    else
      && current != [] && Flatten(chunks + [current]) == done
      && AllAcceptable(e, chunks + [current]) && Saturated(e, chunks + [current])
  }

  lemma SplitStep(e: Envelope, done: seq<string>, chunks: seq<seq<string>>, current: seq<string>, next: string)
    requires Splitting(e, done, chunks, current)
    ensures !FitsIn(e, current + [next]) && current != [] ==> Splitting(e, done + [next], chunks + [current], [next])
    ensures !FitsIn(e, current + [next]) && current == [] ==> Splitting(e, done + [next], chunks, [next])
    ensures FitsIn(e, current + [next]) ==> Splitting(e, done + [next], chunks, current + [next])
  {
    if done == [] {
      assert [] + [next] == [next];
      FlattenPush([], [next]);
      assert [] + [[next]] == [[next]];
    } else {
      assert !FitsIn(e, current + [next]) ==> !Acceptable(e, current + [next]);
      assert FitsIn(e, current + [next]) ==> Acceptable(e, current + [next]);
      hide FitsIn, Acceptable, Saturated, AllAcceptable, Flatten;
      FlattenPush(chunks, current);
      FlattenPush(chunks + [current], [next]);
      FlattenPush(chunks, current + [next]);
      if FitsIn(e, current + [next]) {
        ExtendKeeps(e, chunks, current, next);
      } else {
        PushKeeps(e, chunks, current, next);
      }
    }
  }

  /** Splits a list of IRIs; a non-empty list into the fewest acceptable chunks, in order. */
  method SplitIrisToFit(e: Envelope, iris: seq<string>) returns (chunks: seq<seq<string>>)
    requires HexSigner(e.key)
    ensures Flatten(chunks) == iris
    ensures iris != [] ==> FewestChunks(e, iris, chunks)
    ensures iris == [] ==> chunks == if FitsIn(e, []) then [[]] else []
    ensures AllFit(e, chunks) <==> forall x :: x in iris ==> FitsIn(e, [x])
  {
    hide FitsIn, Acceptable, Fits, HexSigner;
    if FitsIn(e, iris) {
      chunks := [iris];
      WholeListFits(e, iris);
      if iris != [] { ChunksFitIff(e, iris, chunks); }
      return;
    }
    hide Splitting;
    chunks := [];
    var current: seq<string> := [];
    assert Splitting(e, iris[..0], chunks, current) by { NothingSplit(e); }
    for i := 0 to |iris|
      invariant Splitting(e, iris[..i], chunks, current)
    {
      var iri := iris[i];
      SplitStep(e, iris[..i], chunks, current, iri);
      assert iris[..i + 1] == iris[..i] + [iri];
      current := current + [iri];
      if !FitsIn(e, current) {
        current := current[..|current| - 1];
        if current != [] {
          chunks := chunks + [current];
        }
        current := [iri];
      }
    }
    assert iris[..|iris|] == iris;
    SplitEnd(e, iris, chunks, current);
    if current != [] {
      chunks := chunks + [current];
      ChunksFitIff(e, iris, chunks);
    }
  }

  lemma NothingSplit(e: Envelope)
    ensures Splitting(e, [], [], [])
  {
  }

  lemma SplitEnd(e: Envelope, iris: seq<string>, chunks: seq<seq<string>>, current: seq<string>)
    requires HexSigner(e.key) && Splitting(e, iris, chunks, current)
    ensures iris == [] ==> chunks == [] && current == []
    ensures iris != [] ==> current != [] && Flatten(chunks + [current]) == iris && FewestChunks(e, iris, chunks + [current])
  {
    if iris != [] {
      SaturatedIsFewest(e, iris, chunks + [current]);
    }
  }

  lemma WholeListFits(e: Envelope, iris: seq<string>)
    requires HexSigner(e.key) && FitsIn(e, iris)
    ensures Flatten([iris]) == iris
    ensures iris != [] ==> FewestChunks(e, iris, [iris])
  {
    FlattenPush([], iris);
    assert [] + [iris] == [iris];
    if iris != [] {
      SaturatedIsFewest(e, iris, [iris]);
    }
  }
}
