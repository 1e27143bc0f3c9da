/** Selecting the winner in chunks: the checked oracle, its unchecked twin, and the chunking itself. */
module WinnerChunks {
  import opened Outcomes
  import opened Arithmetic
  import opened Weights
  import opened IncrementalTwab
  import opened Settlement

  const T_MAX: int := MAX_AGGREGATE_TWAB

  datatype WinnerState = WinnerState(acceptedTicket: int, prefix: int, found: bool, winnerIndex: int, cursor: int)

  datatype OracleDomain = OracleDomain(chunkSize: int, sliceStart: int, universeSize: int, exclusiveUpperBound: int)

  // ----- specification -----

  /** The participant indices of a slice. */
  function Indices(start: int, count: nat): (s: seq<int>)
    ensures |s| == count && forall i :: 0 <= i < count ==> s[i] == start + i
  {
    seq(count, i => start + i)
  }

  /** The state after a slice: the prefix grows by the whole slice; the winner is where the ticket is first crossed. */
  function Advanced(pre: WinnerState, weights: seq<int>): WinnerState {
    var k := FirstCrossing(weights, pre.acceptedTicket - pre.prefix);
    var hit := !pre.found && k < |weights|;
    pre.(prefix := pre.prefix + Sum(weights),
         found := pre.found || hit,
         winnerIndex := if hit then pre.cursor + k else pre.winnerIndex,
         cursor := pre.cursor + |weights|)
  }

  /** The same, with the winner's index read from the list instead of counted. */
  function Unchecked(pre: WinnerState, indices: seq<int>, weights: seq<int>): WinnerState
    requires |indices| == |weights|
  {
    var k := FirstCrossing(weights, pre.acceptedTicket - pre.prefix);
    Advanced(pre, weights).(winnerIndex := if !pre.found && k < |weights| then indices[k] else pre.winnerIndex)
  }

  predicate Positive(s: seq<int>) {
    forall i :: 0 <= i < |s| ==> 0 < s[i]
  }

  /** When the checked oracle accepts a slice. */
  predicate Acceptable(pre: WinnerState, indices: seq<int>, weights: seq<int>, domain: OracleDomain) {
    && 0 < domain.chunkSize == |indices| == |weights|
    && 0 <= domain.sliceStart == pre.cursor
    && pre.cursor + domain.chunkSize <= domain.exclusiveUpperBound <= domain.universeSize
    && indices == Indices(pre.cursor, |weights|)
    && Positive(weights)
    && pre.prefix + Sum(weights) <= T_MAX
  }

  // ----- the loops of the source -----

  lemma AdvancedByOne(pre: WinnerState, weights: seq<int>, i: nat)
    requires i < |weights|
    ensures var s, s' := Advanced(pre, weights[..i]), Advanced(pre, weights[..i + 1]);
      && s'.prefix == s.prefix + weights[i]
      && s'.cursor == s.cursor + 1
      && (if !s.found && pre.acceptedTicket < s'.prefix then s'.found && s'.winnerIndex == s.cursor
          else s'.found == s.found && s'.winnerIndex == s.winnerIndex)
  {
    assert weights[..i + 1] == weights[..i] + [weights[i]];
    SumConcat(weights[..i], [weights[i]]);
    CrossingConcat(weights[..i], [weights[i]], pre.acceptedTicket - pre.prefix);
  }

  /** The checked transition. Which invariant is reported first is not specified; that one is, is. */
  method WinnerStateTransition(pre: WinnerState, indices: seq<int>, weights: seq<int>, domain: OracleDomain)
      returns (r: Result<WinnerState>)
    ensures r.Ok? <==> Acceptable(pre, indices, weights, domain)
    ensures r.Ok? ==> r.value == Advanced(pre, weights)
    ensures r.Ok? ==> domain.sliceStart == pre.cursor
                      && r.value.cursor == domain.sliceStart + domain.chunkSize <= domain.exclusiveUpperBound
                      && forall i :: 0 <= i < |weights| ==> 0 < weights[i] && indices[i] == domain.sliceStart + i
  {
    if domain.chunkSize < 0 || domain.sliceStart < 0 || domain.universeSize < 0 || domain.exclusiveUpperBound < 0 {
      return Err("must be a non-negative decimal integer");
    }
    if !(domain.chunkSize > 0) {
      return Err("winner oracle requires a non-empty participant slice");
    }
    if !(domain.exclusiveUpperBound <= domain.universeSize) {
      return Err("winner oracle exclusive bound exceeds participant universe");
    }
    if !(|indices| == domain.chunkSize && |weights| == domain.chunkSize) {
      return Err("winner oracle participant length differs from chunk size");
    }
    var cursor := pre.cursor;
    if cursor < 0 {
      return Err("winner oracle cursor must be a non-negative decimal integer");
    }
    if cursor != domain.sliceStart {
      return Err("winner oracle cursor differs from registered slice start");
    }
    if !(cursor < domain.exclusiveUpperBound) {
      return Err("winner oracle cursor is outside the participant universe");
    }
    if !(cursor + domain.chunkSize <= domain.exclusiveUpperBound) {
      return Err("winner oracle participant slice exceeds exclusive bound");
    }
    r := WalkSlice(pre, indices, weights, domain.universeSize);
    if r.Err? {
      return;
    }
    if r.value.cursor != domain.sliceStart + domain.chunkSize {
      return Err("winner oracle final cursor drift");
    }
    if !(r.value.cursor <= domain.exclusiveUpperBound) {
      return Err("winner oracle final cursor exceeds exclusive bound");
    }
  }

  lemma PrefixWithinTotal(weights: seq<int>, i: nat)
    requires Positive(weights) && i <= |weights|
    ensures Sum(weights[..i]) <= Sum(weights)
  {
    TotalOfPrefixes(weights, i);
  }

  /** The loop of the checked transition. */
  method WalkSlice(pre: WinnerState, indices: seq<int>, weights: seq<int>, universeSize: int)
      returns (r: Result<WinnerState>)
    requires 0 < |indices| == |weights| && 0 <= pre.cursor && pre.cursor + |weights| <= universeSize
    ensures r.Ok? <==>
      indices == Indices(pre.cursor, |weights|) && Positive(weights) && pre.prefix + Sum(weights) <= T_MAX
    ensures r.Ok? ==> r.value == Advanced(pre, weights)
  {
    var prefix, found, winnerIndex, cursor := pre.prefix, pre.found, pre.winnerIndex, pre.cursor;
    assert Advanced(pre, weights[..0]) == pre;
    for index := 0 to |indices|
      invariant WinnerState(pre.acceptedTicket, prefix, found, winnerIndex, cursor) == Advanced(pre, weights[..index])
      invariant forall i :: 0 <= i < index ==> indices[i] == pre.cursor + i && 0 < weights[i]
      invariant 0 < index ==> prefix <= T_MAX
    {
      AdvancedByOne(pre, weights, index);
      if indices[index] < 0 || !(indices[index] < universeSize) {
        return Err("winner oracle participant index outside registered universe");
      }
      if indices[index] != cursor {
        return Err("winner oracle participant index drift");
      }
      if index > 0 && indices[index] != indices[index - 1] + 1 {
        assert false;
        return Err("winner oracle participant indices are not contiguous");
      }
      if !(weights[index] > 0) {
        return Err("implicit or zero winner participant");
      }
      prefix := prefix + weights[index];
      if !(prefix <= T_MAX) {
        if Positive(weights) {
          PrefixWithinTotal(weights, index + 1);
        }
        return Err("winner prefix exceeds SG-3 total");
      }
      if !found && pre.acceptedTicket < prefix {
        found, winnerIndex := true, cursor;
      }
      cursor := cursor + 1;
    }
    assert weights[..|weights|] == weights;
    return Ok(WinnerState(pre.acceptedTicket, prefix, found, winnerIndex, cursor));
  }

  /** The unchecked twin reads the winner's index from the list it is given. */
  method BuildWinnerPostState(pre: WinnerState, indices: seq<int>, weights: seq<int>) returns (post: WinnerState)
    requires |indices| == |weights|
    ensures post == Unchecked(pre, indices, weights)
  {
    var prefix, found, winnerIndex, cursor := pre.prefix, pre.found, pre.winnerIndex, pre.cursor;
    ghost var k := FirstCrossing(weights, pre.acceptedTicket - pre.prefix);
    for offset := 0 to |weights|
      invariant prefix == pre.prefix + Sum(weights[..offset]) && cursor == pre.cursor + offset
      invariant found == (pre.found || k < offset)
      invariant winnerIndex == if !pre.found && k < offset then indices[k] else pre.winnerIndex
    {
      SumNext(weights, offset);
      FirstCrossingIsFirst(weights, pre.acceptedTicket - pre.prefix);
      prefix := prefix + weights[offset];
      var matches := pre.acceptedTicket < prefix;
      if !found && matches {
        found, winnerIndex := true, indices[offset];
      }
      cursor := cursor + 1;
    }
    assert weights[..|weights|] == weights;
    return WinnerState(pre.acceptedTicket, prefix, found, winnerIndex, cursor);
  }

  /** What the twin reports, for weights of any sign and any list: the winner is the listed index at the first position
      whose prefix exceeds the ticket, if there is one and none was found before. */
  lemma TwinReadsTheList(pre: WinnerState, indices: seq<int>, weights: seq<int>, k: nat)
    requires |indices| == |weights| && k < |weights| && !pre.found
    requires pre.acceptedTicket < pre.prefix + Sum(weights[..k + 1])
    requires forall j :: 0 < j <= k ==> pre.prefix + Sum(weights[..j]) <= pre.acceptedTicket
    ensures var post := Unchecked(pre, indices, weights);
      post.found && post.winnerIndex == indices[k] && post.cursor == pre.cursor + |weights|
  {
    var ticket := pre.acceptedTicket - pre.prefix;
    FirstCrossingIsFirst(weights, ticket);
    var c := FirstCrossing(weights, ticket);
    assert c == k;
  }

  /** Where the checked oracle accepts, the twin gives the same state; where the indices are wrong, it may not. */
  lemma TwinsAgree(pre: WinnerState, indices: seq<int>, weights: seq<int>, domain: OracleDomain)
    requires Acceptable(pre, indices, weights, domain)
    ensures Unchecked(pre, indices, weights) == Advanced(pre, weights)
  {
    var k := FirstCrossing(weights, pre.acceptedTicket - pre.prefix);
    assert k < |weights| ==> indices[k] == pre.cursor + k;
  }

  // ----- deterministic chunks -----

  function Min(a: int, b: int): int {
    if a <= b then a else b
  }

  /** The number of chunks: the quotient rounded up. */
  function ChunkCount(n: nat, k: int): (c: nat)
    requires 0 < k
    ensures c * k >= n && (n > 0 ==> 0 < c && (c - 1) * k < n) && (n == 0 ==> c == 0)
  {
    CeilingLaw(n, k);
    (n + k - 1) / k
  }

  lemma CeilingLaw(n: nat, k: int)
    requires 0 < k
    ensures var c := (n + k - 1) / k; c * k >= n && c >= 0 && (n > 0 ==> 0 < c && (c - 1) * k < n) && (n == 0 ==> c == 0)
  {
    var m := n + k - 1;
    var c := m / k;
    assert m == c * k + m % k && 0 <= m % k < k;
    assert (c - 1) * k == c * k - k;
    assert c <= -1 ==> c * k <= -k;
    if n == 0 {
      assert c >= 1 ==> c * k >= k;
    } else {
      assert c <= 0 ==> c * k <= 0;
    }
  }

  function Chunk(n: nat, k: int, j: nat): seq<int>
    requires 0 < k && j * k <= n
  {
    Indices(j * k, Min((j + 1) * k, n) - j * k)
  }

  function Flatten(chunks: seq<seq<int>>): seq<int> {
    if chunks == [] then [] else Flatten(chunks[..|chunks| - 1]) + chunks[|chunks| - 1]
  }

  /** The list consists of the first chunks, in order. */
  ghost predicate AreChunks(chunks: seq<seq<int>>, n: nat, k: int)
    requires 0 < k
  {
    forall j :: 0 <= j < |chunks| ==> j * k < n && chunks[j] == Chunk(n, k, j)
  }

  lemma IndicesConcat(start: int, a: nat, b: nat)
    ensures Indices(start, a) + Indices(start + a, b) == Indices(start, a + b)
  {
  }

  lemma NextMultiple(j: int, k: int)
    ensures (j + 1) * k == j * k + k
  {
  }

  lemma FlattenNext(chunks: seq<seq<int>>, chunk: seq<int>)
    ensures Flatten(chunks + [chunk]) == Flatten(chunks) + chunk
  {
    assert (chunks + [chunk])[..|chunks|] == chunks;
  }

  lemma NextChunk(n: nat, k: int, chunks: seq<seq<int>>, chunk: seq<int>)
    requires 0 < k && |chunks| * k < n && AreChunks(chunks, n, k)
    requires chunk == Indices(|chunks| * k, Min(|chunks| * k + k, n) - |chunks| * k)
    ensures AreChunks(chunks + [chunk], n, k)
  {
    var longer := chunks + [chunk];
    NextMultiple(|chunks|, k);
    forall j | 0 <= j < |longer| ensures j * k < n && longer[j] == Chunk(n, k, j) {
      if j < |chunks| {
        assert longer[j] == chunks[j];
      }
    }
  }

  const MAX_SAFE_INTEGER: int := 9_007_199_254_740_991

  /** Chunks of the requested size, the last one shorter, that read 0, 1, .., n - 1 from left to right. */
  method DeterministicChunks(n: int, k: int) returns (r: Result<seq<seq<int>>>)
    ensures r.Ok? <==> 0 <= n <= MAX_SAFE_INTEGER && 0 < k <= MAX_SAFE_INTEGER
    ensures r.Err? ==> r.error == if !(0 <= n <= MAX_SAFE_INTEGER) then "invalid participant count" else "invalid chunk size"
    ensures r.Ok? ==> |r.value| == ChunkCount(n, k) && Flatten(r.value) == Indices(0, n) && AreChunks(r.value, n, k)
  {
    if n < 0 || n > MAX_SAFE_INTEGER {
      return Err("invalid participant count");
    }
    if k <= 0 || k > MAX_SAFE_INTEGER {
      return Err("invalid chunk size");
    }
    var chunks := CollectChunks(n, k);
    return Ok(chunks);
  }

  /** What the loop has collected when its cursor stands at `cursor`. */
  ghost predicate Collected(chunks: seq<seq<int>>, n: nat, k: int, cursor: int)
    requires 0 < k
  {
    && 0 <= cursor == |chunks| * k
    && (cursor > 0 ==> cursor - k < n)
    && Flatten(chunks) == Indices(0, Min(cursor, n))
    && AreChunks(chunks, n, k)
  }

  lemma CollectStep(chunks: seq<seq<int>>, n: nat, k: int, cursor: int, chunk: seq<int>)
    requires 0 < k && Collected(chunks, n, k, cursor) && cursor < n
    requires chunk == Indices(cursor, Min(cursor + k, n) - cursor)
    ensures Collected(chunks + [chunk], n, k, cursor + k)
  {
    NextMultiple(|chunks|, k);
    NextChunk(n, k, chunks, chunk);
    FlattenNext(chunks, chunk);
    IndicesConcat(0, cursor, Min(cursor + k, n) - cursor);
  }

  lemma CollectEnd(chunks: seq<seq<int>>, n: nat, k: int, cursor: int)
    requires 0 < k && Collected(chunks, n, k, cursor) && n <= cursor
    ensures |chunks| == ChunkCount(n, k) && Flatten(chunks) == Indices(0, n)
  {
    NextMultiple(|chunks| - 1, k);
    CountIsUnique(n, k, |chunks|);
  }

  /** The loop of the source. */
  method CollectChunks(n: nat, k: int) returns (chunks: seq<seq<int>>)
    requires 0 < k
    ensures |chunks| == ChunkCount(n, k) && Flatten(chunks) == Indices(0, n) && AreChunks(chunks, n, k)
  {
    chunks := [];
    var cursor := 0;
    while cursor < n
      invariant Collected(chunks, n, k, cursor)
      decreases n - cursor
    {
      var end := Min(cursor + k, n);
      var chunk := seq(end - cursor, offset => cursor + offset);
      assert chunk == Indices(cursor, end - cursor);
      CollectStep(chunks, n, k, cursor, chunk);
      chunks := chunks + [chunk];
      cursor := cursor + k;
    }
    CollectEnd(chunks, n, k, cursor);
  }

  lemma CountIsUnique(n: nat, k: int, c: nat)
    requires 0 < k && c * k >= n && (c > 0 ==> (c - 1) * k < n)
    ensures c == ChunkCount(n, k)
  {
    var d := ChunkCount(n, k);
    if c > d {
      Scaled(k, d, c - 1);
    } else if d > c {
      Scaled(k, c, d - 1);
    }
  }

  // ----- chunk invariance -----

  /** One checked call, as a function. */
  function Transition(pre: WinnerState, indices: seq<int>, weights: seq<int>, domain: OracleDomain): Result<WinnerState> {
    if Acceptable(pre, indices, weights, domain) then Ok(Advanced(pre, weights))
    else Err("winner oracle invariant failed")
  }

  predicate Within(indices: seq<int>, n: nat) {
    forall i :: 0 <= i < |indices| ==> 0 <= indices[i] < n
  }

  function WeightsAt(weights: seq<int>, indices: seq<int>): (ws: seq<int>)
    requires Within(indices, |weights|)
    ensures |ws| == |indices|
  {
    seq(|indices|, i requires 0 <= i < |indices| => weights[indices[i]])
  }

  /** The call over one chunk of the participants. */
  function CallOver(pre: WinnerState, weights: seq<int>, chunk: seq<int>): Result<WinnerState>
    requires Within(chunk, |weights|)
  {
    var start := if chunk == [] then 0 else chunk[0];
    Transition(pre, chunk, WeightsAt(weights, chunk), OracleDomain(|chunk|, start, |weights|, |weights|))
  }

  /** One call per chunk, each continuing from the state the previous one left; the first refusal ends the chain. */
  function RunChunks(pre: WinnerState, weights: seq<int>, chunks: seq<seq<int>>): Result<WinnerState>
    requires forall j :: 0 <= j < |chunks| ==> Within(chunks[j], |weights|)
  {
    if chunks == [] then Ok(pre)
    else
      var before := RunChunks(pre, weights, chunks[..|chunks| - 1]);
      if before.Err? then before else CallOver(before.value, weights, chunks[|chunks| - 1])
  }

  /** Non-empty chunks that read 0, 1, .., m - 1 from left to right. */
  ghost predicate Covers(chunks: seq<seq<int>>, m: nat) {
    Flatten(chunks) == Indices(0, m) && forall j :: 0 <= j < |chunks| ==> chunks[j] != []
  }

  /** Such a list is a shorter one and one more slice. */
  lemma {:induction false} CoversLast(chunks: seq<seq<int>>, m: nat)
    requires Covers(chunks, m) && chunks != []
    ensures var front, last := chunks[..|chunks| - 1], chunks[|chunks| - 1];
      |last| <= m && Covers(front, m - |last|) && last == Indices(m - |last|, |last|)
  {
    var front, last := chunks[..|chunks| - 1], chunks[|chunks| - 1];
    var all := Indices(0, m);
    assert all == Flatten(front) + last;
    assert all[..|all| - |last|] == Flatten(front) && all[|all| - |last|..] == last;
    assert Flatten(front) == Indices(0, m - |last|);
    assert last == Indices(m - |last|, |last|);
  }

  lemma {:induction false} CoversWithin(chunks: seq<seq<int>>, m: nat)
    requires Covers(chunks, m)
    ensures forall j :: 0 <= j < |chunks| ==> Within(chunks[j], m)
  {
    if chunks != [] {
      CoversLast(chunks, m);
      CoversWithin(chunks[..|chunks| - 1], m - |chunks[|chunks| - 1]|);
    }
  }

  lemma {:induction false} AdvancedTwice(pre: WinnerState, s: seq<int>, t: seq<int>)
    ensures Advanced(Advanced(pre, s), t) == Advanced(pre, s + t)
  {
    SumConcat(s, t);
    CrossingConcat(s, t, pre.acceptedTicket - pre.prefix);
    assert pre.acceptedTicket - pre.prefix - Sum(s) == pre.acceptedTicket - (pre.prefix + Sum(s));
  }

  lemma {:induction false} PositiveSums(s: seq<int>, t: seq<int>)
    ensures Positive(s + t) <==> Positive(s) && Positive(t)
    ensures Positive(t) ==> Sum(t) >= 0 && Sum(s + t) >= Sum(s)
  {
    assert forall i :: 0 <= i < |s| ==> (s + t)[i] == s[i];
    assert forall i :: 0 <= i < |t| ==> (s + t)[|s| + i] == t[i];
    SumConcat(s, t);
    if Positive(t) {
      TotalOfPrefixes(t, |t|);
      assert t[..|t|] == t;
    }
  }

  /** One more call, from the state reached over the first `m` participants. */
  lemma {:induction false} ChunkStep(pre: WinnerState, weights: seq<int>, m: nat, chunk: seq<int>)
    requires pre.cursor == 0 && chunk != [] && m + |chunk| <= |weights| && chunk == Indices(m, |chunk|)
    ensures var r, done := CallOver(Advanced(pre, weights[..m]), weights, chunk), weights[..m + |chunk|];
      && (r.Ok? <==> Positive(weights[m..m + |chunk|]) && pre.prefix + Sum(done) <= T_MAX)
      && (r.Ok? ==> r.value == Advanced(pre, done))
  {
    var front, slice := weights[..m], weights[m..m + |chunk|];
    assert weights[..m + |chunk|] == front + slice;
    assert WeightsAt(weights, chunk) == slice;
    AdvancedTwice(pre, front, slice);
    SumConcat(front, slice);
  }

  /** How far a chain of calls gets. */
  lemma {:induction false} ChunkPrefix(pre: WinnerState, weights: seq<int>, chunks: seq<seq<int>>, m: nat)
    requires pre.cursor == 0 && m <= |weights| && Covers(chunks, m)
    ensures forall j :: 0 <= j < |chunks| ==> Within(chunks[j], |weights|)
    ensures var r, done := RunChunks(pre, weights, chunks), weights[..m];
      && (r.Ok? <==> chunks == [] || (Positive(done) && pre.prefix + Sum(done) <= T_MAX))
      && (r.Ok? ==> r.value == Advanced(pre, done))
    decreases |chunks|
  {
    CoversWithin(chunks, m);
    if chunks == [] {
      assert Indices(0, m) == [] && weights[..m] == [];
    } else {
      var front, last := chunks[..|chunks| - 1], chunks[|chunks| - 1];
      var start := m - |last|;
      CoversLast(chunks, m);
      ChunkPrefix(pre, weights, front, start);
      ChunkStep(pre, weights, start, last);
      assert weights[..m] == weights[..start] + weights[start..m];
      PositiveSums(weights[..start], weights[start..m]);
      if front == [] {
        assert start == 0 by { assert |Indices(0, start)| == start; }
      }
    }
  }

  /** Interrupting changes nothing: for every division of the participants into consecutive non-empty slices, of whatever
      sizes, the chain of checked calls accepts iff the single call over everybody does, and reaches the same state. */
  lemma {:induction false} SlicingIsIrrelevant(pre: WinnerState, weights: seq<int>, chunks: seq<seq<int>>)
    requires pre.cursor == 0 && 0 < |weights| && Covers(chunks, |weights|)
    ensures forall j :: 0 <= j < |chunks| ==> Within(chunks[j], |weights|)
    ensures RunChunks(pre, weights, chunks).Ok? <==> CallOver(pre, weights, Indices(0, |weights|)).Ok?
    ensures RunChunks(pre, weights, chunks).Ok? ==>
      RunChunks(pre, weights, chunks) == CallOver(pre, weights, Indices(0, |weights|))
  {
    ChunkPrefix(pre, weights, chunks, |weights|);
    assert weights[..|weights|] == weights;
    assert WeightsAt(weights, Indices(0, |weights|)) == weights;
    assert chunks != [];
  }

  lemma {:induction false} AreChunksNonEmpty(chunks: seq<seq<int>>, n: nat, k: int)
    requires 0 < k && AreChunks(chunks, n, k)
    ensures forall j :: 0 <= j < |chunks| ==> chunks[j] != []
  {
    forall j | 0 <= j < |chunks| ensures chunks[j] != [] {
      NextMultiple(j, k);
      assert chunks[j] == Chunk(n, k, j);
    }
  }

  /** Chunk invariance: the lists that `DeterministicChunks` returns, for any chunk size, are such a division. */
  lemma {:induction false} ChunkSizeIsIrrelevant(pre: WinnerState, weights: seq<int>, k: int, chunks: seq<seq<int>>)
    requires 0 < k && pre.cursor == 0 && 0 < |weights|
    requires Flatten(chunks) == Indices(0, |weights|) && AreChunks(chunks, |weights|, k)
    ensures forall j :: 0 <= j < |chunks| ==> Within(chunks[j], |weights|)
    ensures RunChunks(pre, weights, chunks).Ok? <==> CallOver(pre, weights, Indices(0, |weights|)).Ok?
    ensures RunChunks(pre, weights, chunks).Ok? ==>
      RunChunks(pre, weights, chunks) == CallOver(pre, weights, Indices(0, |weights|))
  {
    AreChunksNonEmpty(chunks, |weights|, k);
    SlicingIsIrrelevant(pre, weights, chunks);
  }

  /** From the zero state, chunked selection over positive weights finds the winner that settlement pays. */
  lemma {:induction false} ChunksFindTheSettledWinner(
      ps: seq<DrawParticipant>, chunks: seq<seq<int>>, ticket: int, prize: int, timestamp: int, principalCap: int)
    requires Covers(chunks, |ps|) && Positive(WeightsOf(ps)) && Sum(WeightsOf(ps)) <= T_MAX
    requires 0 <= ticket < Sum(WeightsOf(ps)) && 0 <= prize
    ensures forall j :: 0 <= j < |chunks| ==> Within(chunks[j], |ps|)
    ensures var r := RunChunks(WinnerState(ticket, 0, false, 0, 0), WeightsOf(ps), chunks);
            var s := SettleOutcome(ps, ticket, prize, timestamp, principalCap);
      && r.Ok? && s.Ok?
      && r.value == WinnerState(ticket, s.value.finalCumulative, true, s.value.winnerIndex, |ps|)
  {
    var ws, zero := WeightsOf(ps), WinnerState(ticket, 0, false, 0, 0);
    ChunkPrefix(zero, ws, chunks, |ps|);
    assert ws[..|ps|] == ws && |ps| > 0;
    CrossingInterval(ws, ticket, 0);
  }

  // ----- transaction counts -----

  /** The projected number of transactions is the least that covers the participants, the number of chunks that are
      actually made; they take that many times the latency of one. */
  function ProjectSequentialCompletion(participants: int, chunkSize: int, p90ChunkLatency: int): (r: Result<(int, int)>)
    ensures r.Ok? <==> participants > 0 && chunkSize > 0 && p90ChunkLatency >= 0
    ensures r.Ok? ==> (r.value.0 - 1) * chunkSize < participants <= r.value.0 * chunkSize
    ensures r.Ok? ==> r.value.0 == ChunkCount(participants, chunkSize)
    ensures r.Ok? ==> r.value.1 == r.value.0 * p90ChunkLatency
  {
    if !(participants > 0 && chunkSize > 0 && p90ChunkLatency >= 0) then Err("invalid projection input")
    else
      CeilingLaw(participants, chunkSize);
      var transactions := (participants + chunkSize - 1) / chunkSize;
      Ok((transactions, transactions * p90ChunkLatency))
  }
}
