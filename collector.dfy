/** The batching collector: it receives patch ids from the channel, resolves
    them in batches and accumulates the records of every batch, until the
    producer's `End` message. */
module Collector {
  import opened Records
  import opened Transform

  /** The batch width the collector's `>=` test produces: a batch size of 0
      is not rejected, and flushes after every single id. */
  function Width(batchSize: nat): (k: nat)
    ensures k >= 1
    ensures batchSize >= 1 ==> k == batchSize
  {
    if batchSize == 0 then 1 else batchSize
  }

  /** The consecutive full chunks of `k` elements at the front of `s`. */
  function FullChunks<T>(s: seq<T>, k: nat): seq<seq<T>>
    requires k >= 1
    decreases |s|
  {
    if |s| < k then [] else [s[..k]] + FullChunks(s[k..], k)
  }

  /** What is left of `s` after its full chunks of `k`: fewer than `k` elements. */
  function Leftover<T>(s: seq<T>, k: nat): (r: seq<T>)
    requires k >= 1
    ensures |r| < k
    decreases |s|
  {
    if |s| < k then s else Leftover(s[k..], k)
  }

  /** The concatenation of the sequences of `ss`, in order. */
  function Flatten<T>(ss: seq<seq<T>>): seq<T>
    decreases |ss|
  {
    if ss == [] then [] else ss[0] + Flatten(ss[1..])
  }

  lemma {:induction false} FlattenSnoc<T>(ss: seq<seq<T>>, x: seq<T>)
    ensures Flatten(ss + [x]) == Flatten(ss) + x
    decreases |ss|
  {
    if ss == [] {
      assert [] + [x] == [x];
      assert Flatten([x]) == x + Flatten([x][1..]);
    } else {
      assert (ss + [x])[1..] == ss[1..] + [x];
      FlattenSnoc(ss[1..], x);
    }
  }

  /** The full chunks followed by the leftover give back `s`; every full
      chunk has exactly `k` elements. */
  lemma {:induction false} ChunksPartition<T>(s: seq<T>, k: nat)
    requires k >= 1
    ensures Flatten(FullChunks(s, k)) + Leftover(s, k) == s
    ensures forall j | 0 <= j < |FullChunks(s, k)| :: |FullChunks(s, k)[j]| == k
    decreases |s|
  {
    if |s| >= k {
      ChunksPartition(s[k..], k);
      assert s == s[..k] + s[k..];
    }
  }

  /** There are `|s| / k` full chunks and `|s| % k` elements left over. */
  lemma {:induction false} ChunksCount<T>(s: seq<T>, k: nat)
    requires k >= 1
    ensures |FullChunks(s, k)| == |s| / k
    ensures |Leftover(s, k)| == |s| % k
    decreases |s|
  {
    if |s| >= k {
      ChunksCount(s[k..], k);
      DivModStep(|s| - k, k);
    }
  }

  lemma DivModStep(a: nat, k: nat)
    requires k >= 1
    ensures (a + k) / k == a / k + 1
    ensures (a + k) % k == a % k
  {
    var q, r := a / k, a % k;
    assert a == q * k + r;
    assert a + k == (q + 1) * k + r;
    DivModUnique(a + k, k, q + 1, r);
  }

  lemma DivModUnique(n: nat, k: nat, q: int, r: int)
    requires k >= 1 && 0 <= r < k && n == q * k + r
    ensures n / k == q && n % k == r
  {
    var q', r' := n / k, n % k;
    assert n == q' * k + r';
    if q' < q {
      MulAtLeast(q - q', k);
      assert false;
    } else if q' > q {
      MulAtLeast(q' - q, k);
      assert false;
    }
  }

  lemma {:induction false} MulAtLeast(d: int, k: int)
    requires d >= 1 && k >= 1
    ensures d * k >= k
    decreases d
  {
    if d > 1 {
      MulAtLeast(d - 1, k);
      assert d * k == (d - 1) * k + k;
    }
  }

  /** Adding one element either completes a chunk (the leftover plus the new
      element becomes the next full chunk, and nothing is left) or grows the
      leftover by that element. */
  lemma {:induction false} ChunksSnoc<T>(s: seq<T>, x: T, k: nat)
    requires k >= 1
    ensures |Leftover(s, k)| + 1 == k ==>
      FullChunks(s + [x], k) == FullChunks(s, k) + [Leftover(s, k) + [x]] && Leftover(s + [x], k) == []
    ensures |Leftover(s, k)| + 1 < k ==>
      FullChunks(s + [x], k) == FullChunks(s, k) && Leftover(s + [x], k) == Leftover(s, k) + [x]
    decreases |s|
  {
    var t := s + [x];
    if |s| < k {
      if |s| + 1 == k {
        assert t[..k] == t && t[k..] == [];
      }
    } else {
      assert t[..k] == s[..k] && t[k..] == s[k..] + [x];
      ChunksSnoc(s[k..], x, k);
    }
  }

  /** The position of the first `End` message, or the length of the stream
      when there is none. */
  function FirstEnd(msgs: seq<Action>): (n: nat)
    ensures n <= |msgs|
    ensures forall j | 0 <= j < n :: msgs[j].PatchId?
    ensures n < |msgs| ==> msgs[n].End?
    decreases |msgs|
  {
    if msgs == [] || msgs[0].End? then 0 else 1 + FirstEnd(msgs[1..])
  }

  /** Whether the stream holds an `End` message. */
  predicate Ended(msgs: seq<Action>) {
    FirstEnd(msgs) < |msgs|
  }

  /** The patch ids of a stream of messages, in order. */
  function IdsOf(msgs: seq<Action>): seq<string>
    decreases |msgs|
  {
    if msgs == [] then []
    else
      IdsOf(msgs[..|msgs| - 1]) +
      match msgs[|msgs| - 1]
      case PatchId(id) => [id]
      case End => []
  }

  /** The ids the collector takes in: those sent before the first `End`. */
  function ReceivedIds(msgs: seq<Action>): seq<string> {
    IdsOf(msgs[..FirstEnd(msgs)])
  }

  /** The batches the collector resolves, in order: every full batch, and on
      `End` the leftover ids when there are any. When the stream runs out
      without `End` the leftover is never resolved. */
  function Rounds(msgs: seq<Action>, batchSize: nat): seq<seq<string>> {
    var ids, k := ReceivedIds(msgs), Width(batchSize);
    FullChunks(ids, k) + if Ended(msgs) && Leftover(ids, k) != [] then [Leftover(ids, k)] else []
  }

  /** `join_all` over the lookups of one batch: one result per id, in id order. */
  function Resolve(resolve: Resolver, batch: seq<string>): seq<PatchResult> {
    seq(|batch|, i requires 0 <= i < |batch| => resolve(batch[i]))
  }

  /** The records accumulated over the resolved batches, batch after batch. */
  function RoundRecords(resolve: Resolver, rounds: seq<seq<string>>): seq<Record>
    decreases |rounds|
  {
    if rounds == [] then []
    else RoundRecords(resolve, rounds[..|rounds| - 1]) + Transformed(Resolve(resolve, rounds[|rounds| - 1]))
  }

  /** `patch_collector`: receive messages until `End`, pushing ids into the
      buffer and resolving it whenever its length reaches the batch size; on
      `End` resolve a non-empty leftover buffer and stop. A stream that runs
      out without `End` stands for a closed channel: the loop ends and the
      buffer is not resolved. `rounds` is the trace of resolved batches and
      `consumed` the number of messages read. */
  method PatchCollector(msgs: seq<Action>, batchSize: nat, resolve: Resolver)
    returns (records: seq<Record>, count: nat, patchIds: seq<string>,
             ghost rounds: seq<seq<string>>, ghost consumed: nat)
    ensures rounds == Rounds(msgs, batchSize)
    ensures records == RoundRecords(resolve, rounds)
    ensures count == |FullChunks(ReceivedIds(msgs), Width(batchSize))|
    ensures patchIds == Leftover(ReceivedIds(msgs), Width(batchSize))
    ensures |patchIds| < Width(batchSize)
    ensures consumed == if Ended(msgs) then FirstEnd(msgs) + 1 else |msgs|
  {
    ghost var k := Width(batchSize);
    patchIds, records, count := [], [], 0;
    rounds := [];
    var i := 0;
    while i < |msgs|
      invariant i <= FirstEnd(msgs)
      invariant patchIds == Leftover(IdsOf(msgs[..i]), k)
      invariant rounds == FullChunks(IdsOf(msgs[..i]), k)
      invariant count == |rounds|
      invariant records == RoundRecords(resolve, rounds)
    {
      match msgs[i]
      case PatchId(patchId) =>
        ghost var ids := IdsOf(msgs[..i]);
        assert msgs[..i + 1][..i] == msgs[..i];
        assert IdsOf(msgs[..i + 1]) == ids + [patchId];
        ChunksSnoc(ids, patchId, k);
        patchIds := patchIds + [patchId];
        if |patchIds| >= batchSize {
          count := count + 1;
          var patches := Resolve(resolve, patchIds);
          var batchRecords := ProcessPatches(patches);
          assert (rounds + [patchIds])[..|rounds|] == rounds;
          records := records + batchRecords;
          rounds := rounds + [patchIds];
          patchIds := [];
        }
        i := i + 1;
      case End =>
        if |patchIds| > 0 {
          var patches := Resolve(resolve, patchIds);
          var batchRecords := ProcessPatches(patches);
          assert (rounds + [patchIds])[..|rounds|] == rounds;
          records := records + batchRecords;
          rounds := rounds + [patchIds];
        }
        break;
    }
    consumed := if i < |msgs| then i + 1 else |msgs|;
    assert i < |msgs| ==> i == FirstEnd(msgs);
    assert i == |msgs| ==> msgs[..i] == msgs;
  }

  lemma FirstEndUnique(msgs: seq<Action>, n: nat)
    requires n <= |msgs|
    requires forall j | 0 <= j < n :: msgs[j].PatchId?
    requires n < |msgs| ==> msgs[n].End?
    ensures FirstEnd(msgs) == n
  {
  }

  /** Batch partitioning: after `End` the resolved batches, concatenated in
      order, are exactly the ids received before `End`; without `End` they
      are followed by the ids left unresolved in the buffer. */
  lemma RoundsPartition(msgs: seq<Action>, batchSize: nat)
    ensures Ended(msgs) ==> Flatten(Rounds(msgs, batchSize)) == ReceivedIds(msgs)
    ensures !Ended(msgs) ==>
      Flatten(Rounds(msgs, batchSize)) + Leftover(ReceivedIds(msgs), Width(batchSize)) == ReceivedIds(msgs)
  {
    var ids, k := ReceivedIds(msgs), Width(batchSize);
    ChunksPartition(ids, k);
    if Ended(msgs) && Leftover(ids, k) != [] {
      FlattenSnoc(FullChunks(ids, k), Leftover(ids, k));
    } else {
      assert Rounds(msgs, batchSize) == FullChunks(ids, k);
    }
  }

  /** Batch sizes: every resolved batch is non-empty and at most the batch
      width, and every batch but the last holds exactly the batch width. */
  lemma RoundSizes(msgs: seq<Action>, batchSize: nat)
    ensures forall j | 0 <= j < |Rounds(msgs, batchSize)| ::
      1 <= |Rounds(msgs, batchSize)[j]| <= Width(batchSize)
    ensures forall j | 0 <= j < |Rounds(msgs, batchSize)| - 1 ::
      |Rounds(msgs, batchSize)[j]| == Width(batchSize)
  {
    ChunksPartition(ReceivedIds(msgs), Width(batchSize));
  }

  /** Number of rounds: after `End`, ceil(n / width) for the n ids received;
      without `End`, floor(n / width). */
  lemma RoundCount(msgs: seq<Action>, batchSize: nat)
    ensures Ended(msgs) ==>
      |Rounds(msgs, batchSize)| == (|ReceivedIds(msgs)| + Width(batchSize) - 1) / Width(batchSize)
    ensures !Ended(msgs) ==>
      |Rounds(msgs, batchSize)| == |ReceivedIds(msgs)| / Width(batchSize)
  {
    var ids, k := ReceivedIds(msgs), Width(batchSize);
    ChunksCount(ids, k);
    CeilDiv(|ids|, k);
  }

  lemma CeilDiv(n: nat, k: nat)
    requires k >= 1
    ensures (n + k - 1) / k == n / k + (if n % k == 0 then 0 else 1)
  {
    var q, r := n / k, n % k;
    assert n == q * k + r;
    if r == 0 {
      DivModUnique(n + k - 1, k, q, k - 1);
    } else {
      assert n + k - 1 == (q + 1) * k + (r - 1);
      DivModUnique(n + k - 1, k, q + 1, r - 1);
    }
  }

  /** No message after `End` is processed: whatever follows the first `End`
      changes neither the ids received nor the batches resolved. */
  lemma AfterEndIgnored(msgs: seq<Action>, tail: seq<Action>, batchSize: nat)
    requires Ended(msgs)
    ensures FirstEnd(msgs + tail) == FirstEnd(msgs)
    ensures ReceivedIds(msgs + tail) == ReceivedIds(msgs)
    ensures Rounds(msgs + tail, batchSize) == Rounds(msgs, batchSize)
  {
    var f := FirstEnd(msgs);
    FirstEndUnique(msgs + tail, f);
    assert (msgs + tail)[..f] == msgs[..f];
  }

  lemma ResolveConcat(resolve: Resolver, a: seq<string>, b: seq<string>)
    ensures Resolve(resolve, a + b) == Resolve(resolve, a) + Resolve(resolve, b)
  {
  }

  /** The records of a sequence of batches are the records of all their ids
      resolved at once: batching preserves content and order. */
  lemma {:induction false} RoundRecordsFlatten(resolve: Resolver, rounds: seq<seq<string>>)
    ensures RoundRecords(resolve, rounds) == Transformed(Resolve(resolve, Flatten(rounds)))
    decreases |rounds|
  {
    if rounds == [] {
      assert Resolve(resolve, []) == [];
    } else {
      var init, last := rounds[..|rounds| - 1], rounds[|rounds| - 1];
      RoundRecordsFlatten(resolve, init);
      assert rounds == init + [last];
      FlattenSnoc(init, last);
      ResolveConcat(resolve, Flatten(init), last);
      TransformedConcat(Resolve(resolve, Flatten(init)), Resolve(resolve, last));
    }
  }

  /** The accumulated records are the transform of every received id
      resolved in order; without `End` the ids still in the buffer are lost. */
  lemma CollectedRecords(msgs: seq<Action>, batchSize: nat, resolve: Resolver)
    ensures Ended(msgs) ==>
      RoundRecords(resolve, Rounds(msgs, batchSize)) == Transformed(Resolve(resolve, ReceivedIds(msgs)))
    ensures !Ended(msgs) ==>
      var ids := ReceivedIds(msgs);
      RoundRecords(resolve, Rounds(msgs, batchSize))
        == Transformed(Resolve(resolve, ids[..|ids| - |Leftover(ids, Width(batchSize))|]))
  {
    var ids := ReceivedIds(msgs);
    RoundsPartition(msgs, batchSize);
    RoundRecordsFlatten(resolve, Rounds(msgs, batchSize));
    if !Ended(msgs) {
      var flat := Flatten(Rounds(msgs, batchSize));
      assert ids[..|flat|] == flat;
    }
  }

  /** After `End`, the batch size changes how ids are grouped into lookup
      rounds but not the records collected, because the resolver's answer
      depends only on the id. */
  lemma BatchSizeIrrelevant(msgs: seq<Action>, size1: nat, size2: nat, resolve: Resolver)
    requires Ended(msgs)
    ensures RoundRecords(resolve, Rounds(msgs, size1)) == RoundRecords(resolve, Rounds(msgs, size2))
  {
    CollectedRecords(msgs, size1, resolve);
    CollectedRecords(msgs, size2, resolve);
  }
}
