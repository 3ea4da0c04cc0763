/** The whole run: the producer's messages feed the collector, whose
    accumulated records are what the export writes. */
module Pipeline {
  import opened Records
  import opened Transform
  import opened Collector
  import opened Producer

  /** The ids of the longest prefix of the stream created at or after
      `lookback`, in stream order; on a newest-first stream these are the
      ids of all events inside the lookback window (`CutoffSelectsWindow`). */
  function ForwardedIds(events: seq<Event>, lookback: int): seq<string> {
    var n := Cutoff(events, lookback);
    seq(n, j requires 0 <= j < n => events[j].patchId)
  }

  /** The ids of a stream made of `PatchId` messages only. */
  lemma {:induction false} IdsOfPatchIds(ids: seq<string>)
    ensures IdsOf(seq(|ids|, j requires 0 <= j < |ids| => PatchId(ids[j]))) == ids
    decreases |ids|
  {
    if ids != [] {
      var init := ids[..|ids| - 1];
      var msgs := seq(|ids|, j requires 0 <= j < |ids| => PatchId(ids[j]));
      assert msgs[..|msgs| - 1] == seq(|init|, j requires 0 <= j < |init| => PatchId(init[j]));
      IdsOfPatchIds(init);
      assert ids == init + [ids[|ids| - 1]];
    }
  }

  /** The producer's messages as the collector sees them: the first `End`
      stands right after the forwarded ids, it is there exactly when an
      older event cut the stream, it is the last message, and the ids
      received are the forwarded ones. */
  lemma SentShape(events: seq<Event>, lookback: int)
    ensures FirstEnd(Sent(events, lookback)) == Cutoff(events, lookback)
    ensures Ended(Sent(events, lookback)) <==> Cutoff(events, lookback) < |events|
    ensures forall j | 0 <= j < |Sent(events, lookback)| ::
      Sent(events, lookback)[j].End? <==> j == |Sent(events, lookback)| - 1 && Cutoff(events, lookback) < |events|
    ensures ReceivedIds(Sent(events, lookback)) == ForwardedIds(events, lookback)
  {
    var sent, n, ids := Sent(events, lookback), Cutoff(events, lookback), ForwardedIds(events, lookback);
    FirstEndUnique(sent, n);
    assert sent[..n] == seq(|ids|, j requires 0 <= j < |ids| => PatchId(ids[j]));
    IdsOfPatchIds(ids);
  }

  /** When the stream is cut, every forwarded id is resolved exactly once
      and in stream order, and no other id is: the ids resolved are those of
      the longest prefix created at or after `lookback`. */
  lemma ResolvedIdsInWindow(events: seq<Event>, lookback: int, batchSize: nat)
    requires Cutoff(events, lookback) < |events|
    ensures Flatten(Rounds(Sent(events, lookback), batchSize)) == ForwardedIds(events, lookback)
  {
    SentShape(events, lookback);
    RoundsPartition(Sent(events, lookback), batchSize);
  }

  /** `main` with the collector thread: produce the messages, then collect.
      When the stream runs out before the cutoff no `End` is sent; the
      collector then waits forever on the channel and no output is written,
      which `None` stands for. */
  method RunPipeline(events: seq<Event>, lookback: int, batchSize: nat, resolve: Resolver)
    returns (output: Option<seq<Record>>)
    ensures Cutoff(events, lookback) < |events| ==>
      output == Some(Transformed(Resolve(resolve, ForwardedIds(events, lookback))))
    ensures Cutoff(events, lookback) == |events| ==> output == None
  {
    var sent, count := Produce(events, lookback);
    SentShape(events, lookback);
    if Ended(sent) {
      var records, _, _, _, _ := PatchCollector(sent, batchSize, resolve);
      CollectedRecords(sent, batchSize, resolve);
      output := Some(records);
    } else {
      output := None;
    }
  }

  /** Worked example: three recent patches
      a, b, c and an older d with a batch size of 2 give the rounds [a, b]
      and [c]; d is never resolved. */
  lemma EndToEndScenario()
    ensures Rounds(Sent([Event("a", 30), Event("b", 20), Event("c", 10), Event("d", 0)], 5), 2)
      == [["a", "b"], ["c"]]
  {
    var events := [Event("a", 30), Event("b", 20), Event("c", 10), Event("d", 0)];
    CutoffUnique(events, 5, 3);
    SentShape(events, 5);
    assert ForwardedIds(events, 5) == ["a", "b", "c"];
    var ids := ["a", "b", "c"];
    assert ids[..2] == ["a", "b"] && ids[2..] == ["c"];
    assert FullChunks(ids, 2) == [["a", "b"]] by {
      assert FullChunks(["c"], 2) == [];
    }
    assert Leftover(ids, 2) == ["c"];
  }
}
