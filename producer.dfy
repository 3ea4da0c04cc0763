/** The producer: it walks the paged stream of patch events, newest first,
    forwarding patch ids until the first event older than the lookback
    cutoff, on which it sends `End` and stops. */
module Producer {
  import opened Records

  /** The length of the longest prefix of `events` created at or after
      `lookback`: all of that prefix is recent enough, and the event right
      after it, if any, is older. */
  function Cutoff(events: seq<Event>, lookback: int): (n: nat)
    ensures n <= |events|
    ensures forall j | 0 <= j < n :: events[j].createTime >= lookback
    ensures n < |events| ==> events[n].createTime < lookback
    decreases |events|
  {
    if events == [] || events[0].createTime < lookback then 0
    else 1 + Cutoff(events[1..], lookback)
  }

  /** The messages the producer sends: one `PatchId` per event of the recent
      prefix, followed by one `End` exactly when an older event was met. */
  function Sent(events: seq<Event>, lookback: int): seq<Action> {
    var n := Cutoff(events, lookback);
    seq(n, j requires 0 <= j < n => PatchId(events[j].patchId)) + if n < |events| then [End] else []
  }

  /** The producer loop of `main`: `count` is both the position in the
      stream and the number of ids forwarded. */
  method Produce(events: seq<Event>, lookback: int) returns (sent: seq<Action>, count: nat)
    ensures count == Cutoff(events, lookback)
    ensures sent == Sent(events, lookback)
  {
    sent, count := [], 0;
    while count < |events|
      invariant count <= |events|
      invariant forall j | 0 <= j < count :: events[j].createTime >= lookback
      invariant sent == seq(count, j requires 0 <= j < count => PatchId(events[j].patchId))
    {
      var patch := events[count];
      if patch.createTime < lookback {
        sent := sent + [End];
        break;
      }
      sent := sent + [PatchId(patch.patchId)];
      count := count + 1;
    }
    CutoffUnique(events, lookback, count);
  }

  /** The ordering contract of the paged stream: newest first, so creation
      times never increase. */
  predicate NonIncreasing(events: seq<Event>) {
    forall i, j | 0 <= i < j < |events| :: events[i].createTime >= events[j].createTime
  }

  /** On a newest-first stream the cutoff scan selects exactly the events
      created at or after `lookback`: an event is forwarded if and only if
      it lies inside the lookback window. */
  lemma CutoffSelectsWindow(events: seq<Event>, lookback: int)
    requires NonIncreasing(events)
    ensures forall j | 0 <= j < |events| ::
      events[j].createTime >= lookback <==> j < Cutoff(events, lookback)
  {
    var n := Cutoff(events, lookback);
    forall j | 0 <= j < |events| && n <= j
      ensures events[j].createTime < lookback
    {
      assert events[n].createTime >= events[j].createTime;
    }
  }

  /** The three properties of `Cutoff` single out one length. */
  lemma CutoffUnique(events: seq<Event>, lookback: int, n: nat)
    requires n <= |events|
    requires forall j | 0 <= j < n :: events[j].createTime >= lookback
    requires n < |events| ==> events[n].createTime < lookback
    ensures n == Cutoff(events, lookback)
  {
  }
}
