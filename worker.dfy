/** `CollectorWorkerService`: the hosted service that ties the tailer, the
    batcher and the delivery together. A file event runs tail, batch and
    send; a replay pass resends what the buffer holds; start-up subscribes,
    starts the watcher and replays once before the periodic loop. */
module CollectorWorker {
  import opened Wrappers
  import opened Text
  import opened Models
  import opened RetryHelper
  import opened LogSizeCalculator
  import opened AzureMonitor
  import opened LogProcessor

  datatype FileChangeType = Created | Changed | Renamed | Deleted

  /** Only creations and changes run the pipeline. */
  predicate Triggers(kind: FileChangeType) {
    kind == Created || kind == Changed
  }

  /** The replay pass as written, from the `k`-th buffered batch on: each
      batch goes through `SendLogsAsync` on its own, and whenever that
      returns normally the batch's file is removed; an exception, from the
      send or from the delete, is logged and the next batch is attempted,
      so a failing delete leaves the file in place. */
  function ReplayFrom(p: Policy, buf: map<Guid, Slot>, bs: seq<LogBatch>, k: nat, sinks: nat -> Sink): Delivery
    requires k <= |bs|
    decreases |bs| - k
  {
    if k == |bs| then Delivery(Completed, buf)
    else
      var d := SendFrom(p, false, buf, [bs[k]], 0, sinks(k));
      if d.end.Blocked? then d
      else if d.end.Escaped? then ReplayFrom(p, d.buffer, bs, k + 1, sinks)
      else if sinks(k).deleteFails then ReplayFrom(p, d.buffer, bs, k + 1, sinks)
      else ReplayFrom(p, d.buffer - {bs[k].batchId}, bs, k + 1, sinks)
  }

  /** One batch of the replay pass: what follows depends only on how its
      send ended. */
  lemma ReplayStep(p: Policy, buf: map<Guid, Slot>, bs: seq<LogBatch>, k: nat, sinks: nat -> Sink, d: Delivery)
    requires k < |bs| && d == SendFrom(p, false, buf, [bs[k]], 0, sinks(k))
    ensures d.end.Blocked? ==> ReplayFrom(p, buf, bs, k, sinks) == d
    ensures d.end.Escaped? ==> ReplayFrom(p, buf, bs, k, sinks) == ReplayFrom(p, d.buffer, bs, k + 1, sinks)
    ensures d.end.Completed? && sinks(k).deleteFails ==>
              ReplayFrom(p, buf, bs, k, sinks) == ReplayFrom(p, d.buffer, bs, k + 1, sinks)
    ensures d.end.Completed? && !sinks(k).deleteFails ==>
              ReplayFrom(p, buf, bs, k, sinks) == ReplayFrom(p, d.buffer - {bs[k].batchId}, bs, k + 1, sinks)
  {
  }

  /** A buffered batch whose resend fails again is saved once more and then
      removed at once: when the delete that follows succeeds, the pass ends
      normally, the batch was not delivered, and no file holds it any more. */
  lemma ReplayLosesBatchThatFailsAgain(p: Policy, buf: map<Guid, Slot>, b: LogBatch, sinks: nat -> Sink)
    requires !Delivered(p, sinks(0), 0) && !sinks(0).writeFails(0) && !sinks(0).deleteFails
    requires VoidEnding(p, sinks(0).attempt(0), sinks(0).cancelled(0)) != WaitsForever
    ensures ReplayFrom(p, buf, [b], 0, sinks).end == Completed
    ensures b.batchId !in ReplayFrom(p, buf, [b], 0, sinks).buffer
  {
    var s := sinks(0);
    if p.retryCount < 0 {
      NegativeCountDropsBatches(p, buf, [b], 0, s);
      assert ReplayFrom(p, buf, [b], 0, sinks) == ReplayFrom(p, buf - {b.batchId}, [b], 1, sinks);
    } else {
      var saved := buf[b.batchId := Slot(Holds(b), s.stamp(0))];
      assert SendFrom(p, false, buf, [b], 0, s) == SendFrom(p, false, saved, [b], 1, s) == Delivery(Completed, saved);
      assert ReplayFrom(p, buf, [b], 0, sinks) == ReplayFrom(p, saved - {b.batchId}, [b], 1, sinks);
    }
  }

  /** A concrete run of the loss: no retries, a sink that rejects the batch
      with status 503, a buffer write that succeeds. */
  lemma ReplayLossExample(buf: map<Guid, Slot>, b: LogBatch)
    ensures var sinks := (k: nat) => Sink((i: nat) => (j: nat) => Threw(SinkRejected(503)),
                                          (i: nat) => (j: nat) => false, (i: nat) => 0, (i: nat) => false, false);
            var d := ReplayFrom(Policy(0, 1000, true), buf, [b], 0, sinks);
            d.end == Completed && b.batchId !in d.buffer
  {
    var sinks := (k: nat) => Sink((i: nat) => (j: nat) => Threw(SinkRejected(503)),
                                  (i: nat) => (j: nat) => false, (i: nat) => 0, (i: nat) => false, false);
    var p := Policy(0, 1000, true);
    var e := VoidEnding(p, sinks(0).attempt(0), sinks(0).cancelled(0));
    assert sinks(0).attempt(0)(0) == Threw(SinkRejected(503));
    assert RunFrom(AsyncVoid, p, sinks(0).attempt(0), sinks(0).cancelled(0), 0, []).ending
           == Finished(Err(Aggregate([] + [SinkRejected(503)])));
    ReplayLosesBatchThatFailsAgain(p, buf, b, sinks);
  }

  /** The replay pass as intended: a batch's file is removed only once the
      batch has been delivered; a batch that fails again, or that no call
      was made for, keeps its file as it was, and so does a batch whose
      file cannot be deleted. */
  function DurableReplayFrom(p: Policy, buf: map<Guid, Slot>, bs: seq<LogBatch>, k: nat, sinks: nat -> Sink): Delivery
    requires k <= |bs|
    decreases |bs| - k
  {
    if k == |bs| then Delivery(Completed, buf)
    else if VoidEnding(p, sinks(k).attempt(0), sinks(k).cancelled(0)).WaitsForever? then Delivery(Blocked, buf)
    else if Delivered(p, sinks(k), 0) && !sinks(k).deleteFails then DurableReplayFrom(p, buf - {bs[k].batchId}, bs, k + 1, sinks)
    else DurableReplayFrom(p, buf, bs, k + 1, sinks)
  }

  /** In the intended pass (ids distinct) every replayed batch is either
      delivered and its file deleted, and then the file is gone, or else
      (not delivered, or the delete failed) its file is as it was. */
  lemma {:induction false} DurableReplayLosesNothing(p: Policy, buf: map<Guid, Slot>, bs: seq<LogBatch>, k: nat,
                                                     sinks: nat -> Sink, i: nat)
    requires k <= i < |bs| && DistinctIds(bs)
    requires DurableReplayFrom(p, buf, bs, k, sinks).end == Completed
    ensures var d := DurableReplayFrom(p, buf, bs, k, sinks);
            && (Delivered(p, sinks(i), 0) && !sinks(i).deleteFails ==> bs[i].batchId !in d.buffer)
            && (!Delivered(p, sinks(i), 0) || sinks(i).deleteFails ==>
                  (bs[i].batchId in d.buffer <==> bs[i].batchId in buf)
                  && (bs[i].batchId in buf ==> d.buffer[bs[i].batchId] == buf[bs[i].batchId]))
    decreases |bs| - k
  {
    var removed := buf - {bs[k].batchId};
    if Delivered(p, sinks(k), 0) && !sinks(k).deleteFails {
      if i == k {
        DurableKeepsRemoved(p, removed, bs, k + 1, sinks, bs[k].batchId);
      } else {
        DurableReplayLosesNothing(p, removed, bs, k + 1, sinks, i);
      }
    } else {
      if i == k {
        DurableKeepsSlot(p, buf, bs, k + 1, sinks, bs[k].batchId);
      } else {
        DurableReplayLosesNothing(p, buf, bs, k + 1, sinks, i);
      }
    }
  }

  /** A file no later batch is named after is left as it is. */
  lemma {:induction false} DurableKeepsSlot(p: Policy, buf: map<Guid, Slot>, bs: seq<LogBatch>, k: nat,
                                            sinks: nat -> Sink, id: Guid)
    requires k <= |bs|
    requires forall j :: k <= j < |bs| ==> bs[j].batchId != id
    ensures var d := DurableReplayFrom(p, buf, bs, k, sinks);
            (id in d.buffer <==> id in buf) && (id in buf ==> d.buffer[id] == buf[id])
    decreases |bs| - k
  {
    if k < |bs| {
      DurableKeepsSlot(p, buf - {bs[k].batchId}, bs, k + 1, sinks, id);
      DurableKeepsSlot(p, buf, bs, k + 1, sinks, id);
    }
  }

  /** A file that is gone stays gone. */
  lemma {:induction false} DurableKeepsRemoved(p: Policy, buf: map<Guid, Slot>, bs: seq<LogBatch>, k: nat,
                                               sinks: nat -> Sink, id: Guid)
    requires k <= |bs| && id !in buf
    ensures id !in DurableReplayFrom(p, buf, bs, k, sinks).buffer
    decreases |bs| - k
  {
    if k < |bs| {
      DurableKeepsRemoved(p, buf - {bs[k].batchId}, bs, k + 1, sinks, id);
      DurableKeepsRemoved(p, buf, bs, k + 1, sinks, id);
    }
  }

  /** The steps the service takes, in order. */
  datatype Step = Subscribed | WatcherStarted | Waited(ms: int) | Replayed

  /** How the periodic loop ends: the token was seen cancelled, the delay
      threw (a negative interval other than -1) and the exception was
      rethrown, or a delay or a send never ends. */
  datatype LoopEnd = Stopped | Faulted(error: Exception) | Hangs

  /** The steps of the periodic loop from round `round` on: while the token
      is not cancelled, wait the upload interval, then replay. */
  function LoopSteps(interval: int, cancelled: nat -> bool, cancelledInDelay: nat -> bool, round: nat, stopAt: nat): (steps: seq<Step>)
    requires round <= stopAt && cancelled(stopAt)
    decreases stopAt - round
  {
    if cancelled(round) then []
    else match Wait(AsyncGeneric, interval, cancelledInDelay(round))
      case Slept => [Waited(interval), Replayed] + LoopSteps(interval, cancelled, cancelledInDelay, round + 1, stopAt)
      case _ => []
  }

  /** Every replay of the loop comes straight after a wait of the upload
      interval, and the steps alternate wait, replay. */
  lemma {:induction false} LoopAlternates(interval: int, cancelled: nat -> bool, cancelledInDelay: nat -> bool, round: nat, stopAt: nat)
    requires round <= stopAt && cancelled(stopAt)
    ensures var steps := LoopSteps(interval, cancelled, cancelledInDelay, round, stopAt);
            && |steps| % 2 == 0
            && forall i :: 0 <= i < |steps| ==> steps[i] == (if i % 2 == 0 then Waited(interval) else Replayed)
    decreases stopAt - round
  {
    if !cancelled(round) && Wait(AsyncGeneric, interval, cancelledInDelay(round)) == Slept {
      var rest := LoopSteps(interval, cancelled, cancelledInDelay, round + 1, stopAt);
      LoopAlternates(interval, cancelled, cancelledInDelay, round + 1, stopAt);
      var steps := [Waited(interval), Replayed] + rest;
      forall i | 2 <= i < |steps| ensures steps[i] == (if i % 2 == 0 then Waited(interval) else Replayed) {
        assert steps[i] == rest[i - 2];
      }
    }
  }

  /** No round starts once the token is seen cancelled: the loop makes at
      most `stopAt - round` rounds. */
  lemma {:induction false} LoopStopsAtCancellation(interval: int, cancelled: nat -> bool, cancelledInDelay: nat -> bool, round: nat, stopAt: nat)
    requires round <= stopAt && cancelled(stopAt)
    ensures |LoopSteps(interval, cancelled, cancelledInDelay, round, stopAt)| <= 2 * (stopAt - round)
    decreases stopAt - round
  {
    if !cancelled(round) && Wait(AsyncGeneric, interval, cancelledInDelay(round)) == Slept {
      LoopStopsAtCancellation(interval, cancelled, cancelledInDelay, round + 1, stopAt);
    }
  }

  /** The steps taken so far, followed by the steps still to come, are the
      whole loop's; one more waited round moves two steps across. */
  lemma StepsAdvance(steps: seq<Step>, interval: int, cancelled: nat -> bool, cancelledInDelay: nat -> bool,
                     round: nat, stopAt: nat)
    requires round <= stopAt && cancelled(stopAt) && !cancelled(round)
    requires Wait(AsyncGeneric, interval, cancelledInDelay(round)) == Slept
    requires steps + LoopSteps(interval, cancelled, cancelledInDelay, round, stopAt)
             == LoopSteps(interval, cancelled, cancelledInDelay, 0, stopAt)
    ensures round + 1 <= stopAt
    ensures (steps + [Waited(interval), Replayed]) + LoopSteps(interval, cancelled, cancelledInDelay, round + 1, stopAt)
            == LoopSteps(interval, cancelled, cancelledInDelay, 0, stopAt)
  {
    LoopUnfold(interval, cancelled, cancelledInDelay, round, stopAt);
    var rest := LoopSteps(interval, cancelled, cancelledInDelay, round + 1, stopAt);
    assert (steps + [Waited(interval), Replayed]) + rest == steps + ([Waited(interval), Replayed] + rest);
  }

  /** Steps taken so far, with nothing left to come, are the whole loop's;
      with more to come they are a prefix of it. */
  lemma StepsSoFar(steps: seq<Step>, rest: seq<Step>, all: seq<Step>)
    requires steps + rest == all
    ensures steps <= all
    ensures rest == [] ==> steps == all
  {
    assert all[..|steps|] == steps;
  }

  /** One round of the loop that waited and replayed. */
  lemma LoopUnfold(interval: int, cancelled: nat -> bool, cancelledInDelay: nat -> bool, round: nat, stopAt: nat)
    requires round <= stopAt && cancelled(stopAt) && !cancelled(round)
    requires Wait(AsyncGeneric, interval, cancelledInDelay(round)) == Slept
    ensures round + 1 <= stopAt
    ensures LoopSteps(interval, cancelled, cancelledInDelay, round, stopAt)
            == [Waited(interval), Replayed] + LoopSteps(interval, cancelled, cancelledInDelay, round + 1, stopAt)
  {
  }

  /** One replay pass: unless listing the buffer failed (then nothing was
      read), it listed the buffer as it was before as `listing` and read
      `batches` from the oldest files of that listing; it left the buffer as
      the replay of those batches leaves it. */
  ghost predicate ReplayRound(p: Policy, maxBatchCount: int, before: map<Guid, Slot>, listFails: bool, listing: seq<Guid>,
                              batches: seq<LogBatch>, sinks: nat -> Sink, after: map<Guid, Slot>) {
    && (listFails ==> batches == [])
    && (!listFails ==> ListsBuffer(listing, before)
                       && batches == ReadableBatches(ChosenFiles(listing, before, maxBatchCount), before))
    && after == ReplayFrom(p, before, batches, 0, sinks).buffer
  }

  /** Rounds of replay passes: round `i` listed `buffers[i]` as
      `listings[i]` (unless `listFails(i)`), read `rounds[i]` from it and
      left `buffers[i + 1]`. */
  ghost predicate ReplayedRounds(p: Policy, maxBatchCount: int, buffers: seq<map<Guid, Slot>>, listFails: nat -> bool,
                                 listings: seq<seq<Guid>>, rounds: seq<seq<LogBatch>>, sinks: nat -> nat -> Sink) {
    && |buffers| == |rounds| + 1 && |listings| == |rounds|
    && forall i :: 0 <= i < |rounds| ==>
         ReplayRound(p, maxBatchCount, buffers[i], listFails(i), listings[i], rounds[i], sinks(i), buffers[i + 1])
  }

  /** One more pass extends the rounds. */
  lemma RoundsExtend(p: Policy, maxBatchCount: int, buffers: seq<map<Guid, Slot>>, listFails: nat -> bool,
                     listings: seq<seq<Guid>>, rounds: seq<seq<LogBatch>>, sinks: nat -> nat -> Sink, listing: seq<Guid>,
                     batches: seq<LogBatch>, after: map<Guid, Slot>, end: SendEnd)
    requires ReplayedRounds(p, maxBatchCount, buffers, listFails, listings, rounds, sinks)
    requires listFails(|rounds|) ==> batches == []
    requires !listFails(|rounds|) ==>
               && ListsBuffer(listing, buffers[|rounds|])
               && batches == ReadableBatches(ChosenFiles(listing, buffers[|rounds|], maxBatchCount), buffers[|rounds|])
    requires Delivery(end, after) == ReplayFrom(p, buffers[|rounds|], batches, 0, sinks(|rounds|))
    ensures ReplayedRounds(p, maxBatchCount, buffers + [after], listFails, listings + [listing], rounds + [batches], sinks)
    ensures (buffers + [after])[0] == buffers[0]
  {
    var bs, ls, rs := buffers + [after], listings + [listing], rounds + [batches];
    forall i | 0 <= i < |rs| ensures ReplayRound(p, maxBatchCount, bs[i], listFails(i), ls[i], rs[i], sinks(i), bs[i + 1]) {
      if i < |rounds| {
        assert bs[i] == buffers[i] && ls[i] == listings[i] && rs[i] == rounds[i] && bs[i + 1] == buffers[i + 1];
      }
    }
  }

  class CollectorWorkerService {
    const settings: CollectorSettings
    const processor: LogProcessorService
    const monitor: AzureMonitorService
    /** Whether `OnFileChanged` is subscribed to the watcher's event, and
        whether the watcher runs. */
    var subscribed: bool
    var watching: bool

    constructor(settings: CollectorSettings, processor: LogProcessorService, monitor: AzureMonitorService)
      ensures this.settings == settings && this.processor == processor && this.monitor == monitor
      ensures !subscribed && !watching
    {
      this.settings := settings;
      this.processor := processor;
      this.monitor := monitor;
      subscribed := false;
      watching := false;
    }

    /** `OnFileChanged`: a creation or change runs tail, batch and send; any
        other event does nothing. Nothing the pipeline throws leaves the
        handler. */
    method OnFileChanged(kind: FileChangeType, path: String16, file: Option<seq<Byte>>, readFails: bool, saveFails: bool,
                         mint: nat -> Guid, now: Timestamp, sink: Sink)
      returns (entries: seq<LogEntry>, batches: seq<LogBatch>, end: SendEnd)
      modifies processor, monitor
      ensures !Triggers(kind) ==>
                entries == [] && batches == [] && end == Completed
                && processor.positions == old(processor.positions) && monitor.buffer == old(monitor.buffer)
      ensures Triggers(kind) && (file.None? || readFails || saveFails) ==>
                entries == [] && monitor.buffer == old(monitor.buffer) && processor.positions == old(processor.positions)
      ensures Triggers(kind) && file.Some? && !readFails && !saveFails ==>
                processor.positions == old(processor.positions)[processor.PositionKey(path) := Stored(|file.value|)]
      ensures Triggers(kind) && file.Some? && !readFails && !saveFails ==>
                entries == processor.LinesEntries(processor.LinesRead(file.value, old(processor.Position(path))))
      ensures entries == [] ==> batches == [] && end == Completed && monitor.buffer == old(monitor.buffer)
      ensures entries != [] ==>
                && IsGreedyBatching(entries, processor.settings.maxBatchSizeBytes, MaxBatchEntries, Groups(batches))
                && Delivery(end, monitor.buffer) == SendFrom(monitor.SendPolicy(), false, old(monitor.buffer), batches, 0, sink)
    {
      entries, batches, end := [], [], Completed;
      if !Triggers(kind) {
        return;
      }
      var read := processor.ProcessLogFile(path, file, readFails, saveFails);
      if read.Err? {
        return;
      }
      entries := read.value;
      if entries == [] {
        return;
      }
      var made := processor.CreateBatchesFor(Some(entries), mint, now);
      batches := made.value;
      end := monitor.SendLogs(Some(batches), sink);
    }

    /** `TrySendBufferedLogsAsync` as written: reads at most `MaxBatchCount`
        buffered batches and replays them one by one. A failing listing of
        the buffer is swallowed: nothing is read and nothing changes. */
    method TrySendBufferedLogs(listFails: bool, sinks: nat -> Sink) returns (batches: seq<LogBatch>, end: SendEnd)
      modifies monitor
      ensures listFails ==> batches == []
      ensures !listFails ==>
                exists listing :: ListsBuffer(listing, old(monitor.buffer))
                  && batches == ReadableBatches(ChosenFiles(listing, old(monitor.buffer), settings.maxBatchCount), old(monitor.buffer))
      ensures batches == [] ==> end == Completed && monitor.buffer == old(monitor.buffer)
      ensures Delivery(end, monitor.buffer) == ReplayFrom(monitor.SendPolicy(), old(monitor.buffer), batches, 0, sinks)
    {
      var read, listing := monitor.ReadBufferedBatches(settings.maxBatchCount, listFails);
      if read.Err? {
        return [], Completed;
      }
      batches := read.value;
      if batches == [] {
        return batches, Completed;
      }
      var k := 0;
      while k < |batches|
        invariant 0 <= k <= |batches|
        invariant ReplayFrom(monitor.SendPolicy(), old(monitor.buffer), batches, 0, sinks)
                  == ReplayFrom(monitor.SendPolicy(), monitor.buffer, batches, k, sinks)
      {
        var sent := ReplayBatch(batches, k, sinks);
        if sent.Blocked? {
          return batches, Blocked;
        }
        k := k + 1;
      }
      return batches, Completed;
    }

    /** The body of the replay loop for batch `k`: send it on its own, then
        remove its file when the send returned normally; a failed send or a
        failed delete is logged and the loop goes on. */
    method ReplayBatch(batches: seq<LogBatch>, k: nat, sinks: nat -> Sink) returns (sent: SendEnd)
      requires k < |batches|
      modifies monitor
      ensures sent.Blocked? ==>
                ReplayFrom(monitor.SendPolicy(), old(monitor.buffer), batches, k, sinks) == Delivery(Blocked, monitor.buffer)
      ensures !sent.Blocked? ==>
                ReplayFrom(monitor.SendPolicy(), old(monitor.buffer), batches, k, sinks)
                == ReplayFrom(monitor.SendPolicy(), monitor.buffer, batches, k + 1, sinks)
    {
      ghost var before := monitor.buffer;
      sent := monitor.SendLogs(Some([batches[k]]), sinks(k));
      ReplayStep(monitor.SendPolicy(), before, batches, k, sinks, Delivery(sent, monitor.buffer));
      if sent.Completed? {
        ghost var sentBuffer := monitor.buffer;
        var _ := monitor.RemoveBufferedBatch(IdText(batches[k].batchId), sinks(k).deleteFails);
        if sinks(k).deleteFails {
          assert monitor.buffer == sentBuffer;
        }
      }
    }

    /** The replay pass as intended: the file of a replayed batch is removed
        only after the batch was delivered. A failing listing of the buffer
        is swallowed as in the pass as written. */
    method TrySendBufferedLogsDurable(listFails: bool, sinks: nat -> Sink) returns (batches: seq<LogBatch>, end: SendEnd)
      modifies monitor
      ensures listFails ==> batches == [] && end == Completed && monitor.buffer == old(monitor.buffer)
      ensures !listFails ==>
                exists listing :: ListsBuffer(listing, old(monitor.buffer))
                  && batches == ReadableBatches(ChosenFiles(listing, old(monitor.buffer), settings.maxBatchCount), old(monitor.buffer))
      ensures Delivery(end, monitor.buffer) == DurableReplayFrom(monitor.SendPolicy(), old(monitor.buffer), batches, 0, sinks)
    {
      var read, listing := monitor.ReadBufferedBatches(settings.maxBatchCount, listFails);
      if read.Err? {
        return [], Completed;
      }
      batches := read.value;
      var k := 0;
      while k < |batches|
        invariant 0 <= k <= |batches|
        invariant DurableReplayFrom(monitor.SendPolicy(), old(monitor.buffer), batches, 0, sinks)
                  == DurableReplayFrom(monitor.SendPolicy(), monitor.buffer, batches, k, sinks)
      {
        var ending, calls, _ := ExecuteWithRetryVoid(Some(sinks(k).attempt(0)), monitor.SendPolicy(), sinks(k).cancelled(0));
        assert ending == VoidEnding(monitor.SendPolicy(), sinks(k).attempt(0), sinks(k).cancelled(0));
        if ending.WaitsForever? {
          return batches, Blocked;
        }
        if ending.result.Ok? && calls > 0 {
          ghost var sentBuffer := monitor.buffer;
          var _ := monitor.RemoveBufferedBatch(IdText(batches[k].batchId), sinks(k).deleteFails);
          if sinks(k).deleteFails {
            assert monitor.buffer == sentBuffer;
          }
        }
        k := k + 1;
      }
      return batches, Completed;
    }

    /** `StartAsync`: subscribe the handler, start the watcher, then one
        replay pass, in that order. */
    method Start(listFails: bool, sinks: nat -> Sink) returns (steps: seq<Step>, batches: seq<LogBatch>, end: SendEnd)
      modifies this, monitor
      ensures subscribed && watching
      ensures steps == [Subscribed, WatcherStarted, Replayed]
      ensures listFails ==> batches == [] && end == Completed && monitor.buffer == old(monitor.buffer)
      ensures !listFails ==>
                exists listing :: ListsBuffer(listing, old(monitor.buffer))
                  && batches == ReadableBatches(ChosenFiles(listing, old(monitor.buffer), settings.maxBatchCount), old(monitor.buffer))
      ensures Delivery(end, monitor.buffer) == ReplayFrom(monitor.SendPolicy(), old(monitor.buffer), batches, 0, sinks)
    {
      ghost var before := monitor.buffer;
      subscribed := true;
      steps := [Subscribed];
      watching := true;
      steps := steps + [WatcherStarted];
      assert monitor.buffer == before;
      batches, end := TrySendBufferedLogs(listFails, sinks);
      steps := steps + [Replayed];
    }

    /** One round of the periodic loop's replay: the pass of round
        `|rounds|`, recorded after the rounds before it. */
    method ReplayOneRound(listFails: nat -> bool, sinks: nat -> nat -> Sink, rounds: seq<seq<LogBatch>>,
                          ghost listings: seq<seq<Guid>>, ghost buffers: seq<map<Guid, Slot>>)
      returns (end: SendEnd, rounds': seq<seq<LogBatch>>,
               ghost listings': seq<seq<Guid>>, ghost buffers': seq<map<Guid, Slot>>)
      requires ReplayedRounds(monitor.SendPolicy(), settings.maxBatchCount, buffers, listFails, listings, rounds, sinks)
      requires buffers[|rounds|] == monitor.buffer
      modifies monitor
      ensures ReplayedRounds(monitor.SendPolicy(), settings.maxBatchCount, buffers', listFails, listings', rounds', sinks)
      ensures |rounds'| == |rounds| + 1 && buffers'[0] == buffers[0] && buffers'[|rounds'|] == monitor.buffer
    {
      ghost var before := monitor.buffer;
      var replayed;
      replayed, end := TrySendBufferedLogs(listFails(|rounds|), sinks(|rounds|));
      ghost var listing: seq<Guid> := [];
      if !listFails(|rounds|) {
        listing :| ListsBuffer(listing, before)
          && replayed == ReadableBatches(ChosenFiles(listing, before, settings.maxBatchCount), before);
      }
      RoundsExtend(monitor.SendPolicy(), settings.maxBatchCount, buffers, listFails, listings, rounds, sinks,
                   listing, replayed, monitor.buffer, end);
      rounds', listings', buffers' := rounds + [replayed], listings + [listing], buffers + [monitor.buffer];
    }

    /** `ExecuteAsync`: until the token is seen cancelled (it is by round
        `stopAt`), wait the upload interval and replay. A cancelled delay
        ends the loop quietly; a delay that throws otherwise faults it. A
        replay that never ends leaves the loop hanging inside it. Round `i`
        replays `rounds[i]`, read from the buffer `buffers[i]` that the
        rounds before it left (nothing is read when listing it fails,
        `listFails(i)`). */
    method Execute(cancelled: nat -> bool, cancelledInDelay: nat -> bool, stopAt: nat,
                   listFails: nat -> bool, sinks: nat -> nat -> Sink)
      returns (steps: seq<Step>, end: LoopEnd, rounds: seq<seq<LogBatch>>,
               ghost listings: seq<seq<Guid>>, ghost buffers: seq<map<Guid, Slot>>)
      requires cancelled(stopAt)
      modifies monitor
      ensures end.Stopped? ==> steps == LoopSteps(settings.uploadIntervalMs, cancelled, cancelledInDelay, 0, stopAt)
      ensures steps <= LoopSteps(settings.uploadIntervalMs, cancelled, cancelledInDelay, 0, stopAt)
      ensures end.Faulted? ==> end.error == ArgumentOutOfRange && settings.uploadIntervalMs < -1
      ensures end.Hangs? ==> settings.uploadIntervalMs == -1 || (|steps| > 0 && steps[|steps| - 1] == Replayed)
      ensures |steps| == 2 * |rounds| && ReplayedRounds(monitor.SendPolicy(), settings.maxBatchCount, buffers, listFails, listings, rounds, sinks)
      ensures buffers[0] == old(monitor.buffer) && buffers[|rounds|] == monitor.buffer
    {
      var interval := settings.uploadIntervalMs;
      steps, rounds, listings, buffers := [], [], [], [monitor.buffer];
      var round := 0;
      while !cancelled(round)
        invariant round <= stopAt
        invariant steps + LoopSteps(interval, cancelled, cancelledInDelay, round, stopAt)
                  == LoopSteps(interval, cancelled, cancelledInDelay, 0, stopAt)
        invariant |steps| == 2 * round && |rounds| == round
        invariant ReplayedRounds(monitor.SendPolicy(), settings.maxBatchCount, buffers, listFails, listings, rounds, sinks)
        invariant buffers[0] == old(monitor.buffer) && buffers[round] == monitor.buffer
        decreases stopAt - round
      {
        var w := Wait(AsyncGeneric, interval, cancelledInDelay(round));
        if w != Slept {
          assert LoopSteps(interval, cancelled, cancelledInDelay, round, stopAt) == [];
          StepsSoFar(steps, [], LoopSteps(interval, cancelled, cancelledInDelay, 0, stopAt));
          end := if w == Canceled then Stopped else if w == OutOfRange then Faulted(ArgumentOutOfRange) else Hangs;
          return;
        }
        StepsAdvance(steps, interval, cancelled, cancelledInDelay, round, stopAt);
        var replay;
        replay, rounds, listings, buffers := ReplayOneRound(listFails, sinks, rounds, listings, buffers);
        steps := steps + [Waited(interval), Replayed];
        round := round + 1;
        if replay.Blocked? {
          StepsSoFar(steps, LoopSteps(interval, cancelled, cancelledInDelay, round, stopAt),
                     LoopSteps(interval, cancelled, cancelledInDelay, 0, stopAt));
          end := Hangs;
          return;
        }
      }
      assert LoopSteps(interval, cancelled, cancelledInDelay, round, stopAt) == [];
      StepsSoFar(steps, [], LoopSteps(interval, cancelled, cancelledInDelay, 0, stopAt));
      end := Stopped;
    }
  }
}
