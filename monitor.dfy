/** `AzureMonitorService`: delivery of batches through the retry policy and
    the on-disk buffer of batches that could not be delivered. The buffer
    directory is a map from batch id (the file `{id}.json`) to a slot; the
    HTTP send is an abstract sink. */
module AzureMonitor {
  import opened Wrappers
  import opened Models
  import opened RetryHelper

  /** What a buffer file yields when it is read back: a batch, the JSON
      literal `null`, or nothing usable (a read or deserialisation failure). */
  datatype SlotContent = Holds(batch: LogBatch) | NullDocument | Corrupt

  /** One buffer file: its content and the creation time the filesystem
      reports for it. */
  datatype Slot = Slot(content: SlotContent, created: Timestamp)

  /** The string handed to `RemoveBufferedBatchAsync`: null, empty, or the
      text of a batch id. */
  datatype BatchIdText = NullText | EmptyText | IdText(id: Guid)

  /** How `SendLogsAsync` ends: normally, with an exception, or never
      (an infinite delay inside the retry policy). */
  datatype SendEnd = Completed | Escaped(error: Exception) | Blocked

  /** The environment of one `SendLogsAsync` call, indexed by the position
      of the batch in the collection: the outcome of each call of the sink,
      whether the token is cancelled during each wait, the creation stamp a
      buffer write would get, and whether that write fails; and, for the
      replay, whether deleting the batch's buffer file afterwards fails. */
  datatype Sink = Sink(
    attempt: nat -> nat -> Outcome<()>,
    cancelled: nat -> nat -> bool,
    stamp: nat -> Timestamp,
    writeFails: nat -> bool,
    deleteFails: bool)

  datatype Delivery = Delivery(end: SendEnd, buffer: map<Guid, Slot>)

  /** The batch at position `k` reaches the sink within the retry policy:
      a call of the sink returned. A negative retry count makes no call at
      all, so nothing is delivered then. */
  predicate Delivered(p: Policy, sink: Sink, k: nat) {
    var e := VoidEnding(p, sink.attempt(k), sink.cancelled(k));
    p.retryCount >= 0 && e.Finished? && e.result.Ok?
  }

  /** How the retried send of the batch at position `k` ends. As written
      (`countChecked` false) a negative retry count returns normally without
      a call; with the count checked it is refused with the
      `InvalidOperationException` the generic overloads end with. */
  function SendEnding(p: Policy, countChecked: bool, sink: Sink, k: nat): (e: Ending<()>)
    ensures !e.NoAttempt?
    ensures countChecked && p.retryCount < 0 ==> e == Finished(Err(InvalidOperation))
    ensures !countChecked && p.retryCount < 0 ==> e == Finished(Ok(()))
    ensures Delivered(p, sink, k) <==> p.retryCount >= 0 && e.Finished? && e.result.Ok?
  {
    if countChecked && p.retryCount < 0 then Finished(Err(InvalidOperation))
    else VoidEnding(p, sink.attempt(k), sink.cancelled(k))
  }

  /** The reference for `SendLogsAsync` from position `k` on: each batch in
      order through the retry policy; a batch whose retried send throws is
      written to the buffer under its id and the next one is attempted; a
      failing buffer write ends the call with its exception. */
  function SendFrom(p: Policy, countChecked: bool, buf: map<Guid, Slot>, bs: seq<LogBatch>, k: nat, sink: Sink): Delivery
    requires k <= |bs|
    decreases |bs| - k
  {
    if k == |bs| then Delivery(Completed, buf)
    else
      var e := SendEnding(p, countChecked, sink, k);
      if e.Finished? && e.result.Ok? then SendFrom(p, countChecked, buf, bs, k + 1, sink)
      else if e.Finished? then
        if sink.writeFails(k) then Delivery(Escaped(IoFailure), buf)
        else SendFrom(p, countChecked, buf[bs[k].batchId := Slot(Holds(bs[k]), sink.stamp(k))], bs, k + 1, sink)
      else Delivery(Blocked, buf)
  }

  function Ids(bs: seq<LogBatch>): set<Guid> {
    set b | b in bs :: b.batchId
  }

  predicate DistinctIds(bs: seq<LogBatch>) {
    forall i, j :: 0 <= i < j < |bs| ==> bs[i].batchId != bs[j].batchId
  }

  /** A file no batch of the collection is named after keeps its slot. */
  lemma {:induction false} SendLeavesOtherSlots(p: Policy, countChecked: bool, buf: map<Guid, Slot>, bs: seq<LogBatch>,
                                                k: nat, sink: Sink, id: Guid)
    requires k <= |bs| && id !in Ids(bs)
    ensures var d := SendFrom(p, countChecked, buf, bs, k, sink);
            (id in d.buffer <==> id in buf) && (id in buf ==> d.buffer[id] == buf[id])
    decreases |bs| - k
  {
    if k < |bs| {
      var buf' := buf[bs[k].batchId := Slot(Holds(bs[k]), sink.stamp(k))];
      assert bs[k] in bs;
      SendLeavesOtherSlots(p, countChecked, buf, bs, k + 1, sink, id);
      SendLeavesOtherSlots(p, countChecked, buf', bs, k + 1, sink, id);
    }
  }

  /** A slot that no later batch is named after is not touched again. */
  lemma {:induction false} SendKeepsSlot(p: Policy, countChecked: bool, buf: map<Guid, Slot>, bs: seq<LogBatch>,
                                         k: nat, sink: Sink, id: Guid)
    requires k <= |bs| && id in buf
    requires forall i :: k <= i < |bs| ==> bs[i].batchId != id
    ensures var d := SendFrom(p, countChecked, buf, bs, k, sink);
            id in d.buffer && d.buffer[id] == buf[id]
    decreases |bs| - k
  {
    if k < |bs| {
      var buf' := buf[bs[k].batchId := Slot(Holds(bs[k]), sink.stamp(k))];
      SendKeepsSlot(p, countChecked, buf, bs, k + 1, sink, id);
      SendKeepsSlot(p, countChecked, buf', bs, k + 1, sink, id);
    }
  }

  /** When the call ends normally, every batch of the collection (ids
      distinct) was either delivered or is in the buffer under its id with
      its own content. With the retry count checked no batch is lost; as
      written, a negative retry count is the one way to lose one. */
  lemma {:induction false} SendAccountsForEveryBatch(p: Policy, countChecked: bool, buf: map<Guid, Slot>, bs: seq<LogBatch>,
                                                     k: nat, sink: Sink, i: nat)
    requires k <= i < |bs| && DistinctIds(bs)
    requires SendFrom(p, countChecked, buf, bs, k, sink).end == Completed
    ensures var d := SendFrom(p, countChecked, buf, bs, k, sink);
            || Delivered(p, sink, i)
            || (bs[i].batchId in d.buffer && d.buffer[bs[i].batchId] == Slot(Holds(bs[i]), sink.stamp(i)))
            || (!countChecked && p.retryCount < 0)
    decreases |bs| - k
  {
    var buf' := buf[bs[k].batchId := Slot(Holds(bs[k]), sink.stamp(k))];
    var e := SendEnding(p, countChecked, sink, k);
    if e.Finished? && e.result.Err? {
      assert SendFrom(p, countChecked, buf, bs, k, sink) == SendFrom(p, countChecked, buf', bs, k + 1, sink);
      if i == k {
        SendKeepsSlot(p, countChecked, buf', bs, k + 1, sink, bs[k].batchId);
      } else {
        SendAccountsForEveryBatch(p, countChecked, buf', bs, k + 1, sink, i);
      }
    } else if e.Finished? && i > k {
      assert SendFrom(p, countChecked, buf, bs, k, sink) == SendFrom(p, countChecked, buf, bs, k + 1, sink);
      SendAccountsForEveryBatch(p, countChecked, buf, bs, k + 1, sink, i);
    }
  }

  /** As written, a negative retry count sends nothing and buffers nothing:
      the call ends normally with the buffer as it was, and no batch was
      delivered. */
  lemma {:induction false} NegativeCountDropsBatches(p: Policy, buf: map<Guid, Slot>, bs: seq<LogBatch>, k: nat, sink: Sink)
    requires k <= |bs| && p.retryCount < 0
    ensures SendFrom(p, false, buf, bs, k, sink) == Delivery(Completed, buf)
    ensures forall i :: k <= i < |bs| ==> !Delivered(p, sink, i)
    decreases |bs| - k
  {
    if k < |bs| {
      NegativeCountDropsBatches(p, buf, bs, k + 1, sink);
    }
  }

  /** With the retry count checked, a negative count buffers every batch,
      as a send that fails does. */
  lemma {:induction false} CheckedNegativeCountBuffersAll(p: Policy, buf: map<Guid, Slot>, bs: seq<LogBatch>, k: nat, sink: Sink)
    requires k <= |bs| && p.retryCount < 0
    requires forall i :: k <= i < |bs| ==> !sink.writeFails(i)
    ensures SendFrom(p, true, buf, bs, k, sink).end == Completed
    ensures forall id :: id in Ids(bs[k..]) ==> id in SendFrom(p, true, buf, bs, k, sink).buffer
    ensures buf.Keys <= SendFrom(p, true, buf, bs, k, sink).buffer.Keys
    decreases |bs| - k
  {
    if k < |bs| {
      var buf' := buf[bs[k].batchId := Slot(Holds(bs[k]), sink.stamp(k))];
      CheckedNegativeCountBuffersAll(p, buf', bs, k + 1, sink);
      var d := SendFrom(p, true, buf', bs, k + 1, sink);
      forall id | id in Ids(bs[k..]) ensures id in d.buffer {
        var b :| b in bs[k..] && b.batchId == id;
        if b != bs[k] {
          var j :| 0 <= j < |bs[k..]| && bs[k..][j] == b;
          assert j > 0 && b in bs[k + 1..] by { assert bs[k + 1..][j - 1] == b; }
        }
      }
    }
  }

  /** The only exception that escapes is that of a failing buffer write, and
      it comes after a batch whose retried send threw. */
  lemma {:induction false} OnlyBufferWritesEscape(p: Policy, countChecked: bool, buf: map<Guid, Slot>, bs: seq<LogBatch>,
                                                  k: nat, sink: Sink)
    requires k <= |bs|
    requires SendFrom(p, countChecked, buf, bs, k, sink).end.Escaped?
    ensures SendFrom(p, countChecked, buf, bs, k, sink).end == Escaped(IoFailure)
    ensures exists i :: k <= i < |bs| && !Delivered(p, sink, i) && sink.writeFails(i)
    decreases |bs| - k
  {
    var e := SendEnding(p, countChecked, sink, k);
    if e.Finished? && e.result.Err? && sink.writeFails(k) {
    } else if e.Finished? && e.result.Err? {
      OnlyBufferWritesEscape(p, countChecked, buf[bs[k].batchId := Slot(Holds(bs[k]), sink.stamp(k))], bs, k + 1, sink);
    } else {
      OnlyBufferWritesEscape(p, countChecked, buf, bs, k + 1, sink);
    }
  }

  /** `OrderBy(CreationTime)`: a stable insertion of `id` into a listing
      already in creation order, before the first file created no earlier. */
  function InsertByCreation(id: Guid, s: seq<Guid>, buf: map<Guid, Slot>): (r: seq<Guid>)
    requires id in buf && forall x :: x in s ==> x in buf
    ensures multiset(r) == multiset(s) + multiset{id}
    ensures |r| == |s| + 1
    ensures forall x :: x in r ==> x in buf
  {
    if s == [] then [id]
    else if buf[id].created <= buf[s[0]].created then [id] + s
    else
      assert s == [s[0]] + s[1..];
      [s[0]] + InsertByCreation(id, s[1..], buf)
  }

  lemma {:induction false} InsertKeepsOrder(id: Guid, s: seq<Guid>, buf: map<Guid, Slot>)
    requires id in buf && forall x :: x in s ==> x in buf
    requires CreationOrdered(s, buf)
    ensures CreationOrdered(InsertByCreation(id, s, buf), buf)
  {
    if s == [] {
    } else if buf[id].created <= buf[s[0]].created {
      OrderedCons(id, s, buf);
    } else {
      assert s == [s[0]] + s[1..];
      var rest := InsertByCreation(id, s[1..], buf);
      InsertKeepsOrder(id, s[1..], buf);
      LaterThanHead(id, s, rest, buf);
      OrderedCons(s[0], rest, buf);
    }
  }

  /** A file created no later than every file of an ordered listing can be
      put in front of it. */
  lemma OrderedCons(x: Guid, s: seq<Guid>, buf: map<Guid, Slot>)
    requires x in buf && forall y :: y in s ==> y in buf
    requires CreationOrdered(s, buf)
    requires forall k :: 0 <= k < |s| ==> buf[x].created <= buf[s[k]].created
    ensures forall y :: y in [x] + s ==> y in buf
    ensures CreationOrdered([x] + s, buf)
  {
    var r := [x] + s;
    forall i, j | 0 <= i < j < |r| ensures buf[r[i]].created <= buf[r[j]].created {
      assert r[j] == s[j - 1];
      if i > 0 {
        assert r[i] == s[i - 1];
      }
    }
  }

  /** Every element of the insertion into the tail was created no earlier
      than the head. */
  lemma LaterThanHead(id: Guid, s: seq<Guid>, rest: seq<Guid>, buf: map<Guid, Slot>)
    requires s != [] && id in buf && forall x :: x in s ==> x in buf
    requires CreationOrdered(s, buf) && buf[s[0]].created < buf[id].created
    requires multiset(rest) == multiset(s[1..]) + multiset{id}
    ensures forall k :: 0 <= k < |rest| ==> rest[k] in buf && buf[s[0]].created <= buf[rest[k]].created
  {
    forall k | 0 <= k < |rest| ensures rest[k] in buf && buf[s[0]].created <= buf[rest[k]].created {
      assert rest[k] in multiset(rest);
      if rest[k] != id {
        assert rest[k] in multiset(s[1..]);
        var m :| 0 <= m < |s[1..]| && s[1..][m] == rest[k];
        assert s[m + 1] == rest[k];
      }
    }
  }

  predicate CreationOrdered(s: seq<Guid>, buf: map<Guid, Slot>)
    requires forall x :: x in s ==> x in buf
  {
    forall i, j :: 0 <= i < j < |s| ==> buf[s[i]].created <= buf[s[j]].created
  }

  /** The directory listing ordered by creation time: a permutation of the
      listing, oldest first. */
  function OrderByCreation(listing: seq<Guid>, buf: map<Guid, Slot>): (r: seq<Guid>)
    requires forall x :: x in listing ==> x in buf
    ensures multiset(r) == multiset(listing)
    ensures |r| == |listing|
    ensures forall x :: x in r ==> x in buf
    ensures CreationOrdered(r, buf)
  {
    if listing == [] then []
    else
      assert listing == [listing[0]] + listing[1..];
      var rest := OrderByCreation(listing[1..], buf);
      InsertKeepsOrder(listing[0], rest, buf);
      InsertByCreation(listing[0], rest, buf)
  }

  /** `Take(count)`: the longest prefix of at most `count` elements; none
      for a count below 1, the whole sequence for a count beyond it. */
  function Take<T>(s: seq<T>, count: int): (r: seq<T>)
    ensures r <= s
    ensures |r| == if count <= 0 then 0 else if count >= |s| then |s| else count
  {
    if count <= 0 then [] else if count >= |s| then s else s[..count]
  }

  /** What one buffer file yields: its batch, or nothing for a `null`
      document or a file that cannot be read or deserialised. */
  function FileYield(slot: Slot): seq<LogBatch> {
    match slot.content
    case Holds(b) => [b]
    case _ => []
  }

  /** The batches the files `ids` yield, in order, skipping `null` documents
      and files that cannot be read or deserialised. */
  function ReadableBatches(ids: seq<Guid>, buf: map<Guid, Slot>): (r: seq<LogBatch>)
    requires forall x :: x in ids ==> x in buf
    ensures |r| <= |ids|
  {
    if ids == [] then []
    else
      var front := ids[..|ids| - 1];
      assert forall x :: x in front ==> x in ids;
      ReadableBatches(front, buf) + FileYield(buf[ids[|ids| - 1]])
  }

  /** Exactly the batches the files hold are read: each batch comes from
      one of the files, and every file holding a batch yields it. */
  lemma {:induction false} ReadableBatchesSoundComplete(ids: seq<Guid>, buf: map<Guid, Slot>)
    requires forall x :: x in ids ==> x in buf
    ensures forall b :: b in ReadableBatches(ids, buf) ==> exists x :: x in ids && buf[x].content == Holds(b)
    ensures forall i :: 0 <= i < |ids| && buf[ids[i]].content.Holds? ==> buf[ids[i]].content.batch in ReadableBatches(ids, buf)
    decreases |ids|
  {
    if ids != [] {
      var front := ids[..|ids| - 1];
      assert forall x :: x in front ==> x in ids;
      ReadableBatchesSoundComplete(front, buf);
      ReadableBatchesUnfold(ids, buf);
      forall i | 0 <= i < |ids| - 1 ensures ids[i] == front[i] { }
    }
  }

  lemma ReadableBatchesUnfold(ids: seq<Guid>, buf: map<Guid, Slot>)
    requires ids != [] && forall x :: x in ids ==> x in buf
    ensures ReadableBatches(ids, buf) == ReadableBatches(ids[..|ids| - 1], buf) + FileYield(buf[ids[|ids| - 1]])
  {
  }

  /** Reading files one group after another yields the batches of the first
      group followed by those of the second: the batches keep the order of
      their files. */
  lemma {:induction false} ReadableBatchesAppend(a: seq<Guid>, b: seq<Guid>, buf: map<Guid, Slot>)
    requires forall x :: x in a + b ==> x in buf
    ensures ReadableBatches(a + b, buf) == ReadableBatches(a, buf) + ReadableBatches(b, buf)
    decreases |b|
  {
    if b == [] {
      assert a + b == a;
    } else {
      var ab := a + b;
      var front, last := b[..|b| - 1], b[|b| - 1];
      assert ab[..|ab| - 1] == a + front && ab[|ab| - 1] == last;
      assert forall x :: x in a + front ==> x in ab;
      assert forall x :: x in b ==> x in ab;
      calc {
        ReadableBatches(ab, buf);
        { ReadableBatchesUnfold(ab, buf); }
        ReadableBatches(a + front, buf) + FileYield(buf[last]);
        { ReadableBatchesAppend(a, front, buf); }
        (ReadableBatches(a, buf) + ReadableBatches(front, buf)) + FileYield(buf[last]);
        ReadableBatches(a, buf) + (ReadableBatches(front, buf) + FileYield(buf[last]));
        { ReadableBatchesUnfold(b, buf); }
        ReadableBatches(a, buf) + ReadableBatches(b, buf);
      }
    }
  }

  /** The files `ReadBufferedBatchesAsync` opens: the `maxBatchCount` oldest. */
  function ChosenFiles(listing: seq<Guid>, buf: map<Guid, Slot>, maxBatchCount: int): (r: seq<Guid>)
    requires forall x :: x in listing ==> x in buf
    ensures forall x :: x in r ==> x in buf
  {
    Take(OrderByCreation(listing, buf), maxBatchCount)
  }

  /** The listing `Directory.GetFiles` returns: every buffer file once. */
  ghost predicate ListsBuffer(listing: seq<Guid>, buf: map<Guid, Slot>) {
    (forall x :: x in listing <==> x in buf) &&
    (forall i, j :: 0 <= i < j < |listing| ==> listing[i] != listing[j])
  }

  /** No file left unopened is older than a file that was opened, and at most
      `maxBatchCount` files are opened. */
  lemma OldestFilesChosen(listing: seq<Guid>, buf: map<Guid, Slot>, maxBatchCount: int, x: Guid, y: Guid)
    requires ListsBuffer(listing, buf)
    requires x in ChosenFiles(listing, buf, maxBatchCount)
    requires y in buf && y !in ChosenFiles(listing, buf, maxBatchCount)
    ensures buf[x].created <= buf[y].created
  {
    var ordered := OrderByCreation(listing, buf);
    var chosen := ChosenFiles(listing, buf, maxBatchCount);
    assert y in multiset(listing);
    assert y in ordered;
    var j :| 0 <= j < |ordered| && ordered[j] == y;
    var i :| 0 <= i < |chosen| && chosen[i] == x;
    assert chosen == ordered[..|chosen|];
    assert j >= |chosen|;
    assert ordered[i] == x;
  }

  /** At most `maxBatchCount` batches come back, and none for a count below 1;
      unreadable files count against the limit. */
  lemma ReadIsBounded(listing: seq<Guid>, buf: map<Guid, Slot>, maxBatchCount: int)
    requires ListsBuffer(listing, buf)
    ensures |ReadableBatches(ChosenFiles(listing, buf, maxBatchCount), buf)| <= if maxBatchCount < 0 then 0 else maxBatchCount
    ensures |ReadableBatches(ChosenFiles(listing, buf, maxBatchCount), buf)| <= |buf|
  {
    ListedOnce(listing, buf);
  }

  /** A listing that names every file once is as long as the directory. */
  lemma ListedOnce(listing: seq<Guid>, buf: map<Guid, Slot>)
    requires ListsBuffer(listing, buf)
    ensures |listing| == |buf|
  {
    var ks := set x | x in listing;
    assert ks == buf.Keys;
    DistinctCard(listing);
  }

  lemma {:induction false} DistinctCard<T>(s: seq<T>)
    requires forall i, j :: 0 <= i < j < |s| ==> s[i] != s[j]
    ensures |set x | x in s| == |s|
  {
    if s != [] {
      var front := s[..|s| - 1];
      DistinctCard(front);
      assert (set x | x in s) == (set x | x in front) + {s[|s| - 1]};
      assert s[|s| - 1] !in front;
    }
  }

  /** `GetBatchFilePath`: the file of a batch is `<id>.json` in the one
      buffer directory. The directory is fixed, so the file name alone
      tells the files apart, and the buffer map is keyed by the id the name
      is made of. */
  function BatchFilePath(id: Guid): Guid {
    id
  }

  /** Batches with different ids never share a buffer file, so buffering
      one batch cannot overwrite the file of another. */
  lemma BatchFilePathsDistinct(a: Guid, b: Guid)
    requires a != b
    ensures BatchFilePath(a) != BatchFilePath(b)
  {
  }

  class AzureMonitorService {
    const retryCount: int
    const retryIntervalMs: int
    /** The buffer directory: one file per batch id. */
    var buffer: map<Guid, Slot>

    constructor(settings: CollectorSettings, existing: map<Guid, Slot>)
      ensures retryCount == settings.retryCount && retryIntervalMs == settings.retryIntervalMs
      ensures buffer == existing
    {
      retryCount := settings.retryCount;
      retryIntervalMs := settings.retryIntervalMs;
      buffer := existing;
    }

    /** The retry policy of every send: the collector's count and interval,
        exponential backoff on. */
    function SendPolicy(): (p: Policy)
      ensures p.retryCount == retryCount && p.retryIntervalMs == retryIntervalMs && p.exponentialBackoff
    {
      Policy(retryCount, retryIntervalMs, true)
    }

    /** `BufferBatchAsync`: writes the batch to the file named after its id,
        replacing any file of that name; every other file is untouched. */
    method BufferBatch(batch: Option<LogBatch>, stamp: Timestamp, writeFails: bool) returns (r: Result<()>)
      modifies this
      ensures batch.None? ==> r == Err(ArgumentNull) && buffer == old(buffer)
      ensures batch.Some? && writeFails ==> r == Err(IoFailure) && buffer == old(buffer)
      ensures batch.Some? && !writeFails ==>
                r == Ok(()) && buffer == old(buffer)[BatchFilePath(batch.value.batchId) := Slot(Holds(batch.value), stamp)]
    {
      if batch.None? {
        return Err(ArgumentNull);
      }
      if writeFails {
        return Err(IoFailure);
      }
      buffer := buffer[BatchFilePath(batch.value.batchId) := Slot(Holds(batch.value), stamp)];
      return Ok(());
    }

    /** `SendLogsAsync`: nothing for a null or empty collection; otherwise
        each batch through the retry policy, buffering the ones that fail. */
    method SendLogs(batches: Option<seq<LogBatch>>, sink: Sink) returns (r: SendEnd)
      modifies this
      ensures batches.None? || batches.value == [] ==> r == Completed && buffer == old(buffer)
      ensures batches.Some? ==> Delivery(r, buffer) == SendFrom(SendPolicy(), false, old(buffer), batches.value, 0, sink)
    {
      if batches.None? || batches.value == [] {
        return Completed;
      }
      var bs := batches.value;
      var k := 0;
      while k < |bs|
        invariant 0 <= k <= |bs|
        invariant SendFrom(SendPolicy(), false, old(buffer), bs, 0, sink) == SendFrom(SendPolicy(), false, buffer, bs, k, sink)
      {
        var ending, _, _ := ExecuteWithRetryVoid(Some(sink.attempt(k)), SendPolicy(), sink.cancelled(k));
        if ending.WaitsForever? {
          return Blocked;
        }
        if ending.Finished? && ending.result.Err? {
          var w := BufferBatch(Some(bs[k]), sink.stamp(k), sink.writeFails(k));
          if w.Err? {
            return Escaped(w.error);
          }
        }
        k := k + 1;
      }
      return Completed;
    }

    /** `Directory.GetFiles`: every buffer file once, in an order the
        filesystem chooses. */
    method ListFiles() returns (listing: seq<Guid>)
      ensures ListsBuffer(listing, buffer)
    {
      listing := [];
      var remaining := buffer.Keys;
      while remaining != {}
        invariant remaining <= buffer.Keys
        invariant forall x :: x in listing ==> x in buffer && x !in remaining
        invariant forall x :: x in buffer ==> x in listing || x in remaining
        invariant forall i, j :: 0 <= i < j < |listing| ==> listing[i] != listing[j]
        decreases |remaining|
      {
        var x :| x in remaining;
        listing := listing + [x];
        remaining := remaining - {x};
      }
    }

    /** `ReadBufferedBatchesAsync`: opens the `maxBatchCount` oldest files
        and returns the batches they yield, oldest first. A failing
        `Directory.GetFiles` (`listFails`) is rethrown, and nothing is read. */
    method ReadBufferedBatches(maxBatchCount: int, listFails: bool) returns (r: Result<seq<LogBatch>>, listing: seq<Guid>)
      ensures listFails ==> r == Err(IoFailure)
      ensures !listFails ==>
                && ListsBuffer(listing, buffer)
                && r == Ok(ReadableBatches(ChosenFiles(listing, buffer, maxBatchCount), buffer))
    {
      if listFails {
        return Err(IoFailure), [];
      }
      listing := ListFiles();
      var files := ChosenFiles(listing, buffer, maxBatchCount);
      var batches := [];
      for i := 0 to |files|
        invariant batches == ReadableBatches(files[..i], buffer)
      {
        assert files[..i + 1][..i] == files[..i];
        ReadableBatchesUnfold(files[..i + 1], buffer);
        match buffer[files[i]].content
        case Holds(b) => batches := batches + [b];
        case _ =>
      }
      assert files[..|files|] == files;
      r := Ok(batches);
    }

    /** `RemoveBufferedBatchAsync`: a null or empty id is refused; otherwise
        the file of that id is deleted if it exists, and a failing delete is
        rethrown with the file left in place. */
    method RemoveBufferedBatch(batchId: BatchIdText, deleteFails: bool) returns (r: Result<()>)
      modifies this
      ensures !batchId.IdText? ==> r == Err(ArgumentInvalid) && buffer == old(buffer)
      ensures batchId.IdText? && deleteFails && BatchFilePath(batchId.id) in old(buffer) ==>
                r == Err(IoFailure) && buffer == old(buffer)
      ensures batchId.IdText? && !(deleteFails && BatchFilePath(batchId.id) in old(buffer)) ==>
                r == Ok(()) && buffer == old(buffer) - {BatchFilePath(batchId.id)}
    {
      if !batchId.IdText? {
        return Err(ArgumentInvalid);
      }
      var path := BatchFilePath(batchId.id);
      if path in buffer {
        if deleteFails {
          return Err(IoFailure);
        }
        buffer := buffer - {path};
      }
      return Ok(());
    }
  }
}
