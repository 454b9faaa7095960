/** `LogSizeCalculator`: the deterministic byte estimate of entries and
    batches, and the single-pass greedy split of a sequence of entries into
    batches bounded by entry count and estimated bytes. */
module LogSizeCalculator {
  import opened Wrappers
  import opened Text
  import opened Models

  /** `CalculateStringSize`: the UTF-8 byte count, 0 for a null or empty string. */
  function StringSize(s: String16): (n: nat)
    ensures n == |Utf8Encode(s)|
    ensures |s| <= n <= 3 * |s|
  {
    ByteCountIsEncodedLength(s);
    ByteCountBounds(s);
    if |s| == 0 then 0 else Utf8ByteCount(s)
  }

  function OptionalStringSize(o: Option<String16>): nat {
    match o
    case None => 0
    case Some(s) => StringSize(s)
  }

  /** The bytes of the tags: key and value of each. */
  function TagsSize(tags: seq<Tag>): nat {
    if tags == [] then 0
    else TagsSize(tags[..|tags| - 1]) + StringSize(tags[|tags| - 1].key) + StringSize(tags[|tags| - 1].value)
  }

  /** `CalculateSize`: 8 bytes for the timestamp, 4 each for severity and
      event id, plus the UTF-8 bytes of every string field and tag. */
  function EntrySize(e: LogEntry): (n: nat)
    ensures n >= 16 + |e.machineId| + |e.message|
  {
    8 + StringSize(e.machineId) + 4 + 4 + StringSize(e.message)
      + OptionalStringSize(e.operationId) + TagsSize(e.tags)
  }

  /** The sum of the entry sizes. */
  function SumSizes(es: seq<LogEntry>): nat {
    if es == [] then 0 else SumSizes(es[..|es| - 1]) + EntrySize(es[|es| - 1])
  }

  /** `CalculateBatchSize`: 16 bytes of id and 8 of timestamp, plus the entries. */
  function BatchSize(b: LogBatch): (n: nat)
    ensures n >= 24 + 16 * |b.entries|
  {
    SumSizesLowerBound(b.entries);
    24 + SumSizes(b.entries)
  }

  lemma {:induction false} SumSizesLowerBound(es: seq<LogEntry>)
    ensures SumSizes(es) >= 16 * |es|
  {
    if es != [] {
      SumSizesLowerBound(es[..|es| - 1]);
    }
  }

  /** The size of a concatenation is the sum of the sizes. */
  lemma {:induction false} SumSizesAppend(a: seq<LogEntry>, b: seq<LogEntry>)
    ensures SumSizes(a + b) == SumSizes(a) + SumSizes(b)
    decreases |b|
  {
    if b != [] {
      var b' := b[..|b| - 1];
      assert (a + b)[..|a + b| - 1] == a + b';
      SumSizesAppend(a, b');
    } else {
      assert a + b == a;
    }
  }

  /** A prefix never weighs more than the whole. */
  lemma {:induction false} SumSizesPrefix(es: seq<LogEntry>, i: nat)
    requires i <= |es|
    ensures SumSizes(es[..i]) <= SumSizes(es)
    decreases |es|
  {
    if i < |es| {
      var init := es[..|es| - 1];
      assert init[..i] == es[..i];
      SumSizesPrefix(init, i);
    } else {
      assert es[..i] == es;
    }
  }

  /** Adding a tag never decreases the estimate. */
  lemma AddingTagGrows(e: LogEntry, t: Tag)
    ensures EntrySize(e) <= EntrySize(e.(tags := e.tags + [t]))
  {
    assert (e.tags + [t])[..|e.tags|] == e.tags;
  }

  lemma StringSizeMonotone(s: String16, t: String16)
    ensures StringSize(s) <= StringSize(s + t)
  {
    ByteCountMonotone(s, t);
  }

  /** Lengthening the machine id, the message or the operation id never
      decreases the estimate. */
  lemma LengtheningGrows(e: LogEntry, m: String16, msg: String16, op: String16)
    ensures EntrySize(e) <= EntrySize(e.(machineId := e.machineId + m, message := e.message + msg))
    ensures e.operationId.Some? ==>
              EntrySize(e) <= EntrySize(e.(operationId := Some(e.operationId.value + op)))
    ensures e.operationId.None? ==> EntrySize(e) <= EntrySize(e.(operationId := Some(op)))
  {
    StringSizeMonotone(e.machineId, m);
    StringSizeMonotone(e.message, msg);
    if e.operationId.Some? {
      StringSizeMonotone(e.operationId.value, op);
    }
  }

  /** The concatenation of a sequence of groups. */
  function Flatten<T>(gs: seq<seq<T>>): seq<T> {
    if gs == [] then [] else gs[0] + Flatten(gs[1..])
  }

  lemma {:induction false} FlattenAppend<T>(gs: seq<seq<T>>, g: seq<T>)
    ensures Flatten(gs + [g]) == Flatten(gs) + g
    decreases |gs|
  {
    if gs == [] {
      assert [g][1..] == [];
    } else {
      assert (gs + [g])[1..] == gs[1..] + [g];
      FlattenAppend(gs[1..], g);
    }
  }

  /** The entries of each batch, in order. */
  function Groups(bs: seq<LogBatch>): (gs: seq<seq<LogEntry>>)
    ensures |gs| == |bs| && forall k :: 0 <= k < |bs| ==> gs[k] == bs[k].entries
  {
    seq(|bs|, k requires 0 <= k < |bs| => bs[k].entries)
  }

  lemma GroupsAppend(bs: seq<LogBatch>, b: LogBatch)
    ensures Groups(bs + [b]) == Groups(bs) + [b.entries]
  {
  }

  /** The most entries a batch may hold: `maxBatchEntries`, and 1 when the
      limit is below 1 (the first entry of a batch is always admitted). */
  function CountLimit(maxEntries: int): (n: nat)
    ensures n >= 1
  {
    if maxEntries >= 1 then maxEntries else 1
  }

  predicate AllNonEmpty(gs: seq<seq<LogEntry>>) {
    forall k :: 0 <= k < |gs| ==> gs[k] != []
  }

  predicate WithinCount(gs: seq<seq<LogEntry>>, maxEntries: int) {
    forall k :: 0 <= k < |gs| ==> |gs[k]| <= CountLimit(maxEntries)
  }

  /** Every batch fits the byte limit, except a lone entry that is too big
      by itself. */
  predicate WithinBytes(gs: seq<seq<LogEntry>>, maxBytes: int) {
    forall k :: 0 <= k < |gs| ==> |gs[k]| == 1 || SumSizes(gs[k]) <= maxBytes
  }

  /** A batch is closed before `next` when it is full by count or `next`
      would push it over the byte limit. */
  predicate ClosesBefore(group: seq<LogEntry>, next: LogEntry, maxBytes: int, maxEntries: int) {
    |group| >= maxEntries || SumSizes(group) + EntrySize(next) > maxBytes
  }

  /** Every batch but the last was closed for a reason: it was full by count,
      or the first entry of the next batch would have pushed it over the
      byte limit. */
  predicate Maximal(gs: seq<seq<LogEntry>>, maxBytes: int, maxEntries: int)
    requires AllNonEmpty(gs)
  {
    forall k :: 0 <= k < |gs| - 1 ==>
      ClosesBefore(gs[k], gs[k + 1][0], maxBytes, maxEntries)
  }

  /** What the greedy split promises of every group it has closed. */
  predicate ClosedGroups(gs: seq<seq<LogEntry>>, maxBytes: int, maxEntries: int) {
    && AllNonEmpty(gs)
    && WithinCount(gs, maxEntries)
    && WithinBytes(gs, maxBytes)
    && Maximal(gs, maxBytes, maxEntries)
  }

  /** What the greedy split promises of its groups: together they are the
      input, in order, and each keeps the promises of a closed group. */
  predicate IsGreedyBatching(es: seq<LogEntry>, maxBytes: int, maxEntries: int, gs: seq<seq<LogEntry>>) {
    && Flatten(gs) == es
    && ClosedGroups(gs, maxBytes, maxEntries)
  }

  /** The state of the split after a prefix of the input: the closed groups
      `gs` and the open group `current` keep every promise of the result,
      and the last closed group was closed for a reason. */
  predicate OpenState(prefix: seq<LogEntry>, gs: seq<seq<LogEntry>>, current: seq<LogEntry>,
                      maxBytes: int, maxEntries: int)
  {
    && Flatten(gs) + current == prefix
    && (prefix != [] ==> current != [])
    && |current| <= CountLimit(maxEntries)
    && (|current| <= 1 || SumSizes(current) <= maxBytes)
    && ClosedGroups(gs, maxBytes, maxEntries)
    && (gs != [] ==> current != [])
    && (gs != [] ==> ClosesBefore(gs[|gs| - 1], current[0], maxBytes, maxEntries))
  }

  /** Appending a group that keeps the per-group promises keeps them for all groups. */
  lemma AppendGroup(gs: seq<seq<LogEntry>>, g: seq<LogEntry>, maxBytes: int, maxEntries: int)
    requires ClosedGroups(gs, maxBytes, maxEntries)
    requires g != [] && |g| <= CountLimit(maxEntries) && (|g| <= 1 || SumSizes(g) <= maxBytes)
    requires gs != [] ==> ClosesBefore(gs[|gs| - 1], g[0], maxBytes, maxEntries)
    ensures ClosedGroups(gs + [g], maxBytes, maxEntries)
  {
    AppendGroupBounds(gs, g, maxBytes, maxEntries);
    AppendGroupMaximal(gs, g, maxBytes, maxEntries);
  }

  lemma AppendGroupBounds(gs: seq<seq<LogEntry>>, g: seq<LogEntry>, maxBytes: int, maxEntries: int)
    requires AllNonEmpty(gs) && WithinCount(gs, maxEntries) && WithinBytes(gs, maxBytes)
    requires g != [] && |g| <= CountLimit(maxEntries) && (|g| <= 1 || SumSizes(g) <= maxBytes)
    ensures AllNonEmpty(gs + [g]) && WithinCount(gs + [g], maxEntries) && WithinBytes(gs + [g], maxBytes)
  {
    var gs' := gs + [g];
    forall k | 0 <= k < |gs'|
      ensures gs'[k] != [] && |gs'[k]| <= CountLimit(maxEntries) && (|gs'[k]| == 1 || SumSizes(gs'[k]) <= maxBytes)
    {
      if k < |gs| {
        assert gs'[k] == gs[k];
      } else {
        assert gs'[k] == g;
      }
    }
  }

  lemma AppendGroupMaximal(gs: seq<seq<LogEntry>>, g: seq<LogEntry>, maxBytes: int, maxEntries: int)
    requires AllNonEmpty(gs) && g != [] && AllNonEmpty(gs + [g])
    requires Maximal(gs, maxBytes, maxEntries)
    requires gs != [] ==> ClosesBefore(gs[|gs| - 1], g[0], maxBytes, maxEntries)
    ensures Maximal(gs + [g], maxBytes, maxEntries)
  {
    var gs' := gs + [g];
    forall k | 0 <= k < |gs'| - 1
      ensures ClosesBefore(gs'[k], gs'[k + 1][0], maxBytes, maxEntries)
    {
      assert gs'[k] == gs[k];
      if k < |gs| - 1 {
        assert gs'[k + 1] == gs[k + 1];
      } else {
        assert gs'[k + 1] == g && k == |gs| - 1;
      }
    }
  }

  lemma SingletonSize(e: LogEntry)
    ensures SumSizes([e]) == EntrySize(e)
  {
    assert [e][..0] == [];
  }

  /** Closing the open group keeps the promises of the closed groups. */
  lemma CloseGroup(prefix: seq<LogEntry>, gs: seq<seq<LogEntry>>, current: seq<LogEntry>,
                   e: LogEntry, maxBytes: int, maxEntries: int)
    requires OpenState(prefix, gs, current, maxBytes, maxEntries)
    requires current != [] && ClosesBefore(current, e, maxBytes, maxEntries)
    ensures OpenState(prefix + [e], gs + [current], [e], maxBytes, maxEntries)
  {
    FlattenAppend(gs, current);
    AppendGroup(gs, current, maxBytes, maxEntries);
  }

  /** Adding an entry to the open group keeps its promises when the group
      is empty or neither limit is reached. */
  lemma ExtendGroup(prefix: seq<LogEntry>, gs: seq<seq<LogEntry>>, current: seq<LogEntry>,
                    e: LogEntry, maxBytes: int, maxEntries: int)
    requires OpenState(prefix, gs, current, maxBytes, maxEntries)
    requires current == [] || (|current| < maxEntries && SumSizes(current) + EntrySize(e) <= maxBytes)
    ensures OpenState(prefix + [e], gs, current + [e], maxBytes, maxEntries)
  {
    var c := current + [e];
    assert Flatten(gs) + c == prefix + [e];
    if current == [] {
      assert gs == [] && c == [e];
    } else {
      assert c[..|current|] == current;
      assert SumSizes(c) == SumSizes(current) + EntrySize(e) <= maxBytes;
      assert |c| <= CountLimit(maxEntries);
      assert c[0] == current[0];
    }
  }

  /** Flushing the open group at the end yields a greedy batching. */
  lemma Flush(es: seq<LogEntry>, gs: seq<seq<LogEntry>>, current: seq<LogEntry>,
              maxBytes: int, maxEntries: int)
    requires OpenState(es, gs, current, maxBytes, maxEntries)
    ensures IsGreedyBatching(es, maxBytes, maxEntries, if current == [] then gs else gs + [current])
  {
    if current == [] {
      assert Flatten(gs) + [] == Flatten(gs);
    } else {
      FlattenAppend(gs, current);
      AppendGroup(gs, current, maxBytes, maxEntries);
    }
  }

  /** The k-th batch created carries the k-th minted id, the creation time
      and the bare sum of its entry sizes, which is 24 bytes less than the
      batch estimate. */
  predicate Stamped(b: LogBatch, k: nat, mint: nat -> Guid, now: Timestamp) {
    && b.batchId == mint(k)
    && b.createdAt == now
    && b.size == SumSizes(b.entries)
    && BatchSize(b) == b.size + 24
  }

  /** Every batch is stamped by its position, stated from the back so that
      appending a batch only looks at the new one. */
  predicate AllStamped(bs: seq<LogBatch>, mint: nat -> Guid, now: Timestamp) {
    bs == [] || (AllStamped(bs[..|bs| - 1], mint, now) && Stamped(bs[|bs| - 1], |bs| - 1, mint, now))
  }

  lemma {:induction false} AllStampedIndex(bs: seq<LogBatch>, mint: nat -> Guid, now: Timestamp)
    requires AllStamped(bs, mint, now)
    ensures forall k :: 0 <= k < |bs| ==> Stamped(bs[k], k, mint, now)
  {
    if bs != [] {
      AllStampedIndex(bs[..|bs| - 1], mint, now);
    }
  }

  /** The loop state of `CreateBatches` after a prefix of its input: the
      closed batches, stamped in creation order, and the open group with its
      running size. */
  predicate SplitState(prefix: seq<LogEntry>, batches: seq<LogBatch>, current: seq<LogEntry>, currentSize: int,
                       maxBytes: int, maxEntries: int, mint: nat -> Guid, now: Timestamp)
  {
    && OpenState(prefix, Groups(batches), current, maxBytes, maxEntries)
    && currentSize == SumSizes(current)
    && AllStamped(batches, mint, now)
  }

  lemma PrefixStep<T>(s: seq<T>, i: nat)
    requires i < |s|
    ensures s[..i + 1] == s[..i] + [s[i]]
  {
  }

  /** Closing the open batch and opening a new one with the entry keeps the loop state. */
  lemma CloseStep(prefix: seq<LogEntry>, batches: seq<LogBatch>, current: seq<LogEntry>, currentSize: int,
                  entry: LogEntry, maxBytes: int, maxEntries: int, mint: nat -> Guid, now: Timestamp)
    requires SplitState(prefix, batches, current, currentSize, maxBytes, maxEntries, mint, now)
    requires current != [] && (|current| >= maxEntries || currentSize + EntrySize(entry) > maxBytes)
    ensures SplitState(prefix + [entry], batches + [LogBatch(mint(|batches|), now, current, currentSize)],
                       [entry], EntrySize(entry), maxBytes, maxEntries, mint, now)
  {
    var batch := LogBatch(mint(|batches|), now, current, currentSize);
    CloseGroup(prefix, Groups(batches), current, entry, maxBytes, maxEntries);
    GroupsAppend(batches, batch);
    SingletonSize(entry);
    assert (batches + [batch])[..|batches|] == batches;
    assert Stamped(batch, |batches|, mint, now);
    assert AllStamped(batches + [batch], mint, now);
  }

  /** Appending the entry to the open group keeps the loop state when the
      group is empty or neither limit is reached. */
  lemma ExtendStep(prefix: seq<LogEntry>, batches: seq<LogBatch>, current: seq<LogEntry>, currentSize: int,
                   entry: LogEntry, maxBytes: int, maxEntries: int, mint: nat -> Guid, now: Timestamp)
    requires SplitState(prefix, batches, current, currentSize, maxBytes, maxEntries, mint, now)
    requires current == [] || (|current| < maxEntries && currentSize + EntrySize(entry) <= maxBytes)
    ensures SplitState(prefix + [entry], batches, current + [entry], currentSize + EntrySize(entry),
                       maxBytes, maxEntries, mint, now)
  {
    ExtendGroup(prefix, Groups(batches), current, entry, maxBytes, maxEntries);
    assert (current + [entry])[..|current|] == current;
  }

  /** One turn of the `CreateBatches` loop: the entry first closes the open
      batch when that batch is full by count or would overflow the byte
      limit, and is then appended to the open group. */
  method Admit(ghost prefix: seq<LogEntry>, batches: seq<LogBatch>, current: seq<LogEntry>, currentSize: int,
               entry: LogEntry, maxBytes: int, maxEntries: int, mint: nat -> Guid, now: Timestamp)
    returns (batches': seq<LogBatch>, current': seq<LogEntry>, currentSize': int)
    requires SplitState(prefix, batches, current, currentSize, maxBytes, maxEntries, mint, now)
    ensures SplitState(prefix + [entry], batches', current', currentSize', maxBytes, maxEntries, mint, now)
  {
    var entrySize := EntrySize(entry);
    if |current| >= maxEntries || currentSize + entrySize > maxBytes {
      if |current| > 0 {
        CloseStep(prefix, batches, current, currentSize, entry, maxBytes, maxEntries, mint, now);
        return batches + [LogBatch(mint(|batches|), now, current, currentSize)], [entry], entrySize;
      }
    }
    ExtendStep(prefix, batches, current, currentSize, entry, maxBytes, maxEntries, mint, now);
    return batches, current + [entry], currentSize + entrySize;
  }

  /** Closing the open group at the end keeps every batch stamped and
      completes a greedy batching. */
  lemma LastStep(es: seq<LogEntry>, batches: seq<LogBatch>, current: seq<LogEntry>, currentSize: int,
                 maxBytes: int, maxEntries: int, mint: nat -> Guid, now: Timestamp)
    requires SplitState(es, batches, current, currentSize, maxBytes, maxEntries, mint, now)
    requires current != []
    ensures IsGreedyBatching(es, maxBytes, maxEntries, Groups(batches + [LogBatch(mint(|batches|), now, current, currentSize)]))
    ensures AllStamped(batches + [LogBatch(mint(|batches|), now, current, currentSize)], mint, now)
  {
    var batch := LogBatch(mint(|batches|), now, current, currentSize);
    Flush(es, Groups(batches), current, maxBytes, maxEntries);
    GroupsAppend(batches, batch);
    assert (batches + [batch])[..|batches|] == batches;
  }

  /** With no open group at the end, the closed batches are the result. */
  lemma EmptyLastStep(es: seq<LogEntry>, batches: seq<LogBatch>, currentSize: int,
                      maxBytes: int, maxEntries: int, mint: nat -> Guid, now: Timestamp)
    requires SplitState(es, batches, [], currentSize, maxBytes, maxEntries, mint, now)
    ensures IsGreedyBatching(es, maxBytes, maxEntries, Groups(batches))
    ensures AllStamped(batches, mint, now)
  {
    Flush(es, Groups(batches), [], maxBytes, maxEntries);
  }

  /** After the loop: the open group, when there is one, becomes the last batch. */
  method CloseLast(ghost es: seq<LogEntry>, batches: seq<LogBatch>, current: seq<LogEntry>, currentSize: int,
                   maxBytes: int, maxEntries: int, mint: nat -> Guid, now: Timestamp)
    returns (r: seq<LogBatch>)
    requires SplitState(es, batches, current, currentSize, maxBytes, maxEntries, mint, now)
    ensures IsGreedyBatching(es, maxBytes, maxEntries, Groups(r))
    ensures forall k :: 0 <= k < |r| ==> Stamped(r[k], k, mint, now)
  {
    if |current| > 0 {
      LastStep(es, batches, current, currentSize, maxBytes, maxEntries, mint, now);
      r := batches + [LogBatch(mint(|batches|), now, current, currentSize)];
    } else {
      EmptyLastStep(es, batches, currentSize, maxBytes, maxEntries, mint, now);
      r := batches;
    }
    AllStampedIndex(r, mint, now);
  }

  /** `CreateBatches`. `mint(k)` stands for the `Guid.NewGuid()` of the k-th
      batch created and `now` for `DateTime.UtcNow`. Each batch's `Size` is
      the bare sum of its entry sizes, without the 24 header bytes that
      `CalculateBatchSize` counts. */
  method CreateBatches(entries: Option<seq<LogEntry>>, maxBatchSizeBytes: int, maxBatchEntries: int,
                       mint: nat -> Guid, now: Timestamp)
    returns (r: Result<seq<LogBatch>>)
    ensures entries.None? ==> r == Err(ArgumentNull)
    ensures entries.Some? ==> r.Ok?
    ensures r.Ok? ==> IsGreedyBatching(entries.value, maxBatchSizeBytes, maxBatchEntries, Groups(r.value))
    ensures r.Ok? ==> forall k :: 0 <= k < |r.value| ==> Stamped(r.value[k], k, mint, now)
  {
    if entries.None? {
      return Err(ArgumentNull);
    }
    var es := entries.value;
    var batches: seq<LogBatch> := [];
    var current: seq<LogEntry> := [];
    var currentSize := 0;
    for i := 0 to |es|
      invariant SplitState(es[..i], batches, current, currentSize, maxBatchSizeBytes, maxBatchEntries, mint, now)
    {
      PrefixStep(es, i);
      batches, current, currentSize :=
        Admit(es[..i], batches, current, currentSize, es[i], maxBatchSizeBytes, maxBatchEntries, mint, now);
    }
    assert es[..|es|] == es;
    batches := CloseLast(es, batches, current, currentSize, maxBatchSizeBytes, maxBatchEntries, mint, now);
    return Ok(batches);
  }

  lemma FlattenEmpty(gs: seq<seq<LogEntry>>)
    requires AllNonEmpty(gs) && Flatten(gs) == []
    ensures gs == []
  {
  }

  /** The first group of a greedy batching of a non-empty sequence: a
      prefix of the input within the limits, closed for a reason when
      another group follows. */
  lemma GreedyHead(es: seq<LogEntry>, maxBytes: int, maxEntries: int, gs: seq<seq<LogEntry>>)
    requires IsGreedyBatching(es, maxBytes, maxEntries, gs) && es != []
    ensures gs != [] && 1 <= |gs[0]| <= |es| && es[..|gs[0]|] == gs[0]
    ensures |gs[0]| <= CountLimit(maxEntries) && (|gs[0]| <= 1 || SumSizes(gs[0]) <= maxBytes)
    ensures |gs| > 1 ==> |gs[0]| < |es| && es[..|gs[0]| + 1] == gs[0] + [gs[1][0]]
    ensures |gs| > 1 ==> ClosesBefore(gs[0], gs[1][0], maxBytes, maxEntries)
    ensures |gs| == 1 ==> gs[0] == es
  {
    assert gs != [];
    assert es == gs[0] + Flatten(gs[1..]);
    if |gs| == 1 {
      assert gs[1..] == [];
    } else {
      assert gs[1..][0] == gs[1] != [];
      assert Flatten(gs[1..]) == gs[1] + Flatten(gs[2..]);
      assert es[..|gs[0]| + 1] == gs[0] + [gs[1][0]];
    }
  }

  /** A greedy batching of a non-empty sequence: the rest after its first
      group is a greedy batching of what follows that group. */
  lemma GreedyTail(es: seq<LogEntry>, maxBytes: int, maxEntries: int, gs: seq<seq<LogEntry>>)
    requires IsGreedyBatching(es, maxBytes, maxEntries, gs) && es != []
    ensures gs != [] && 1 <= |gs[0]| <= |es| && es[..|gs[0]|] == gs[0]
    ensures IsGreedyBatching(es[|gs[0]|..], maxBytes, maxEntries, gs[1..])
  {
    assert gs != [];
    assert es == gs[0] + Flatten(gs[1..]);
    assert es[|gs[0]|..] == Flatten(gs[1..]);
  }

  /** A group that was closed for a reason cannot be extended by the entry
      that followed it without breaking a limit. */
  lemma ClosedGroupCannotGrow(a: seq<LogEntry>, x: LogEntry, b: seq<LogEntry>, maxBytes: int, maxEntries: int)
    requires a != []
    requires ClosesBefore(a, x, maxBytes, maxEntries)
    requires |b| <= CountLimit(maxEntries) && (|b| <= 1 || SumSizes(b) <= maxBytes)
    ensures !(|b| > |a| && b[..|a| + 1] == a + [x])
  {
    if |b| > |a| && b[..|a| + 1] == a + [x] {
      if |a| < maxEntries {
        var p := b[..|a| + 1];
        assert p[..|a|] == a && p[|a|] == x;
        assert SumSizes(p) == SumSizes(a) + EntrySize(x);
        SumSizesPrefix(b, |a| + 1);
      }
    }
  }

  /** No group can be strictly longer than another valid first group. */
  lemma FirstGroupNotLonger(es: seq<LogEntry>, maxBytes: int, maxEntries: int,
                            gs: seq<seq<LogEntry>>, hs: seq<seq<LogEntry>>)
    requires IsGreedyBatching(es, maxBytes, maxEntries, gs)
    requires IsGreedyBatching(es, maxBytes, maxEntries, hs)
    requires es != []
    ensures |hs[0]| <= |gs[0]|
  {
    GreedyHead(es, maxBytes, maxEntries, gs);
    GreedyHead(es, maxBytes, maxEntries, hs);
    var a, b := gs[0], hs[0];
    if |b| > |a| && |gs| > 1 {
      assert b[..|a| + 1] == es[..|a| + 1];
      ClosedGroupCannotGrow(a, gs[1][0], b, maxBytes, maxEntries);
    }
  }

  /** The promises of the greedy split determine its result: two batchings
      that both keep them are the same. */
  lemma {:induction false} GreedyBatchingIsUnique(es: seq<LogEntry>, maxBytes: int, maxEntries: int,
                                                  gs: seq<seq<LogEntry>>, hs: seq<seq<LogEntry>>)
    requires IsGreedyBatching(es, maxBytes, maxEntries, gs)
    requires IsGreedyBatching(es, maxBytes, maxEntries, hs)
    ensures gs == hs
    decreases |es|
  {
    if es == [] {
      FlattenEmpty(gs);
      FlattenEmpty(hs);
    } else {
      GreedyTail(es, maxBytes, maxEntries, gs);
      GreedyTail(es, maxBytes, maxEntries, hs);
      FirstGroupNotLonger(es, maxBytes, maxEntries, gs, hs);
      FirstGroupNotLonger(es, maxBytes, maxEntries, hs, gs);
      assert gs[0] == hs[0];
      GreedyBatchingIsUnique(es[|gs[0]|..], maxBytes, maxEntries, gs[1..], hs[1..]);
      assert gs == [gs[0]] + gs[1..] && hs == [hs[0]] + hs[1..];
    }
  }

  /** Three entries of 200 estimated bytes with a 500-byte, 100-entry limit
      are split as two entries (400 bytes) and then one (200 bytes). */
  lemma ThreeEntriesOfTwoHundredBytes(es: seq<LogEntry>, gs: seq<seq<LogEntry>>)
    requires |es| == 3 && forall i :: 0 <= i < 3 ==> EntrySize(es[i]) == 200
    requires IsGreedyBatching(es, 500, 100, gs)
    ensures |gs| == 2 && |gs[0]| == 2 && |gs[1]| == 1
    ensures SumSizes(gs[0]) == 400 && SumSizes(gs[1]) == 200
  {
    ThreeEntriesSizes(es);
    ThreeEntriesSplit(es);
    GreedyBatchingIsUnique(es, 500, 100, gs, [es[..2], es[2..]]);
  }

  lemma ThreeEntriesSizes(es: seq<LogEntry>)
    requires |es| == 3 && forall i :: 0 <= i < 3 ==> EntrySize(es[i]) == 200
    ensures SumSizes(es[..2]) == 400 && SumSizes(es[2..]) == 200
  {
    assert es[..2] == [es[0]] + [es[1]];
    SumSizesAppend([es[0]], [es[1]]);
    SingletonSize(es[0]);
    SingletonSize(es[1]);
    assert es[2..] == [es[2]];
    SingletonSize(es[2]);
  }

  lemma ThreeEntriesSplit(es: seq<LogEntry>)
    requires |es| == 3 && SumSizes(es[..2]) == 400 && SumSizes(es[2..]) == 200
    ensures IsGreedyBatching(es, 500, 100, [es[..2], es[2..]])
  {
    var a, b := es[..2], es[2..];
    assert [] + [a] == [a] && [a] + [b] == [a, b];
    assert Flatten([a]) == a + Flatten([]);
    FlattenAppend([a], b);
    assert es == a + b;
    assert EntrySize(b[0]) == 200 by {
      assert b == [b[0]];
      SingletonSize(b[0]);
    }
    assert ClosesBefore(a, b[0], 500, 100);
    AppendGroup([], a, 500, 100);
    AppendGroup([a], b, 500, 100);
  }
}
