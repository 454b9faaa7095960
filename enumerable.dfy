/** `EnumerableExtensions`: the fixed-size chunker `Batch`, the null-safe
    `SafeAny` overloads and `ToBatches`, the default-limit entry point of the
    greedy batcher. */
module EnumerableExtensions {
  import opened Wrappers
  import opened Models
  import opened LogSizeCalculator

  /** `GetBatch`: the chunk that starts at the element the enumerator has
      just moved to (`consumed` elements have been moved over so far), then
      moves on while the chunk is short of `batchSize` and the source has
      more. The count test comes first, so a full chunk does not move the
      enumerator past its last element. */
  method GetBatch<T>(s: seq<T>, consumed: nat, batchSize: int) returns (chunk: seq<T>, consumed': nat)
    requires 1 <= consumed <= |s|
    requires batchSize >= 1
    ensures consumed <= consumed' <= |s|
    ensures chunk == s[consumed - 1..consumed']
    ensures |chunk| == batchSize || (consumed' == |s| && |chunk| < batchSize)
  {
    chunk := [s[consumed - 1]];
    consumed' := consumed;
    SliceStep(s, consumed - 1, consumed - 1);
    var i := 1;
    while i < batchSize && consumed' < |s|
      invariant consumed <= consumed' <= |s|
      invariant i == consumed' - consumed + 1 <= batchSize
      invariant chunk == s[consumed - 1..consumed']
    {
      SliceStep(s, consumed - 1, consumed');
      consumed' := consumed' + 1;
      chunk := chunk + [s[consumed' - 1]];
      i := i + 1;
    }
  }

  lemma SliceStep<T>(s: seq<T>, i: nat, j: nat)
    requires i <= j < |s|
    ensures s[i..j + 1] == s[i..j] + [s[j]]
  {
  }

  /** The elements held by `n` full chunks of `size`. */
  function Slots(n: nat, size: nat): nat {
    if n == 0 then 0 else Slots(n - 1, size) + size
  }

  /** The number of chunks of `size` that `n` elements fill, counted one
      chunk at a time. */
  function ChunksNeeded(n: nat, size: nat): nat
    requires size >= 1
    decreases n
  {
    if n == 0 then 0 else if n <= size then 1 else 1 + ChunksNeeded(n - size, size)
  }

  /** Counting chunk by chunk is rounding `n / size` up. */
  lemma {:induction false} ChunksNeededIsCeiling(n: nat, size: nat)
    requires size >= 1
    ensures ChunksNeeded(n, size) == (n + size - 1) / size
    decreases n
  {
    if n == 0 {
      DivideExactly(0, size, size - 1);
    } else if n <= size {
      assert n + size - 1 == 1 * size + (n - 1);
      DivideExactly(1, size, n - 1);
    } else {
      ChunksNeededIsCeiling(n - size, size);
      var q, r := (n - 1) / size, (n - 1) % size;
      assert n - 1 == q * size + r && 0 <= r < size;
      assert n + size - 1 == (q + 1) * size + r;
      DivideExactly(q + 1, size, r);
    }
  }

  /** A number `n` of elements made of `c` chunks, the last one `last` long
      and every other one `size` long, takes `c` chunks of `size` to hold. */
  lemma {:induction false} ChunkCount(n: nat, c: nat, size: nat, last: nat)
    requires size >= 1
    requires (c == 0 && n == 0) || (c >= 1 && 1 <= last <= size && n == Slots(c - 1, size) + last)
    ensures ChunksNeeded(n, size) == c
    decreases c
  {
    if c >= 2 {
      ChunkCount(n - size, c - 1, size, last);
    }
  }

  lemma DivideExactly(q: nat, b: nat, r: nat)
    requires 0 <= r < b
    ensures (q * b + r) / b == q
  {
    var d, m := (q * b + r) / b, (q * b + r) % b;
    assert (d - q) * b == r - m;
    if d - q >= 1 {
      MultiplyAtLeast(d - q, b);
    } else if d - q <= -1 {
      MultiplyAtLeast(q - d, b);
    }
  }

  lemma MultiplyAtLeast(k: int, b: nat)
    requires k >= 1
    ensures k * b >= b
  {
  }

  /** `Batch`: the source split, in order, into chunks of `batchSize`
      elements, the last of which may be shorter. A null source and a size
      below 1 are refused. The chunks are taken as a caller that reads each
      of them to its end before asking for the next one sees them. */
  method Batch<T>(source: Option<seq<T>>, batchSize: int) returns (r: Result<seq<seq<T>>>)
    ensures source.None? ==> r == Err(ArgumentNull)
    ensures source.Some? && batchSize <= 0 ==> r == Err(ArgumentInvalid)
    ensures source.Some? && batchSize >= 1 ==> r.Ok?
    ensures r.Ok? ==> Flatten(r.value) == source.value
    ensures r.Ok? ==> forall k :: 0 <= k < |r.value| ==> 1 <= |r.value[k]| <= batchSize
    ensures r.Ok? ==> forall k :: 0 <= k < |r.value| - 1 ==> |r.value[k]| == batchSize
    ensures r.Ok? ==> |r.value| == (|source.value| + batchSize - 1) / batchSize
  {
    if source.None? {
      return Err(ArgumentNull);
    }
    if batchSize <= 0 {
      return Err(ArgumentInvalid);
    }
    var s := source.value;
    var chunks: seq<seq<T>> := [];
    var consumed := 0;
    while consumed < |s|
      invariant ChunkedPrefix(s, chunks, consumed, batchSize)
    {
      var chunk, next := GetBatch(s, consumed + 1, batchSize);
      ChunkStep(s, chunks, consumed, batchSize, chunk, next);
      chunks, consumed := chunks + [chunk], next;
    }
    ChunkedWhole(s, chunks, consumed, batchSize);
    ChunksNeededIsCeiling(|s|, batchSize);
    return Ok(chunks);
  }

  /** The loop state of `Batch`: the chunks taken so far cover the first
      `consumed` elements, each is 1..`batchSize` long, every one but the
      last is full, and a short last chunk means the source is used up. */
  ghost predicate ChunkedPrefix<T>(s: seq<T>, chunks: seq<seq<T>>, consumed: int, batchSize: int) {
    && 0 <= consumed <= |s|
    && Flatten(chunks) == s[..consumed]
    && (forall k :: 0 <= k < |chunks| ==> 1 <= |chunks[k]| <= batchSize)
    && (forall k :: 0 <= k < |chunks| - 1 ==> |chunks[k]| == batchSize)
    && (chunks == [] ==> consumed == 0)
    && (chunks != [] ==> consumed == Slots(|chunks| - 1, batchSize) + |chunks[|chunks| - 1]|)
    && (chunks != [] && |chunks[|chunks| - 1]| < batchSize ==> consumed == |s|)
  }

  lemma ChunkStep<T>(s: seq<T>, chunks: seq<seq<T>>, consumed: int, batchSize: int, chunk: seq<T>, next: int)
    requires ChunkedPrefix(s, chunks, consumed, batchSize) && consumed < |s| && batchSize >= 1
    requires consumed + 1 <= next <= |s| && chunk == s[consumed..next]
    requires |chunk| == batchSize || (next == |s| && |chunk| < batchSize)
    ensures ChunkedPrefix(s, chunks + [chunk], next, batchSize)
  {
    var cs := chunks + [chunk];
    FlattenAppend(chunks, chunk);
    assert s[..next] == s[..consumed] + chunk;
    assert chunks != [] ==> Slots(|cs| - 1, batchSize) == Slots(|chunks| - 1, batchSize) + batchSize;
    forall k | 0 <= k < |cs|
      ensures 1 <= |cs[k]| <= batchSize && (k < |cs| - 1 ==> |cs[k]| == batchSize)
    {
      if k < |chunks| {
        assert cs[k] == chunks[k];
      }
    }
  }

  lemma ChunkedWhole<T>(s: seq<T>, chunks: seq<seq<T>>, consumed: int, batchSize: int)
    requires ChunkedPrefix(s, chunks, consumed, batchSize) && consumed >= |s| && batchSize >= 1
    ensures Flatten(chunks) == s
    ensures |chunks| == ChunksNeeded(|s|, batchSize)
  {
    assert consumed == |s| && s[..consumed] == s;
    var last := if chunks == [] then 0 else |chunks[|chunks| - 1]|;
    ChunkCount(|s|, |chunks|, batchSize, last);
  }

  /** `Any` over a sequence: some element satisfies `p`, scanned from the front. */
  function AnyMatch<T>(s: seq<T>, p: T -> bool): (r: bool)
    ensures r <==> exists i :: 0 <= i < |s| && p(s[i])
  {
    if s == [] then false
    else if p(s[0]) then true
    else
      var rest := AnyMatch(s[1..], p);
      assert forall i :: 1 <= i < |s| ==> s[i] == s[1..][i - 1];
      rest
  }

  /** `SafeAny(source)`: a null source counts as empty. */
  function SafeAny<T>(source: Option<seq<T>>): (r: bool)
    ensures r <==> source.Some? && exists x :: x in source.value
  {
    match source
    case None => false
    case Some(s) => if s == [] then false else assert s[0] in s; true
  }

  /** `SafeAny(source, predicate)`: a null source has no matching element. */
  function SafeAnyWhere<T>(source: Option<seq<T>>, p: T -> bool): (r: bool)
    ensures r <==> source.Some? && exists i :: 0 <= i < |source.value| && p(source.value[i])
  {
    source.Some? && AnyMatch(source.value, p)
  }

  /** The predicate overload with a predicate that holds everywhere is the
      plain overload. */
  lemma SafeAnyWhereTrue<T>(source: Option<seq<T>>)
    ensures SafeAnyWhere(source, (x: T) => true) == SafeAny(source)
  {
    if source.Some? && |source.value| > 0 {
      assert ((x: T) => true)(source.value[0]);
    }
  }

  /** `ToBatches`: the greedy batcher with the limits of `LogConstants` as
      defaults (1048576 bytes and 1000 entries). */
  method ToBatches(entries: Option<seq<LogEntry>>, mint: nat -> Guid, now: Timestamp,
                   maxBatchSizeBytes: int := MaxBatchSizeBytes, maxBatchEntries: int := MaxBatchEntries)
    returns (r: Result<seq<LogBatch>>)
    ensures entries.None? ==> r == Err(ArgumentNull)
    ensures entries.Some? ==> r.Ok?
    ensures r.Ok? ==> IsGreedyBatching(entries.value, maxBatchSizeBytes, maxBatchEntries, Groups(r.value))
    ensures r.Ok? ==> forall k :: 0 <= k < |r.value| ==> Stamped(r.value[k], k, mint, now)
  {
    r := CreateBatches(entries, maxBatchSizeBytes, maxBatchEntries, mint, now);
  }
}
