/** `LogEntryValidator` and `LogBatchValidator`: the declarative rule sets
    over entries and batches. Every rule is evaluated (no rule stops the
    others) and the result lists the failed rules in declaration order; an
    object is valid when the list is empty. "Now" is read once, when the
    validator is constructed, so it is a field of the validator. */
module Validation {
  import opened Wrappers
  import opened Text
  import opened Models
  import opened LogSizeCalculator

  /** The entry rules, one value per failure message. */
  datatype EntryRule =
    | TimeGeneratedRequired
    | TimeGeneratedInFuture
    | MachineIdRequired
    | MachineIdTooLong
    | SeverityNotInEnum
    | EventIdRequired
    | MessageRequired
    | MessageTooLong
    | TagValueTooLong(index: nat)

  /** The failures of the tag-value rule for `tags`, which start at position
      `from` of the dictionary's enumeration. */
  function TagFailures(tags: seq<Tag>, from: nat): (r: seq<EntryRule>)
    ensures forall f :: f in r <==>
              f.TagValueTooLong? && from <= f.index < from + |tags| && |tags[f.index - from].value| > MaxTagValueLength
    decreases |tags|
  {
    if tags == [] then []
    else
      var rest := TagFailures(tags[1..], from + 1);
      (if |tags[0].value| > MaxTagValueLength then [TagValueTooLong(from)] else []) + rest
  }

  /** Whether `e` breaks `rule` for a validator built at time `now`. */
  predicate Violates(now: Timestamp, e: LogEntry, rule: EntryRule) {
    match rule
    case TimeGeneratedRequired => e.timeGenerated == DefaultTimestamp
    case TimeGeneratedInFuture => e.timeGenerated > now
    case MachineIdRequired => IsNullOrWhiteSpace(e.machineId)
    case MachineIdTooLong => |e.machineId| > MaxMachineIdLength
    case SeverityNotInEnum => SeverityOf(e.severity).None?
    case EventIdRequired => e.eventId == 0
    case MessageRequired => IsNullOrWhiteSpace(e.message)
    case MessageTooLong => |e.message| > MaxMessageLength
    case TagValueTooLong(i) => i < |e.tags| && |e.tags[i].value| > MaxTagValueLength
  }

  /** Every rule of the entry validator holds. */
  predicate EntryRulesHold(now: Timestamp, e: LogEntry) {
    && e.timeGenerated != DefaultTimestamp && e.timeGenerated <= now
    && !IsNullOrWhiteSpace(e.machineId) && |e.machineId| <= MaxMachineIdLength
    && 0 <= e.severity <= 5
    && e.eventId != 0
    && !IsNullOrWhiteSpace(e.message) && |e.message| <= MaxMessageLength
    && forall t :: t in e.tags ==> |t.value| <= MaxTagValueLength
  }

  /** An element of three sequences put together is an element of one of them. */
  lemma InConcat<T>(a: seq<T>, b: seq<T>, c: seq<T>)
    ensures forall x :: x in a + b + c <==> x in a || x in b || x in c
  {
  }

  /** A one-rule check: the rule, when its condition is broken. */
  function Check(broken: bool, rule: EntryRule): (r: seq<EntryRule>)
    ensures forall f :: f in r <==> broken && f == rule
  {
    if broken then [rule] else []
  }

  /** The failures of the time and machine-id rules. */
  function HeadFailures(now: Timestamp, e: LogEntry): (r: seq<EntryRule>)
    ensures forall f :: f in r <==>
              (f.TimeGeneratedRequired? || f.TimeGeneratedInFuture? || f.MachineIdRequired? || f.MachineIdTooLong?)
              && Violates(now, e, f)
  {
    Check(e.timeGenerated == DefaultTimestamp, TimeGeneratedRequired)
      + Check(e.timeGenerated > now, TimeGeneratedInFuture)
      + Check(IsNullOrWhiteSpace(e.machineId), MachineIdRequired)
      + Check(|e.machineId| > MaxMachineIdLength, MachineIdTooLong)
  }

  /** The failures of the severity, event-id and message rules. */
  function BodyFailures(e: LogEntry): (r: seq<EntryRule>)
    ensures forall f, now :: f in r <==>
              (f.SeverityNotInEnum? || f.EventIdRequired? || f.MessageRequired? || f.MessageTooLong?)
              && Violates(now, e, f)
  {
    Check(SeverityOf(e.severity).None?, SeverityNotInEnum)
      + Check(e.eventId == 0, EventIdRequired)
      + Check(IsNullOrWhiteSpace(e.message), MessageRequired)
      + Check(|e.message| > MaxMessageLength, MessageTooLong)
  }

  /** The validator built at time `now`. */
  datatype LogEntryValidator = LogEntryValidator(now: Timestamp) {

    /** The failed rules, in declaration order: exactly the rules `e` breaks. */
    function Validate(e: LogEntry): (r: seq<EntryRule>)
      ensures forall f :: f in r <==> Violates(now, e, f)
    {
      var head := HeadFailures(now, e);
      var tail := BodyFailures(e);
      var tagFailures := TagFailures(e.tags, 0);
      InConcat(head, tail, tagFailures);
      head + tail + tagFailures
    }

    predicate IsValid(e: LogEntry) {
      Validate(e) == []
    }
  }

  /** An entry passes the validator exactly when every rule holds. */
  lemma EntryValidIff(v: LogEntryValidator, e: LogEntry)
    ensures v.IsValid(e) <==> EntryRulesHold(v.now, e)
  {
    SeverityCodes(e.severity);
    if v.IsValid(e) {
      forall t | t in e.tags
        ensures |t.value| <= MaxTagValueLength
      {
        var i :| 0 <= i < |e.tags| && e.tags[i] == t;
        assert !Violates(v.now, e, TagValueTooLong(i));
      }
    } else {
      var f := v.Validate(e)[0];
      assert Violates(v.now, e, f);
      if f.TagValueTooLong? {
        assert e.tags[f.index] in e.tags;
      }
    }
  }

  /** The batch rules; a failure of an entry rule is reported with the
      entry's position. */
  datatype BatchRule =
    | BatchIdRequired
    | CreatedAtRequired
    | CreatedAtInFuture
    | EntriesRequired
    | TooManyEntries
    | SizeTooLarge
    | EntryInvalid(index: nat, rule: EntryRule)

  /** Whether `b` breaks `rule` for a batch validator `v`; the entry rules
      are those of its nested entry validator. */
  predicate BatchViolates(v: LogBatchValidator, b: LogBatch, rule: BatchRule) {
    match rule
    case BatchIdRequired => b.batchId == EmptyGuid
    case CreatedAtRequired => b.createdAt == DefaultTimestamp
    case CreatedAtInFuture => b.createdAt > v.now
    case EntriesRequired => b.entries == []
    case TooManyEntries => |b.entries| > MaxBatchEntries
    case SizeTooLarge => b.size > MaxBatchSizeBytes
    case EntryInvalid(i, r) => i < |b.entries| && Violates(v.entries.now, b.entries[i], r)
  }

  /** Entry failures reported under the entry's position. */
  function Tagged(fs: seq<EntryRule>, index: nat): (r: seq<BatchRule>)
    ensures forall f :: f in r <==> f.EntryInvalid? && f.index == index && f.rule in fs
  {
    if fs == [] then []
    else [EntryInvalid(index, fs[0])] + Tagged(fs[1..], index)
  }

  /** The entry failures of `entries`, which start at position `from`. */
  function EntriesFailures(v: LogEntryValidator, entries: seq<LogEntry>, from: nat): (r: seq<BatchRule>)
    ensures forall f :: f in r <==>
              f.EntryInvalid? && from <= f.index < from + |entries| && Violates(v.now, entries[f.index - from], f.rule)
    decreases |entries|
  {
    if entries == [] then []
    else Tagged(v.Validate(entries[0]), from) + EntriesFailures(v, entries[1..], from + 1)
  }

  /** A one-rule check of the batch validator. */
  function CheckBatch(broken: bool, rule: BatchRule): (r: seq<BatchRule>)
    ensures forall f :: f in r <==> broken && f == rule
  {
    if broken then [rule] else []
  }

  /** The failures of the id and creation-time rules. */
  function BatchHeadFailures(v: LogBatchValidator, b: LogBatch): (r: seq<BatchRule>)
    ensures forall f :: f in r <==>
              (f.BatchIdRequired? || f.CreatedAtRequired? || f.CreatedAtInFuture?) && BatchViolates(v, b, f)
  {
    CheckBatch(b.batchId == EmptyGuid, BatchIdRequired)
      + CheckBatch(b.createdAt == DefaultTimestamp, CreatedAtRequired)
      + CheckBatch(b.createdAt > v.now, CreatedAtInFuture)
  }

  /** The failures of the entry-count and size rules. */
  function BatchCountFailures(v: LogBatchValidator, b: LogBatch): (r: seq<BatchRule>)
    ensures forall f :: f in r <==>
              (f.EntriesRequired? || f.TooManyEntries? || f.SizeTooLarge?) && BatchViolates(v, b, f)
  {
    CheckBatch(b.entries == [], EntriesRequired)
      + CheckBatch(|b.entries| > MaxBatchEntries, TooManyEntries)
      + CheckBatch(b.size > MaxBatchSizeBytes, SizeTooLarge)
  }

  /** Every rule of the batch validator holds. */
  predicate BatchRulesHold(now: Timestamp, entryNow: Timestamp, b: LogBatch) {
    && b.batchId != EmptyGuid
    && b.createdAt != DefaultTimestamp && b.createdAt <= now
    && 1 <= |b.entries| <= MaxBatchEntries
    && b.size <= MaxBatchSizeBytes
    && forall e :: e in b.entries ==> EntryRulesHold(entryNow, e)
  }

  /** The batch validator built at time `now`. It builds its own entry
      validator in the same constructor, so that one's clock reading
      `entries.now` is taken right after. */
  datatype LogBatchValidator = LogBatchValidator(now: Timestamp, entries: LogEntryValidator) {

    /** The failed rules, in declaration order: exactly the rules `b` breaks. */
    function Validate(b: LogBatch): (r: seq<BatchRule>)
      ensures forall f :: f in r <==> BatchViolates(this, b, f)
    {
      var head := BatchHeadFailures(this, b);
      var counts := BatchCountFailures(this, b);
      var nested := EntriesFailures(entries, b.entries, 0);
      assert forall f :: f in nested <==> f.EntryInvalid? && BatchViolates(this, b, f);
      InConcat(head, counts, nested);
      head + counts + nested
    }

    predicate IsValid(b: LogBatch) {
      Validate(b) == []
    }
  }

  /** A batch passes the validator exactly when every batch rule holds and
      every entry passes the nested entry validator. */
  lemma BatchValidIff(v: LogBatchValidator, b: LogBatch)
    ensures v.IsValid(b) <==> BatchRulesHold(v.now, v.entries.now, b)
  {
    if v.IsValid(b) {
      ValidBatchKeepsRules(v, b);
    } else {
      InvalidBatchBreaksRule(v, b);
    }
  }

  /** A batch that passes keeps every batch rule. */
  lemma ValidBatchKeepsRules(v: LogBatchValidator, b: LogBatch)
    requires v.IsValid(b)
    ensures BatchRulesHold(v.now, v.entries.now, b)
  {
    assert !BatchViolates(v, b, BatchIdRequired) && !BatchViolates(v, b, CreatedAtRequired);
    assert !BatchViolates(v, b, CreatedAtInFuture) && !BatchViolates(v, b, EntriesRequired);
    assert !BatchViolates(v, b, TooManyEntries) && !BatchViolates(v, b, SizeTooLarge);
    forall e | e in b.entries
      ensures EntryRulesHold(v.entries.now, e)
    {
      var i :| 0 <= i < |b.entries| && b.entries[i] == e;
      EntryOfValidBatch(v, b, i);
      EntryValidIff(v.entries, e);
    }
  }

  /** Every entry of a batch that passes passes the nested entry validator. */
  lemma EntryOfValidBatch(v: LogBatchValidator, b: LogBatch, i: nat)
    requires v.IsValid(b) && i < |b.entries|
    ensures v.entries.IsValid(b.entries[i])
  {
    var e := b.entries[i];
    if v.entries.Validate(e) != [] {
      var rule := v.entries.Validate(e)[0];
      assert Violates(v.entries.now, e, rule);
      assert BatchViolates(v, b, EntryInvalid(i, rule));
    }
  }

  /** A batch that fails breaks one of the batch rules. */
  lemma InvalidBatchBreaksRule(v: LogBatchValidator, b: LogBatch)
    requires !v.IsValid(b)
    ensures !BatchRulesHold(v.now, v.entries.now, b)
  {
    var f := v.Validate(b)[0];
    assert BatchViolates(v, b, f);
    if f.EntryInvalid? {
      var e := b.entries[f.index];
      assert e in b.entries;
      assert f.rule in v.entries.Validate(e);
      EntryValidIff(v.entries, e);
    }
  }

  /** Every element of a group is an element of the flattened sequence. */
  lemma {:induction false} FlattenContains<T>(gs: seq<seq<T>>, k: nat, j: nat)
    requires k < |gs| && j < |gs[k]|
    ensures gs[k][j] in Flatten(gs)
  {
    assert Flatten(gs) == gs[0] + Flatten(gs[1..]);
    if k == 0 {
      assert gs[0][j] in gs[0];
    } else {
      FlattenContains(gs[1..], k - 1, j);
    }
  }

  /** A batch of the greedy split keeps the count and size limits of
      `LogConstants` when its own limits are within them, as long as no
      single entry is over the byte limit. */
  lemma GreedyBatchesFitLimits(es: seq<LogEntry>, maxBytes: int, maxEntries: int, bs: seq<LogBatch>,
                               mint: nat -> Guid, now: Timestamp, k: nat)
    requires maxBytes <= MaxBatchSizeBytes && maxEntries <= MaxBatchEntries
    requires forall e :: e in es ==> EntrySize(e) <= maxBytes
    requires IsGreedyBatching(es, maxBytes, maxEntries, Groups(bs))
    requires forall j :: 0 <= j < |bs| ==> Stamped(bs[j], j, mint, now)
    requires k < |bs|
    ensures 1 <= |bs[k].entries| <= MaxBatchEntries
    ensures bs[k].size <= MaxBatchSizeBytes
  {
    var gs := Groups(bs);
    assert gs[k] == bs[k].entries;
    assert Stamped(bs[k], k, mint, now);
    if |bs[k].entries| == 1 {
      var e := bs[k].entries[0];
      assert bs[k].entries == [e];
      SingletonSize(e);
      FlattenContains(gs, k, 0);
    }
  }

  /** A batch of the greedy split passes the batch validator when its id is
      not empty, it was created at a non-default time no later than the
      validator's, every entry passes the entry validator and the limits are
      within those of `LogConstants`. */
  lemma GreedyBatchIsValid(es: seq<LogEntry>, maxBytes: int, maxEntries: int, bs: seq<LogBatch>,
                           mint: nat -> Guid, now: Timestamp, v: LogBatchValidator, k: nat)
    requires maxBytes <= MaxBatchSizeBytes && maxEntries <= MaxBatchEntries
    requires forall e :: e in es ==> EntrySize(e) <= maxBytes && v.entries.IsValid(e)
    requires IsGreedyBatching(es, maxBytes, maxEntries, Groups(bs))
    requires forall j :: 0 <= j < |bs| ==> Stamped(bs[j], j, mint, now)
    requires k < |bs| && mint(k) != EmptyGuid && now != DefaultTimestamp && now <= v.now
    ensures v.IsValid(bs[k])
  {
    GreedyBatchesFitLimits(es, maxBytes, maxEntries, bs, mint, now, k);
    var gs := Groups(bs);
    assert gs[k] == bs[k].entries;
    assert Stamped(bs[k], k, mint, now);
    forall e | e in bs[k].entries
      ensures EntryRulesHold(v.entries.now, e)
    {
      var j :| 0 <= j < |gs[k]| && gs[k][j] == e;
      FlattenContains(gs, k, j);
      EntryValidIff(v.entries, e);
    }
    BatchValidIff(v, bs[k]);
  }
}
