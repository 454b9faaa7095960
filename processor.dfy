/** `LogProcessorService`: the resumable tailer. It reads a log file from the
    offset saved for it, turns each line into a validated entry, saves the
    offset it reached, and hands the entries to the greedy batcher. */
module LogProcessor {
  import opened Wrappers
  import opened Text
  import opened Models
  import opened Validation
  import opened LogSizeCalculator
  import opened EnumerableExtensions

  const LF: Byte := 0x0A
  const CR: Byte := 0x0D

  predicate IsBreak(b: Byte) { b == LF || b == CR }

  /** The index of the first line break, or the length when there is none. */
  function FirstBreak(b: seq<Byte>): (i: nat)
    ensures i <= |b|
    ensures i < |b| ==> IsBreak(b[i])
    ensures forall j :: 0 <= j < i ==> !IsBreak(b[j])
  {
    if b == [] then 0
    else if IsBreak(b[0]) then 0
    else 1 + FirstBreak(b[1..])
  }

  /** Where the text after the first line break starts: past CR LF as one
      terminator, past a lone CR or LF otherwise. */
  function RestStart(b: seq<Byte>): (j: nat)
    requires FirstBreak(b) < |b|
    ensures FirstBreak(b) < j <= |b|
  {
    var i := FirstBreak(b);
    if b[i] == CR && i + 1 < |b| && b[i + 1] == LF then i + 2 else i + 1
  }

  /** The lines `StreamReader.ReadLine` returns one after the other: a line
      ends at LF, CR or CR LF, the terminator is not part of it, and a final
      line without terminator is returned when it is not empty. */
  function SplitLines(b: seq<Byte>): seq<seq<Byte>>
    decreases |b|
  {
    if b == [] then []
    else if FirstBreak(b) == |b| then [b]
    else [b[..FirstBreak(b)]] + SplitLines(b[RestStart(b)..])
  }

  /** No line holds a terminator, and the lines with their terminators make
      up the whole text: each line is no longer than the text it came from. */
  lemma {:induction false} LinesHoldNoBreak(b: seq<Byte>)
    ensures forall k :: 0 <= k < |SplitLines(b)| ==> |SplitLines(b)[k]| <= |b|
    ensures forall k, j :: 0 <= k < |SplitLines(b)| && 0 <= j < |SplitLines(b)[k]| ==> !IsBreak(SplitLines(b)[k][j])
    decreases |b|
  {
    if b != [] && FirstBreak(b) < |b| {
      var rest := b[RestStart(b)..];
      LinesHoldNoBreak(rest);
      var first, more := b[..FirstBreak(b)], SplitLines(rest);
      var ls := SplitLines(b);
      assert ls == [first] + more;
      forall k | 0 <= k < |ls|
        ensures |ls[k]| <= |b| && forall j :: 0 <= j < |ls[k]| ==> !IsBreak(ls[k][j])
      {
        if k == 0 {
          assert ls[k] == first;
        } else {
          assert ls[k] == more[k - 1];
        }
      }
    }
  }

  /** The first break of a text that has one within `a` is not moved by what
      follows `a`. */
  lemma {:induction false} FirstBreakAppend(a: seq<Byte>, c: seq<Byte>)
    requires FirstBreak(a) < |a|
    ensures FirstBreak(a + c) == FirstBreak(a)
  {
    if !IsBreak(a[0]) {
      assert (a + c)[1..] == a[1..] + c;
      FirstBreakAppend(a[1..], c);
    }
  }

  /** When `a` ends with a line feed, the terminator of its first line is
      not changed by what follows `a`. */
  lemma RestStartAppend(a: seq<Byte>, c: seq<Byte>)
    requires a != [] && a[|a| - 1] == LF
    ensures FirstBreak(a) < |a| && FirstBreak(a + c) == FirstBreak(a)
    ensures RestStart(a + c) == RestStart(a)
  {
    FirstBreakAppend(a, c);
  }

  /** Text that ends with a line feed splits on its own: the lines of
      `a + c` are the lines of `a` followed by the lines of `c`. Reading a
      file up to a line feed and later reading what was appended yields
      every line once. */
  lemma {:induction false} SplitAppend(a: seq<Byte>, c: seq<Byte>)
    requires a != [] && a[|a| - 1] == LF
    ensures SplitLines(a + c) == SplitLines(a) + SplitLines(c)
    decreases |a|
  {
    RestStartAppend(a, c);
    var i, j := FirstBreak(a), RestStart(a);
    SplitStep(a);
    SplitStep(a + c);
    AppendPieces(a, c, i, j);
    if j < |a| {
      SplitAppend(a[j..], c);
      Reassociate(a[..i], SplitLines(a[j..]), SplitLines(c));
    } else {
      assert a[j..] == [];
    }
  }

  lemma Reassociate(x: seq<Byte>, ys: seq<seq<Byte>>, zs: seq<seq<Byte>>)
    ensures [x] + (ys + zs) == ([x] + ys) + zs
  {
  }

  /** One step of the splitter on a text that holds a line break. */
  lemma SplitStep(b: seq<Byte>)
    requires FirstBreak(b) < |b|
    ensures SplitLines(b) == [b[..FirstBreak(b)]] + SplitLines(b[RestStart(b)..])
  {
  }

  lemma AppendPieces(a: seq<Byte>, c: seq<Byte>, i: nat, j: nat)
    requires i <= j <= |a|
    ensures (a + c)[..i] == a[..i] && (a + c)[j..] == a[j..] + c
  {
  }

  const Bom: seq<Byte> := [0xEF, 0xBB, 0xBF]

  /** What the reader decodes: a UTF-8 byte order mark at the start of what
      it reads is dropped. */
  function WithoutBom(b: seq<Byte>): (r: seq<Byte>)
    ensures |b| >= 3 && b[..3] == Bom ==> r == b[3..]
    ensures !(|b| >= 3 && b[..3] == Bom) ==> r == b
  {
    if |b| >= 3 && b[..3] == Bom then b[3..] else b
  }

  /** How a line that `IsValidJson` accepts deserialises: an entry, the JSON
      literal `null`, or an exception (a value of the wrong type, say). */
  datatype Parsed = ParsedEntry(entry: LogEntry) | ParsedNull | ParseThrows

  /** A stored position file: a value, text that does not parse as a long,
      or a file that cannot be read. */
  datatype PositionRecord = Stored(value: int) | Garbled | ReadError

  /** The offset reading starts at: the saved one when it lies strictly
      inside the file, the start otherwise. */
  function StartOffset(saved: int, length: nat): (start: nat)
    ensures start <= length
    ensures 0 < saved < length ==> start == saved
    ensures !(0 < saved < length) ==> start == 0
  {
    if 0 < saved < length then saved else 0
  }

  /** An entry with no machine id gets the collector's: only the machine id
      can change, an entry's own id is kept, and the result lacks an id only
      when both the entry and the collector lack one. */
  function WithMachineId(e: LogEntry, machineId: String16): (r: LogEntry)
    ensures r == e.(machineId := r.machineId)
    ensures e.machineId != [] ==> r == e
    ensures e.machineId == [] ==> r.machineId == machineId
    ensures r.machineId == [] <==> e.machineId == [] && machineId == []
  {
    if e.machineId == [] then e.(machineId := machineId) else e
  }

  class LogProcessorService {
    const settings: CollectorSettings
    const validator: LogEntryValidator
    /** `string.GetHashCode` of a path. */
    const hash: String16 -> int
    /** `JsonHelper.IsValidJson` and `JsonSerializer.Deserialize<LogEntry>`. */
    const isValidJson: String16 -> bool
    const deserialize: String16 -> Parsed
    /** The positions directory: one record per path hash. */
    var positions: map<int, PositionRecord>

    constructor(settings: CollectorSettings, validator: LogEntryValidator, hash: String16 -> int,
                isValidJson: String16 -> bool, deserialize: String16 -> Parsed, positions: map<int, PositionRecord>)
      ensures this.settings == settings && this.validator == validator && this.hash == hash
      ensures this.isValidJson == isValidJson && this.deserialize == deserialize
      ensures this.positions == positions
    {
      this.settings := settings;
      this.validator := validator;
      this.hash := hash;
      this.isValidJson := isValidJson;
      this.deserialize := deserialize;
      this.positions := positions;
    }

    /** `GetPositionFilePath`: the record of a path is named after its hash
        alone, so paths whose hashes collide share one record. */
    function PositionKey(path: String16): int {
      hash(path)
    }

    /** The stored position of a path: the saved value when there is a
        readable, parsable record, 0 otherwise. */
    function Position(path: String16): (pos: int)
      reads this
      ensures PositionKey(path) in positions && positions[PositionKey(path)].Stored? ==>
                pos == positions[PositionKey(path)].value
      ensures !(PositionKey(path) in positions && positions[PositionKey(path)].Stored?) ==> pos == 0
    {
      var key := PositionKey(path);
      if key in positions && positions[key].Stored? then positions[key].value else 0
    }

    /** `GetFilePositionAsync`: never fails; a missing, garbled or unreadable
        record gives 0. */
    method GetFilePosition(path: String16) returns (pos: int)
      ensures pos == Position(path)
    {
      var key := PositionKey(path);
      if key in positions {
        match positions[key]
        case Stored(v) => return v;
        case Garbled => return 0;
        case ReadError => return 0;
      }
      return 0;
    }

    /** `SaveFilePositionAsync`: writes the record of the path's hash and no
        other; a failing write is rethrown. */
    method SaveFilePosition(path: String16, position: int, writeFails: bool) returns (r: Result<()>)
      modifies this
      ensures writeFails ==> r == Err(IoFailure) && positions == old(positions)
      ensures !writeFails ==> r == Ok(()) && positions == old(positions)[PositionKey(path) := Stored(position)]
      ensures !writeFails ==> Position(path) == position
      ensures forall other :: PositionKey(other) != PositionKey(path) ==> Position(other) == old(Position(other))
    {
      if writeFails {
        return Err(IoFailure);
      }
      positions := positions[PositionKey(path) := Stored(position)];
      return Ok(());
    }

    /** What one line contributes: nothing for a blank line, text that is not
        JSON, a `null` document or a failing deserialisation; otherwise the
        entry, with the collector's machine id when it has none, if it then
        passes the validator. */
    function LineEntry(line: seq<Byte>): (r: Option<LogEntry>)
      ensures r.Some? ==> validator.IsValid(r.value)
      ensures r.Some? ==> exists e :: deserialize(Utf8Decode(line)) == ParsedEntry(e)
                                      && r.value == WithMachineId(e, settings.machineId)
      ensures r.Some? ==> isValidJson(Utf8Decode(line)) && !IsNullOrWhiteSpace(Utf8Decode(line))
    {
      var text := Utf8Decode(line);
      if IsNullOrWhiteSpace(text) || !isValidJson(text) then None
      else match deserialize(text)
        case ParsedEntry(e) =>
          var e' := WithMachineId(e, settings.machineId);
          if validator.IsValid(e') then Some(e') else None
        case _ => None
    }

    /** A non-blank line that is JSON and deserialises to an entry that,
        with the collector's machine id filled in, passes the validator
        yields that entry: no acceptable line is dropped. */
    lemma LineEntryComplete(line: seq<Byte>)
      ensures var text := Utf8Decode(line);
              && !IsNullOrWhiteSpace(text) && isValidJson(text) && deserialize(text).ParsedEntry?
              && validator.IsValid(WithMachineId(deserialize(text).entry, settings.machineId))
              ==> LineEntry(line) == Some(WithMachineId(deserialize(text).entry, settings.machineId))
    {
    }

    /** What one line adds to the entries: its entry, if it yields one. */
    function Contribution(line: seq<Byte>): seq<LogEntry> {
      match LineEntry(line)
      case Some(e) => [e]
      case None => []
    }

    /** The entries a sequence of lines yields, in line order. */
    function LinesEntries(lines: seq<seq<Byte>>): (es: seq<LogEntry>)
      ensures |es| <= |lines|
      ensures forall e :: e in es ==> validator.IsValid(e)
    {
      if lines == [] then []
      else LinesEntries(lines[..|lines| - 1]) + Contribution(lines[|lines| - 1])
    }

    /** The entries of two runs of lines are those of the two runs read as
        one: every line contributes in its place. */
    lemma {:induction false} LinesEntriesAppend(a: seq<seq<Byte>>, b: seq<seq<Byte>>)
      ensures LinesEntries(a + b) == LinesEntries(a) + LinesEntries(b)
      decreases |b|
    {
      if b == [] {
        assert a + b == a;
      } else {
        var ab := a + b;
        var front, last := b[..|b| - 1], b[|b| - 1];
        assert ab[..|ab| - 1] == a + front && ab[|ab| - 1] == last;
        calc {
          LinesEntries(ab);
          { LinesEntriesUnfold(ab); }
          LinesEntries(a + front) + Contribution(last);
          { LinesEntriesAppend(a, front); }
          (LinesEntries(a) + LinesEntries(front)) + Contribution(last);
          LinesEntries(a) + (LinesEntries(front) + Contribution(last));
          { LinesEntriesUnfold(b); }
          LinesEntries(a) + LinesEntries(b);
        }
      }
    }

    lemma LinesEntriesUnfold(lines: seq<seq<Byte>>)
      requires lines != []
      ensures LinesEntries(lines) == LinesEntries(lines[..|lines| - 1]) + Contribution(lines[|lines| - 1])
    {
    }

    /** Every line contributes its entry, if any, in its place: after the
        entries of the lines before it and before those of the lines after. */
    lemma LineContributesInPlace(lines: seq<seq<Byte>>, i: nat)
      requires i < |lines|
      ensures LinesEntries(lines) == LinesEntries(lines[..i]) + Contribution(lines[i]) + LinesEntries(lines[i + 1..])
    {
      var upTo, after := lines[..i + 1], lines[i + 1..];
      assert lines == upTo + after;
      assert upTo[..i] == lines[..i] && upTo[i] == lines[i];
      calc {
        LinesEntries(lines);
        { LinesEntriesAppend(upTo, after); }
        LinesEntries(upTo) + LinesEntries(after);
        { LinesEntriesUnfold(upTo); }
        LinesEntries(lines[..i]) + Contribution(lines[i]) + LinesEntries(after);
      }
    }

    /** When the file read before ended with a line feed, the entries of the
        two resumed reads are, in order, the entries of one read of the
        whole file, whether or not the file begins with a byte order mark.
        The appended part must not begin with one: the resumed read would
        drop it and the whole read keep it. */
    lemma TwoReadsSeeEveryEntry(before: seq<Byte>, appended: seq<Byte>)
      requires before != [] && before[|before| - 1] == LF && appended != []
      requires !(|appended| >= 3 && appended[..3] == Bom)
      ensures LinesEntries(LinesRead(before, 0)) + LinesEntries(LinesRead(before + appended, |before|))
              == LinesEntries(LinesRead(before + appended, 0))
    {
      TwoReadsSeeEveryLine(before, appended);
      LinesEntriesAppend(LinesRead(before, 0), LinesRead(before + appended, |before|));
    }

    /** The lines read from a file of `length` bytes given the saved position. */
    function LinesRead(file: seq<Byte>, saved: int): seq<seq<Byte>> {
      SplitLines(WithoutBom(file[StartOffset(saved, |file|)..]))
    }

    /** The line loop of `ProcessLogFileAsync`: blank lines, text that is
        not JSON, `null` documents and failing deserialisations are skipped,
        a missing machine id is filled in, and the entries that pass the
        validator are kept in line order. */
    method EntriesOf(lines: seq<seq<Byte>>) returns (entries: seq<LogEntry>)
      ensures entries == LinesEntries(lines)
    {
      entries := [];
      for i := 0 to |lines|
        invariant entries == LinesEntries(lines[..i])
      {
        assert lines[..i + 1][..i] == lines[..i];
        LinesEntriesUnfold(lines[..i + 1]);
        var line := lines[i];
        var text := Utf8Decode(line);
        if IsNullOrWhiteSpace(text) || !isValidJson(text) {
          assert LineEntry(line).None?;
          continue;
        }
        match deserialize(text)
        case ParsedEntry(e) =>
          if e.machineId == [] {
            e := e.(machineId := settings.machineId);
          }
          assert e == WithMachineId(deserialize(text).entry, settings.machineId);
          if validator.IsValid(e) {
            assert LineEntry(line) == Some(e);
            entries := entries + [e];
          } else {
            assert LineEntry(line).None?;
          }
        case ParsedNull =>
          assert LineEntry(line).None?;
        case ParseThrows =>
          assert LineEntry(line).None?;
      }
      assert lines[..|lines|] == lines;
    }

    /** `ProcessLogFileAsync` without cancellation: a missing file gives no
        entries and leaves the positions alone; otherwise every line from the
        start offset is read, the valid entries come back in file order and
        the file length is saved as the new position, whether or not any
        entry was produced. A file that exists but cannot be opened or read
        to its end (`readFails`) and a failing save are rethrown, the former
        before any position is saved. */
    method ProcessLogFile(path: String16, file: Option<seq<Byte>>, readFails: bool, saveFails: bool)
      returns (r: Result<seq<LogEntry>>)
      modifies this
      ensures file.None? ==> r == Ok([]) && positions == old(positions)
      ensures file.Some? && (readFails || saveFails) ==> r == Err(IoFailure) && positions == old(positions)
      ensures file.Some? && !readFails && !saveFails ==>
                && r == Ok(LinesEntries(LinesRead(file.value, old(Position(path)))))
                && positions == old(positions)[PositionKey(path) := Stored(|file.value|)]
    {
      var saved := GetFilePosition(path);
      if file.None? {
        return Ok([]);
      }
      if readFails {
        return Err(IoFailure);
      }
      var bytes := file.value;
      var start := StartOffset(saved, |bytes|);
      var lines := SplitLines(WithoutBom(bytes[start..]));
      var entries := EntriesOf(lines);
      var w := SaveFilePosition(path, |bytes|, saveFails);
      if w.Err? {
        return Err(w.error);
      }
      return Ok(entries);
    }

    /** `CreateBatchesAsync`: the greedy batcher with the collector's byte
        limit and the fixed limit of 1000 entries per batch (the collector's
        `MaxBatchCount` is not used). */
    method CreateBatchesFor(entries: Option<seq<LogEntry>>, mint: nat -> Guid, now: Timestamp) returns (r: Result<seq<LogBatch>>)
      ensures entries.None? ==> r == Err(ArgumentNull)
      ensures entries.Some? ==> r.Ok? && IsGreedyBatching(entries.value, settings.maxBatchSizeBytes, MaxBatchEntries, Groups(r.value))
      ensures r.Ok? ==> forall k :: 0 <= k < |r.value| ==> Stamped(r.value[k], k, mint, now)
    {
      r := ToBatches(entries, mint, now, settings.maxBatchSizeBytes, MaxBatchEntries);
    }
  }

  /** A position saved for one path is what any path of the same hash reads
      back. */
  lemma SaveThenGet(positions: map<int, PositionRecord>, hash: String16 -> int, path: String16, other: String16, position: int)
    requires hash(other) == hash(path)
    ensures var after := positions[hash(path) := Stored(position)];
            hash(other) in after && after[hash(other)] == Stored(position)
  {
  }

  /** After a file was read to its end, a file that has only grown since is
      read from where the last read stopped, and only the appended bytes are
      read. */
  lemma ResumesAfterAppend(before: seq<Byte>, appended: seq<Byte>)
    requires before != [] && appended != []
    ensures StartOffset(|before|, |before + appended|) == |before|
    ensures (before + appended)[StartOffset(|before|, |before + appended|)..] == appended
  {
  }

  /** When the content read before ended with a line feed and the appended
      part does not start with a byte order mark, the two reads together see
      exactly the lines of the whole file read at once. A mark at the start
      of the file is dropped by the first read and by the whole read alike;
      a mark at the start of the appended part would be dropped by the
      resumed read but kept by the whole read. */
  lemma TwoReadsSeeEveryLine(before: seq<Byte>, appended: seq<Byte>)
    requires before != [] && before[|before| - 1] == LF && appended != []
    requires !(|appended| >= 3 && appended[..3] == Bom)
    ensures SplitLines(WithoutBom(before[StartOffset(0, |before|)..]))
            + SplitLines(WithoutBom((before + appended)[StartOffset(|before|, |before + appended|)..]))
            == SplitLines(WithoutBom((before + appended)[StartOffset(0, |before + appended|)..]))
  {
    var whole := before + appended;
    assert before[0..] == before;
    assert whole[0..] == whole;
    assert whole[|before|..] == appended;
    if |before| >= 3 {
      assert whole[..3] == before[..3];
      if before[..3] == Bom {
        assert before[2] == 0xBF;
        assert |before| > 3;
        assert whole[3..] == before[3..] + appended;
        SplitAppend(before[3..], appended);
      } else {
        SplitAppend(before, appended);
      }
    } else {
      BomNotAcrossLineFeed(before, appended);
      SplitAppend(before, appended);
    }
  }

  /** A text shorter than the mark that ends with a line feed does not
      start a mark, whatever follows it. */
  lemma BomNotAcrossLineFeed(before: seq<Byte>, appended: seq<Byte>)
    requires before != [] && |before| < 3 && before[|before| - 1] == LF
    ensures !(|before + appended| >= 3 && (before + appended)[..3] == Bom)
  {
    if |before + appended| >= 3 {
      var k := |before| - 1;
      assert (before + appended)[..3][k] == LF;
      assert Bom[k] != LF;
    }
  }

  /** A file that has not changed since its length was saved is read again
      from the start: a saved position equal to the length is not used. */
  lemma UnchangedFileIsReread(file: seq<Byte>)
    ensures StartOffset(|file|, |file|) == 0
  {
  }
}
