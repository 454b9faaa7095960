/** The records the pipeline passes around (`LogEntry`, `LogSeverity`,
    `LogBatch`), the limits of `LogConstants` and the collector settings with
    their defaults. */
module Models {
  import opened Wrappers
  import opened Text

  /** A `DateTime` as a tick count; 0 is `default(DateTime)`. */
  type Timestamp = nat

  const DefaultTimestamp: Timestamp := 0

  /** A `Guid` by its 128 bits; `Guid.Empty` is all zeros. */
  datatype Guid = Guid(bits: nat)

  const EmptyGuid: Guid := Guid(0)

  /** The severity levels, in increasing order of gravity. */
  datatype LogSeverity = Verbose | Debug | Information | Warning | Error | Critical {
    /** The enum member's underlying integer. */
    function Code(): int {
      match this
      case Verbose => 0
      case Debug => 1
      case Information => 2
      case Warning => 3
      case Error => 4
      case Critical => 5
    }
  }

  /** The member with the given underlying integer, if the enum defines one. */
  function SeverityOf(code: int): (r: Option<LogSeverity>)
    ensures r.Some? ==> r.value.Code() == code
  {
    if code == 0 then Some(Verbose)
    else if code == 1 then Some(Debug)
    else if code == 2 then Some(Information)
    else if code == 3 then Some(Warning)
    else if code == 4 then Some(Error)
    else if code == 5 then Some(Critical)
    else None
  }

  /** The six members have the codes 0 to 5 and no other integer names a member. */
  lemma SeverityCodes(code: int)
    ensures SeverityOf(code).Some? <==> 0 <= code <= 5
    ensures forall s: LogSeverity :: SeverityOf(s.Code()) == Some(s)
  {
  }

  datatype Tag = Tag(key: String16, value: String16)

  /** A log record. `severity` keeps the raw integer a JSON document may
      carry, since the enum property accepts any integer. Null strings are
      modelled as empty; `tags` lists the dictionary in enumeration order. */
  datatype LogEntry = LogEntry(
    timeGenerated: Timestamp,
    machineId: String16,
    severity: int,
    eventId: int,
    message: String16,
    operationId: Option<String16>,
    tags: seq<Tag>)

  /** A group of entries shipped as one unit. `size` is whatever its creator
      assigned (the constructor leaves it 0). */
  datatype LogBatch = LogBatch(batchId: Guid, createdAt: Timestamp, entries: seq<LogEntry>, size: int)

  // LogConstants
  const MaxMessageLength: int := 8000
  const MaxTagValueLength: int := 1000
  const MaxBatchSizeBytes: int := 1048576
  const MaxBatchEntries: int := 1000
  const DefaultRetryCount: int := 3
  const DefaultRetryIntervalMs: int := 1000

  /** The limit that `LogEntryValidator` writes out for the machine id. */
  const MaxMachineIdLength: int := 50

  /** The collector settings the core reads. Directory paths, the file
      pattern and the rotation and retention settings are not read by it. */
  datatype CollectorSettings = CollectorSettings(
    machineId: String16,
    maxBatchSizeBytes: int,
    maxBatchCount: int,
    uploadIntervalMs: int,
    retryCount: int,
    retryIntervalMs: int)

  const DefaultSettings: CollectorSettings := CollectorSettings([], 1048576, 100, 5000, 3, 1000)
}
