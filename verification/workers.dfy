/**
 The per-file work of `Worker.Process` in lopro.go, without the I/O: the
 parser is a sequence of outcomes, one per `NextRecord` call, and a file is
 either unreadable (stat, open or decompressor set-up failed) or readable
 with a size on disk and the outcomes its parser produces.
 */
module Workers {
  import opened Reports
  import opened Managers
  import Stats

  /** One `NextRecord` result: a record, a decode error that still carries
      whatever record the parser returned, or end of stream. */
  datatype Outcome = Ok(bytes: int, rec: LogRecord) | Err(bytes: int, rec: LogRecord) | EOF

  datatype FileInput = Unreadable | Readable(size: int, outcomes: seq<Outcome>)

  /** A readable file's parser reaches end of stream; the record loop only
      ends there. */
  ghost predicate WellFormed(file: FileInput)
  {
    file.Readable? ==> EOF in file.outcomes
  }

  /** The outcomes the loop consumes before end of stream. */
  function UntilEOF(s: seq<Outcome>): (r: seq<Outcome>)
    requires EOF in s
    ensures EOF !in r && |r| < |s| && r == s[..|r|] && s[|r|] == EOF
    decreases |s|
  {
    if s[0] == EOF then [] else [s[0]] + UntilEOF(s[1..])
  }

  /** The record each consumed outcome carries, error or not. */
  function Forwarded(s: seq<Outcome>): (r: seq<LogRecord>)
    requires EOF !in s
    ensures |r| == |s| && forall i :: 0 <= i < |s| ==> r[i] == s[i].rec
  {
    seq(|s|, i requires 0 <= i < |s| => s[i].rec)
  }

  /** The bytes the consumed outcomes report. */
  function BytesOf(s: seq<Outcome>): int
    requires EOF !in s
    decreases |s|
  {
    if |s| == 0 then 0 else s[0].bytes + BytesOf(s[1..])
  }

  /** The record loop of `Worker.Process`. End of stream stops it before
      anything is forwarded; any other outcome, a decode error included,
      is forwarded to `ProcessRecord`, and its bytes and one record are
      counted. */
  function RecordLoop(mgr: Manager, st: Stats.WorkerStats, s: seq<Outcome>): (res: (Manager, Stats.WorkerStats))
    requires EOF in s
    ensures res.0 == ProcessAll(mgr, Forwarded(UntilEOF(s)))
    ensures res.1 == st.(bytes := st.bytes + BytesOf(UntilEOF(s)), records := st.records + |UntilEOF(s)|)
    decreases |s|
  {
    match s[0]
    case EOF => (mgr, st)
    case _ =>
      assert Forwarded(UntilEOF(s)) == [s[0].rec] + Forwarded(UntilEOF(s[1..]));
      RecordLoop(ProcessRecord(mgr, s[0].rec),
                 st.(bytes := st.bytes + s[0].bytes, records := st.records + 1), s[1..])
  }

  /** The records a file contributes to the reports. */
  function FileRecords(file: FileInput): seq<LogRecord>
    requires WellFormed(file)
  {
    if file.Unreadable? then [] else Forwarded(UntilEOF(file.outcomes))
  }

  /** What a file adds to a worker's counters. */
  function FileStats(file: FileInput): Stats.WorkerStats
    requires WellFormed(file)
  {
    if file.Unreadable? then Stats.Zero()
    else
      var consumed := UntilEOF(file.outcomes);
      Stats.WorkerStats(1, BytesOf(consumed), file.size, |consumed|)
  }

  /** `Worker.Process`: an unreadable file is reported as failed and
      changes nothing; a readable one runs the record loop, then adds its
      size on disk and one file. */
  function Process(mgr: Manager, st: Stats.WorkerStats, file: FileInput): (res: (Manager, Stats.WorkerStats, bool))
    requires WellFormed(file)
    ensures file.Unreadable? ==> res == (mgr, st, false)
    ensures file.Readable? ==> res.2
    ensures res.0 == ProcessAll(mgr, FileRecords(file))
    ensures res.1 == Stats.Merge(st, FileStats(file))
  {
    match file
    case Unreadable => (mgr, st, false)
    case Readable(size, outcomes) =>
      var (mgr', st') := RecordLoop(mgr, st, outcomes);
      (mgr', st'.(bytesCompressed := st'.bytesCompressed + size, files := st'.files + 1), true)
  }

  /** The parser of the source reports 0 bytes for every record. */
  ghost predicate ZeroBytes(s: seq<Outcome>)
  {
    forall i :: 0 <= i < |s| ==> s[i].EOF? || s[i].bytes == 0
  }

  lemma {:induction false} BytesOfZero(s: seq<Outcome>)
    requires EOF !in s && ZeroBytes(s)
    ensures BytesOf(s) == 0
    decreases |s|
  {
    if |s| > 0 {
      assert ZeroBytes(s[1..]) by {
        forall i | 0 <= i < |s[1..]|
          ensures s[1..][i].EOF? || s[1..][i].bytes == 0
        {
          assert s[1..][i] == s[i + 1];
        }
      }
      BytesOfZero(s[1..]);
    }
  }

  /** With a parser that reports 0 bytes, the byte counter never moves. */
  lemma CsvBytesUnchanged(mgr: Manager, st: Stats.WorkerStats, s: seq<Outcome>)
    requires EOF in s && ZeroBytes(s)
    ensures RecordLoop(mgr, st, s).1.bytes == st.bytes
  {
    var consumed := UntilEOF(s);
    assert ZeroBytes(consumed) by {
      forall i | 0 <= i < |consumed|
        ensures consumed[i].EOF? || consumed[i].bytes == 0
      {
        assert consumed[i] == s[i];
      }
    }
    BytesOfZero(consumed);
  }

  /** Every report of the worker's manager is fed the forwarded records of
      the file, malformed ones included. */
  lemma LoopFeedsReports(mgr: Manager, st: Stats.WorkerStats, s: seq<Outcome>)
    requires EOF in s
    ensures |RecordLoop(mgr, st, s).0.reports| == |mgr.reports|
    ensures forall i :: 0 <= i < |mgr.reports| ==>
      RecordLoop(mgr, st, s).0.reports[i] == Feed(mgr.reports[i], Forwarded(UntilEOF(s)))
  {
    ProcessAllFeeds(mgr, Forwarded(UntilEOF(s)));
  }

  /** Partial-file resilience, literally: a well-formed record, a
      malformed one and another well-formed record are all forwarded and
      counted, in order; nothing after end of stream is read. */
  lemma MalformedRecordIsCounted(mgr: Manager, st: Stats.WorkerStats, r1: LogRecord, r2: LogRecord, r3: LogRecord,
                                 b1: int, b2: int, b3: int, rest: seq<Outcome>)
    ensures RecordLoop(mgr, st, [Ok(b1, r1), Err(b2, r2), Ok(b3, r3), EOF] + rest)
      == (ProcessAll(mgr, [r1, r2, r3]), st.(bytes := st.bytes + b1 + b2 + b3, records := st.records + 3))
  {
    var s := [Ok(b1, r1), Err(b2, r2), Ok(b3, r3), EOF] + rest;
    assert s[1..][1..][1..][0] == EOF;
    var consumed := UntilEOF(s);
    assert consumed == s[..3];
    assert Forwarded(consumed) == [r1, r2, r3];
    assert consumed[1..] == [Err(b2, r2), Ok(b3, r3)];
    assert consumed[1..][1..] == [Ok(b3, r3)];
    assert consumed[1..][1..][1..] == [];
    assert BytesOf(consumed[1..][1..]) == b3;
    assert BytesOf(consumed[1..]) == b2 + b3;
  }

  /** A malformed row for which the parser returned no fields lands on the
      key made of one empty segment per position. */
  lemma EmptyRecordKey(keys: seq<nat>)
    ensures Add(NewQuickReport(keys), Fields([])).result == map[Join(seq(|keys|, _ => "")) := 1]
  {
    assert Segments([], keys) == seq(|keys|, _ => "");
    Counts.Extensionality(Add(NewQuickReport(keys), Fields([])).result, map[Join(seq(|keys|, _ => "")) := 1]);
  }
}
