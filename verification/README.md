# golopro aggregation core in Dafny

golopro counts keys across a set of delimited log files, using a pool of
workers. Each worker owns a parser, a report manager and four counters. A
record is reduced to a key by joining chosen field positions with commas,
and every report tallies its keys. When the workers have finished, the
master report manager reduces every clone back into itself, and the
master's counters absorb the other workers' counters.

This project models that bookkeeping in `lopro.go` as pure functions over
immutable values, and proves what it computes:

- `counts.dfy` (`Counts`): the key-to-count map (`Tally`) and its key-by-key merge.
  The merge is written as the source's loop over the other map, and that
  loop is proved to give the same sum in whatever order the map yields its
  keys. The merge is proved commutative and associative.
- `reports.dfy` (`Reports`): the key-tally report `QuickReport`. Key
  construction mirrors the source's loop and is proved equal to the
  comma-join of one segment per position, where a position past the end of
  the record gives an empty segment. `Add`, `New`, `Merge` and `Clear` are
  modelled, along with partition independence: tallying `xs + ys` gives the
  same report as merging the tally of `xs` with the tally of `ys`.
- `managers.dfy` (`Managers`): `ReportManager`, with `Clone`,
  `RegisterReport` and `ProcessRecord`. `Reduce` is written as the source's
  two nested loops and proved equal to a closed-form result. A second
  `Reduce` is proved to change nothing.
- `stats.dfy` (`Stats`): `WorkerStats` and its fieldwise merge.
- `workers.dfy` (`Workers`): the record loop of `Worker.Process` over an
  abstract parser, given as a sequence of outcomes (`Ok`, `Err`, `EOF`).
- `keylist.dfy` (`KeyList`): the `-keys` filter of `main`: split on
  commas, drop the pieces `strconv.Atoi` rejects, abort if none is left.
- `pipeline.dfy` (`Pipeline`): `main` run sequentially. Clones are made,
  each file goes to the worker the scheduler chose, and then come the
  counter merge and `Reduce`. `Pipeline.Run` is proved to produce the tally
  of all forwarded records and the summed counters. Neither result depends
  on the number of workers or on which worker processed which file.

A clone's state is held by value in the master's `references`. The worker
that owns clone `w` works on entry `w - 1` of that sequence. This stands in
for the pointer that the Go worker and the master's reference list share.

A decode error other than end of stream is handled as the code does it.
The record loop logs the error, but the record the parser returned is
still passed to `ProcessRecord` and counted in `records`. Forwarding a row
the parser rejected is probably unintended; the model keeps it because the
code does. `MalformedRecordIsCounted`
and `EmptyRecordKey` show the effect: a failed row that comes back with no
fields is counted under the key made of empty segments.

## Model

| member | source | states |
|---|---|---|
| Counts.Count | lopro.go:246 | reading a key absent from a Go map gives the zero value; every count contract reads maps this way |
| Counts.Bump | lopro.go:246 | `m[k] += 1`: the key is created if absent, gains exactly one, and every other key keeps its count |
| Counts.Plus | lopro.go:128-132 | the merged map holds every key of either side, each with the sum of both sides' counts |
| Counts.MergeInto | lopro.go:128-132 | the merge loop over the other map's entries gives that key-by-key sum whatever order the keys are visited in, so the loop's result is exactly `Plus`, the merge every report uses |
| Counts.PlusCommutative | lopro.go:128-132 | merging is commutative over the key space |
| Counts.PlusAssociative | lopro.go:128-132 | merging is associative over the key space |
| Counts.BumpIsPlus | lopro.go:246 | bumping a key is the same as merging in the single-key tally `{k: 1}` |
| Reports.KeyLoop | lopro.go:234-244 | the source's key loop from position `i` on: a comma before every position but the first, then the field, or nothing when the record is too short |
| Reports.BuildKey | lopro.go:234-244 | the loop started at position 0 with the empty key; `BuildKeyIsJoin` states what it yields |
| Reports.KeyLoopJoins | lopro.go:234-244 | once the first `i` positions are in the key, the rest of the loop completes the comma-join of all segments |
| Reports.BuildKeyIsJoin | lopro.go:234-244 | the key is `seg(k0) + "," + ... + "," + seg(kn)`, where `seg(k)` is field `k`, or empty when the record is too short |
| Reports.KeyOfTwoFields | lopro.go:234-244 | `["a","x"]` with positions `[0,1]` gives the key `"a,x"` |
| Reports.KeyPastTheEnd | lopro.go:239-240 | a position past the end of the record adds an empty segment and never fails |
| Reports.KeyIsAmbiguous | lopro.go:234-244 | a field that holds a comma can make two different records share a key |
| Reports.NewQuickReport | lopro.go:219-221 | a new report has an empty tally and keeps the given positions |
| Reports.New | lopro.go:223 | `New` returns an empty peer with the same positions |
| Reports.Clear | lopro.go:134 | `Clear` empties the tally and keeps the positions |
| Reports.Add | lopro.go:227-247 | only the record's key gains one; the other keys and the positions are unchanged; a record that is not a field sequence changes nothing |
| Reports.Merge | lopro.go:225 | each key's count becomes the sum of self and other; keys only in self keep their count; the positions stay self's |
| Reports.FeedKeepsKeys | lopro.go:227-247 | no sequence of `Add` calls changes a report's positions |
| Reports.FeedCounts | lopro.go:227-247 | after a stream, each key's count grows by the number of records with that key; a key is present exactly when it was before or occurs in the stream |
| Reports.TallyExample | lopro.go:234-246 | records `["a","1"]`, `["a","2"]`, `["b","1"]` with positions `[0]` tally to `{"a": 2, "b": 1}` |
| Reports.FeedAppend | lopro.go:227-247 | feeding `xs + ys` is feeding `xs` and then `ys` |
| Reports.FeedIsMerge | lopro.go:128-132 | feeding a report a stream is the same as merging in a fresh report fed that stream |
| Reports.PartitionIndependence | lopro.go:128-132 | tallying `xs + ys` equals merging the tallies of `xs` and `ys`, wherever the stream is cut |
| Reports.MergeCommutative | lopro.go:225 | merging reports is commutative on their tallies |
| Reports.MergeAssociative | lopro.go:225 | merging reports is associative |
| Reports.MergeCleared | lopro.go:134 | merging a cleared report changes nothing |
| Managers.NewReportManager | lopro.go:37-39 | a new manager has no reports and no clones |
| Managers.RegisterReport | lopro.go:66 | the report is appended and the clones are unchanged |
| Managers.RegisterAfterClone | lopro.go:41-66 | registering a report on the source after a clone was made leaves that clone a report short, so the source no longer meets the precondition of `Reduce` |
| Managers.Clone | lopro.go:41-48 | the clone has one empty report per source report, in the same order and with the same positions, and no clones of its own; the source's reports are unchanged and its references grow by exactly the clone |
| Managers.ProcessRecord | lopro.go:68-72 | the record is added to every report, in order; the clones are untouched |
| Managers.ProcessAll | lopro.go:68-72 | a stream of `ProcessRecord` calls keeps the number of reports and never touches the clones |
| Managers.ProcessAllFeeds | lopro.go:68-72 | every report sees the same record stream: report `i` ends up as report `i` fed the whole stream |
| Managers.ProcessAllAppend | lopro.go:68-72 | processing `xs + ys` is processing `xs` and then `ys` |
| Managers.Reduced | lopro.go:50-57 | after the reduction, source report `i` holds its prior counts plus the sum of every clone's report `i`; every clone's report `i` is empty; clone reports beyond the source's count are unchanged |
| Managers.SumAtGrows | lopro.go:50-57 | if one clone's report `i` grows by `t`, the sum over the clones at `i` grows by `t` |
| Managers.MergeColumn | lopro.go:52-55 | the inner loop merges every clone's report `i` into the source's report `i`, in reference order, then clears it |
| Managers.Reduce | lopro.go:50-57 | the nested loops leave exactly the closed-form reduced state |
| Managers.ReduceIdempotent | lopro.go:50-57 | a second `Reduce`, with no record processed in between, leaves the totals and the clones unchanged |
| Managers.CloneThenReduce | lopro.go:41-57 | a clone reduced back before it processes anything adds nothing, whatever the source holds |
| Stats.Zero | lopro.go:105-107 | a new worker's four counters are all zero |
| Stats.Merge | lopro.go:78-83 | `files`, `bytes`, `bytesCompressed` and `records` each become the sum of both sides |
| Stats.MergeCommutative | lopro.go:78-83 | the counter merge is commutative |
| Stats.MergeAssociative | lopro.go:78-83 | the counter merge is associative |
| Stats.MergeZero | lopro.go:78-83 | merging all-zero counters changes nothing |
| Stats.SumGrows | lopro.go:78-83 | if one worker's counters grow by `d`, the pool's sum grows by `d` |
| Workers.UntilEOF | lopro.go:175-183 | the loop consumes exactly the outcomes before the first end of stream |
| Workers.Forwarded | lopro.go:185 | every consumed outcome, including a decode error, passes its record on, in order |
| Workers.RecordLoop | lopro.go:175-188 | end of stream stops the loop without forwarding or counting anything; every earlier outcome is forwarded to `ProcessRecord` and adds its bytes and one record; `files` and `bytesCompressed` are untouched |
| Workers.Process | lopro.go:144-193 | an unreadable file reports failure and changes nothing; a readable one forwards its records, then adds its size on disk and one file |
| Workers.CsvBytesUnchanged | lopro.go:209-212 | with a parser that always reports 0 bytes, the `bytes` counter never moves |
| Workers.LoopFeedsReports | lopro.go:175-188 | each report of the worker's manager is fed the file's forwarded records |
| Workers.MalformedRecordIsCounted | lopro.go:175-188 | a malformed record between two good ones does not stop them being forwarded and counted; it is forwarded and counted too, in order, and nothing after end of stream is read |
| Workers.EmptyRecordKey | lopro.go:234-246 | a record with no fields is counted once, under the key made of one empty segment per position |
| KeyList.Split | lopro.go:277 | the flag splits into at least one piece, and no piece contains a comma |
| KeyList.JoinSplit | lopro.go:277 | joining the pieces with commas gives back the flag |
| KeyList.SplitJoin | lopro.go:277 | splitting comma-joined, comma-free pieces gives back the pieces |
| KeyList.Atoi | lopro.go:278 | a parsed value lies in the 64-bit range and is only negative when the text starts with `-`; only an optional leading sign and decimal digits are accepted, so the empty string and any other character are rejected; unsigned digits parse to their value, leading zeros included, when it is at most 2^63 - 1 |
| KeyList.AtoiRejects | lopro.go:278-280 | an unsigned digit string above 2^63 - 1 and a lone `+` or `-` are rejected, so `main` drops such a piece |
| KeyList.AtoiItoa | lopro.go:278 | every 64-bit integer parses back from its decimal form |
| KeyList.Keep | lopro.go:276-283 | at most one key per piece is kept, and none is kept exactly when no piece parses |
| KeyList.KeepOne | lopro.go:278-282 | a single piece is kept exactly when it parses, and then as its value |
| KeyList.KeepAppend | lopro.go:277-283 | the loop filters each part of the flag independently and concatenates, so a mixed flag keeps the values of the parsing pieces in flag order |
| KeyList.ParseKeys | lopro.go:276-286 | the run goes ahead exactly when some piece of the flag parses as an integer, and then has between 1 and (number of pieces) keys |
| KeyList.ParseKeysRoundTrip | lopro.go:276-286 | a non-empty list of 64-bit integers, written out and comma-joined, parses back to itself in order |
| KeyList.KeepAll | lopro.go:276-283 | when every piece is the decimal form of a 64-bit integer, every piece is kept, in order |
| KeyList.ParseKeysDefault | lopro.go:254 | the default flag `"0"` selects field 0 alone |
| KeyList.ParseKeysSkipsJunk | lopro.go:276-283 | `"1,x,-2"` gives `[1, -2]`: the non-integer piece is dropped and the others keep order and sign |
| KeyList.ParseKeysAborts | lopro.go:284-286 | `"x,"` holds no integer, so the run aborts |
| Pipeline.Dispatch | lopro.go:109-122 | handing a file to a worker keeps one counter set per worker |
| Pipeline.DispatchFrame | lopro.go:109-122 | worker `w`'s manager and counters become the result of processing the file with them; every other worker's reports and counters stay as they were |
| Pipeline.DispatchCommutes | lopro.go:300-302 | workers own disjoint state: two files given to two different workers give the same pool in either order |
| Pipeline.DispatchAdds | lopro.go:109-122 | whichever worker takes a file, the pool's tally grows by that file's tally and its counters grow by that file's counters |
| Pipeline.AsPositions | lopro.go:276-283 | non-negative keys become positions with the same values, in the same order |
| Pipeline.Spawn | lopro.go:288-303 | the master holds the one key-tally report, plus one empty clone of it for each worker after the first |
| Pipeline.DispatchAll | lopro.go:305-319 | once every file is processed, the pool's tally is the tally of all forwarded records and its counters are the files' total |
| Pipeline.MergeStats | lopro.go:321-328 | the master's counters absorb every other worker's, giving the pool's sum |
| Pipeline.Run | lopro.go:249-334 | the run aborts exactly when no key parses; otherwise the report is the tally of every forwarded record of every readable file, and the counters are the files' total, for any worker count and any file-to-worker assignment |

## Left out

- Goroutines, channels and the sentinel/acknowledgement handshake (`Worker.Run`, lopro.go:109-122, and the channel code of `main`, lopro.go:296-319) are not modelled. Which worker takes which file is a parameter of `Pipeline.Run`, and the workers run one file at a time. The empty-path sentinel is not modelled either.
- File I/O is replaced by `FileInput`. This covers `os.Stat`, `os.Open`, the gzip/bzip2 choice by suffix and the `bufio` reader (lopro.go:147-172). An unreadable file, or a decompressor that fails to start, is `Unreadable`. A readable file is its size on disk plus its parser outcomes.
- `CSVParser` (lopro.go:195-212) wraps `encoding/csv`, which is not part of this model. The parser is a sequence of outcomes. Each `Err` carries whatever record the library returned. The one fact used about the parser is that it reports 0 bytes (`ZeroBytes`). `Parser.Clone` and `Parser.Reset` have no state to act on.
- Writing output is not modelled: `ReportManager.Output`, `DefaultReport.Output` and `Name` (lopro.go:59-64, 135-142, 224). Neither are `WorkerStats.ToString` (lopro.go:85-87) or any logging.
- Not modelled from `main`: flag parsing, the stat of the input path, directory listing and `runtime.GOMAXPROCS` (lopro.go:250-274, 294). `Pipeline.Run` takes the key flag and the files directly. The separator flag only configures the parser.
- Counts and counters are unbounded integers, whereas the source uses `int64`. Wrap-around after 2^63 - 1 would need that many records or bytes, so it is not modelled. This applies to `Counts.Bump`, `Counts.Plus`, `Stats.Merge`, `Workers.RecordLoop`, `Workers.Process` (`files`, `bytesCompressed`) and `Pipeline.MergeStats`.
- Negative key positions make `Add` panic at lopro.go:242. Report positions are therefore `nat`, and `Pipeline.Run` requires every parsed key to be non-negative.
- The source has only one report kind. So the type assertion in `QuickReport.Merge` (lopro.go:225) cannot fail here, and the model needs no same-kind precondition.
- `Workers.RecordLoop` requires the outcome sequence to reach end of stream. The Go loop only stops at `io.EOF`, so a parser that never reports it would keep the worker busy forever, forwarding and counting a record on every call. A truncated `.gz` file may be such a case, if the gzip reader keeps returning `io.ErrUnexpectedEOF` after it fails; the library source is not part of this model, so this is not established here.
- `Pipeline.Run` requires at least one worker. With zero workers, `main` indexes `workers[0]` of an empty slice and panics.
- `Managers.Reduce` requires every clone to have at least as many reports as the source (`Compatible`). Otherwise the source's index into a clone's reports panics. `RegisterAfterClone` shows that registering a report on the source after cloning breaks it.
- `KeyList.Atoi` does not state the value of a signed text in its contract; `AtoiItoa` covers the canonical forms. `KeyList.Atoi` and `KeyList.Split` follow the documented behaviour of `strconv.Atoi` (base 10, optional sign, 64-bit `int`) and `strings.Split` with a comma. Their library source is not part of this model.
