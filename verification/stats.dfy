/**
 The per-worker counters of lopro.go (`WorkerStats`) and their merge.
 The counters are unbounded integers here; the source uses `int64`.
 */
module Stats {

  datatype WorkerStats = WorkerStats(files: int, bytes: int, bytesCompressed: int, records: int)

  /** A worker's counters before it has processed anything. */
  function Zero(): (z: WorkerStats)
    ensures z.files == 0 && z.bytes == 0 && z.bytesCompressed == 0 && z.records == 0
  {
    WorkerStats(0, 0, 0, 0)
  }

  /** `WorkerStats.Merge`: the receiver gains the argument's four counters;
      the argument itself is a value and stays as it was. */
  function Merge(s: WorkerStats, ws: WorkerStats): (r: WorkerStats)
    ensures r.files == s.files + ws.files
    ensures r.bytes == s.bytes + ws.bytes
    ensures r.bytesCompressed == s.bytesCompressed + ws.bytesCompressed
    ensures r.records == s.records + ws.records
  {
    WorkerStats(s.files + ws.files, s.bytes + ws.bytes,
                s.bytesCompressed + ws.bytesCompressed, s.records + ws.records)
  }

  lemma MergeCommutative(a: WorkerStats, b: WorkerStats)
    ensures Merge(a, b) == Merge(b, a)
  {
  }

  lemma MergeAssociative(a: WorkerStats, b: WorkerStats, c: WorkerStats)
    ensures Merge(Merge(a, b), c) == Merge(a, Merge(b, c))
  {
  }

  lemma MergeZero(a: WorkerStats)
    ensures Merge(a, Zero()) == a && Merge(Zero(), a) == a
  {
  }

  /** The counters of a whole pool, added up. */
  function Sum(ws: seq<WorkerStats>): WorkerStats
    decreases |ws|
  {
    if |ws| == 0 then Zero() else Merge(ws[0], Sum(ws[1..]))
  }

  /** When one worker's counters grow by `d`, the pool's sum grows by `d`. */
  lemma {:induction false} SumGrows(ws: seq<WorkerStats>, w: nat, d: WorkerStats)
    requires w < |ws|
    ensures Sum(ws[w := Merge(ws[w], d)]) == Merge(Sum(ws), d)
    decreases |ws|
  {
    var ws' := ws[w := Merge(ws[w], d)];
    if w > 0 {
      assert ws'[1..] == ws[1..][w - 1 := Merge(ws[w], d)];
      SumGrows(ws[1..], w - 1, d);
    } else {
      assert ws'[1..] == ws[1..];
    }
  }

  /** A pool whose every worker has zero counters sums to zero. */
  lemma {:induction false} SumOfZeros(ws: seq<WorkerStats>)
    requires forall j :: 0 <= j < |ws| ==> ws[j] == Zero()
    ensures Sum(ws) == Zero()
    decreases |ws|
  {
    if |ws| > 0 {
      SumOfZeros(ws[1..]);
    }
  }
}
