/**
 `main` of lopro.go as a sequential computation: the key positions are
 parsed from the flag, one key-tally report is registered on the master
 manager, one clone is made per extra worker, each file is processed by
 the worker the scheduler gave it to, and after the join the workers'
 counters are merged into the master's and `Reduce` folds the clones back.

 Worker 0 works on the master manager itself; worker `w >= 1` works on the
 clone held at `references[w - 1]`, the one `Clone` made for it. Which
 worker picks up which file is decided by the channel scheduler and is a
 parameter here.
 */
module Pipeline {
  import opened Counts
  import opened Reports
  import opened Managers
  import opened Workers
  import opened KeyList
  import Stats

  /** The master manager (with the clones) and one counter set per worker. */
  datatype Pool = Pool(master: Manager, stats: seq<Stats.WorkerStats>)

  /** One worker per counter set: worker 0 plus one per clone. */
  ghost predicate Sized(p: Pool)
  {
    |p.stats| == |p.master.references| + 1
  }

  /** Every manager of the pool holds the one key-tally report of `main`. */
  ghost predicate Shaped(p: Pool, keys: seq<nat>)
  {
    && Sized(p)
    && |p.master.reports| == 1 && p.master.reports[0].keys == keys
    && forall j :: 0 <= j < |p.master.references| ==>
      |p.master.references[j].reports| == 1 && p.master.references[j].reports[0].keys == keys
  }

  /** The manager worker `w` owns. */
  function WorkerManager(p: Pool, w: nat): Manager
    requires Sized(p) && w < |p.stats|
  {
    if w == 0 then p.master else p.master.references[w - 1]
  }

  /** The tally of the whole pool: the master's plus every clone's. */
  function Aggregate(p: Pool): Tally
    requires |p.master.reports| >= 1 && HasReport(p.master.references, 0)
  {
    Plus(p.master.reports[0].result, SumAt(p.master.references, 0))
  }

  /** Worker `w` processes `file` with its own manager and counters. */
  function Dispatch(p: Pool, w: nat, file: FileInput): (q: Pool)
    requires Sized(p) && w < |p.stats| && WellFormed(file)
    ensures Sized(q) && |q.stats| == |p.stats|
  {
    var res := Process(WorkerManager(p, w), p.stats[w], file);
    if w == 0 then Pool(res.0, p.stats[0 := res.1])
    else Pool(p.master.(references := p.master.references[w - 1 := res.0]), p.stats[w := res.1])
  }

  /** Every record the files forward, file by file. */
  function AllRecords(files: seq<FileInput>): seq<LogRecord>
    requires forall f :: 0 <= f < |files| ==> WellFormed(files[f])
    decreases |files|
  {
    if |files| == 0 then []
    else AllRecords(files[..|files| - 1]) + FileRecords(files[|files| - 1])
  }

  /** The counters the files add up to. */
  function TotalStats(files: seq<FileInput>): Stats.WorkerStats
    requires forall f :: 0 <= f < |files| ==> WellFormed(files[f])
    decreases |files|
  {
    if |files| == 0 then Stats.Zero()
    else Stats.Merge(TotalStats(files[..|files| - 1]), FileStats(files[|files| - 1]))
  }

  /** One dispatch adds the file's tally to the pool's tally and the file's
      counters to the pool's counters, whichever worker takes it. */
  lemma DispatchAdds(p: Pool, keys: seq<nat>, w: nat, file: FileInput)
    requires Shaped(p, keys) && w < |p.stats| && WellFormed(file)
    ensures Shaped(Dispatch(p, w, file), keys)
    ensures Aggregate(Dispatch(p, w, file)) ==
      Plus(Aggregate(p), Feed(NewQuickReport(keys), FileRecords(file)).result)
    ensures Stats.Sum(Dispatch(p, w, file).stats) == Stats.Merge(Stats.Sum(p.stats), FileStats(file))
  {
    var q := Dispatch(p, w, file);
    var mgr := WorkerManager(p, w);
    var recs := FileRecords(file);
    var t := Feed(NewQuickReport(keys), recs).result;
    var res := Process(mgr, p.stats[w], file);
    ProcessAllFeeds(mgr, recs);
    FeedIsMerge(mgr.reports[0], recs);
    FeedKeepsKeys(mgr.reports[0], recs);
    assert res.0.reports[0].result == Plus(mgr.reports[0].result, t);
    var a := p.master.reports[0].result;
    var s := SumAt(p.master.references, 0);
    if w == 0 {
      SumAtSame(q.master.references, p.master.references, 0);
      PlusAssociative(a, t, s);
      PlusCommutative(t, s);
      PlusAssociative(a, s, t);
    } else {
      SumAtGrows(p.master.references, q.master.references, w - 1, 0, t);
      PlusAssociative(a, s, t);
    }
    Stats.SumGrows(p.stats, w, FileStats(file));
  }

  /** Worker `w` takes over the result of processing the file with its own
      manager and counters; every other worker's reports and counters stay
      as they were. */
  lemma DispatchFrame(p: Pool, w: nat, file: FileInput)
    requires Sized(p) && w < |p.stats| && WellFormed(file)
    ensures WorkerManager(Dispatch(p, w, file), w) == Process(WorkerManager(p, w), p.stats[w], file).0
    ensures Dispatch(p, w, file).stats[w] == Process(WorkerManager(p, w), p.stats[w], file).1
    ensures forall v :: 0 <= v < |p.stats| && v != w ==>
      WorkerManager(Dispatch(p, w, file), v).reports == WorkerManager(p, v).reports &&
      Dispatch(p, w, file).stats[v] == p.stats[v]
  {
    ProcessAllFeeds(WorkerManager(p, w), FileRecords(file));
  }

  /** Two workers own disjoint state, so dispatching files to two different
      workers gives the same pool in either order. */
  lemma DispatchCommutes(p: Pool, v: nat, fileV: FileInput, w: nat, fileW: FileInput)
    requires Sized(p) && v < |p.stats| && w < |p.stats| && v != w
    requires WellFormed(fileV) && WellFormed(fileW)
    ensures Dispatch(Dispatch(p, v, fileV), w, fileW) == Dispatch(Dispatch(p, w, fileW), v, fileV)
  {
    var a := Dispatch(Dispatch(p, v, fileV), w, fileW);
    var b := Dispatch(Dispatch(p, w, fileW), v, fileV);
    ProcessAllFeeds(WorkerManager(p, v), FileRecords(fileV));
    ProcessAllFeeds(WorkerManager(p, w), FileRecords(fileW));
    ProcessAllFeeds(WorkerManager(Dispatch(p, v, fileV), w), FileRecords(fileW));
    ProcessAllFeeds(WorkerManager(Dispatch(p, w, fileW), v), FileRecords(fileV));
    assert a.stats == b.stats;
    assert a.master.reports == b.master.reports;
    assert a.master.references == b.master.references;
  }

  /** The keys as positions; `main` passes negative ones on, and they make
      `Add` panic, so the caller rules them out. */
  function AsPositions(ks: seq<int>): (r: seq<nat>)
    requires forall i :: 0 <= i < |ks| ==> ks[i] >= 0
    ensures |r| == |ks| && forall i :: 0 <= i < |ks| ==> r[i] == ks[i]
  {
    seq(|ks|, i requires 0 <= i < |ks| => ks[i] as nat)
  }

  /** `main`'s set-up: the master manager with the one key-tally report,
      and one clone registered per worker beyond the first. */
  method Spawn(keys: seq<nat>, nworkers: nat) returns (master: Manager)
    requires nworkers >= 1
    ensures master.reports == [NewQuickReport(keys)]
    ensures |master.references| == nworkers - 1
    ensures forall j :: 0 <= j < |master.references| ==> master.references[j].reports == [NewQuickReport(keys)]
  {
    master := RegisterReport(NewReportManager(), NewQuickReport(keys));
    var i := 1;
    while i < nworkers
      invariant 1 <= i <= nworkers
      invariant master.reports == [NewQuickReport(keys)]
      invariant |master.references| == i - 1
      invariant forall j :: 0 <= j < |master.references| ==>
        master.references[j].reports == [NewQuickReport(keys)]
    {
      var cloned := Clone(master);
      assert cloned.1.reports == [NewQuickReport(keys)];
      master := cloned.0;
      i := i + 1;
    }
  }

  /** The parallel phase, one file at a time: file `f` goes to worker
      `assign[f]`. The pool's tally grows by every file's records and its
      counters by every file's counters. */
  method DispatchAll(pool: Pool, keys: seq<nat>, files: seq<FileInput>, assign: seq<nat>) returns (r: Pool)
    requires Shaped(pool, keys)
    requires Aggregate(pool) == map[] && Stats.Sum(pool.stats) == Stats.Zero()
    requires |assign| == |files|
    requires forall f :: 0 <= f < |files| ==> assign[f] < |pool.stats| && WellFormed(files[f])
    ensures Shaped(r, keys) && |r.stats| == |pool.stats|
    ensures Aggregate(r) == Feed(NewQuickReport(keys), AllRecords(files)).result
    ensures Stats.Sum(r.stats) == TotalStats(files)
  {
    r := pool;
    var f := 0;
    PlusEmptyLeft(Feed(NewQuickReport(keys), []).result);
    while f < |files|
      invariant 0 <= f <= |files|
      invariant Shaped(r, keys) && |r.stats| == |pool.stats|
      invariant Aggregate(r) == Feed(NewQuickReport(keys), AllRecords(files[..f])).result
      invariant Stats.Sum(r.stats) == TotalStats(files[..f])
    {
      var before := files[..f];
      assert files[..f + 1][..f] == before;
      DispatchAdds(r, keys, assign[f], files[f]);
      PartitionIndependence(keys, AllRecords(before), FileRecords(files[f]));
      r := Dispatch(r, assign[f], files[f]);
      f := f + 1;
    }
    assert files[..f] == files;
  }

  /** The end of `main`: the master's counters absorb every other worker's,
      in pool order. */
  method MergeStats(stats: seq<Stats.WorkerStats>) returns (total: Stats.WorkerStats)
    requires |stats| >= 1
    ensures total == Stats.Sum(stats)
  {
    total := stats[0];
    var w := 1;
    while w < |stats|
      invariant 1 <= w <= |stats|
      invariant Stats.Merge(total, Stats.Sum(stats[w..])) == Stats.Sum(stats)
    {
      assert stats[w..][1..] == stats[w + 1..];
      total := Stats.Merge(total, stats[w]);
      w := w + 1;
    }
  }

  /** The aggregation of `main`. `None` is the early return when the key
      flag holds no integer. Otherwise the single report ends up as the
      tally of every forwarded record of every readable file, and the
      master's counters as the sum over the files: both are independent of
      the number of workers and of which worker processed which file. */
  method Run(keysFlag: string, files: seq<FileInput>, nworkers: nat, assign: seq<nat>)
      returns (out: Option<(Report, Stats.WorkerStats)>)
    requires nworkers >= 1
    requires |assign| == |files|
    requires forall f :: 0 <= f < |files| ==> assign[f] < nworkers && WellFormed(files[f])
    requires ParseKeys(keysFlag).Some? ==>
      forall i :: 0 <= i < |ParseKeys(keysFlag).value| ==> ParseKeys(keysFlag).value[i] >= 0
    ensures out.None? <==> ParseKeys(keysFlag).None?
    ensures out.Some? ==>
      out.value.0 == Feed(NewQuickReport(AsPositions(ParseKeys(keysFlag).value)), AllRecords(files))
    ensures out.Some? ==> out.value.1 == TotalStats(files)
  {
    var parsed := ParseKeys(keysFlag);
    if parsed.None? {
      return None;
    }
    var keys := AsPositions(parsed.value);
    var master := Spawn(keys, nworkers);
    var pool := Pool(master, seq(nworkers, _ => Stats.Zero()));
    SumAtEmpty(master.references, 0);
    PlusEmptyLeft(map[]);
    Stats.SumOfZeros(pool.stats);
    pool := DispatchAll(pool, keys, files, assign);
    var total := MergeStats(pool.stats);
    var reduced := Reduce(pool.master);
    FeedKeepsKeys(NewQuickReport(keys), AllRecords(files));
    out := Some((reduced.reports[0], total));
  }
}
