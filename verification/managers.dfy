/**
 The report manager of lopro.go: an ordered list of reports fed the same
 record stream, plus the clones it has handed out. Each clone is held by
 value in `references`; a worker that owns a clone works on that entry.
 */
module Managers {
  import opened Counts
  import opened Reports

  datatype Manager = Manager(reports: seq<Report>, references: seq<Manager>)

  /** `NewReportManager`: no reports, no clones. */
  function NewReportManager(): (m: Manager)
    ensures m.reports == [] && m.references == []
  {
    Manager([], [])
  }

  /** `RegisterReport`: the report joins the end of the pipeline. */
  function RegisterReport(m: Manager, rpt: Report): (r: Manager)
    ensures r.reports == m.reports + [rpt]
    ensures r.references == m.references
  {
    m.(reports := m.reports + [rpt])
  }

  /** `Clone`: returns the source with the new clone registered, and the
      clone. The clone has one empty report per source report, in the same
      order and with the same positions, and no clones of its own; the
      source's reports are untouched and its references grow by exactly
      the clone. */
  function Clone(m: Manager): (r: (Manager, Manager))
    ensures |r.1.reports| == |m.reports| && r.1.references == []
    ensures forall i :: 0 <= i < |m.reports| ==>
      r.1.reports[i].result == map[] && r.1.reports[i].keys == m.reports[i].keys
    ensures r.0.reports == m.reports
    ensures r.0.references == m.references + [r.1]
  {
    var clone := Manager(seq(|m.reports|, i requires 0 <= i < |m.reports| => New(m.reports[i])), []);
    (m.(references := m.references + [clone]), clone)
  }

  /** `ProcessRecord`: the record is added to every report, in order; the
      clones are not involved. */
  function ProcessRecord(m: Manager, rec: LogRecord): (r: Manager)
    ensures |r.reports| == |m.reports| && r.references == m.references
    ensures forall i :: 0 <= i < |m.reports| ==> r.reports[i] == Add(m.reports[i], rec)
  {
    m.(reports := seq(|m.reports|, i requires 0 <= i < |m.reports| => Add(m.reports[i], rec)))
  }

  /** `ProcessRecord` over a whole stream; the clones are never touched. */
  function ProcessAll(m: Manager, recs: seq<LogRecord>): (r: Manager)
    ensures |r.reports| == |m.reports| && r.references == m.references
    decreases |recs|
  {
    if |recs| == 0 then m else ProcessAll(ProcessRecord(m, recs[0]), recs[1..])
  }

  /** Every report of a manager sees the same stream: after a stream of
      records, report `i` is report `i` fed that stream. */
  lemma {:induction false} ProcessAllFeeds(m: Manager, recs: seq<LogRecord>)
    ensures |ProcessAll(m, recs).reports| == |m.reports|
    ensures ProcessAll(m, recs).references == m.references
    ensures forall i :: 0 <= i < |m.reports| ==> ProcessAll(m, recs).reports[i] == Feed(m.reports[i], recs)
    decreases |recs|
  {
    if |recs| > 0 {
      ProcessAllFeeds(ProcessRecord(m, recs[0]), recs[1..]);
    }
  }

  /** Processing a concatenated stream is processing one part after the other. */
  lemma {:induction false} ProcessAllAppend(m: Manager, xs: seq<LogRecord>, ys: seq<LogRecord>)
    ensures ProcessAll(m, xs + ys) == ProcessAll(ProcessAll(m, xs), ys)
    decreases |xs|
  {
    if |xs| > 0 {
      assert (xs + ys)[0] == xs[0];
      assert (xs + ys)[1..] == xs[1..] + ys;
      ProcessAllAppend(ProcessRecord(m, xs[0]), xs[1..], ys);
    } else {
      assert xs + ys == ys;
    }
  }

  /** Every clone has a report at position `i`. */
  ghost predicate HasReport(refs: seq<Manager>, i: nat)
  {
    forall j :: 0 <= j < |refs| ==> i < |refs[j].reports|
  }

  /** `Reduce` reads report `i` of every clone for every report `i` of the
      source; a clone with fewer reports makes it index out of range. */
  ghost predicate Compatible(m: Manager)
  {
    forall j :: 0 <= j < |m.references| ==> |m.reports| <= |m.references[j].reports|
  }

  /** The tallies of report `i` of the clones, merged in reference order. */
  function SumAt(refs: seq<Manager>, i: nat): Tally
    requires HasReport(refs, i)
    decreases |refs|
  {
    if |refs| == 0 then map[]
    else Plus(SumAt(refs[..|refs| - 1], i), refs[|refs| - 1].reports[i].result)
  }

  /** A clone whose reports below position `n` have been cleared. */
  function Cleared(c: Manager, n: nat): (r: Manager)
    ensures |r.reports| == |c.reports| && r.references == c.references
    ensures forall p :: 0 <= p < |c.reports| ==>
      r.reports[p] == (if p < n then Clear(c.reports[p]) else c.reports[p])
  {
    c.(reports := seq(|c.reports|, p requires 0 <= p < |c.reports| =>
      if p < n then Clear(c.reports[p]) else c.reports[p]))
  }

  /** Report `p` of the source once every clone's report `p` is merged in. */
  function Merged(m: Manager, p: nat): Report
    requires p < |m.reports| && Compatible(m)
  {
    m.reports[p].(result := Plus(m.reports[p].result, SumAt(m.references, p)))
  }

  /** Reference definition of the state `Reduce` leaves behind: every source
      report holds its prior counts plus the sum of the clones' reports at
      its position, and every clone report at those positions is empty. */
  function Reduced(m: Manager): (r: Manager)
    requires Compatible(m)
    ensures |r.reports| == |m.reports| && |r.references| == |m.references|
    ensures forall p :: 0 <= p < |m.reports| ==>
      && r.reports[p].keys == m.reports[p].keys
      && forall k :: Count(r.reports[p].result, k) == Count(m.reports[p].result, k) + Count(SumAt(m.references, p), k)
    ensures forall j :: 0 <= j < |m.references| ==>
      && |r.references[j].reports| == |m.references[j].reports|
      && r.references[j].references == m.references[j].references
      && forall p :: 0 <= p < |m.reports| ==> r.references[j].reports[p] == Clear(m.references[j].reports[p])
    ensures forall j, p :: 0 <= j < |m.references| && |m.reports| <= p < |m.references[j].reports| ==>
      r.references[j].reports[p] == m.references[j].reports[p]
  {
    Manager(seq(|m.reports|, p requires 0 <= p < |m.reports| => Merged(m, p)),
            seq(|m.references|, j requires 0 <= j < |m.references| => Cleared(m.references[j], |m.reports|)))
  }

  /** A clone whose report at position `i` has been cleared. */
  function ClearAt(c: Manager, i: nat): (r: Manager)
    requires i < |c.reports|
    ensures r.reports == c.reports[i := Clear(c.reports[i])] && r.references == c.references
  {
    c.(reports := c.reports[i := Clear(c.reports[i])])
  }

  lemma ClearNext(c: Manager, i: nat)
    requires i < |c.reports|
    ensures ClearAt(Cleared(c, i), i) == Cleared(c, i + 1)
  {
    assert ClearAt(Cleared(c, i), i).reports == Cleared(c, i + 1).reports;
  }

  /** The sum at position `i` only reads the clones' reports at `i`. */
  lemma {:induction false} SumAtSame(refs: seq<Manager>, refs': seq<Manager>, i: nat)
    requires HasReport(refs, i) && HasReport(refs', i) && |refs| == |refs'|
    requires forall q :: 0 <= q < |refs| ==> refs[q].reports[i] == refs'[q].reports[i]
    ensures SumAt(refs, i) == SumAt(refs', i)
    decreases |refs|
  {
    if |refs| > 0 {
      SumAtSame(refs[..|refs| - 1], refs'[..|refs| - 1], i);
    }
  }

  /** When one clone's report `i` grows by `t`, the sum at `i` grows by `t`. */
  lemma {:induction false} SumAtGrows(refs: seq<Manager>, refs': seq<Manager>, q: nat, i: nat, t: Tally)
    requires |refs'| == |refs| && q < |refs| && HasReport(refs, i) && HasReport(refs', i)
    requires forall j :: 0 <= j < |refs| && j != q ==> refs'[j].reports[i] == refs[j].reports[i]
    requires refs'[q].reports[i].result == Plus(refs[q].reports[i].result, t)
    ensures SumAt(refs', i) == Plus(SumAt(refs, i), t)
    decreases |refs|
  {
    var n := |refs| - 1;
    var prefix, prefix' := refs[..n], refs'[..n];
    var x, x' := refs[n].reports[i].result, refs'[n].reports[i].result;
    if q == n {
      SumAtSame(prefix, prefix', i);
      PlusAssociative(SumAt(prefix, i), x, t);
    } else {
      SumAtGrows(prefix, prefix', q, i, t);
      assert x' == x;
      PlusAssociative(SumAt(prefix, i), t, x);
      PlusCommutative(t, x);
      PlusAssociative(SumAt(prefix, i), x, t);
    }
  }

  /** The inner loop of `Reduce` for report position `i`: each clone in
      reference order is merged into the source's report `i`, then its own
      report `i` is cleared. */
  method MergeColumn(m: Manager, i: nat) returns (r: Manager)
    requires i < |m.reports| && HasReport(m.references, i)
    ensures r.reports == m.reports[i := m.reports[i].(result := Plus(m.reports[i].result, SumAt(m.references, i)))]
    ensures |r.references| == |m.references|
    ensures forall q :: 0 <= q < |m.references| ==> r.references[q] == ClearAt(m.references[q], i)
  {
    var refs := m.references;
    r := m;
    var j := 0;
    assert refs[..0] == [];
    PlusEmptyRight(m.reports[i].result);
    while j < |refs|
      invariant 0 <= j <= |refs|
      invariant r.reports == m.reports[i := m.reports[i].(result := Plus(m.reports[i].result, SumAt(refs[..j], i)))]
      invariant |r.references| == |refs|
      invariant forall q :: 0 <= q < j ==> r.references[q] == ClearAt(refs[q], i)
      invariant forall q :: j <= q < |refs| ==> r.references[q] == refs[q]
    {
      var c := r.references[j];
      assert refs[..j + 1][..j] == refs[..j];
      PlusAssociative(m.reports[i].result, SumAt(refs[..j], i), c.reports[i].result);
      r := r.(reports := r.reports[i := Merge(r.reports[i], c.reports[i])]);
      r := r.(references := r.references[j := c.(reports := c.reports[i := Clear(c.reports[i])])]);
      j := j + 1;
    }
    assert refs[..j] == refs;
  }

  /** `Reduce`: for each report position, and for each clone in reference
      order, merge the clone's report into the source's and clear it. */
  method Reduce(m: Manager) returns (r: Manager)
    requires Compatible(m)
    ensures r == Reduced(m)
  {
    var n := |m.reports|;
    var refs := m.references;
    r := m;
    var i := 0;
    forall q | 0 <= q < |refs|
      ensures Cleared(refs[q], 0) == refs[q]
    {
      assert Cleared(refs[q], 0).reports == refs[q].reports;
    }
    while i < n
      invariant 0 <= i <= n
      invariant |r.reports| == n && |r.references| == |refs|
      invariant forall p :: 0 <= p < i ==> r.reports[p] == Merged(m, p)
      invariant forall p :: i <= p < n ==> r.reports[p] == m.reports[p]
      invariant forall q :: 0 <= q < |refs| ==> r.references[q] == Cleared(refs[q], i)
    {
      SumAtSame(r.references, refs, i);
      forall q | 0 <= q < |refs|
        ensures ClearAt(Cleared(refs[q], i), i) == Cleared(refs[q], i + 1)
      {
        ClearNext(refs[q], i);
      }
      r := MergeColumn(r, i);
      i := i + 1;
    }
    assert r.reports == Reduced(m).reports;
    assert r.references == Reduced(m).references;
  }

  /** When every clone's report `i` is empty, their sum is empty. */
  lemma {:induction false} SumAtEmpty(refs: seq<Manager>, i: nat)
    requires HasReport(refs, i)
    requires forall j :: 0 <= j < |refs| ==> refs[j].reports[i].result == map[]
    ensures SumAt(refs, i) == map[]
    decreases |refs|
  {
    if |refs| > 0 {
      SumAtEmpty(refs[..|refs| - 1], i);
      PlusEmptyLeft(map[]);
    }
  }

  /** Reduce idempotence: a second `Reduce` with nothing processed in
      between leaves the totals and the clones as the first one left them,
      because the first one cleared every merged clone report. */
  lemma ReduceIdempotent(m: Manager)
    requires Compatible(m)
    ensures Compatible(Reduced(m))
    ensures Reduced(Reduced(m)) == Reduced(m)
  {
    var r := Reduced(m);
    var n := |m.reports|;
    forall p | 0 <= p < n
      ensures Merged(r, p) == r.reports[p]
    {
      SumAtEmpty(r.references, p);
      PlusEmptyRight(r.reports[p].result);
    }
    forall j | 0 <= j < |r.references|
      ensures Cleared(r.references[j], n) == r.references[j]
    {
      assert Cleared(r.references[j], n).reports == r.references[j].reports;
    }
    assert Reduced(r).reports == r.reports;
    assert Reduced(r).references == r.references;
  }

  /** A report registered on the source after a clone was made leaves that
      clone one report short, so `Reduce` may no longer be applied. */
  lemma RegisterAfterClone(m: Manager, rpt: Report)
    requires Compatible(m)
    ensures Compatible(Clone(m).0)
    ensures !Compatible(RegisterReport(Clone(m).0, rpt))
  {
    var m' := RegisterReport(Clone(m).0, rpt);
    var last := |m'.references| - 1;
    assert m'.references[last] == Clone(m).1;
    assert |m'.references[last].reports| < |m'.reports|;
  }

  /** Clone isolation: a clone reduced back before it processes anything
      adds nothing to the source, whatever the source had accumulated. */
  lemma CloneThenReduce(m: Manager)
    requires Compatible(m)
    ensures Compatible(Clone(m).0)
    ensures Reduced(Clone(m).0).reports == Reduced(m).reports
  {
    var m' := Clone(m).0;
    var refs := m.references;
    forall p | 0 <= p < |m.reports|
      ensures SumAt(m'.references, p) == SumAt(refs, p)
    {
      assert m'.references[..|m'.references| - 1] == refs;
      PlusEmptyRight(SumAt(refs, p));
    }
    assert Reduced(m').reports == Reduced(m).reports;
  }
}
