/**
 The key-tally report (`QuickReport` embedding `DefaultReport` in
 lopro.go): a record is reduced to a key by joining the configured field
 positions with commas, and the report counts how often each key occurs.
 */
module Reports {
  import opened Counts

  /** What a parser hands to `Add`. The Go type is `interface{}`: the
      key-tally report only understands a sequence of field strings, and
      every other dynamic type is `Other`. */
  datatype LogRecord = Fields(fields: seq<string>) | Other

  /** The only report kind of the source. `keys` are the configured field
      positions; negative positions make `Add` panic, so they are excluded
      by the type. */
  datatype Report = QuickReport(result: Tally, keys: seq<nat>)

  /** The segment a field position contributes: the field itself, or the
      empty string when the record is too short. */
  function Segment(r: seq<string>, k: nat): string
  {
    if k < |r| then r[k] else ""
  }

  function Segments(r: seq<string>, keys: seq<nat>): (s: seq<string>)
    ensures |s| == |keys|
    ensures forall i :: 0 <= i < |keys| ==> s[i] == Segment(r, keys[i])
  {
    seq(|keys|, i requires 0 <= i < |keys| => Segment(r, keys[i]))
  }

  /** Reference definition of a key: `s0 + "," + s1 + ... + "," + sn`. */
  function Join(segs: seq<string>): string
  {
    if |segs| == 0 then ""
    else if |segs| == 1 then segs[0]
    else segs[0] + "," + Join(segs[1..])
  }

  /** The key-building loop of `QuickReport.Add`, position `i` onwards, with
      the key built so far: a comma before every position but the first,
      then the field, or nothing when the record is too short. */
  function KeyLoop(r: seq<string>, keys: seq<nat>, i: nat, key: string): string
    requires i <= |keys|
    decreases |keys| - i
  {
    if i == |keys| then key
    else
      var key' := if i > 0 then key + "," else key;
      KeyLoop(r, keys, i + 1, if keys[i] >= |r| then key' else key' + r[keys[i]])
  }

  function BuildKey(r: seq<string>, keys: seq<nat>): string
  {
    KeyLoop(r, keys, 0, "")
  }

  lemma {:induction false} JoinSnoc(s: seq<string>, x: string)
    requires |s| > 0
    ensures Join(s + [x]) == Join(s) + "," + x
    decreases |s|
  {
    if |s| == 1 {
      assert (s + [x])[1..] == [x];
    } else {
      assert (s + [x])[1..] == s[1..] + [x];
      JoinSnoc(s[1..], x);
    }
  }

  lemma {:induction false} KeyLoopJoins(r: seq<string>, keys: seq<nat>, i: nat)
    requires 0 < i <= |keys|
    ensures KeyLoop(r, keys, i, Join(Segments(r, keys[..i]))) == Join(Segments(r, keys))
    decreases |keys| - i
  {
    if i == |keys| {
      assert keys[..i] == keys;
    } else {
      var prefix := Segments(r, keys[..i]);
      assert Segments(r, keys[..i + 1]) == prefix + [Segment(r, keys[i])];
      JoinSnoc(prefix, Segment(r, keys[i]));
      var key := Join(prefix);
      if keys[i] >= |r| {
        assert key + "," + Segment(r, keys[i]) == key + ",";
      }
      assert KeyLoop(r, keys, i, key) == KeyLoop(r, keys, i + 1, key + "," + Segment(r, keys[i]));
      KeyLoopJoins(r, keys, i + 1);
    }
  }

  /** The loop builds exactly the comma-joined segments: one segment per
      configured position, in order, empty for a position past the end. */
  lemma BuildKeyIsJoin(r: seq<string>, keys: seq<nat>)
    ensures BuildKey(r, keys) == Join(Segments(r, keys))
  {
    if |keys| > 0 {
      assert Segments(r, keys[..1]) == [Segment(r, keys[0])];
      if keys[0] < |r| {
        assert "" + r[keys[0]] == r[keys[0]];
      }
      assert BuildKey(r, keys) == KeyLoop(r, keys, 1, Segment(r, keys[0]));
      KeyLoopJoins(r, keys, 1);
    }
  }

  /** Two fields joined: `["a","x"]` with positions `[0,1]` is `"a,x"`. */
  lemma KeyOfTwoFields()
    ensures BuildKey(["a", "x"], [0, 1]) == "a,x"
  {
    BuildKeyIsJoin(["a", "x"], [0, 1]);
  }

  /** A position past the end contributes an empty segment. */
  lemma KeyPastTheEnd()
    ensures BuildKey(["a"], [0, 5]) == "a,"
    ensures BuildKey([], [2]) == ""
  {
    BuildKeyIsJoin(["a"], [0, 5]);
    BuildKeyIsJoin([], [2]);
  }

  /** The join is ambiguous when a field itself holds a comma: two
      different records can share a key. */
  lemma KeyIsAmbiguous()
    ensures BuildKey(["a,b", "c"], [0, 1]) == BuildKey(["a", "b,c"], [0, 1])
  {
    BuildKeyIsJoin(["a,b", "c"], [0, 1]);
    BuildKeyIsJoin(["a", "b,c"], [0, 1]);
  }

  /** `NewQuickReport`: an empty tally over the given positions. */
  function NewQuickReport(keys: seq<nat>): (r: Report)
    ensures r.keys == keys && r.result == map[]
  {
    QuickReport(map[], keys)
  }

  /** `QuickReport.New`: a fresh, empty peer with the same positions. */
  function New(rep: Report): (r: Report)
    ensures r.keys == rep.keys && r.result == map[]
  {
    NewQuickReport(rep.keys)
  }

  /** `DefaultReport.Clear`: the accumulator is replaced by an empty one. */
  function Clear(rep: Report): (r: Report)
    ensures r.keys == rep.keys && r.result == map[]
  {
    rep.(result := map[])
  }

  /** `QuickReport.Add`: exactly the record's key gains one, every other
      key keeps its count; a record that is not a field sequence is
      ignored. */
  function Add(rep: Report, rec: LogRecord): (r: Report)
    ensures r.keys == rep.keys
    ensures rec.Other? ==> r == rep
    ensures rec.Fields? ==> r.result.Keys == rep.result.Keys + {Join(Segments(rec.fields, rep.keys))}
    ensures rec.Fields? ==> forall k ::
      Count(r.result, k) == Count(rep.result, k) + (if k == Join(Segments(rec.fields, rep.keys)) then 1 else 0)
  {
    match rec
    case Other => rep
    case Fields(fields) =>
      BuildKeyIsJoin(fields, rep.keys);
      rep.(result := Bump(rep.result, BuildKey(fields, rep.keys)))
  }

  /** `QuickReport.Merge`: every key's count becomes the sum of both
      sides; the receiver keeps its positions. */
  function Merge(rep: Report, other: Report): (r: Report)
    ensures r.keys == rep.keys
    ensures r.result.Keys == rep.result.Keys + other.result.Keys
    ensures forall k :: Count(r.result, k) == Count(rep.result, k) + Count(other.result, k)
  {
    rep.(result := Plus(rep.result, other.result))
  }

  /** `Add` applied to every record of a stream, in order. */
  function Feed(rep: Report, recs: seq<LogRecord>): Report
    decreases |recs|
  {
    if |recs| == 0 then rep else Feed(Add(rep, recs[0]), recs[1..])
  }

  /** The number of field-sequence records of `recs` whose key is `k`. */
  function Occurrences(recs: seq<LogRecord>, keys: seq<nat>, k: string): nat
    decreases |recs|
  {
    if |recs| == 0 then 0
    else
      (if recs[0].Fields? && Join(Segments(recs[0].fields, keys)) == k then 1 else 0)
      + Occurrences(recs[1..], keys, k)
  }

  /** Feeding a stream never changes the positions. */
  lemma {:induction false} FeedKeepsKeys(rep: Report, recs: seq<LogRecord>)
    ensures Feed(rep, recs).keys == rep.keys
    decreases |recs|
  {
    if |recs| > 0 {
      FeedKeepsKeys(Add(rep, recs[0]), recs[1..]);
    }
  }

  /** Feeding is count-by-count: each key gains its number of occurrences,
      and a key is present afterwards exactly when it was before or occurs. */
  lemma {:induction false} FeedCounts(rep: Report, recs: seq<LogRecord>)
    ensures forall k :: Count(Feed(rep, recs).result, k) == Count(rep.result, k) + Occurrences(recs, rep.keys, k)
    ensures forall k :: k in Feed(rep, recs).result <==> k in rep.result || Occurrences(recs, rep.keys, k) > 0
    decreases |recs|
  {
    if |recs| > 0 {
      FeedCounts(Add(rep, recs[0]), recs[1..]);
    }
  }

  /** The example of a one-position tally: `{"a": 2, "b": 1}`. */
  lemma TallyExample()
    ensures Feed(NewQuickReport([0]), [Fields(["a", "1"]), Fields(["a", "2"]), Fields(["b", "1"])]).result
      == map["a" := 2, "b" := 1]
  {
    var recs := [Fields(["a", "1"]), Fields(["a", "2"]), Fields(["b", "1"])];
    var r := Feed(NewQuickReport([0]), recs);
    FeedCounts(NewQuickReport([0]), recs);
    assert recs[1..] == [Fields(["a", "2"]), Fields(["b", "1"])];
    assert recs[1..][1..] == [Fields(["b", "1"])];
    assert Segments(["a", "1"], [0]) == ["a"];
    assert Segments(["a", "2"], [0]) == ["a"];
    assert Segments(["b", "1"], [0]) == ["b"];
    assert Occurrences(recs, [0], "a") == 2;
    assert Occurrences(recs, [0], "b") == 1;
    forall k | k != "a" && k != "b"
      ensures Occurrences(recs, [0], k) == 0
    {
    }
    Extensionality(r.result, map["a" := 2, "b" := 1]);
  }

  /** Feeding a concatenation is feeding one part after the other. */
  lemma {:induction false} FeedAppend(rep: Report, xs: seq<LogRecord>, ys: seq<LogRecord>)
    ensures Feed(rep, xs + ys) == Feed(Feed(rep, xs), ys)
    decreases |xs|
  {
    if |xs| > 0 {
      assert (xs + ys)[0] == xs[0];
      assert (xs + ys)[1..] == xs[1..] + ys;
      FeedAppend(Add(rep, xs[0]), xs[1..], ys);
    } else {
      assert xs + ys == ys;
    }
  }

  /** Feeding a report is merging in a fresh report fed the same stream. */
  lemma {:induction false} FeedIsMerge(rep: Report, recs: seq<LogRecord>)
    ensures Feed(rep, recs) == Merge(rep, Feed(New(rep), recs))
  {
    var fed := Feed(rep, recs);
    var empty := Feed(New(rep), recs);
    FeedKeepsKeys(rep, recs);
    FeedKeepsKeys(New(rep), recs);
    FeedCounts(rep, recs);
    FeedCounts(New(rep), recs);
    Extensionality(fed.result, Merge(rep, empty).result);
  }

  /** Partition independence: tallying `xs + ys` is merging the tallies of
      `xs` and of `ys`, wherever the stream was cut. */
  lemma PartitionIndependence(keys: seq<nat>, xs: seq<LogRecord>, ys: seq<LogRecord>)
    ensures Feed(NewQuickReport(keys), xs + ys)
      == Merge(Feed(NewQuickReport(keys), xs), Feed(NewQuickReport(keys), ys))
  {
    var fx := Feed(NewQuickReport(keys), xs);
    FeedAppend(NewQuickReport(keys), xs, ys);
    FeedKeepsKeys(NewQuickReport(keys), xs);
    FeedIsMerge(fx, ys);
  }

  /** Merging reports is commutative on their tallies. */
  lemma MergeCommutative(a: Report, b: Report)
    ensures Merge(a, b).result == Merge(b, a).result
  {
    PlusCommutative(a.result, b.result);
  }

  /** Merging reports is associative. */
  lemma MergeAssociative(a: Report, b: Report, c: Report)
    ensures Merge(Merge(a, b), c) == Merge(a, Merge(b, c))
  {
    PlusAssociative(a.result, b.result, c.result);
  }

  /** Merging a cleared report changes nothing, so a merge followed by a
      clear of the source cannot be counted twice. */
  lemma MergeCleared(rep: Report, other: Report)
    ensures Merge(rep, Clear(other)) == rep
  {
    PlusEmptyRight(rep.result);
  }
}
