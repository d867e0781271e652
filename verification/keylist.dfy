/**
 The key-position filter of `main` in lopro.go: the `-keys` flag is split
 on commas, every piece that `strconv.Atoi` rejects is dropped, and the run
 is aborted when nothing remains.

 `strings.Split` and `strconv.Atoi` are Go library functions whose source
 is not part of this model; they are written out here after their
 documented behaviour for a comma separator and for base 10 on a 64-bit
 platform.
 */
module KeyList {
  import opened Reports

  datatype Option<T> = None | Some(value: T)

  /** `strings.Split(s, ",")`: the pieces between commas; an empty string
      is one empty piece. */
  function Split(s: string): (r: seq<string>)
    ensures |r| >= 1
    ensures forall i :: 0 <= i < |r| ==> ',' !in r[i]
    decreases |s|
  {
    if |s| == 0 then [""]
    else
      var rest := Split(s[1..]);
      if s[0] == ',' then [""] + rest
      else [[s[0]] + rest[0]] + rest[1..]
  }

  lemma {:induction false} JoinCons(c: string, segs: seq<string>)
    requires |segs| >= 1
    ensures Join([c + segs[0]] + segs[1..]) == c + Join(segs)
  {
    var t := [c + segs[0]] + segs[1..];
    if |segs| == 1 {
      assert t == [c + segs[0]];
    } else {
      assert t[0] == c + segs[0] && t[1..] == segs[1..];
      assert Join(t) == (c + segs[0]) + "," + Join(segs[1..]);
      assert Join(segs) == segs[0] + "," + Join(segs[1..]);
    }
  }

  /** Joining the pieces with commas gives the string back. */
  lemma {:induction false} JoinSplit(s: string)
    ensures Join(Split(s)) == s
    decreases |s|
  {
    if |s| > 0 {
      var rest := Split(s[1..]);
      JoinSplit(s[1..]);
      if s[0] == ',' {
        assert ([""] + rest)[1..] == rest;
      } else {
        JoinCons([s[0]], rest);
      }
      assert s == [s[0]] + s[1..];
    }
  }

  /** A piece without a comma followed by a comma starts a new piece. */
  lemma {:induction false} SplitAfterPiece(x: string, t: string)
    requires ',' !in x
    ensures Split(x + "," + t) == [x] + Split(t)
    decreases |x|
  {
    if |x| == 0 {
      assert x + "," + t == [','] + t;
      assert (x + "," + t)[1..] == t;
    } else {
      assert (x + "," + t)[1..] == x[1..] + "," + t;
      assert ',' !in x[1..] by {
        assert forall i :: 0 <= i < |x[1..]| ==> x[1..][i] == x[i + 1];
      }
      SplitAfterPiece(x[1..], t);
      assert [x[0]] + x[1..] == x;
    }
  }

  /** A string without commas is one piece. */
  lemma {:induction false} SplitOnePiece(x: string)
    requires ',' !in x
    ensures Split(x) == [x]
    decreases |x|
  {
    if |x| > 0 {
      assert ',' !in x[1..] by {
        assert forall i :: 0 <= i < |x[1..]| ==> x[1..][i] == x[i + 1];
      }
      SplitOnePiece(x[1..]);
      assert [x[0]] + x[1..] == x;
    }
  }

  /** Splitting comma-joined pieces that hold no comma gives the pieces back. */
  lemma {:induction false} SplitJoin(segs: seq<string>)
    requires |segs| >= 1
    requires forall i :: 0 <= i < |segs| ==> ',' !in segs[i]
    ensures Split(Join(segs)) == segs
    decreases |segs|
  {
    if |segs| == 1 {
      SplitOnePiece(segs[0]);
    } else {
      SplitJoin(segs[1..]);
      SplitAfterPiece(segs[0], Join(segs[1..]));
      assert [segs[0]] + segs[1..] == segs;
    }
  }

  const MinInt: int := -0x8000_0000_0000_0000
  const MaxInt: int := 0x7fff_ffff_ffff_ffff

  predicate IsDigit(c: char)
  {
    '0' <= c <= '9'
  }

  predicate AllDigits(s: string)
  {
    forall i :: 0 <= i < |s| ==> IsDigit(s[i])
  }

  /** The value of a string of decimal digits, most significant first. */
  function DigitsValue(ds: string): nat
    requires AllDigits(ds)
    decreases |ds|
  {
    if |ds| == 0 then 0
    else 10 * DigitsValue(ds[..|ds| - 1]) + (ds[|ds| - 1] as int - '0' as int)
  }

  /** `strconv.Atoi`: an optional sign, then at least one decimal digit and
      nothing else, with the value inside the 64-bit range. */
  function Atoi(s: string): (r: Option<int>)
    ensures r.Some? ==> MinInt <= r.value <= MaxInt
    ensures |s| == 0 ==> r.None?
    ensures r.Some? && s[0] != '-' ==> r.value >= 0
    ensures r.Some? ==> forall i :: 0 <= i < |s| ==> IsDigit(s[i]) || (i == 0 && (s[0] == '+' || s[0] == '-'))
    ensures |s| > 0 && AllDigits(s) && DigitsValue(s) <= MaxInt ==> r == Some(DigitsValue(s))
  {
    var signed := |s| > 0 && (s[0] == '+' || s[0] == '-');
    var ds := if signed then s[1..] else s;
    if |ds| == 0 || !AllDigits(ds) then None
    else
      var v: int := if signed && s[0] == '-' then -(DigitsValue(ds) as int) else DigitsValue(ds);
      if MinInt <= v <= MaxInt then Some(v) else None
  }

  /** `strconv.Atoi` rejects a digit string above the 64-bit range and a
      sign with no digits after it. */
  lemma AtoiRejects(s: string)
    ensures |s| > 0 && AllDigits(s) && DigitsValue(s) > MaxInt ==> Atoi(s).None?
    ensures |s| == 1 && (s[0] == '+' || s[0] == '-') ==> Atoi(s).None?
  {
  }

  function DigitChar(d: nat): (c: char)
    requires d < 10
    ensures IsDigit(c) && c as int - '0' as int == d
  {
    ('0' as int + d) as char
  }

  /** The shortest decimal digits of `n`. */
  function Digits(n: nat): (r: string)
    ensures |r| >= 1 && AllDigits(r) && DigitsValue(r) == n
    ensures ',' !in r
  {
    if n < 10 then [DigitChar(n)]
    else
      var r := Digits(n / 10) + [DigitChar(n % 10)];
      assert r[..|r| - 1] == Digits(n / 10);
      r
  }

  /** `strconv.Itoa`: the decimal form of an integer. */
  function Itoa(n: int): (r: string)
    ensures ',' !in r
  {
    if n < 0 then "-" + Digits(-n) else Digits(n)
  }

  /** Every integer of the 64-bit range reads back from its decimal form. */
  lemma AtoiItoa(n: int)
    requires MinInt <= n <= MaxInt
    ensures Atoi(Itoa(n)) == Some(n)
  {
    if n < 0 {
      assert Itoa(n)[1..] == Digits(-n);
    }
  }

  /** The loop of `main` over the split flag: each piece that parses is
      appended, each that does not is skipped. Nothing is kept exactly
      when no piece parses. */
  function Keep(parts: seq<string>): (ks: seq<int>)
    ensures |ks| <= |parts|
    ensures |ks| > 0 <==> exists i :: 0 <= i < |parts| && Atoi(parts[i]).Some?
    decreases |parts|
  {
    if |parts| == 0 then []
    else
      var rest := Keep(parts[1..]);
      assert forall i :: 1 <= i < |parts| ==> parts[i] == parts[1..][i - 1];
      match Atoi(parts[0])
      case Some(v) => [v] + rest
      case None => rest
  }

  /** A single piece is kept exactly when it parses, as its value. */
  lemma KeepOne(p: string)
    ensures Keep([p]) == if Atoi(p).Some? then [Atoi(p).value] else []
  {
    assert [p][1..] == [];
  }

  /** Filtering a concatenation filters each part: with `KeepOne`, the kept
      keys are the values of the pieces that parse, in flag order. */
  lemma {:induction false} KeepAppend(xs: seq<string>, ys: seq<string>)
    ensures Keep(xs + ys) == Keep(xs) + Keep(ys)
    decreases |xs|
  {
    if |xs| == 0 {
      assert xs + ys == ys;
    } else {
      assert (xs + ys)[0] == xs[0];
      assert (xs + ys)[1..] == xs[1..] + ys;
      KeepAppend(xs[1..], ys);
    }
  }

  /** The key positions the `-keys` flag yields, or `None` when the run is
      aborted because no piece of the flag is an integer. */
  function ParseKeys(flag: string): (r: Option<seq<int>>)
    ensures r.Some? <==> exists i :: 0 <= i < |Split(flag)| && Atoi(Split(flag)[i]).Some?
    ensures r.Some? ==> 0 < |r.value| <= |Split(flag)|
  {
    var parts := Split(flag);
    var ks := Keep(parts);
    if |ks| == 0 then None
    else
      assert exists i :: 0 <= i < |Split(flag)| && Atoi(Split(flag)[i]).Some? by {
        var i :| 0 <= i < |parts| && Atoi(parts[i]).Some?;
        assert Atoi(Split(flag)[i]).Some?;
      }
      Some(ks)
  }

  /** The decimal forms of a list of integers, in order. */
  function Written(ks: seq<int>): (r: seq<string>)
    ensures |r| == |ks| && forall i :: 0 <= i < |ks| ==> r[i] == Itoa(ks[i])
    decreases |ks|
  {
    if |ks| == 0 then [] else [Itoa(ks[0])] + Written(ks[1..])
  }

  /** Pieces that all parse are all kept, in order. */
  lemma {:induction false} KeepAll(ks: seq<int>)
    requires forall i :: 0 <= i < |ks| ==> MinInt <= ks[i] <= MaxInt
    ensures Keep(Written(ks)) == ks
    decreases |ks|
  {
    if |ks| > 0 {
      assert Written(ks)[1..] == Written(ks[1..]);
      AtoiItoa(ks[0]);
      KeepAll(ks[1..]);
      assert [ks[0]] + ks[1..] == ks;
    }
  }

  /** Round trip: a non-empty list of 64-bit integers, written out and
      joined with commas, is parsed back to itself. */
  lemma ParseKeysRoundTrip(ks: seq<int>)
    requires |ks| > 0
    requires forall i :: 0 <= i < |ks| ==> MinInt <= ks[i] <= MaxInt
    ensures ParseKeys(Join(Written(ks))) == Some(ks)
  {
    SplitJoin(Written(ks));
    KeepAll(ks);
  }

  /** The flag's default `"0"` selects the first field. */
  lemma ParseKeysDefault()
    ensures ParseKeys("0") == Some([0])
  {
    SplitOnePiece("0");
    assert Atoi("0") == Some(0) by {
      assert "0"[..0] == "";
    }
    assert Keep(["0"]) == [0] by {
      assert ["0"][1..] == [];
    }
  }

  /** Pieces that are not integers are dropped; the others keep their order
      and their sign. */
  lemma ParseKeysSkipsJunk()
    ensures ParseKeys("1,x,-2") == Some([1, -2])
  {
    SplitJoin(["1", "x", "-2"]);
    assert Join(["1", "x", "-2"]) == "1,x,-2";
    assert Atoi("1") == Some(1) by {
      assert "1"[..0] == "";
    }
    assert Atoi("x") == None;
    assert Atoi("-2") == Some(-2) by {
      assert "-2"[1..] == "2";
      assert "2"[..0] == "";
    }
    assert Keep(["1", "x", "-2"]) == [1, -2] by {
      assert ["1", "x", "-2"][1..] == ["x", "-2"];
      assert ["x", "-2"][1..] == ["-2"];
      assert ["-2"][1..] == [];
    }
  }

  /** A flag with no integer at all aborts the run. */
  lemma ParseKeysAborts()
    ensures ParseKeys("x,") == None
  {
    SplitJoin(["x", ""]);
    assert Join(["x", ""]) == "x,";
  }
}
