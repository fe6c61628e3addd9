/**
 The closing report: the output directory is listed, its names sorted as strings, and every
 file ending in `.parquet` is reported with its row count. The directory is the one the run
 wrote into, which may already hold files from an earlier run.
 */
module Summary {
  import opened Tables
  import opened Catalog
  import opened Executor

  /** Code-point lexicographic order on strings, as Python compares `str` values:
      a proper prefix comes first. */
  predicate StrLess(a: string, b: string)
    decreases |a|
  {
    if a == [] then b != []
    else if b == [] then false
    else if a[0] != b[0] then a[0] < b[0]
    else StrLess(a[1..], b[1..])
  }

  lemma {:induction false} StrLessIrreflexive(a: string)
    ensures !StrLess(a, a)
    decreases |a|
  {
    if a != [] {
      StrLessIrreflexive(a[1..]);
    }
  }

  lemma {:induction false} StrLessTransitive(a: string, b: string, c: string)
    requires StrLess(a, b) && StrLess(b, c)
    ensures StrLess(a, c)
    decreases |a|
  {
    if a != [] && b != [] && c != [] && a[0] == b[0] && b[0] == c[0] {
      StrLessTransitive(a[1..], b[1..], c[1..]);
    }
  }

  lemma {:induction false} StrLessTotal(a: string, b: string)
    requires a != b
    ensures StrLess(a, b) || StrLess(b, a)
    decreases |a|
  {
    if a != [] && b != [] && a[0] == b[0] {
      assert a == [a[0]] + a[1..] && b == [b[0]] + b[1..];
      StrLessTotal(a[1..], b[1..]);
    }
  }

  /** `s` ends with `suffix` (`str.endswith`). */
  predicate EndsWith(s: string, suffix: string)
  {
    |s| >= |suffix| && s[|s| - |suffix|..] == suffix
  }

  /** Names listed in strictly increasing order, hence without repeats. */
  ghost predicate Increasing(names: seq<string>)
  {
    forall i, j :: 0 <= i < j < |names| ==> StrLess(names[i], names[j])
  }

  /** The least name of a non-empty set. */
  method Least(s: set<string>) returns (m: string)
    requires s != {}
    ensures m in s
    ensures forall x :: x in s && x != m ==> StrLess(m, x)
  {
    m :| m in s;
    var rest := s - {m};
    while rest != {}
      invariant m in s && rest <= s && m !in rest
      invariant forall y :: y in s && y !in rest && y != m ==> StrLess(m, y)
      decreases |rest|
    {
      var x :| x in rest;
      if StrLess(x, m) {
        forall y | y in s && y !in rest && y != m
          ensures StrLess(x, y)
        {
          StrLessTransitive(x, m, y);
        }
        StrLessIrreflexive(x);
        m := x;
      } else {
        StrLessTotal(m, x);
      }
      rest := rest - {x};
    }
  }

  /** `sorted(names)`: the names of the set in increasing order. */
  method SortedNames(names: set<string>) returns (sorted: seq<string>)
    ensures Increasing(sorted)
    ensures forall x :: x in sorted <==> x in names
    ensures |sorted| == |names|
  {
    sorted := [];
    var remaining := names;
    while remaining != {}
      invariant Increasing(sorted)
      invariant forall x :: x in names <==> x in sorted || x in remaining
      invariant forall x :: x in sorted ==> x !in remaining
      invariant forall i, y :: 0 <= i < |sorted| && y in remaining ==> StrLess(sorted[i], y)
      invariant |sorted| + |remaining| == |names|
      decreases |remaining|
    {
      var m := Least(remaining);
      sorted := sorted + [m];
      remaining := remaining - {m};
    }
  }

  /** Two increasing listings of the same names are the same listing: sorting is deterministic. */
  lemma {:induction false} IncreasingUnique(a: seq<string>, b: seq<string>)
    requires Increasing(a) && Increasing(b)
    requires forall x :: x in a <==> x in b
    ensures a == b
    decreases |a|
  {
    assert a != [] ==> a[0] in a;
    assert b != [] ==> b[0] in b;
    if a != [] {
      assert a[0] in b && b[0] in a;
      if a[0] != b[0] {
        var i :| 0 <= i < |a| && a[i] == b[0];
        var j :| 0 <= j < |b| && b[j] == a[0];
        assert StrLess(a[0], a[i]);
        assert StrLess(b[0], b[j]);
        StrLessIrreflexive(a[0]);
        StrLessTransitive(a[0], b[0], a[0]);
        assert false;
      }
      assert Increasing(a[1..]) && Increasing(b[1..]);
      forall x
        ensures x in a[1..] <==> x in b[1..]
      {
        assert x in a <==> x == a[0] || x in a[1..];
        assert x in b <==> x == b[0] || x in b[1..];
        if x in a[1..] {
          var k :| 0 <= k < |a[1..]| && a[1..][k] == x;
          assert StrLess(a[0], a[k + 1]);
          StrLessIrreflexive(x);
        }
        if x in b[1..] {
          var k :| 0 <= k < |b[1..]| && b[1..][k] == x;
          assert StrLess(b[0], b[k + 1]);
          StrLessIrreflexive(x);
        }
      }
      IncreasingUnique(a[1..], b[1..]);
      assert a == [a[0]] + a[1..];
      assert b == [b[0]] + b[1..];
    }
  }

  /** One line of the report: a file name and its number of rows. */
  datatype Line = Line(file: string, rows: nat)

  /** `report` is the summary of `dir`: its `.parquet` files in increasing name order, each with
      its row count. */
  ghost predicate IsSummary(dir: map<string, Table>, report: seq<Line>)
  {
    && (forall i, j :: 0 <= i < j < |report| ==> StrLess(report[i].file, report[j].file))
    && (forall i :: 0 <= i < |report| ==>
          report[i].file in dir && report[i].rows == |dir[report[i].file].rows|)
    && (forall f :: f in dir && EndsWith(f, Suffix) ==> exists i :: 0 <= i < |report| && report[i].file == f)
    && (forall i :: 0 <= i < |report| ==> EndsWith(report[i].file, Suffix))
  }

  /** The file names a report lists. */
  function Files(report: seq<Line>): seq<string>
  {
    seq(|report|, i requires 0 <= i < |report| => report[i].file)
  }

  /** A summary names exactly the directory's `.parquet` files, in increasing order. */
  lemma SummaryFiles(dir: map<string, Table>, report: seq<Line>)
    requires IsSummary(dir, report)
    ensures Increasing(Files(report))
    ensures forall x :: x in Files(report) <==> x in dir && EndsWith(x, Suffix)
  {
    var f := Files(report);
    assert |f| == |report| && forall i :: 0 <= i < |report| ==> f[i] == report[i].file;
    forall x
      ensures x in f <==> x in dir && EndsWith(x, Suffix)
    {
      if x in f {
        var i :| 0 <= i < |f| && f[i] == x;
        assert report[i].file == x;
      }
      if x in dir && EndsWith(x, Suffix) {
        var i :| 0 <= i < |report| && report[i].file == x;
        assert f[i] == x;
      }
    }
  }

  /** A directory has exactly one summary. */
  lemma SummaryUnique(dir: map<string, Table>, r1: seq<Line>, r2: seq<Line>)
    requires IsSummary(dir, r1) && IsSummary(dir, r2)
    ensures r1 == r2
  {
    SummaryFiles(dir, r1);
    SummaryFiles(dir, r2);
    IncreasingUnique(Files(r1), Files(r2));
    forall i | 0 <= i < |r1|
      ensures r1[i] == r2[i]
    {
      assert Files(r1)[i] == Files(r2)[i];
    }
  }

  /** The lines for the `.parquet` entries among `names`, in the order of `names`. */
  method ParquetLines(dir: map<string, Table>, names: seq<string>) returns (report: seq<Line>)
    requires Increasing(names)
    requires forall k :: 0 <= k < |names| ==> names[k] in dir
    ensures forall i, j :: 0 <= i < j < |report| ==> StrLess(report[i].file, report[j].file)
    ensures forall i :: 0 <= i < |report| ==>
      report[i].file in dir && report[i].rows == |dir[report[i].file].rows|
    ensures forall i :: 0 <= i < |report| ==> EndsWith(report[i].file, Suffix)
    ensures forall k :: 0 <= k < |names| && EndsWith(names[k], Suffix) ==>
      exists i :: 0 <= i < |report| && report[i].file == names[k]
  {
    report := [];
    var n := 0;
    while n < |names|
      invariant 0 <= n <= |names|
      invariant forall i, j :: 0 <= i < |report| && n <= j < |names| ==> StrLess(report[i].file, names[j])
      invariant forall i, j :: 0 <= i < j < |report| ==> StrLess(report[i].file, report[j].file)
      invariant forall i :: 0 <= i < |report| ==>
        report[i].file in dir && report[i].rows == |dir[report[i].file].rows|
      invariant forall i :: 0 <= i < |report| ==> EndsWith(report[i].file, Suffix)
      invariant forall k :: 0 <= k < n && EndsWith(names[k], Suffix) ==>
        exists i :: 0 <= i < |report| && report[i].file == names[k]
    {
      var f := names[n];
      if EndsWith(f, Suffix) {
        var before := report;
        report := report + [Line(f, |dir[f].rows|)];
        assert forall i :: 0 <= i < |before| ==> report[i] == before[i];
        assert report[|report| - 1].file == names[n];
      }
      n := n + 1;
    }
  }

  /** The report: every directory entry in sorted order, skipping those not ending in `.parquet`. */
  method Summarize(dir: map<string, Table>) returns (report: seq<Line>)
    ensures IsSummary(dir, report)
  {
    var names := SortedNames(dir.Keys);
    assert forall k :: 0 <= k < |names| ==> names[k] in dir by {
      forall k | 0 <= k < |names|
        ensures names[k] in dir
      {
        assert names[k] in names;
      }
    }
    report := ParquetLines(dir, names);
    forall f | f in dir && EndsWith(f, Suffix)
      ensures exists i :: 0 <= i < |report| && report[i].file == f
    {
      var k :| 0 <= k < |names| && names[k] == f;
    }
  }

  /** Distinct tables are written to distinct files. */
  lemma FileNamesDistinct()
    ensures forall a, b :: FileName(a) == FileName(b) ==> a == b
  {
    forall a, b
      ensures FileName(a) == FileName(b) ==> a == b
    {
      FileNameInjective(a, b);
    }
  }

  /** The output directory after a run: `existing` (what it held before; it is created with
      `exist_ok=True` and never cleared) with each written table stored under its file name. */
  function OutputDirectory(existing: map<string, Table>, written: Store): (dir: map<string, Table>)
    ensures forall t :: t in written ==> FileName(t) in dir && dir[FileName(t)] == written[t]
    ensures forall f :: f in existing && (forall t :: t in written ==> FileName(t) != f) ==>
      f in dir && dir[f] == existing[f]
    ensures forall f :: f in dir ==> f in existing || exists t :: t in written && FileName(t) == f
  {
    FileNamesDistinct();
    existing + map t | t in written :: FileName(t) := written[t]
  }

  /** `line` reports one of the written tables, under its file name and with its row count. */
  ghost predicate ReportsWritten(written: Store, line: Line)
  {
    exists t :: t in written && line == Line(FileName(t), |written[t].rows|)
  }

  /** On an empty output directory the report lists every written table with its row count. */
  lemma FreshSummaryListsWritten(written: Store, report: seq<Line>)
    requires IsSummary(OutputDirectory(map[], written), report)
    ensures forall t :: t in written ==>
      exists i :: 0 <= i < |report| && report[i] == Line(FileName(t), |written[t].rows|)
  {
    var dir := OutputDirectory(map[], written);
    forall t | t in written
      ensures exists i :: 0 <= i < |report| && report[i] == Line(FileName(t), |written[t].rows|)
    {
      assert EndsWith(FileName(t), Suffix);
      assert FileName(t) in dir && dir[FileName(t)] == written[t];
      var i :| 0 <= i < |report| && report[i].file == FileName(t);
      assert report[i] == Line(FileName(t), |written[t].rows|);
    }
  }

  /** On an empty output directory every line of the report is a written table. */
  lemma FreshSummaryOnlyWritten(written: Store, report: seq<Line>)
    requires IsSummary(OutputDirectory(map[], written), report)
    ensures forall i :: 0 <= i < |report| ==> ReportsWritten(written, report[i])
  {
    var dir := OutputDirectory(map[], written);
    forall i | 0 <= i < |report|
      ensures ReportsWritten(written, report[i])
    {
      assert report[i].file in dir;
      var t :| t in written && FileName(t) == report[i].file;
      assert report[i] == Line(FileName(t), |written[t].rows|);
    }
  }

  /** A `.parquet` file left in the directory by an earlier run, under a name this run does not
      write, is still reported, with its old row count. */
  lemma StaleFileReported(existing: map<string, Table>, written: Store, report: seq<Line>, f: string)
    requires IsSummary(OutputDirectory(existing, written), report)
    requires f in existing && EndsWith(f, Suffix)
    requires forall t :: t in written ==> FileName(t) != f
    ensures exists i :: 0 <= i < |report| && report[i] == Line(f, |existing[f].rows|)
  {
    var i :| 0 <= i < |report| && report[i].file == f;
  }
}
