/** The per-repository part of `main` that is not file, DataFrame or chart plumbing:
    dropping rejected reports, building one row per commit with its de-duplicated and
    sorted CWE string, ordering the rows by sequence number for the charts, and the
    repository's CWE frequency table. */
module Aggregation {
  import opened Wrappers
  import opened Seqs
  import opened Text
  import opened BanditReport
  import opened Frequency

  /** A file found in the reports directory: its path and its decoded JSON content,
      `None` when the content is not valid JSON. */
  datatype ReportFile = ReportFile(path: string, content: Option<Report>)

  /** One row of the aggregated table. */
  datatype Row = Row(
    repository: string, seqNum: Option<int>, commit: string,
    highConf: int, medConf: int, lowConf: int,
    highSev: SeverityStats, medSev: SeverityStats, lowSev: SeverityStats,
    cwes: string)

  /** A repository's result: skipped when no report survived parsing; otherwise the
      table as written to CSV, the same rows in chart order, and the frequency table. */
  datatype RepoOutcome =
    | NoCommitData
    | Processed(table: seq<Row>, chartOrder: seq<Row>, frequencies: seq<Entry>)

  // ---------------------------------------------------------------- dropping None results

  /** `parse_bandit_report` applied to every file, in order. */
  function ParseAll(repositoryName: string, files: seq<ReportFile>): (results: seq<Option<ParsedReport>>)
    ensures |results| == |files|
    ensures forall i :: 0 <= i < |files| ==>
      results[i] == ParseReport(files[i].path, repositoryName, files[i].content)
  {
    seq(|files|, i requires 0 <= i < |files| => ParseReport(files[i].path, repositoryName, files[i].content))
  }

  /** The present values of `results`, in order. */
  function Present(results: seq<Option<ParsedReport>>): (values: seq<ParsedReport>)
    ensures |values| <= |results|
    ensures forall i :: 0 <= i < |values| ==> Some(values[i]) in results
  {
    if results == [] then []
    else
      var init, last := results[..|results| - 1], results[|results| - 1];
      var values := Present(init);
      assert forall v :: Some(v) in init ==> Some(v) in results;
      if last.Some? then values + [last.value] else values
  }

  lemma {:induction false} PresentConcat(a: seq<Option<ParsedReport>>, b: seq<Option<ParsedReport>>)
    ensures Present(a + b) == Present(a) + Present(b)
    decreases |b|
  {
    if b == [] {
      assert a + b == a;
    } else {
      assert (a + b)[..|a + b| - 1] == a + b[..|b| - 1];
      PresentConcat(a, b[..|b| - 1]);
    }
  }

  lemma ParseAllConcat(repositoryName: string, a: seq<ReportFile>, b: seq<ReportFile>)
    ensures ParseAll(repositoryName, a + b) == ParseAll(repositoryName, a) + ParseAll(repositoryName, b)
  {
    var whole, parts := ParseAll(repositoryName, a + b), ParseAll(repositoryName, a) + ParseAll(repositoryName, b);
    forall i | 0 <= i < |whole|
      ensures whole[i] == parts[i]
    {
      if i < |a| {
        assert (a + b)[i] == a[i];
      } else {
        assert (a + b)[i] == b[i - |a|];
      }
    }
  }

  /** A file whose name has fewer than three `_` tokens, or whose content is not valid
      JSON, contributes no commit, so no row and no CWE label. */
  lemma RejectedFileContributesNothing(repositoryName: string, before: seq<ReportFile>, f: ReportFile, after: seq<ReportFile>)
    requires Occurrences(Basename(f.path), '_') < 2 || f.content.None?
    ensures Present(ParseAll(repositoryName, before + [f] + after))
         == Present(ParseAll(repositoryName, before)) + Present(ParseAll(repositoryName, after))
  {
    ParseAllConcat(repositoryName, before + [f], after);
    ParseAllConcat(repositoryName, before, [f]);
    var pb, pa := ParseAll(repositoryName, before), ParseAll(repositoryName, after);
    var pf := ParseAll(repositoryName, [f]);
    assert pf == [None];
    PresentConcat(pb + pf, pa);
    PresentConcat(pb, pf);
    assert Present(pf) == [];
  }

  /** Parsing one more file adds its result, if any, to the kept results. */
  lemma CollectStep(repositoryName: string, files: seq<ReportFile>, k: nat)
    requires k < |files|
    ensures var r := ParseReport(files[k].path, repositoryName, files[k].content);
      Present(ParseAll(repositoryName, files[..k + 1]))
        == Present(ParseAll(repositoryName, files[..k])) + (if r.Some? then [r.value] else [])
  {
    assert files[..k + 1] == files[..k] + [files[k]];
    ParseAllConcat(repositoryName, files[..k], [files[k]]);
    var one := ParseAll(repositoryName, [files[k]]);
    PresentConcat(ParseAll(repositoryName, files[..k]), one);
    assert one[..0] == [];
  }

  /** Lines 122-126: parse every file and keep the results that are not `None`. */
  method CollectCommitData(repositoryName: string, files: seq<ReportFile>) returns (commitData: seq<ParsedReport>)
    ensures commitData == Present(ParseAll(repositoryName, files))
  {
    commitData := [];
    var k := 0;
    while k < |files|
      invariant 0 <= k <= |files|
      invariant commitData == Present(ParseAll(repositoryName, files[..k]))
    {
      var result := ParseBanditReport(files[k].path, repositoryName, files[k].content);
      CollectStep(repositoryName, files, k);
      if result.Some? {
        commitData := commitData + [result.value];
      }
      k := k + 1;
    }
    assert files[..k] == files;
  }

  // ---------------------------------------------------------------- the cwes column

  /** Sorted by Python's `str` order with no label twice. */
  ghost predicate StrictlyAscending(s: seq<string>)
  {
    Sorted(s, LexLessEq) && Distinct(s)
  }

  /** Adds `x` to an ascending duplicate-free list. */
  function InsertLabel(x: string, r: seq<string>): (out: seq<string>)
    requires StrictlyAscending(r)
    ensures StrictlyAscending(out)
    ensures forall y :: y in out <==> y == x || y in r
  {
    if r == [] then [x]
    else if x == r[0] then r
    else if LexLessEq(x, r[0]) then
      BelowHead(x, r);
      [x] + r
    else
      LexTotal(x, r[0]);
      var rest := InsertLabel(x, r[1..]);
      AboveHead(r, rest, x);
      [r[0]] + rest
  }

  /** `x` strictly below the head of an ascending list is below all of it. */
  lemma BelowHead(x: string, r: seq<string>)
    requires StrictlyAscending(r) && r != [] && x != r[0] && LexLessEq(x, r[0])
    ensures StrictlyAscending([x] + r)
  {
    var out := [x] + r;
    forall j | 0 < j < |out|
      ensures LexLessEq(x, out[j]) && x != out[j]
    {
      assert out[j] == r[j - 1];
      if j > 1 {
        LexTransitive(x, r[0], r[j - 1]);
        if x == r[j - 1] {
          LexAntisymmetric(r[0], r[j - 1]);
        }
      }
    }
  }

  /** The head of an ascending list goes in front of the insertion into its tail. */
  lemma AboveHead(r: seq<string>, rest: seq<string>, x: string)
    requires StrictlyAscending(r) && r != [] && x != r[0] && LexLessEq(r[0], x)
    requires StrictlyAscending(rest)
    requires forall y :: y in rest <==> y == x || y in r[1..]
    ensures StrictlyAscending([r[0]] + rest)
  {
    var out := [r[0]] + rest;
    forall j | 0 < j < |out|
      ensures LexLessEq(r[0], out[j]) && r[0] != out[j]
    {
      assert out[j] == rest[j - 1];
      assert out[j] in rest;
      if out[j] != x {
        var m :| 0 <= m < |r[1..]| && r[1..][m] == out[j];
        assert r[m + 1] == out[j];
      }
    }
  }

  /** `sorted(set(cwes))`: the distinct labels in ascending order. */
  function SortedDistinct(cwes: seq<string>): (r: seq<string>)
    ensures StrictlyAscending(r)
    ensures forall y :: y in r <==> y in cwes
  {
    if cwes == [] then []
    else InsertLabel(cwes[|cwes| - 1], SortedDistinct(cwes[..|cwes| - 1]))
  }

  /** Each label of the raw list appears exactly once in the de-duplicated list. */
  lemma SortedDistinctOnce(cwes: seq<string>, x: string)
    ensures Occurrences(SortedDistinct(cwes), x) == if x in cwes then 1 else 0
  {
    var r := SortedDistinct(cwes);
    DistinctCounts(r);
    MultisetCount(r, x);
  }

  /** `Occurrences` agrees with the multiset count. */
  lemma {:induction false} MultisetCount<T>(s: seq<T>, x: T)
    ensures Occurrences(s, x) == multiset(s)[x]
  {
    if s != [] {
      MultisetCount(s[..|s| - 1], x);
      assert s == s[..|s| - 1] + [s[|s| - 1]];
    }
  }

  /** `list(set(cwes))`: each label once (here in first-occurrence order; the set's own
      order does not survive the sort that follows). */
  function Dedupe(cwes: seq<string>): (r: seq<string>)
    ensures Distinct(r)
    ensures forall y :: y in r <==> y in cwes
  {
    if cwes == [] then []
    else
      var init, last := cwes[..|cwes| - 1], cwes[|cwes| - 1];
      var r := Dedupe(init);
      assert forall y :: y in cwes <==> y in init || y == last;
      if last in r then r else r + [last]
  }

  /** Two ascending lists with the same elements, counted with multiplicity, are equal. */
  lemma {:induction false} SortedUnique(r1: seq<string>, r2: seq<string>)
    requires Sorted(r1, LexLessEq) && Sorted(r2, LexLessEq)
    requires multiset(r1) == multiset(r2)
    ensures r1 == r2
  {
    if r1 == [] {
      assert |multiset(r2)| == 0;
    } else {
      assert r1[0] in multiset(r2);
      assert r2[0] in multiset(r1);
      SameHead(r1, r2);
      DropHead(r1);
      DropHead(r2);
      SortedUnique(r1[1..], r2[1..]);
    }
  }

  /** The tail of an ascending list is ascending and holds all but its head. */
  lemma DropHead(r: seq<string>)
    requires Sorted(r, LexLessEq) && r != []
    ensures Sorted(r[1..], LexLessEq)
    ensures multiset(r[1..]) == multiset(r) - multiset{r[0]}
    ensures r == [r[0]] + r[1..]
  {
    assert r == [r[0]] + r[1..];
    assert multiset(r) == multiset{r[0]} + multiset(r[1..]);
  }

  /** Ascending lists holding each other's heads start with the same element. */
  lemma SameHead(r1: seq<string>, r2: seq<string>)
    requires Sorted(r1, LexLessEq) && Sorted(r2, LexLessEq)
    requires r1 != [] && r2 != [] && r1[0] in r2 && r2[0] in r1
    ensures r1[0] == r2[0]
  {
    if r1[0] != r2[0] {
      var k :| 0 <= k < |r1| && r1[k] == r2[0];
      var m :| 0 <= m < |r2| && r2[m] == r1[0];
      assert LexLessEq(r1[0], r1[k]);
      assert LexLessEq(r2[0], r2[m]);
      LexAntisymmetric(r1[0], r2[0]);
    }
  }

  /** Lines 136-137: `tup_cwes = list(set(cwes)); tup_cwes.sort()`. */
  method SortedLabels(cwes: seq<string>) returns (tupCwes: seq<string>)
    ensures tupCwes == SortedDistinct(cwes)
  {
    var unique := Dedupe(cwes);
    var a := new string[|unique|](i requires 0 <= i < |unique| => unique[i]);
    assert a[..] == unique;
    LexIsTotalPreorder();
    SortInPlace(a, LexLessEq);
    tupCwes := a[..];
    var expected := SortedDistinct(cwes);
    DistinctCounts(unique);
    DistinctCounts(expected);
    assert multiset(expected) == multiset(unique);
    SortedUnique(tupCwes, expected);
  }

  /** The `cwes` column: the sorted distinct labels joined with ", ". */
  function CweColumn(cwes: seq<string>): string
  {
    Join(SortedDistinct(cwes), ", ")
  }

  /** The column holds one ", " per pair of neighbouring labels: as many commas as
      distinct labels less one, when labels hold no comma (CWE labels never do). */
  lemma CweColumnCommas(cwes: seq<string>)
    requires cwes != []
    requires forall i :: 0 <= i < |cwes| ==> ',' !in cwes[i]
    ensures Occurrences(CweColumn(cwes), ',') == |SortedDistinct(cwes)| - 1
  {
    var r := SortedDistinct(cwes);
    assert cwes[0] in r;
    forall i | 0 <= i < |r| ensures ',' !in r[i] {
      assert r[i] in cwes;
    }
    JoinSeparatorCount(r, ", ", ',');
    OneComma();
  }

  /** The separator `", "` holds one comma. */
  lemma OneComma()
    ensures Occurrences(", ", ',') == 1
  {
    assert ", "[..1] == ",";
    assert ","[..0] == "";
  }

  /** A commit whose findings carry CWE 79 twice and CWE 89 once has the `cwes`
      column "CWE-79, CWE-89". */
  lemma ColumnExample()
    ensures CweColumn(ReportLabels(ExampleReport)) == "CWE-79, CWE-89"
  {
    ExampleLabels();
    LabelColumnExample();
  }

  /** The column of the labels CWE-79, CWE-79, CWE-89. */
  lemma LabelColumnExample()
    ensures CweColumn(["CWE-79", "CWE-79", "CWE-89"]) == "CWE-79, CWE-89"
  {
    var a, b := "CWE-79", "CWE-89";
    assert LexLessEq(a, b) by {
      assert a[4] < b[4] && LexLessEq(a[4..], b[4..]);
      assert a[3..][1..] == a[4..] && b[3..][1..] == b[4..];
      assert a[2..][1..] == a[3..] && b[2..][1..] == b[3..];
      assert a[1..][1..] == a[2..] && b[1..][1..] == b[2..];
    }
    assert !LexLessEq(b, a) by {
      assert !LexLessEq(b[4..], a[4..]);
      assert a[3..][1..] == a[4..] && b[3..][1..] == b[4..];
      assert a[2..][1..] == a[3..] && b[2..][1..] == b[3..];
      assert a[1..][1..] == a[2..] && b[1..][1..] == b[2..];
    }
    assert SortedDistinct([a]) == [a];
    assert SortedDistinct([a, a]) == [a] by {
      assert [a, a][..1] == [a];
    }
    assert [a, a, b][..2] == [a, a];
    assert [a][1..] == [];
    assert InsertLabel(b, []) == [b];
    assert InsertLabel(b, [a]) == [a] + InsertLabel(b, [a][1..]);
    assert SortedDistinct([a, a, b]) == InsertLabel(b, SortedDistinct([a, a]));
    assert Join([a, b], ", ") == a + ", " + b;
  }

  /** The row built from one parse result (lines 138-158). */
  function RowOf(p: ParsedReport): Row
  {
    Row(p.data.repository, p.seqNum, p.commit,
        p.data.highConf, p.data.medConf, p.data.lowConf,
        p.data.highSev, p.data.medSev, p.data.lowSev,
        CweColumn(p.data.cwes))
  }

  /** Lines 133-159: one row per parse result, in order. */
  method BuildRows(commitData: seq<ParsedReport>) returns (rows: seq<Row>)
    ensures |rows| == |commitData|
    ensures forall i :: 0 <= i < |rows| ==>
      && rows[i].repository == commitData[i].data.repository
      && rows[i].seqNum == commitData[i].seqNum
      && rows[i].commit == commitData[i].commit
      && rows[i].highConf == commitData[i].data.highConf
      && rows[i].medConf == commitData[i].data.medConf
      && rows[i].lowConf == commitData[i].data.lowConf
      && rows[i].highSev == commitData[i].data.highSev
      && rows[i].medSev == commitData[i].data.medSev
      && rows[i].lowSev == commitData[i].data.lowSev
      && rows[i].cwes == Join(SortedDistinct(commitData[i].data.cwes), ", ")
  {
    rows := [];
    var k := 0;
    while k < |commitData|
      invariant 0 <= k <= |commitData|
      invariant |rows| == k
      invariant forall i :: 0 <= i < k ==> rows[i] == RowOf(commitData[i])
    {
      var p := commitData[k];
      var tupCwes := SortedLabels(p.data.cwes);
      var row := RowOf(p).(cwes := Join(tupCwes, ", "));
      rows := rows + [row];
      k := k + 1;
    }
  }

  // ---------------------------------------------------------------- chart order

  /** The key order `sort_values(by="seq")` uses here: ascending `seq`, missing last. */
  predicate SeqLessEq(a: Row, b: Row)
  {
    match (a.seqNum, b.seqNum)
    case (Some(x), Some(y)) => x <= y
    case (_, None) => true
    case (None, Some(_)) => false
  }

  lemma SeqOrderIsTotalPreorder()
    ensures TotalPreorder(SeqLessEq)
  {
  }

  /** Rows that both have a sequence number appear in ascending sequence order. */
  ghost predicate OrderedBySeq(rows: seq<Row>)
  {
    forall i, j :: 0 <= i < j < |rows| && rows[i].seqNum.Some? && rows[j].seqNum.Some? ==>
      rows[i].seqNum.value <= rows[j].seqNum.value
  }

  // ---------------------------------------------------------------- repository-wide labels

  /** All raw (not de-duplicated) label lists of the commits, concatenated in order. */
  function RepoCwes(commitData: seq<ParsedReport>): seq<string>
  {
    if commitData == [] then []
    else RepoCwes(commitData[..|commitData| - 1]) + commitData[|commitData| - 1].data.cwes
  }

  /** Each commit adds its own raw label counts to the repository's. */
  lemma RepoCwesAddsCommit(commitData: seq<ParsedReport>, p: ParsedReport, x: string)
    ensures Occurrences(RepoCwes(commitData + [p]), x) == Occurrences(RepoCwes(commitData), x) + Occurrences(p.data.cwes, x)
  {
    assert (commitData + [p])[..|commitData|] == commitData;
    OccurrencesConcat(RepoCwes(commitData), p.data.cwes, x);
  }

  /** Adding the example commit raises the repository's count of CWE-79 by 2 and of
      CWE-89 by 1. */
  lemma FrequencyExample(commitData: seq<ParsedReport>, p: ParsedReport)
    requires p.data.cwes == ReportLabels(ExampleReport)
    ensures Occurrences(RepoCwes(commitData + [p]), "CWE-79") == Occurrences(RepoCwes(commitData), "CWE-79") + 2
    ensures Occurrences(RepoCwes(commitData + [p]), "CWE-89") == Occurrences(RepoCwes(commitData), "CWE-89") + 1
  {
    ExampleLabels();
    RepoCwesAddsCommit(commitData, p, "CWE-79");
    RepoCwesAddsCommit(commitData, p, "CWE-89");
    var l := p.data.cwes;
    assert l[..2][..1] == l[..1] && l[..1][..0] == [];
    assert l[0] != "CWE-89" by { assert l[0][4] != "CWE-89"[4]; }
    assert l[2] != "CWE-79" by { assert l[2][4] != "CWE-79"[4]; }
  }

  /** Lines 237-240: `repo_cwes.extend(data["cwes"])` for every commit. */
  method ConcatCwes(commitData: seq<ParsedReport>) returns (repoCwes: seq<string>)
    ensures repoCwes == RepoCwes(commitData)
  {
    repoCwes := [];
    var k := 0;
    while k < |commitData|
      invariant 0 <= k <= |commitData|
      invariant repoCwes == RepoCwes(commitData[..k])
    {
      assert commitData[..k + 1][..k] == commitData[..k];
      repoCwes := repoCwes + commitData[k].data.cwes;
      k := k + 1;
    }
    assert commitData[..k] == commitData;
  }

  /** Line 169: `df.sort_values(by="seq", inplace=True)`, on an array of the rows. */
  method SortBySeq(rows: seq<Row>) returns (chartOrder: seq<Row>)
    ensures multiset(chartOrder) == multiset(rows)
    ensures OrderedBySeq(chartOrder)
  {
    var df := new Row[|rows|](i requires 0 <= i < |rows| => rows[i]);
    assert df[..] == rows;
    SeqOrderIsTotalPreorder();
    SortInPlace(df, SeqLessEq);
    chartOrder := df[..];
    forall i, j | 0 <= i < j < |chartOrder| && chartOrder[i].seqNum.Some? && chartOrder[j].seqNum.Some?
      ensures chartOrder[i].seqNum.value <= chartOrder[j].seqNum.value
    {
      assert SeqLessEq(chartOrder[i], chartOrder[j]);
    }
  }

  // ---------------------------------------------------------------- one repository

  /** The body of `main`'s loop for one repository whose reports directory exists. */
  method ProcessRepository(repositoryName: string, reportFiles: seq<ReportFile>) returns (outcome: RepoOutcome)
    ensures var commitData := Present(ParseAll(repositoryName, reportFiles));
      && (outcome.NoCommitData? <==> commitData == [])
      && (outcome.Processed? ==>
        && |outcome.table| == |commitData|
        && (forall i :: 0 <= i < |commitData| ==> outcome.table[i] == RowOf(commitData[i]))
        && multiset(outcome.chartOrder) == multiset(outcome.table)
        && OrderedBySeq(outcome.chartOrder)
        && IsFrequencyTable(outcome.frequencies, RepoCwes(commitData)))
  {
    var commitData := CollectCommitData(repositoryName, reportFiles);
    if commitData == [] {
      return NoCommitData;
    }
    var rows := BuildRows(commitData);
    var chartOrder := SortBySeq(rows);
    var repoCwes := ConcatCwes(commitData);
    var frequencies := Frequencies(repoCwes);
    outcome := Processed(rows, chartOrder, frequencies);
  }
}
