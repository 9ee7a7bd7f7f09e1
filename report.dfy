/** `parse_bandit_report`: decodes a report's file name into a sequence number and a
    commit id, and reduces one decoded Bandit report to its CWE labels and its
    confidence and severity statistics. */
module BanditReport {
  import opened Wrappers
  import opened Seqs
  import opened Text

  // ---------------------------------------------------------------- the decoded report

  /** A finding's `issue_cwe` object; `id` is `None` when it has no "id" key (an empty
      object included). */
  datatype CweInfo = CweInfo(id: Option<int>)

  /** One entry of `results`; `issueCwe` is `None` when the key is missing or null. */
  datatype Finding = Finding(issueCwe: Option<CweInfo>)

  /** One entry of `metrics`: a file path and its named integer counters. */
  datatype FileMetrics = FileMetrics(path: string, counters: map<string, int>)

  /** A decoded report. `results` is `None` when the key is absent. `metrics` holds the
      entries in document order and is empty when the key is absent. */
  datatype Report = Report(results: Option<seq<Finding>>, metrics: seq<FileMetrics>)

  // ---------------------------------------------------------------- the parsed record

  /** Sum, minimum, maximum and mean of one severity counter over the metrics entries. */
  datatype SeverityStats = SeverityStats(sum: int, min: int, max: int, avg: real)

  /** The `data` dictionary of one commit. `cwes` keeps duplicates and input order. */
  datatype CommitData = CommitData(
    repository: string,
    highConf: int, medConf: int, lowConf: int,
    highSev: SeverityStats, medSev: SeverityStats, lowSev: SeverityStats,
    cwes: seq<string>)

  /** The `(seq_num, commit_hash, data)` triple. */
  datatype ParsedReport = ParsedReport(seqNum: Option<int>, commit: string, data: CommitData)

  const ConfidenceHigh: string := "CONFIDENCE.HIGH"
  const ConfidenceMedium: string := "CONFIDENCE.MEDIUM"
  const ConfidenceLow: string := "CONFIDENCE.LOW"
  const SeverityHigh: string := "SEVERITY.HIGH"
  const SeverityMedium: string := "SEVERITY.MEDIUM"
  const SeverityLow: string := "SEVERITY.LOW"

  // ---------------------------------------------------------------- file name

  /** Sequence number (token 2 read as an integer, `None` when it is not one) and commit
      id (token 3 cut at its first `.`) of a `_`-separated base name; `None` when the
      name has fewer than three tokens. */
  function DecodeFilename(basename: string): (r: Option<(Option<int>, string)>)
    ensures r.None? <==> Occurrences(basename, '_') < 2
    ensures r.Some? ==> var parts := Split(basename, '_');
      && |parts| >= 3
      && r.value.0 == ParseInt(parts[1])
      && '.' !in r.value.1 && '_' !in r.value.1 && r.value.1 <= parts[2]
      && (r.value.1 == parts[2] || parts[2][|r.value.1|] == '.')
  {
    var parts := Split(basename, '_');
    SplitPieces(basename, '_');
    if |parts| < 3 then None
    else Some((ParseInt(parts[1]), BeforeFirst(parts[2], '.')))
  }

  /** A name that follows `<tag>_<seq>_<commit>.<ext>` decodes to its seq and commit. */
  lemma FilenameConvention(tag: string, seqNum: int, commit: string, ext: string)
    requires '_' !in tag && '_' !in commit && '.' !in commit && '_' !in ext
    ensures DecodeFilename(tag + "_" + IntToString(seqNum) + "_" + commit + "." + ext)
         == Some((Some(seqNum), commit))
  {
    var digits := IntToString(seqNum);
    var last := commit + "." + ext;
    var parts := [tag, digits, last];
    assert '_' !in digits;
    assert '_' !in last;
    assert parts[1..] == [digits, last] && parts[1..][1..] == [last];
    assert Join([last], "_") == last;
    assert Join([digits, last], "_") == digits + "_" + last;
    assert Join(parts, "_") == tag + "_" + (digits + "_" + last);
    assert tag + "_" + (digits + "_" + last) == tag + "_" + digits + "_" + commit + "." + ext;
    SplitJoin(parts, '_');
    SplitPieces(Join(parts, "_"), '_');
    CutAtFirstDot(commit, ext);
  }

  lemma CutAtFirstDot(commit: string, ext: string)
    requires '.' !in commit
    ensures BeforeFirst(commit + "." + ext, '.') == commit
  {
    var last := commit + "." + ext;
    var cut := BeforeFirst(last, '.');
    assert last[|commit|] == '.';
    assert |cut| == |commit|;
    assert cut == last[..|commit|];
    assert last[..|commit|] == commit;
  }

  // ---------------------------------------------------------------- CWE labels

  /** `f"CWE-{id}"`. */
  function CweLabel(id: int): (tag: string)
    ensures |tag| > 4 && tag[..4] == "CWE-" && ParseInt(tag[4..]) == Some(id)
    ensures ',' !in tag
    ensures id >= 0 ==> tag == "CWE-0" || tag[4] != '0'
    ensures id < 0 ==> |tag| > 5 && tag[4] == '-' && tag[5] != '0'
    ensures id >= 0 ==> AllDigits(tag[4..])
    ensures id < 0 ==> AllDigits(tag[5..])
  {
    var digits := IntToString(id);
    assert ("CWE-" + digits)[4..] == digits;
    "CWE-" + digits
  }

  lemma CweLabelInjective(i: int, j: int)
    requires CweLabel(i) == CweLabel(j)
    ensures i == j
  {
    assert CweLabel(i)[4..] == CweLabel(j)[4..];
  }

  /** The CWE id a finding carries: its `issue_cwe` is present, non-empty and has "id". */
  function CweId(f: Finding): Option<int>
  {
    if f.issueCwe.Some? then f.issueCwe.value.id else None
  }

  /** The labels of `findings`: one per finding with a CWE id, in input order. */
  function CweLabels(findings: seq<Finding>): (labels: seq<string>)
    ensures |labels| <= |findings|
  {
    if findings == [] then []
    else
      var last := findings[|findings| - 1];
      CweLabels(findings[..|findings| - 1]) + (if CweId(last).Some? then [CweLabel(CweId(last).value)] else [])
  }

  /** The labels of a concatenation are the concatenation of the labels. */
  lemma {:induction false} CweLabelsConcat(a: seq<Finding>, b: seq<Finding>)
    ensures CweLabels(a + b) == CweLabels(a) + CweLabels(b)
    decreases |b|
  {
    if b == [] {
      assert a + b == a;
    } else {
      assert (a + b)[..|a + b| - 1] == a + b[..|b| - 1];
      CweLabelsConcat(a, b[..|b| - 1]);
    }
  }

  /** A finding adds `CWE-<id>` when it carries an id and no label otherwise. */
  lemma CweLabelsSingle(f: Finding)
    ensures CweLabels([f]) == if CweId(f).Some? then [CweLabel(CweId(f).value)] else []
  {
    assert [f][..0] == [];
  }

  /** The ids of the findings, `None` for a finding without one. */
  function CweIds(findings: seq<Finding>): (ids: seq<Option<int>>)
    ensures |ids| == |findings| && forall i :: 0 <= i < |findings| ==> ids[i] == CweId(findings[i])
  {
    seq(|findings|, i requires 0 <= i < |findings| => CweId(findings[i]))
  }

  /** `CWE-<id>` occurs among the labels once per finding whose id is `id`. */
  lemma {:induction false} CweLabelCount(findings: seq<Finding>, id: int)
    ensures Occurrences(CweLabels(findings), CweLabel(id)) == Occurrences(CweIds(findings), Some(id))
  {
    if findings != [] {
      var n := |findings|;
      var init, last := findings[..n - 1], findings[n - 1];
      CweLabelCount(init, id);
      var ids := CweIds(findings);
      assert ids[..n - 1] == CweIds(init);
      assert Occurrences(ids, Some(id)) == Occurrences(CweIds(init), Some(id)) + (if CweId(last) == Some(id) then 1 else 0);
      var tail := if CweId(last).Some? then [CweLabel(CweId(last).value)] else [];
      assert CweLabels(findings) == CweLabels(init) + tail;
      OccurrencesConcat(CweLabels(init), tail, CweLabel(id));
      LabelTailCount(CweId(last), id);
    }
  }

  /** The one label a finding adds is `CWE-<id>` exactly when its id is `id`. */
  lemma LabelTailCount(found: Option<int>, id: int)
    ensures Occurrences(if found.Some? then [CweLabel(found.value)] else [], CweLabel(id))
         == if found == Some(id) then 1 else 0
  {
    if found.Some? {
      var one := [CweLabel(found.value)];
      assert one[..0] == [];
      if CweLabel(found.value) == CweLabel(id) {
        CweLabelInjective(found.value, id);
      }
    }
  }

  /** The report's label list: empty when `results` is absent. */
  function ReportLabels(report: Report): seq<string>
  {
    if report.results.Some? then CweLabels(report.results.value) else []
  }

  /** A report whose findings carry CWE 79, CWE 79 and CWE 89, with no metrics. */
  const ExampleReport: Report :=
    Report(Some([Finding(Some(CweInfo(Some(79)))), Finding(Some(CweInfo(Some(79)))), Finding(Some(CweInfo(Some(89))))]), [])

  /** The example report's labels, rendered by `f"CWE-{id}"`. */
  lemma ExampleLabels()
    ensures ReportLabels(ExampleReport) == ["CWE-79", "CWE-79", "CWE-89"]
  {
    assert NatToDigits(79) == NatToDigits(7) + [DigitChar(9)];
    assert NatToDigits(89) == NatToDigits(8) + [DigitChar(9)];
    assert CweLabel(79) == "CWE-79";
    assert CweLabel(89) == "CWE-89";
    var fs := ExampleReport.results.value;
    assert fs[..2][..1] == fs[..1] && fs[..1][..0] == [];
    assert CweLabels(fs[..1]) == ["CWE-79"];
    assert CweLabels(fs[..2]) == ["CWE-79", "CWE-79"];
  }

  /** The loop of lines 29-36, appending one label per finding that has an id. */
  method ExtractCwes(report: Report) returns (cweList: seq<string>)
    ensures cweList == ReportLabels(report)
    ensures report.results.None? ==> cweList == []
  {
    cweList := [];
    if report.results.Some? {
      var findings := report.results.value;
      var i := 0;
      while i < |findings|
        invariant 0 <= i <= |findings|
        invariant cweList == CweLabels(findings[..i])
      {
        var info := findings[i].issueCwe;
        if info.Some? && info.value.id.Some? {
          cweList := cweList + [CweLabel(info.value.id.value)];
        }
        assert findings[..i + 1][..i] == findings[..i];
        i := i + 1;
      }
      assert findings[..i] == findings;
    }
  }

  // ---------------------------------------------------------------- counter reductions

  /** `file_metrics.get(key, 0)`. */
  function Counter(m: FileMetrics, key: string): int
  {
    if key in m.counters then m.counters[key] else 0
  }

  /** `[file_metrics.get(key, 0) for file_metrics in metrics.values()]`. */
  function Column(metrics: seq<FileMetrics>, key: string): (vs: seq<int>)
    ensures |vs| == |metrics|
    ensures forall i :: 0 <= i < |metrics| ==> vs[i] == Counter(metrics[i], key)
  {
    seq(|metrics|, i requires 0 <= i < |metrics| => Counter(metrics[i], key))
  }

  /** The column of a concatenation of entries is the concatenation of the columns. */
  lemma ColumnConcat(a: seq<FileMetrics>, b: seq<FileMetrics>, key: string)
    ensures Column(a + b, key) == Column(a, key) + Column(b, key)
  {
  }

  /** One entry's column is its counter, 0 when the key is missing. */
  lemma ColumnSingle(m: FileMetrics, key: string)
    ensures Column([m], key) == [if key in m.counters then m.counters[key] else 0]
  {
  }

  /** Python's `sum` over a list of integers. */
  function Sum(vs: seq<int>): int
  {
    if vs == [] then 0 else Sum(vs[..|vs| - 1]) + vs[|vs| - 1]
  }

  lemma {:induction false} SumConcat(a: seq<int>, b: seq<int>)
    ensures Sum(a + b) == Sum(a) + Sum(b)
    decreases |b|
  {
    if b == [] {
      assert a + b == a;
    } else {
      assert (a + b)[..|a + b| - 1] == a + b[..|b| - 1];
      SumConcat(a, b[..|b| - 1]);
    }
  }

  /** Values between `lo` and `hi` sum to between `lo * n` and `hi * n`. */
  lemma {:induction false} SumBounds(vs: seq<int>, lo: int, hi: int)
    requires forall i :: 0 <= i < |vs| ==> lo <= vs[i] <= hi
    ensures lo * |vs| <= Sum(vs) <= hi * |vs|
  {
    if vs != [] {
      SumBounds(vs[..|vs| - 1], lo, hi);
      assert lo * |vs| == lo * (|vs| - 1) + lo;
      assert hi * |vs| == hi * (|vs| - 1) + hi;
    }
  }

  /** Python's `min` over a non-empty list. */
  function Min(vs: seq<int>): (m: int)
    requires vs != []
    ensures m in vs
    ensures forall i :: 0 <= i < |vs| ==> m <= vs[i]
  {
    if |vs| == 1 then vs[0]
    else
      var m := Min(vs[..|vs| - 1]);
      if vs[|vs| - 1] < m then vs[|vs| - 1] else m
  }

  /** Python's `max` over a non-empty list. */
  function Max(vs: seq<int>): (m: int)
    requires vs != []
    ensures m in vs
    ensures forall i :: 0 <= i < |vs| ==> vs[i] <= m
  {
    if |vs| == 1 then vs[0]
    else
      var m := Max(vs[..|vs| - 1]);
      if vs[|vs| - 1] > m then vs[|vs| - 1] else m
  }

  /** Sum, and min, max and mean falling back to 0 for an empty list (lines 50-64).
      The mean is the exact quotient. */
  function Stats(vs: seq<int>): (s: SeverityStats)
    ensures s.sum == Sum(vs)
    ensures vs == [] ==> s == SeverityStats(0, 0, 0, 0.0)
    ensures vs != [] ==> s.min in vs && s.max in vs
    ensures vs != [] ==> forall i :: 0 <= i < |vs| ==> s.min <= vs[i] <= s.max
    ensures vs != [] ==> s.min * |vs| <= s.sum <= s.max * |vs|
    ensures vs != [] ==> s.avg * (|vs| as real) == s.sum as real
  {
    if vs == [] then SeverityStats(0, 0, 0, 0.0)
    else
      var lo, hi, total := Min(vs), Max(vs), Sum(vs);
      SumBounds(vs, lo, hi);
      SeverityStats(total, lo, hi, Mean(total, |vs|))
  }

  /** `total / n` as an exact quotient. */
  function Mean(total: int, n: nat): (avg: real)
    requires n > 0
    ensures avg * (n as real) == total as real
  {
    total as real / n as real
  }

  /** The mean lies between the minimum and the maximum. */
  lemma StatsMeanBounds(vs: seq<int>)
    requires vs != []
    ensures Stats(vs).min as real <= Stats(vs).avg <= Stats(vs).max as real
  {
    var s := Stats(vs);
    MeanBounds(s.sum, s.min, s.max, |vs|);
  }

  /** The exact mean of `n` values summing to `total` lies between their bounds. */
  lemma MeanBounds(total: int, lo: int, hi: int, n: nat)
    requires n > 0 && lo * n <= total <= hi * n
    ensures lo as real <= Mean(total, n) <= hi as real
  {
    assert (lo * n) as real == (lo as real) * (n as real);
    assert (hi * n) as real == (hi as real) * (n as real);
  }

  /** A single value is its own sum, minimum, maximum and mean. */
  lemma SingleValueStats(v: int)
    ensures Stats([v]) == SeverityStats(v, v, v, v as real)
  {
  }

  /** A confidence total: the counter summed over every metrics entry, 0 where missing. */
  function Total(metrics: seq<FileMetrics>, key: string): (t: int)
    ensures metrics == [] ==> t == 0
  {
    Sum(Column(metrics, key))
  }

  /** Totals add up over the entries. */
  lemma TotalConcat(a: seq<FileMetrics>, b: seq<FileMetrics>, key: string)
    ensures Total(a + b, key) == Total(a, key) + Total(b, key)
  {
    ColumnConcat(a, b, key);
    SumConcat(Column(a, key), Column(b, key));
  }

  lemma TotalSingle(m: FileMetrics, key: string)
    ensures Total([m], key) == Counter(m, key)
  {
    assert Column([m], key) == [Counter(m, key)];
    assert [Counter(m, key)][..0] == [];
    assert Sum([Counter(m, key)]) == Sum([]) + Counter(m, key);
  }

  /** The `data` dictionary built from a decoded report. */
  function Summarize(repositoryName: string, report: Report): (d: CommitData)
    ensures d.repository == repositoryName && d.cwes == ReportLabels(report)
    ensures report.metrics == [] ==>
      && d.highConf == 0 && d.medConf == 0 && d.lowConf == 0
      && d.highSev == SeverityStats(0, 0, 0, 0.0)
      && d.medSev == SeverityStats(0, 0, 0, 0.0)
      && d.lowSev == SeverityStats(0, 0, 0, 0.0)
    ensures d.highConf == Total(report.metrics, ConfidenceHigh)
    ensures d.medConf == Total(report.metrics, ConfidenceMedium)
    ensures d.lowConf == Total(report.metrics, ConfidenceLow)
    ensures d.highSev == Stats(Column(report.metrics, SeverityHigh))
    ensures d.medSev == Stats(Column(report.metrics, SeverityMedium))
    ensures d.lowSev == Stats(Column(report.metrics, SeverityLow))
  {
    var m := report.metrics;
    CommitData(
      repositoryName,
      Total(m, ConfidenceHigh), Total(m, ConfidenceMedium), Total(m, ConfidenceLow),
      Stats(Column(m, SeverityHigh)), Stats(Column(m, SeverityMedium)), Stats(Column(m, SeverityLow)),
      ReportLabels(report))
  }

  /** With one metrics entry, each severity's sum, min, max and mean are that entry's
      counter, and each confidence total is that entry's counter. */
  lemma SingleEntryReport(repositoryName: string, report: Report)
    requires |report.metrics| == 1
    ensures var d, m := Summarize(repositoryName, report), report.metrics[0];
      && d.highConf == Counter(m, ConfidenceHigh)
      && d.medConf == Counter(m, ConfidenceMedium)
      && d.lowConf == Counter(m, ConfidenceLow)
      && d.highSev == SeverityStats(Counter(m, SeverityHigh), Counter(m, SeverityHigh), Counter(m, SeverityHigh), Counter(m, SeverityHigh) as real)
      && d.medSev == SeverityStats(Counter(m, SeverityMedium), Counter(m, SeverityMedium), Counter(m, SeverityMedium), Counter(m, SeverityMedium) as real)
      && d.lowSev == SeverityStats(Counter(m, SeverityLow), Counter(m, SeverityLow), Counter(m, SeverityLow), Counter(m, SeverityLow) as real)
  {
    var m := report.metrics;
    assert m == [m[0]];
    TotalSingle(m[0], ConfidenceHigh);
    TotalSingle(m[0], ConfidenceMedium);
    TotalSingle(m[0], ConfidenceLow);
    assert Column(m, SeverityHigh) == [Counter(m[0], SeverityHigh)];
    assert Column(m, SeverityMedium) == [Counter(m[0], SeverityMedium)];
    assert Column(m, SeverityLow) == [Counter(m[0], SeverityLow)];
    SingleValueStats(Counter(m[0], SeverityHigh));
    SingleValueStats(Counter(m[0], SeverityMedium));
    SingleValueStats(Counter(m[0], SeverityLow));
  }

  // ---------------------------------------------------------------- the whole parse

  /** What `parse_bandit_report(filepath, repository_name)` returns, given the file's
      decoded content (`None` when it is not valid JSON). */
  function ParseReport(filepath: string, repositoryName: string, content: Option<Report>): (r: Option<ParsedReport>)
    ensures r.None? <==> (Occurrences(Basename(filepath), '_') < 2 || content.None?)
    ensures r.Some? ==> DecodeFilename(Basename(filepath)) == Some((r.value.seqNum, r.value.commit))
    ensures r.Some? ==> r.value.data == Summarize(repositoryName, content.value)
  {
    match DecodeFilename(Basename(filepath))
    case None => None
    case Some((seqNum, commit)) =>
      if content.None? then None
      else Some(ParsedReport(seqNum, commit, Summarize(repositoryName, content.value)))
  }

  /** `parse_bandit_report`, step by step as the source runs it. */
  method ParseBanditReport(filepath: string, repositoryName: string, content: Option<Report>)
    returns (result: Option<ParsedReport>)
    ensures result == ParseReport(filepath, repositoryName, content)
  {
    var decoded := DecodeFilename(Basename(filepath));
    if decoded.None? {
      return None;
    }
    var (seqNum, commit) := decoded.value;
    if content.None? {
      return None;
    }
    var report := content.value;
    var cweList := ExtractCwes(report);
    var data := Summarize(repositoryName, report).(cwes := cweList);
    result := Some(ParsedReport(seqNum, commit, data));
  }
}
