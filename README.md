# Bandit report aggregation, modelled in Dafny

This project models `lab_07-08/analysis.py`. The script runs over a set of Python
repositories. For each one it reads the Bandit security reports, one JSON report per
commit, named `bandit_<seq>_<commit>.json`, and reduces each report to the commit's data:

- the report's CWE labels;
- confidence totals;
- per-severity sum, minimum, maximum and mean.

It then collects the per-commit records of a repository, builds one table row per commit
whose `cwes` column is the sorted, duplicate-free, `", "`-joined label list, orders the
rows by sequence number for the trend charts, and ranks the repository's CWE labels by
frequency.

Modules:

- `Wrappers`: `Option`.
- `Seqs`:
  - occurrence counts and first indices;
  - distinctness and sortedness;
  - an in-place insertion sort over an `array`, proved sorted and a permutation.
- `Text`:
  - Python's `str.split` on one character and its inverse `join`;
  - `os.path.basename`;
  - `int()` on a signed decimal token and `f"{n}"`;
  - Python's `str` ordering, proved a total preorder.
- `BanditReport`: `parse_bandit_report`, in these parts:
  - filename decoding;
  - the CWE extraction loop;
  - the counter reductions;
  - the whole parse, as a function `ParseReport` and as the method `ParseBanditReport`
    proved equal to it.
- `Frequency`: `collections.Counter` over the label list, built as a loop, then
  `sorted(..., key=count, reverse=True)`.
- `Aggregation`: the per-repository body of `main`:
  - dropping `None` results;
  - building rows, with the `tup_cwes` sort done in place;
  - `sort_values(by="seq")` done in place on an array of rows;
  - concatenating the raw label lists;
  - the frequency table.

The loops of the source are methods with loop invariants. Each method is proved equal
to a specification function, or to satisfy a specification predicate, and the
properties are proved about those.

## Model

| member | source | states |
|---|---|---|
| Text.Split | lab_07-08/analysis.py:12 | `str.split(sep)` always gives at least one piece |
| Text.SplitPieces | lab_07-08/analysis.py:12-13 | the number of pieces is the number of separators plus one, and no piece holds the separator |
| Text.JoinSplit | lab_07-08/analysis.py:12 | joining the pieces with the separator gives back the original string |
| Text.SplitJoin | lab_07-08/analysis.py:12 | splitting a join of separator-free pieces gives back the pieces |
| Text.SplitConcat | lab_07-08/analysis.py:12 | splitting `a + sep + b` gives the pieces of `a` followed by the pieces of `b` |
| Text.SplitWithoutSeparator | lab_07-08/analysis.py:19 | a string without the separator splits into itself alone |
| Text.JoinSeparatorCount | lab_07-08/analysis.py:157 | a join of n pieces that lack a character holds that character n-1 times the separator's count |
| Text.Join | lab_07-08/analysis.py:157 | `sep.join(parts)`; characterised by Text.JoinSplit, Text.SplitJoin and Text.JoinSeparatorCount |
| Text.BeforeFirst | lab_07-08/analysis.py:19 | the result is a prefix free of the separator, and it ends at the end of the string or at the first separator |
| Text.BeforeFirstIsFirstPiece | lab_07-08/analysis.py:19 | `s.split(sep)[0]` is the prefix before the first separator |
| Text.Basename | lab_07-08/analysis.py:11 | the base name holds no `/` |
| Text.BasenameOfChild | lab_07-08/analysis.py:11 | the base name of `dir/name` is `name` |
| Text.ParseInt | lab_07-08/analysis.py:15-18 | a token yields a value exactly when it is an optional sign followed by digits, otherwise the `ValueError` case; an unsigned token gives a non-negative value and a `-` token a non-positive one |
| Text.LeadingZeroValue | lab_07-08/analysis.py:16 | a leading `0` does not change the value of a run of digits |
| Text.ParseIntLeadingZero | lab_07-08/analysis.py:16 | `int("0" + t) == int(t)`, the value of the digits `t`: zero-padded tokens are read by value |
| Text.ParseIntSigned | lab_07-08/analysis.py:16 | `int("+" + t)` is the value of the digits `t` and `int("-" + t)` its negation |
| Text.ParseIntExample | lab_07-08/analysis.py:16 | the token `007` reads as 7 |
| Text.IntToString | lab_07-08/analysis.py:34 | the decimal form of `n` parses back to `n` and is canonical: `"0"` or no leading zero, and a `-` followed by digits without a leading zero for negatives |
| Text.DigitsRoundTrip | lab_07-08/analysis.py:34 | the value of the decimal digits of `n` is `n` |
| Text.NatToDigits | lab_07-08/analysis.py:34 | the shortest decimal digits of `n`: `"0"` exactly for 0, otherwise no leading zero |
| Text.LexTotal | lab_07-08/analysis.py:137 | any two strings are comparable under Python's `str` order |
| Text.LexAntisymmetric | lab_07-08/analysis.py:137 | strings that are each below the other are equal |
| Text.LexTransitive | lab_07-08/analysis.py:137 | the `str` order is transitive |
| Text.LexIsTotalPreorder | lab_07-08/analysis.py:137 | the `str` order is a total preorder, so `list.sort` can sort by it |
| Text.LexLessEq | lab_07-08/analysis.py:137 | Python `str` `<=`, code point by code point with a prefix first; characterised by Text.LexIsTotalPreorder |
| Seqs.Occurrences | lab_07-08/analysis.py:243 | a count is positive exactly when the element is present, and it is at most the length |
| Seqs.OccurrencesConcat | lab_07-08/analysis.py:240 | counts add up over a concatenation |
| Seqs.FirstIndex | lab_07-08/analysis.py:243 | the first position holding an element, with no earlier occurrence |
| Seqs.DistinctCounts | lab_07-08/analysis.py:136 | in a duplicate-free list every element occurs once |
| Seqs.SortInPlace | lab_07-08/analysis.py:137 | an in-place sort by a total preorder leaves the array sorted and a permutation of its old contents |
| Seqs.InsertInto | lab_07-08/analysis.py:137 | one insertion step extends the sorted prefix by one element, leaves the rest of the array as it was, and permutes the array |
| Seqs.SwapDown | lab_07-08/analysis.py:137 | two neighbours are exchanged and nothing else changes |
| BanditReport.DecodeFilename | lab_07-08/analysis.py:11-19 | the name is rejected exactly when it has fewer than three `_` tokens; otherwise the sequence number is `int` of token 2 (`None` when not numeric) and the commit is the `.`-free prefix of token 3, ending at its first `.` |
| BanditReport.FilenameConvention | lab_07-08/analysis.py:11-19 | a name `<tag>_<seq>_<commit>.<ext>` decodes to exactly `seq` and `commit` |
| BanditReport.CutAtFirstDot | lab_07-08/analysis.py:19 | `commit.ext` cut at its first `.` is `commit` |
| BanditReport.CweLabel | lab_07-08/analysis.py:34 | the label is `CWE-` followed by the canonical numeral of the id, which parses back to the id: only digits with no leading zero for a non-negative id, and `-` then digits with no leading zero for a negative one; it holds no comma |
| BanditReport.CweLabelInjective | lab_07-08/analysis.py:34 | different ids give different labels |
| BanditReport.CweLabels | lab_07-08/analysis.py:31-34 | there are no more labels than findings |
| BanditReport.CweLabelsConcat | lab_07-08/analysis.py:31-34 | labels are produced in input order: the labels of a concatenation are the concatenated labels |
| BanditReport.CweLabelsSingle | lab_07-08/analysis.py:32-34 | a finding with an id adds exactly `CWE-<id>`, and a finding without one adds nothing; with CweLabelsConcat this fixes the whole label list |
| BanditReport.CweIds | lab_07-08/analysis.py:32-33 | the ids the findings carry, one per finding; what they mean for the labels is stated by BanditReport.CweLabelCount |
| BanditReport.CweLabelCount | lab_07-08/analysis.py:31-34 | `CWE-<id>` appears once per finding whose id is `id`, and for no other finding |
| BanditReport.CweId | lab_07-08/analysis.py:32-33 | the id of a finding whose `issue_cwe` is present, non-empty and has `id`; its effect on the labels is stated by BanditReport.CweLabelCount |
| BanditReport.ReportLabels | lab_07-08/analysis.py:30-36 | the label list, empty when `results` is absent; computed by BanditReport.ExtractCwes and counted by BanditReport.CweLabelCount |
| BanditReport.ExtractCwes | lab_07-08/analysis.py:29-36 | the loop computes the report's label list, and an absent `results` gives the empty list |
| BanditReport.ExampleLabels | lab_07-08/analysis.py:31-34 | findings with CWE ids 79, 79 and 89 give the labels `CWE-79`, `CWE-79`, `CWE-89` |
| BanditReport.Column | lab_07-08/analysis.py:46-48 | the per-entry counter list; characterised by BanditReport.ColumnConcat and BanditReport.ColumnSingle |
| BanditReport.ColumnConcat | lab_07-08/analysis.py:46-48 | the counter list of a concatenation of metrics entries is the concatenation of their lists, so entries keep their order |
| BanditReport.ColumnSingle | lab_07-08/analysis.py:46-48 | one entry gives its counter, 0 when the key is missing |
| BanditReport.Counter | lab_07-08/analysis.py:41-48 | `file_metrics.get(key, 0)`; characterised by BanditReport.ColumnSingle and BanditReport.TotalSingle |
| BanditReport.Sum | lab_07-08/analysis.py:41-52 | Python `sum`; characterised by BanditReport.SumConcat, BanditReport.SumBounds and BanditReport.Stats |
| BanditReport.SumConcat | lab_07-08/analysis.py:50-52 | sums add up over a concatenation |
| BanditReport.SumBounds | lab_07-08/analysis.py:50-64 | values between `lo` and `hi` sum to between `lo*n` and `hi*n` |
| BanditReport.Min | lab_07-08/analysis.py:54 | the minimum is one of the values and is at most each |
| BanditReport.Max | lab_07-08/analysis.py:55 | the maximum is one of the values and is at least each |
| BanditReport.Stats | lab_07-08/analysis.py:50-64 | with no entries sum, min, max and avg are 0; otherwise min and max are values that bound every value, `min*n <= sum <= max*n`, and `avg*n == sum` |
| BanditReport.Mean | lab_07-08/analysis.py:56 | the mean times the count is the total |
| BanditReport.StatsMeanBounds | lab_07-08/analysis.py:54-56 | the mean lies between the minimum and the maximum |
| BanditReport.MeanBounds | lab_07-08/analysis.py:56 | an exact mean lies between the bounds of the values |
| BanditReport.SingleValueStats | lab_07-08/analysis.py:50-64 | one value `v` gives sum = min = max = avg = v |
| BanditReport.Total | lab_07-08/analysis.py:39-43 | with an empty or absent `metrics` a confidence total is 0 |
| BanditReport.TotalConcat | lab_07-08/analysis.py:41-43 | a confidence total is additive over the metrics entries |
| BanditReport.TotalSingle | lab_07-08/analysis.py:41-43 | a single entry's total is its counter, 0 when missing |
| BanditReport.Summarize | lab_07-08/analysis.py:29-84 | `data` carries the repository name and the report's label list; each confidence field is the Total of its counter over all `metrics` entries and each severity field the Stats of its counter's column over all entries; an empty `metrics` makes every statistic 0 |
| BanditReport.SingleEntryReport | lab_07-08/analysis.py:39-64 | with one metrics entry every total and every severity statistic is that entry's counter |
| BanditReport.ParseReport | lab_07-08/analysis.py:10-86 | the result is `None` exactly when the base name has fewer than three tokens or the JSON does not decode; otherwise it is the decoded `(seq, commit)` with the summarized `data` |
| BanditReport.ParseBanditReport | lab_07-08/analysis.py:10-86 | the step-by-step parse, including the extraction loop, equals `ParseReport` |
| Frequency.SumCountsAppend | lab_07-08/analysis.py:243 | adding an entry adds its count to the total |
| Frequency.SumCountsUpdate | lab_07-08/analysis.py:243 | replacing an entry changes the total by the difference of the counts |
| Frequency.OccurrencesExtend | lab_07-08/analysis.py:243 | one more label adds one to its own count only |
| Frequency.TallyExisting | lab_07-08/analysis.py:243 | incrementing an existing key keeps the counter a correct tally of one more label |
| Frequency.TallyNew | lab_07-08/analysis.py:243 | appending a new key with count 1 keeps the counter a correct tally of one more label |
| Frequency.IncrementCounts | lab_07-08/analysis.py:243 | after incrementing an existing key every entry holds its label's count in one more label |
| Frequency.IncrementCovers | lab_07-08/analysis.py:243 | after incrementing an existing key every label seen so far still has an entry |
| Frequency.FindKey | lab_07-08/analysis.py:243 | the key lookup finds the position of the label's entry, or reports that it has none |
| Frequency.CountOne | lab_07-08/analysis.py:243 | counting one more label turns the counter of `labels[..k]` into that of `labels[..k+1]` |
| Frequency.TalliedAll | lab_07-08/analysis.py:243 | a tally of every label is the counter of the whole list |
| Frequency.CountLabels | lab_07-08/analysis.py:243 | every key is a label and its count is its number of occurrences; every label has a key; keys are in first-occurrence order; the counts sum to the number of labels |
| Frequency.InsertByCount | lab_07-08/analysis.py:244 | insertion adds exactly the entry and its count |
| Frequency.InsertKeepsRanking | lab_07-08/analysis.py:244 | insertion keeps the list non-increasing in count |
| Frequency.HeadAboveRest | lab_07-08/analysis.py:244 | the head of a ranked table, at least the inserted entry in count, is at least every entry after it |
| Frequency.Rank | lab_07-08/analysis.py:244 | the ranking is non-increasing in count, a permutation of the counter's entries, with the same total |
| Frequency.InsertKeepsTies | lab_07-08/analysis.py:244 | inserting an entry that comes later in first-occurrence order keeps equal counts in first-occurrence order |
| Frequency.InsertAfterHead | lab_07-08/analysis.py:244 | insertion past the head keeps equal counts in first-occurrence order |
| Frequency.HeadBeforeInserted | lab_07-08/analysis.py:244 | a head tied with an entry after it precedes it in first-occurrence order |
| Frequency.InsertAtHead | lab_07-08/analysis.py:244 | an entry with a count above the head goes first and keeps ties ordered |
| Frequency.RankKeepsTies | lab_07-08/analysis.py:244 | the descending sort is stable: equal counts keep the counter's first-occurrence order |
| Frequency.FrequencyKeysDistinct | lab_07-08/analysis.py:243-244 | no label appears twice in the frequency table |
| Frequency.PermutedEntries | lab_07-08/analysis.py:244 | sorting the counter's items keeps every entry's count correct |
| Frequency.PermutedKeys | lab_07-08/analysis.py:244 | sorting the counter's items keeps an entry for every label |
| Frequency.Frequencies | lab_07-08/analysis.py:243-244 | the table counts each label's occurrences exactly, covers every label, is non-increasing with ties in first-occurrence order, and its counts sum to the number of labels |
| Aggregation.ParseAll | lab_07-08/analysis.py:123-124 | the parse of every file, in order; characterised by Aggregation.ParseAllConcat and Aggregation.CollectStep |
| Aggregation.Present | lab_07-08/analysis.py:125-126 | the kept values are results that were not `None`, no more of them than results |
| Aggregation.PresentConcat | lab_07-08/analysis.py:122-126 | filtering distributes over concatenation, so order is kept |
| Aggregation.ParseAllConcat | lab_07-08/analysis.py:123-124 | parsing distributes over concatenation of the file list |
| Aggregation.RejectedFileContributesNothing | lab_07-08/analysis.py:11-14 | a file with fewer than three name tokens (lines 11-14), or whose JSON does not decode (lines 21-26), is dropped by the `None` filter of lines 124-126 and leaves the kept results as if it were absent, so it adds no row and no label |
| Aggregation.CollectStep | lab_07-08/analysis.py:124-126 | one more file appends its result, when there is one |
| Aggregation.CollectCommitData | lab_07-08/analysis.py:122-126 | the loop keeps exactly the non-`None` parse results, in file order |
| Aggregation.InsertLabel | lab_07-08/analysis.py:136-137 | adding a label to a strictly ascending list keeps it strictly ascending, with the label added |
| Aggregation.BelowHead | lab_07-08/analysis.py:137 | a label below the head of a strictly ascending list can go in front |
| Aggregation.AboveHead | lab_07-08/analysis.py:137 | the head stays in front of an insertion into the tail |
| Aggregation.SortedDistinct | lab_07-08/analysis.py:136-137 | `sorted(set(cwes))` is strictly ascending and holds exactly the labels of `cwes` |
| Aggregation.SortedDistinctOnce | lab_07-08/analysis.py:136-137 | each label of the raw list appears exactly once, and no other label appears |
| Aggregation.MultisetCount | lab_07-08/analysis.py:136 | the occurrence count agrees with the multiset count |
| Aggregation.Dedupe | lab_07-08/analysis.py:136 | `list(set(cwes))` has no duplicate and holds exactly the labels of `cwes` |
| Aggregation.SortedUnique | lab_07-08/analysis.py:137 | two sorted lists with the same elements are equal, so the sort's result does not depend on the set's order |
| Aggregation.SameHead | lab_07-08/analysis.py:137 | sorted lists that hold each other's heads have the same head |
| Aggregation.DropHead | lab_07-08/analysis.py:137 | the tail of a sorted list is sorted and holds all its elements but the head |
| Aggregation.SortedLabels | lab_07-08/analysis.py:136-137 | the in-place sort of the de-duplicated labels gives `sorted(set(cwes))` |
| Aggregation.CweColumnCommas | lab_07-08/analysis.py:157 | the `cwes` column holds one comma fewer than its distinct labels |
| Aggregation.CweColumn | lab_07-08/analysis.py:136-137 | the `", "`-join of `sorted(set(cwes))`; characterised by Aggregation.CweColumnCommas, Aggregation.SortedDistinctOnce and Aggregation.ColumnExample |
| Aggregation.ColumnExample | lab_07-08/analysis.py:136-137 | findings with CWE ids 79, 79 and 89 give the column `CWE-79, CWE-89` |
| Aggregation.LabelColumnExample | lab_07-08/analysis.py:136-137 | the labels CWE-79, CWE-79, CWE-89 give the column `CWE-79, CWE-89` |
| Aggregation.BuildRows | lab_07-08/analysis.py:133-159 | one row per commit, in order; each row copies repository, seq, commit and every statistic, and its `cwes` is the `", "`-join of the sorted distinct labels |
| Aggregation.RowOf | lab_07-08/analysis.py:138-158 | the row dictionary of one commit; what it copies is stated by Aggregation.BuildRows |
| Aggregation.SeqLessEq | lab_07-08/analysis.py:169 | the `sort_values(by="seq")` key order with missing values last; characterised by Aggregation.SeqOrderIsTotalPreorder and Aggregation.SortBySeq |
| Aggregation.SortBySeq | lab_07-08/analysis.py:169 | the in-place sort by `seq` yields a permutation of the rows, ascending in `seq` among rows that have one |
| Aggregation.SeqOrderIsTotalPreorder | lab_07-08/analysis.py:169 | ordering rows by `seq`, with missing values last, is a total preorder |
| Aggregation.RepoCwesAddsCommit | lab_07-08/analysis.py:237-240 | each commit adds its raw label counts to the repository's |
| Aggregation.RepoCwes | lab_07-08/analysis.py:237-240 | the concatenated raw label lists; computed by Aggregation.ConcatCwes and counted by Aggregation.RepoCwesAddsCommit |
| Aggregation.FrequencyExample | lab_07-08/analysis.py:237-243 | a commit whose findings carry CWE 79, 79 and 89 raises the repository counts of CWE-79 by 2 and CWE-89 by 1 |
| Aggregation.ConcatCwes | lab_07-08/analysis.py:237-240 | the `extend` loop yields every commit's raw label list, concatenated in order |
| Aggregation.ProcessRepository | lab_07-08/analysis.py:122-245 | no commit data exactly when no report survives; otherwise the table is one row per kept result in order, the chart order is a permutation of the table ascending by `seq` among rows that have one, and the frequency table describes the concatenated raw labels |

## Left out

- File reading and `json.load`. A report comes in already decoded, or as `None` when its JSON does not decode.
- JSON values of the wrong type (a counter or an `id` that is not an integer, a `null` `results` value, which raises `TypeError` in the source). The decoded datatype allows only the shapes the reduction expects.
- The `"results" in report` test. It is modelled by `results` being `None` when the key is absent.
- `glob`, `os.makedirs`, the directory checks and the fixed repository list at lines 90-120. The file list of a repository is an input.
- The `report_files.sort()` at line 119. The file list is taken in the order the loop sees it.
- The pandas DataFrame and the CSV file at lines 161-166. The model stops at the list of rows, and the CSV is written before the sort, so the table in `RepoOutcome` is the unsorted one.
- All matplotlib charts and annotations at lines 170-235 and 247-265. The `if repo_cwes:` test at 242 only decides whether the bar chart is drawn. With no labels the model's frequency table is empty.
- `tqdm` progress output and every `print`.
- The `data.get(key, 0)` defaults at lines 136-156. They never apply, because `parse_bandit_report` always sets every key.
- IEEE floating point. The average is the exact `real` quotient.
- Text.ParseInt: models `int()` on ASCII digits with an optional sign only. Surrounding whitespace, `_` digit separators and non-ASCII digits, which Python's `int()` also accepts, are not modelled.
- Aggregation.SortBySeq: the order after `sort_values` is stated only for rows that both have a sequence number. Where pandas puts rows whose `seq` is missing is not modelled. The model's insertion sort is stable, but pandas' default quicksort is not, so the order of rows with equal `seq` is not promised.
- Aggregation.ProcessRepository: its chart order inherits the weaker promise of Aggregation.SortBySeq.
- Text.Basename: splits on `/` only, as POSIX `os.path.basename` does. The Windows `\` separator is not modelled.
- Metrics keys. Every entry of `metrics` counts towards the totals, whatever its file path. A report's `_totals` entry would be counted as well; the model does the same as the source.
