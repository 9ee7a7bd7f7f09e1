/** The CWE frequency table of a repository: `collections.Counter` over the raw label
    list, then `sorted(counter.items(), key=count, reverse=True)`. */
module Frequency {
  import opened Seqs

  /** One item of the counter: a CWE label and how often it occurs. */
  datatype Entry = Entry(cwe: string, count: nat)

  /** Sum of the counts of a table. */
  function SumCounts(t: seq<Entry>): nat
  {
    if t == [] then 0 else t[0].count + SumCounts(t[1..])
  }

  lemma {:induction false} SumCountsAppend(t: seq<Entry>, e: Entry)
    ensures SumCounts(t + [e]) == SumCounts(t) + e.count
  {
    if t != [] {
      assert (t + [e])[1..] == t[1..] + [e];
      SumCountsAppend(t[1..], e);
    }
  }

  lemma {:induction false} SumCountsUpdate(t: seq<Entry>, i: nat, e: Entry)
    requires i < |t|
    ensures SumCounts(t[i := e]) == SumCounts(t) - t[i].count + e.count
  {
    if i > 0 {
      assert t[i := e][1..] == t[1..][i - 1 := e];
      SumCountsUpdate(t[1..], i - 1, e);
    } else {
      assert t[i := e][1..] == t[1..];
    }
  }

  /** Some entry of `t` is for label `x`. */
  ghost predicate HasKey(t: seq<Entry>, x: string)
  {
    exists i :: 0 <= i < |t| && t[i].cwe == x
  }

  /** The counter after the first `k` labels: every entry's label occurs in `labels[..k]`
      that many times, every label of `labels[..k]` has an entry, entries are in order of
      first occurrence, and the counts add up to `k`. */
  ghost predicate Tallied(labels: seq<string>, k: nat, counter: seq<Entry>)
  {
    && k <= |labels|
    && (forall i :: 0 <= i < |counter| ==> counter[i].cwe in labels && FirstIndex(labels, counter[i].cwe) < k)
    && (forall i :: 0 <= i < |counter| ==> counter[i].count == Occurrences(labels[..k], counter[i].cwe))
    && (forall x :: x in labels[..k] ==> HasKey(counter, x))
    && (forall i, j :: 0 <= i < j < |counter| ==>
          FirstIndex(labels, counter[i].cwe) < FirstIndex(labels, counter[j].cwe))
    && SumCounts(counter) == k
  }

  /** One more label adds one to its own count and nothing to any other. */
  lemma OccurrencesExtend(labels: seq<string>, k: nat, y: string)
    requires k < |labels|
    ensures Occurrences(labels[..k + 1], y) == Occurrences(labels[..k], y) + (if labels[k] == y then 1 else 0)
  {
    assert labels[..k + 1][..k] == labels[..k];
  }

  /** Counting a label that already has an entry increments that entry. */
  lemma TallyExisting(labels: seq<string>, k: nat, counter: seq<Entry>, i: nat)
    requires Tallied(labels, k, counter) && k < |labels|
    requires i < |counter| && counter[i].cwe == labels[k]
    ensures Tallied(labels, k + 1, counter[i := Entry(labels[k], counter[i].count + 1)])
  {
    var next := counter[i := Entry(labels[k], counter[i].count + 1)];
    assert forall m :: 0 <= m < |next| ==> next[m].cwe == counter[m].cwe;
    SumCountsUpdate(counter, i, next[i]);
    IncrementCounts(labels, k, counter, i);
    IncrementCovers(labels, k, counter, i);
  }

  /** After the increment every entry holds its label's count in `labels[..k + 1]`. */
  lemma IncrementCounts(labels: seq<string>, k: nat, counter: seq<Entry>, i: nat)
    requires Tallied(labels, k, counter) && k < |labels|
    requires i < |counter| && counter[i].cwe == labels[k]
    ensures var next := counter[i := Entry(labels[k], counter[i].count + 1)];
      forall m :: 0 <= m < |next| ==> next[m].count == Occurrences(labels[..k + 1], next[m].cwe)
  {
    var next := counter[i := Entry(labels[k], counter[i].count + 1)];
    forall m | 0 <= m < |next|
      ensures next[m].count == Occurrences(labels[..k + 1], next[m].cwe)
    {
      OccurrencesExtend(labels, k, next[m].cwe);
      if m != i {
        assert FirstIndex(labels, counter[m].cwe) != FirstIndex(labels, counter[i].cwe);
      }
    }
  }

  /** After the increment every label of `labels[..k + 1]` still has an entry. */
  lemma IncrementCovers(labels: seq<string>, k: nat, counter: seq<Entry>, i: nat)
    requires Tallied(labels, k, counter) && k < |labels|
    requires i < |counter| && counter[i].cwe == labels[k]
    ensures var next := counter[i := Entry(labels[k], counter[i].count + 1)];
      forall y :: y in labels[..k + 1] ==> HasKey(next, y)
  {
    var x := labels[k];
    var next := counter[i := Entry(x, counter[i].count + 1)];
    assert labels[..k + 1] == labels[..k] + [x];
    forall y | y in labels[..k + 1]
      ensures HasKey(next, y)
    {
      if y != x {
        assert y in labels[..k];
        var m :| 0 <= m < |counter| && counter[m].cwe == y;
        assert next[m].cwe == y;
      } else {
        assert next[i].cwe == x;
      }
    }
  }

  /** Counting a label met for the first time appends an entry with count 1. */
  lemma TallyNew(labels: seq<string>, k: nat, counter: seq<Entry>)
    requires Tallied(labels, k, counter) && k < |labels|
    requires forall m :: 0 <= m < |counter| ==> counter[m].cwe != labels[k]
    ensures Tallied(labels, k + 1, counter + [Entry(labels[k], 1)])
  {
    var x := labels[k];
    var next := counter + [Entry(x, 1)];
    assert labels[..k + 1] == labels[..k] + [x];
    assert labels[..k + 1][..k] == labels[..k];
    assert x !in labels[..k];
    FirstIndexAt(labels, k);
    SumCountsAppend(counter, Entry(x, 1));
    forall y | y in labels[..k + 1]
      ensures HasKey(next, y)
    {
      if y != x {
        assert y in labels[..k];
        var m :| 0 <= m < |counter| && counter[m].cwe == y;
        assert next[m].cwe == y;
      } else {
        assert next[|counter|].cwe == x;
      }
    }
  }

  /** `x in counter`: the position of `x`'s entry, or `|counter|` when it has none. */
  method FindKey(counter: seq<Entry>, x: string) returns (i: nat)
    ensures i <= |counter|
    ensures i < |counter| ==> counter[i].cwe == x
    ensures i == |counter| ==> forall m :: 0 <= m < |counter| ==> counter[m].cwe != x
  {
    i := 0;
    while i < |counter| && counter[i].cwe != x
      invariant i <= |counter|
      invariant forall m :: 0 <= m < i ==> counter[m].cwe != x
    {
      i := i + 1;
    }
  }

  /** `collections.Counter(labels)`, items in insertion order: one entry per distinct
      label, in order of first occurrence, holding its number of occurrences. */
  method CountLabels(labels: seq<string>) returns (counter: seq<Entry>)
    ensures forall i :: 0 <= i < |counter| ==>
      counter[i].cwe in labels && counter[i].count == Occurrences(labels, counter[i].cwe)
    ensures forall x :: x in labels ==> HasKey(counter, x)
    ensures forall i, j :: 0 <= i < j < |counter| ==>
      FirstIndex(labels, counter[i].cwe) < FirstIndex(labels, counter[j].cwe)
    ensures SumCounts(counter) == |labels|
  {
    counter := [];
    var k := 0;
    while k < |labels|
      invariant Tallied(labels, k, counter)
    {
      counter := CountOne(labels, k, counter);
      k := k + 1;
    }
    TalliedAll(labels, counter);
  }

  /** `counter[labels[k]] += 1`: the counter of `labels[..k]` becomes that of `labels[..k + 1]`. */
  method CountOne(labels: seq<string>, k: nat, counter: seq<Entry>) returns (next: seq<Entry>)
    requires Tallied(labels, k, counter) && k < |labels|
    ensures Tallied(labels, k + 1, next)
  {
    var x := labels[k];
    var i := FindKey(counter, x);
    if i < |counter| {
      TallyExisting(labels, k, counter, i);
      next := counter[i := Entry(x, counter[i].count + 1)];
    } else {
      TallyNew(labels, k, counter);
      next := counter + [Entry(x, 1)];
    }
  }

  /** A tally of every label is the counter of the whole list. */
  lemma TalliedAll(labels: seq<string>, counter: seq<Entry>)
    requires Tallied(labels, |labels|, counter)
    ensures forall i :: 0 <= i < |counter| ==>
      counter[i].cwe in labels && counter[i].count == Occurrences(labels, counter[i].cwe)
    ensures forall x :: x in labels ==> HasKey(counter, x)
    ensures forall i, j :: 0 <= i < j < |counter| ==>
      FirstIndex(labels, counter[i].cwe) < FirstIndex(labels, counter[j].cwe)
    ensures SumCounts(counter) == |labels|
  {
    assert labels[..|labels|] == labels;
  }

  /** Counts never increase along `t`. */
  ghost predicate NonIncreasing(t: seq<Entry>)
  {
    forall i, j :: 0 <= i < j < |t| ==> t[i].count >= t[j].count
  }

  /** Entries of equal count keep the order of their labels' first occurrences. */
  ghost predicate TiesInOrder(t: seq<Entry>, labels: seq<string>)
  {
    forall i, j :: 0 <= i < j < |t| && t[i].count == t[j].count && t[i].cwe in labels && t[j].cwe in labels ==>
      FirstIndex(labels, t[i].cwe) < FirstIndex(labels, t[j].cwe)
  }

  /** Places `e` after every entry whose count is at least `e`'s. */
  function InsertByCount(e: Entry, ranked: seq<Entry>): (r: seq<Entry>)
    ensures multiset(r) == multiset(ranked) + multiset{e}
    ensures SumCounts(r) == SumCounts(ranked) + e.count
  {
    if ranked == [] then [e]
    else if ranked[0].count >= e.count then
      assert ranked == [ranked[0]] + ranked[1..];
      [ranked[0]] + InsertByCount(e, ranked[1..])
    else
      assert ([e] + ranked)[1..] == ranked;
      [e] + ranked
  }

  /** Inserting into a table ranked by descending count keeps it ranked. */
  lemma {:induction false} InsertKeepsRanking(e: Entry, ranked: seq<Entry>)
    requires NonIncreasing(ranked)
    ensures NonIncreasing(InsertByCount(e, ranked))
  {
    if ranked != [] && ranked[0].count >= e.count {
      var tail := ranked[1..];
      var rest := InsertByCount(e, tail);
      InsertKeepsRanking(e, tail);
      var r := [ranked[0]] + rest;
      assert InsertByCount(e, ranked) == r;
      forall i, j | 0 <= i < j < |r|
        ensures r[i].count >= r[j].count
      {
        assert r[j] == rest[j - 1];
        if i == 0 {
          HeadAboveRest(e, ranked, j - 1);
        } else {
          assert r[i] == rest[i - 1];
        }
      }
    }
  }

  /** The head of a ranked table, at least `e` in count, bounds every entry of the
      insertion of `e` into the tail. */
  lemma HeadAboveRest(e: Entry, ranked: seq<Entry>, j: nat)
    requires NonIncreasing(ranked) && ranked != [] && ranked[0].count >= e.count
    requires j < |InsertByCount(e, ranked[1..])|
    ensures ranked[0].count >= InsertByCount(e, ranked[1..])[j].count
  {
    var tail := ranked[1..];
    var y := InsertByCount(e, tail)[j];
    assert y in multiset(InsertByCount(e, tail));
    if y != e {
      assert y in multiset(tail);
      var m :| 0 <= m < |tail| && tail[m] == y;
      assert ranked[m + 1] == y;
    }
  }

  /** `sorted(items, key=lambda x: x[1], reverse=True)`: a stable sort by descending count. */
  function Rank(items: seq<Entry>): (r: seq<Entry>)
    ensures NonIncreasing(r)
    ensures multiset(r) == multiset(items)
    ensures SumCounts(r) == SumCounts(items)
  {
    if items == [] then []
    else
      var init, last := items[..|items| - 1], items[|items| - 1];
      assert items == init + [last];
      SumCountsAppend(init, last);
      InsertKeepsRanking(last, Rank(init));
      InsertByCount(last, Rank(init))
  }

  /** Inserting an entry whose label occurs first after every label already ranked
      keeps equal-count entries in first-occurrence order. */
  lemma {:induction false} InsertKeepsTies(e: Entry, ranked: seq<Entry>, labels: seq<string>)
    requires NonIncreasing(ranked) && TiesInOrder(ranked, labels)
    requires e.cwe in labels
    requires forall y :: y in ranked ==> y.cwe in labels && FirstIndex(labels, y.cwe) < FirstIndex(labels, e.cwe)
    ensures TiesInOrder(InsertByCount(e, ranked), labels)
  {
    if ranked != [] {
      if ranked[0].count >= e.count {
        InsertKeepsTies(e, ranked[1..], labels);
        InsertAfterHead(e, ranked, labels);
      } else {
        InsertAtHead(e, ranked, labels);
      }
    }
  }

  /** The inductive step of `InsertKeepsTies` when `e` goes after the head. */
  lemma InsertAfterHead(e: Entry, ranked: seq<Entry>, labels: seq<string>)
    requires ranked != [] && ranked[0].count >= e.count
    requires TiesInOrder(ranked, labels) && TiesInOrder(InsertByCount(e, ranked[1..]), labels)
    requires e.cwe in labels && ranked[0].cwe in labels
    requires FirstIndex(labels, ranked[0].cwe) < FirstIndex(labels, e.cwe)
    ensures TiesInOrder(InsertByCount(e, ranked), labels)
  {
    var rest := InsertByCount(e, ranked[1..]);
    var r := InsertByCount(e, ranked);
    assert r == [ranked[0]] + rest;
    forall i, j | 0 <= i < j < |r| && r[i].count == r[j].count && r[i].cwe in labels && r[j].cwe in labels
      ensures FirstIndex(labels, r[i].cwe) < FirstIndex(labels, r[j].cwe)
    {
      if i == 0 {
        HeadBeforeInserted(e, ranked, labels, j - 1);
      } else {
        assert r[i] == rest[i - 1] && r[j] == rest[j - 1];
      }
    }
  }

  /** The head ties with no later entry of the insertion out of first-occurrence order. */
  lemma HeadBeforeInserted(e: Entry, ranked: seq<Entry>, labels: seq<string>, j: nat)
    requires ranked != [] && TiesInOrder(ranked, labels)
    requires e.cwe in labels && ranked[0].cwe in labels
    requires FirstIndex(labels, ranked[0].cwe) < FirstIndex(labels, e.cwe)
    requires j < |InsertByCount(e, ranked[1..])|
    requires InsertByCount(e, ranked[1..])[j].count == ranked[0].count
    requires InsertByCount(e, ranked[1..])[j].cwe in labels
    ensures FirstIndex(labels, ranked[0].cwe) < FirstIndex(labels, InsertByCount(e, ranked[1..])[j].cwe)
  {
    var tail := ranked[1..];
    var y := InsertByCount(e, tail)[j];
    assert y in multiset(InsertByCount(e, tail));
    if y != e {
      assert y in multiset(tail);
      var m :| 0 <= m < |tail| && tail[m] == y;
      assert ranked[m + 1] == y;
    }
  }

  /** The step of `InsertKeepsTies` when `e` goes first: its count exceeds all others. */
  lemma InsertAtHead(e: Entry, ranked: seq<Entry>, labels: seq<string>)
    requires ranked != [] && ranked[0].count < e.count
    requires NonIncreasing(ranked) && TiesInOrder(ranked, labels)
    ensures TiesInOrder(InsertByCount(e, ranked), labels)
  {
    var r := InsertByCount(e, ranked);
    assert r == [e] + ranked;
    forall j | 0 < j < |r|
      ensures r[j] == ranked[j - 1] && r[j].count < e.count
    {
      assert ranked[0].count >= ranked[j - 1].count;
    }
  }

  /** Ranking a table kept in first-occurrence order leaves ties in that order. */
  lemma {:induction false} RankKeepsTies(items: seq<Entry>, labels: seq<string>)
    requires forall i :: 0 <= i < |items| ==> items[i].cwe in labels
    requires forall i, j :: 0 <= i < j < |items| ==>
      FirstIndex(labels, items[i].cwe) < FirstIndex(labels, items[j].cwe)
    ensures TiesInOrder(Rank(items), labels)
  {
    if items != [] {
      var init, last := items[..|items| - 1], items[|items| - 1];
      RankKeepsTies(init, labels);
      var ranked := Rank(init);
      forall y | y in ranked
        ensures y.cwe in labels && FirstIndex(labels, y.cwe) < FirstIndex(labels, last.cwe)
      {
        assert y in multiset(init);
        var m :| 0 <= m < |init| && init[m] == y;
        assert items[m] == y;
      }
      InsertKeepsTies(last, ranked, labels);
    }
  }

  /** What the ranked table promises about the raw label list it was counted from. */
  ghost predicate IsFrequencyTable(t: seq<Entry>, labels: seq<string>)
  {
    && (forall i :: 0 <= i < |t| ==> t[i].cwe in labels && t[i].count == Occurrences(labels, t[i].cwe))
    && (forall x :: x in labels ==> HasKey(t, x))
    && NonIncreasing(t)
    && TiesInOrder(t, labels)
    && SumCounts(t) == |labels|
  }

  /** A frequency table has one entry per distinct label. */
  lemma FrequencyKeysDistinct(t: seq<Entry>, labels: seq<string>)
    requires IsFrequencyTable(t, labels)
    ensures forall i, j :: 0 <= i < j < |t| ==> t[i].cwe != t[j].cwe
  {
  }

  /** Lines 243-244: count the labels, then rank the counter's items. */
  method Frequencies(labels: seq<string>) returns (table: seq<Entry>)
    ensures IsFrequencyTable(table, labels)
  {
    var counter := CountLabels(labels);
    table := Rank(counter);
    RankKeepsTies(counter, labels);
    PermutedEntries(counter, table, labels);
    PermutedKeys(counter, table, labels);
  }

  /** Reordering keeps every entry's count correct. */
  lemma PermutedEntries(before: seq<Entry>, after: seq<Entry>, labels: seq<string>)
    requires multiset(after) == multiset(before)
    requires forall i :: 0 <= i < |before| ==>
      before[i].cwe in labels && before[i].count == Occurrences(labels, before[i].cwe)
    ensures forall i :: 0 <= i < |after| ==>
      after[i].cwe in labels && after[i].count == Occurrences(labels, after[i].cwe)
  {
    forall i | 0 <= i < |after|
      ensures after[i].cwe in labels && after[i].count == Occurrences(labels, after[i].cwe)
    {
      assert after[i] in multiset(before);
      var m :| 0 <= m < |before| && before[m] == after[i];
    }
  }

  /** Reordering keeps an entry for every label. */
  lemma PermutedKeys(before: seq<Entry>, after: seq<Entry>, labels: seq<string>)
    requires multiset(after) == multiset(before)
    requires forall x :: x in labels ==> HasKey(before, x)
    ensures forall x :: x in labels ==> HasKey(after, x)
  {
    forall x | x in labels
      ensures HasKey(after, x)
    {
      var m :| 0 <= m < |before| && before[m].cwe == x;
      assert before[m] in multiset(after);
      var n :| 0 <= n < |after| && after[n] == before[m];
    }
  }
}
