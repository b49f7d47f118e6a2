/**
 * pandas' `value_counts()` and `nlargest(n)` on a column of labels: every
 * distinct label once, with the number of times it occurs, largest count first.
 */
module Ranking {

  /** The labels being counted: sender names. */
  type Label = string

  /** One row of a `value_counts()` result: a label and how often it occurs. */
  datatype Entry = Entry(key: Label, count: nat)

  /** How many times `x` occurs in `s`. */
  function Occurrences(s: seq<Label>, x: Label): nat {
    multiset(s)[x]
  }

  predicate NoDuplicates(s: seq<Label>) {
    forall i, j | 0 <= i < j < |s| :: s[i] != s[j]
  }

  /** The distinct elements of `s`, in order of first appearance. */
  function Distinct(s: seq<Label>): (d: seq<Label>)
    ensures NoDuplicates(d)
    ensures forall x :: x in d <==> x in s
    decreases |s|
  {
    if s == [] then []
    else
      var init := s[..|s| - 1];
      var x := s[|s| - 1];
      assert s == init + [x];
      var d := Distinct(init);
      if x in d then d else d + [x]
  }

  /** `keys` are listed with non-increasing numbers of occurrences in `s`. */
  predicate DescendingIn(s: seq<Label>, keys: seq<Label>) {
    forall i, j | 0 <= i < j < |keys| :: Occurrences(s, keys[i]) >= Occurrences(s, keys[j])
  }

  /** Puts `x` into the ranked `keys` after every key that occurs at least as
      often, so that keys already ranked keep their order among equals. */
  function InsertByCount(s: seq<Label>, x: Label, keys: seq<Label>): (r: seq<Label>)
    requires DescendingIn(s, keys)
    ensures DescendingIn(s, r)
    ensures |r| == |keys| + 1
    ensures forall y :: y in r <==> y == x || y in keys
    ensures NoDuplicates(keys) && x !in keys ==> NoDuplicates(r)
    decreases |keys|
  {
    if keys == [] then [x]
    else if Occurrences(s, keys[0]) >= Occurrences(s, x) then
      var rest := InsertByCount(s, x, keys[1..]);
      InsertedAfterHead(s, x, keys, rest);
      [keys[0]] + rest
    else
      [x] + keys
  }

  /** The step of `InsertByCount` that keeps the head of `keys` in front. */
  lemma InsertedAfterHead(s: seq<Label>, x: Label, keys: seq<Label>, rest: seq<Label>)
    requires keys != [] && DescendingIn(s, keys) && Occurrences(s, keys[0]) >= Occurrences(s, x)
    requires DescendingIn(s, rest)
    requires forall y :: y in rest <==> y == x || y in keys[1..]
    requires NoDuplicates(keys) && x !in keys ==> NoDuplicates(rest)
    ensures DescendingIn(s, [keys[0]] + rest)
    ensures forall y :: y in [keys[0]] + rest <==> y == x || y in keys
    ensures NoDuplicates(keys) && x !in keys ==> NoDuplicates([keys[0]] + rest)
  {
    var r := [keys[0]] + rest;
    forall j | 0 < j < |r| ensures Occurrences(s, keys[0]) >= Occurrences(s, r[j]) && (NoDuplicates(keys) && x !in keys ==> r[j] != keys[0]) {
      assert r[j] in rest;
      if r[j] != x {
        var m :| 0 <= m < |keys[1..]| && keys[1..][m] == r[j];
        assert keys[m + 1] == r[j];
      }
    }
    assert keys == [keys[0]] + keys[1..];
  }

  /** Insertion sort of `keys` by their number of occurrences in `s`, largest first. */
  function RankByCount(s: seq<Label>, keys: seq<Label>): (r: seq<Label>)
    ensures DescendingIn(s, r)
    ensures |r| == |keys|
    ensures forall y :: y in r <==> y in keys
    ensures NoDuplicates(keys) ==> NoDuplicates(r)
    decreases |keys|
  {
    if keys == [] then []
    else
      var init := keys[..|keys| - 1];
      var x := keys[|keys| - 1];
      assert keys == init + [x];
      assert forall y | y in init :: y in keys;
      InsertByCount(s, x, RankByCount(s, init))
  }

  /** `value_counts()`: each distinct label of `s` with its number of occurrences,
      largest count first; among equal counts, first appearance first. */
  function ValueCounts(s: seq<Label>): (r: seq<Entry>)
    ensures forall i | 0 <= i < |r| :: r[i].key in s && r[i].count == Occurrences(s, r[i].key)
    ensures forall x | x in s :: exists i :: 0 <= i < |r| && r[i].key == x
    ensures forall i, j | 0 <= i < j < |r| :: r[i].key != r[j].key && r[i].count >= r[j].count
  {
    var keys := RankByCount(s, Distinct(s));
    TabulateRanked(s, keys);
    Tabulate(s, keys)
  }

  /** Tabulating distinct, ranked keys that are exactly the labels of `s` gives
      what `ValueCounts` promises. */
  lemma TabulateRanked(s: seq<Label>, keys: seq<Label>)
    requires DescendingIn(s, keys) && NoDuplicates(keys)
    requires forall y :: y in keys <==> y in s
    ensures var r := Tabulate(s, keys);
      && (forall i | 0 <= i < |r| :: r[i].key in s && r[i].count == Occurrences(s, r[i].key))
      && (forall x | x in s :: exists i :: 0 <= i < |r| && r[i].key == x)
      && (forall i, j | 0 <= i < j < |r| :: r[i].key != r[j].key && r[i].count >= r[j].count)
  {
    var r := Tabulate(s, keys);
    forall i | 0 <= i < |r| ensures r[i].key in s {
      assert r[i].key == keys[i];
    }
    forall x | x in s ensures exists i :: 0 <= i < |r| && r[i].key == x {
      var i :| 0 <= i < |keys| && keys[i] == x;
      assert r[i].key == x;
    }
    forall i, j | 0 <= i < j < |r| ensures r[i].key != r[j].key && r[i].count >= r[j].count {
      assert r[i] == Entry(keys[i], Occurrences(s, keys[i])) && r[j] == Entry(keys[j], Occurrences(s, keys[j]));
    }
  }

  /** Each key with its number of occurrences in `s`. */
  function Tabulate(s: seq<Label>, keys: seq<Label>): (r: seq<Entry>)
    ensures |r| == |keys| && forall i | 0 <= i < |keys| :: r[i] == Entry(keys[i], Occurrences(s, keys[i]))
  {
    if keys == [] then [] else Tabulate(s, keys[..|keys| - 1]) + [Entry(keys[|keys| - 1], Occurrences(s, keys[|keys| - 1]))]
  }

  function Keys(es: seq<Entry>): seq<Label> {
    seq(|es|, i requires 0 <= i < |es| => es[i].key)
  }

  function SumCounts(es: seq<Entry>): nat {
    if es == [] then 0 else SumCounts(es[..|es| - 1]) + es[|es| - 1].count
  }

  /** Total occurrences in `s` of the labels `keys`. */
  function SumOccurrences(s: seq<Label>, keys: seq<Label>): nat {
    if keys == [] then 0 else SumOccurrences(s, keys[..|keys| - 1]) + Occurrences(s, keys[|keys| - 1])
  }

  lemma {:induction false} SumCountsIsSumOccurrences(s: seq<Label>, es: seq<Entry>)
    requires forall i | 0 <= i < |es| :: es[i].count == Occurrences(s, es[i].key)
    ensures SumCounts(es) == SumOccurrences(s, Keys(es))
    decreases |es|
  {
    if es != [] {
      var init := es[..|es| - 1];
      SumCountsIsSumOccurrences(s, init);
      assert Keys(es)[..|es| - 1] == Keys(init);
    }
  }

  /** Adding one more `x` to `s` adds one to the total over keys that list `x` once. */
  lemma {:induction false} SumOccurrencesStep(s: seq<Label>, x: Label, keys: seq<Label>)
    requires NoDuplicates(keys)
    ensures SumOccurrences(s + [x], keys) == SumOccurrences(s, keys) + (if x in keys then 1 else 0)
    decreases |keys|
  {
    if keys != [] {
      var init := keys[..|keys| - 1];
      var k := keys[|keys| - 1];
      assert multiset(s + [x]) == multiset(s) + multiset{x};
      assert x in keys <==> x in init || x == k;
      assert x == k ==> x !in init;
      SumOccurrencesStep(s, x, init);
    }
  }

  /** Keys that are distinct and cover every label of `s` account for all of `s`. */
  lemma {:induction false} SumOccurrencesCovering(s: seq<Label>, keys: seq<Label>)
    requires NoDuplicates(keys)
    requires forall x | x in s :: x in keys
    ensures SumOccurrences(s, keys) == |s|
    decreases |s|
  {
    if s == [] {
      SumOccurrencesOfNothing(keys);
    } else {
      var init := s[..|s| - 1];
      assert s == init + [s[|s| - 1]];
      SumOccurrencesCovering(init, keys);
      SumOccurrencesStep(init, s[|s| - 1], keys);
    }
  }

  lemma {:induction false} SumOccurrencesOfNothing(keys: seq<Label>)
    ensures SumOccurrences([], keys) == 0
    decreases |keys|
  {
    if keys != [] {
      SumOccurrencesOfNothing(keys[..|keys| - 1]);
    }
  }

  /** The counts of `value_counts()` add up to the length of the column. */
  lemma ValueCountsSum(s: seq<Label>)
    ensures SumCounts(ValueCounts(s)) == |s|
  {
    var r := ValueCounts(s);
    SumCountsIsSumOccurrences(s, r);
    var keys := Keys(r);
    forall x | x in s ensures x in keys {
      var i :| 0 <= i < |r| && r[i].key == x;
      assert keys[i] == x;
    }
    forall i, j | 0 <= i < j < |keys| ensures keys[i] != keys[j] {
      assert keys[i] == r[i].key && keys[j] == r[j].key;
    }
    SumOccurrencesCovering(s, keys);
  }

  /** `value_counts().nlargest(n)`: the column is already largest-first, so the
      `n` largest are its first `n` rows. */
  function Largest(es: seq<Entry>, n: nat): (r: seq<Entry>)
    ensures |r| == if |es| < n then |es| else n
    ensures r == es[..|r|]
  {
    if |es| <= n then es else es[..n]
  }

  /** The `n` most frequent labels: at most `n`, largest first, each with its true
      count, and no label left out occurs more often than any label kept. */
  lemma TopByCount(s: seq<Label>, n: nat)
    ensures var r := Largest(ValueCounts(s), n);
      && |r| <= n
      && (|r| < n ==> forall x | x in s :: exists i :: 0 <= i < |r| && r[i].key == x)
      && (forall i | 0 <= i < |r| :: r[i].key in s && r[i].count == Occurrences(s, r[i].key))
      && (forall i, j | 0 <= i < j < |r| :: r[i].key != r[j].key && r[i].count >= r[j].count)
      && (forall x, i | x in s && 0 <= i < |r| && x !in Keys(r) :: Occurrences(s, x) <= r[i].count)
  {
    var vc := ValueCounts(s);
    var r := Largest(vc, n);
    LeftOutNotMore(s, vc, |r|);
    PrefixKeepsCounts(s, vc, |r|);
    if |r| < n {
      assert r == vc;
    }
  }

  /** The first `m` rows of a counted, distinct, largest-first column are too. */
  lemma PrefixKeepsCounts(s: seq<Label>, vc: seq<Entry>, m: nat)
    requires m <= |vc|
    requires forall i | 0 <= i < |vc| :: vc[i].key in s && vc[i].count == Occurrences(s, vc[i].key)
    requires forall i, j | 0 <= i < j < |vc| :: vc[i].key != vc[j].key && vc[i].count >= vc[j].count
    ensures var r := vc[..m];
      && (forall i | 0 <= i < |r| :: r[i].key in s && r[i].count == Occurrences(s, r[i].key))
      && (forall i, j | 0 <= i < j < |r| :: r[i].key != r[j].key && r[i].count >= r[j].count)
  {
    var r := vc[..m];
    assert forall i | 0 <= i < m :: r[i] == vc[i];
  }

  /** In a largest-first column that lists every label of `s` with its count, a
      label missing from the first `m` rows occurs no more often than any of them. */
  lemma LeftOutNotMore(s: seq<Label>, vc: seq<Entry>, m: nat)
    requires m <= |vc|
    requires forall i | 0 <= i < |vc| :: vc[i].count == Occurrences(s, vc[i].key)
    requires forall x | x in s :: exists i :: 0 <= i < |vc| && vc[i].key == x
    requires forall i, j | 0 <= i < j < |vc| :: vc[i].count >= vc[j].count
    ensures forall x, i | x in s && 0 <= i < m && x !in Keys(vc[..m]) :: Occurrences(s, x) <= vc[i].count
  {
    var r := vc[..m];
    forall x, i | x in s && 0 <= i < m && x !in Keys(r) ensures Occurrences(s, x) <= vc[i].count {
      var j :| 0 <= j < |vc| && vc[j].key == x;
      assert forall k | 0 <= k < m :: Keys(r)[k] == vc[k].key;
      assert j >= m;
    }
  }
}
