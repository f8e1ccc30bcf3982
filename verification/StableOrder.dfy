/** Stable sorting of handles by a three-way comparison, as pure sequence functions.
    `Sorted...` is defined by one-at-a-time ordered insertion; merging is proved to agree with it. */
module StableOrder {
  import opened Basics
  import opened Handles

  type Compare = (Item, Item) -> int

  /** What `cmpfcn` must be for "sorted" to mean anything. */
  ghost predicate TotalPreorder(cmp: Compare) {
    && (forall a, b :: cmp(a, b) <= 0 || cmp(b, a) <= 0)
    && (forall a, b, c :: cmp(a, b) <= 0 && cmp(b, c) <= 0 ==> cmp(a, c) <= 0)
  }

  predicate Le(cmp: Compare, a: Handle, b: Handle) {
    cmp(a.item, b.item) <= 0
  }

  /** Put `x` before the first element that compares greater. */
  function Insert(cmp: Compare, s: seq<Handle>, x: Handle): seq<Handle> {
    if s == [] || !Le(cmp, s[0], x) then [x] + s else [s[0]] + Insert(cmp, s[1..], x)
  }

  /** Ordered insertion of the elements of `s`, first to last. */
  function InsertAll(cmp: Compare, s: seq<Handle>): seq<Handle> {
    if s == [] then [] else Insert(cmp, InsertAll(cmp, s[..|s| - 1]), s[|s| - 1])
  }

  /** Merge that prefers the left run on ties. */
  function Merge(cmp: Compare, s: seq<Handle>, t: seq<Handle>): seq<Handle> {
    if s == [] then t
    else if t == [] then s
    else if Le(cmp, s[0], t[0]) then [s[0]] + Merge(cmp, s[1..], t)
    else [t[0]] + Merge(cmp, s, t[1..])
  }

  /** One bottom-up pass: neighbouring runs of length `k` are merged pairwise. */
  function Pass(cmp: Compare, s: seq<Handle>, k: nat): seq<Handle>
    requires k > 0
  {
    if s == [] then []
    else
      var m, n := Min(k, |s|), Min(2 * k, |s|);
      Merge(cmp, s[..m], s[m..n]) + Pass(cmp, s[n..], k)
  }

  /** `s` cut into runs of length `k`, each sorted. */
  function Runs(cmp: Compare, s: seq<Handle>, k: nat): seq<Handle>
    requires k > 0
  {
    if s == [] then []
    else var m := Min(k, |s|); InsertAll(cmp, s[..m]) + Runs(cmp, s[m..], k)
  }

  lemma {:induction false} MergeInsert(cmp: Compare, s: seq<Handle>, t: seq<Handle>, x: Handle)
    requires TotalPreorder(cmp)
    ensures Merge(cmp, s, Insert(cmp, t, x)) == Insert(cmp, Merge(cmp, s, t), x)
    decreases |s| + |t|
  {
    var tx := Insert(cmp, t, x);
    if s == [] {
    } else if t == [] {
      if Le(cmp, s[0], x) {
        MergeInsert(cmp, s[1..], t, x);
        assert Merge(cmp, s[1..], t) == s[1..];
        assert Merge(cmp, s, tx) == [s[0]] + Merge(cmp, s[1..], tx);
      } else {
        assert tx[1..] == [];
      }
    } else if !Le(cmp, t[0], x) {
      assert tx == [x] + t && tx[1..] == t;
      if Le(cmp, s[0], x) {
        MergeInsert(cmp, s[1..], t, x);
        assert Le(cmp, s[0], t[0]);
        assert Merge(cmp, s, t)[1..] == Merge(cmp, s[1..], t);
      } else {
        assert Merge(cmp, s, t)[0] in [s[0], t[0]];
      }
    } else {
      assert tx == [t[0]] + Insert(cmp, t[1..], x) && tx[1..] == Insert(cmp, t[1..], x);
      if Le(cmp, s[0], t[0]) {
        MergeInsert(cmp, s[1..], t, x);
        assert Merge(cmp, s, t)[1..] == Merge(cmp, s[1..], t);
      } else {
        MergeInsert(cmp, s, t[1..], x);
        assert Merge(cmp, s, t)[1..] == Merge(cmp, s, t[1..]);
      }
    }
  }

  /** Merging two sorted runs sorts their concatenation, stably. */
  lemma {:induction false} MergeSorted(cmp: Compare, s: seq<Handle>, t: seq<Handle>)
    requires TotalPreorder(cmp)
    ensures Merge(cmp, InsertAll(cmp, s), InsertAll(cmp, t)) == InsertAll(cmp, s + t)
    decreases |t|
  {
    if t == [] {
      assert s + t == s;
    } else {
      var t', x := t[..|t| - 1], t[|t| - 1];
      assert (s + t)[..|s + t| - 1] == s + t';
      MergeSorted(cmp, s, t');
      MergeInsert(cmp, InsertAll(cmp, s), InsertAll(cmp, t'), x);
    }
  }

  lemma {:induction false} MergePermutes(cmp: Compare, s: seq<Handle>, t: seq<Handle>)
    ensures |Merge(cmp, s, t)| == |s| + |t|
    ensures multiset(Merge(cmp, s, t)) == multiset(s) + multiset(t)
    decreases |s| + |t|
  {
    if s != [] && t != [] {
      if Le(cmp, s[0], t[0]) {
        MergePermutes(cmp, s[1..], t);
        assert s == [s[0]] + s[1..];
      } else {
        MergePermutes(cmp, s, t[1..]);
        assert t == [t[0]] + t[1..];
      }
    }
  }

  lemma {:induction false} PassPermutes(cmp: Compare, s: seq<Handle>, k: nat)
    requires k > 0
    ensures |Pass(cmp, s, k)| == |s|
    ensures multiset(Pass(cmp, s, k)) == multiset(s)
  {
    hide Merge;
    if s != [] {
      var m, n := Min(k, |s|), Min(2 * k, |s|);
      MergePermutes(cmp, s[..m], s[m..n]);
      PassPermutes(cmp, s[n..], k);
      assert s == s[..m] + s[m..n] + s[n..];
    }
  }

  lemma {:induction false} InsertLength(cmp: Compare, s: seq<Handle>, x: Handle)
    ensures |Insert(cmp, s, x)| == |s| + 1
    ensures multiset(Insert(cmp, s, x)) == multiset(s) + multiset{x}
  {
    if s != [] && Le(cmp, s[0], x) {
      InsertLength(cmp, s[1..], x);
      assert s == [s[0]] + s[1..];
    }
  }

  /** Sorting is a permutation. */
  lemma {:induction false} InsertAllPermutes(cmp: Compare, s: seq<Handle>)
    ensures |InsertAll(cmp, s)| == |s|
    ensures multiset(InsertAll(cmp, s)) == multiset(s)
  {
    if s != [] {
      var s' := s[..|s| - 1];
      InsertAllPermutes(cmp, s');
      InsertLength(cmp, InsertAll(cmp, s'), s[|s| - 1]);
      assert s == s' + [s[|s| - 1]];
    }
  }

  lemma {:induction false} RunsLength(cmp: Compare, s: seq<Handle>, k: nat)
    requires k > 0
    ensures |Runs(cmp, s, k)| == |s|
  {
    if s != [] {
      InsertAllPermutes(cmp, s[..Min(k, |s|)]);
      RunsLength(cmp, s[Min(k, |s|)..], k);
    }
  }

  /** How `Runs` splits at a run boundary. */
  lemma {:induction false} RunsSplit(cmp: Compare, s: seq<Handle>, k: nat)
    requires k > 0 && s != []
    ensures |Runs(cmp, s, k)| == |s|
    ensures var m := Min(k, |s|);
            Runs(cmp, s, k)[..m] == InsertAll(cmp, s[..m]) && Runs(cmp, s, k)[m..] == Runs(cmp, s[m..], k)
  {
    var m := Min(k, |s|);
    RunsLength(cmp, s, k);
    InsertAllPermutes(cmp, s[..m]);
  }

  lemma Slices<T>(s: seq<T>, m: nat, n: nat)
    requires m <= n <= |s|
    ensures s[m..][..n - m] == s[m..n]
    ensures s[m..][n - m..] == s[n..]
  {
  }

  /** The first two runs of `Runs`, and what follows them. */
  lemma {:induction false} FirstTwoRuns(cmp: Compare, s: seq<Handle>, k: nat, m: nat, n: nat)
    requires k > 0 && s != [] && m == Min(k, |s|) && n == Min(2 * k, |s|)
    ensures |Runs(cmp, s, k)| == |s|
    ensures Runs(cmp, s, k)[..m] == InsertAll(cmp, s[..m])
    ensures Runs(cmp, s, k)[m..n] == InsertAll(cmp, s[m..n])
    ensures Runs(cmp, s, k)[n..] == Runs(cmp, s[n..], k)
  {
    RunsSplit(cmp, s, k);
    Slices(s, m, n);
    Slices(Runs(cmp, s, k), m, n);
    if m < |s| {
      RunsSplit(cmp, s[m..], k);
    }
  }

  /** A pass turns sorted runs of length `k` into sorted runs of length `2k`. */
  lemma {:induction false} PassDoublesRuns(cmp: Compare, s: seq<Handle>, k: nat)
    requires TotalPreorder(cmp) && k > 0
    ensures Pass(cmp, Runs(cmp, s, k), k) == Runs(cmp, s, 2 * k)
    decreases |s|
  {
    hide InsertAll, Merge;
    if s != [] {
      var m, n := Min(k, |s|), Min(2 * k, |s|);
      RunsLength(cmp, s, k);
      FirstTwoRuns(cmp, s, k, m, n);
      MergeSorted(cmp, s[..m], s[m..n]);
      assert s[..m] + s[m..n] == s[..n];
      PassDoublesRuns(cmp, s[n..], k);
    }
  }

  /** Runs of length one are the list itself: where the sort starts. */
  lemma {:induction false} UnitRuns(cmp: Compare, s: seq<Handle>)
    ensures Runs(cmp, s, 1) == s
  {
    if s != [] {
      UnitRuns(cmp, s[1..]);
      assert s[..1] == [s[0]] && InsertAll(cmp, s[..1]) == [s[0]];
    }
  }

  /** A run at least as long as the list is the sorted list: where the sort stops. */
  lemma {:induction false} WholeRun(cmp: Compare, s: seq<Handle>, k: nat)
    requires k >= |s| > 0
    ensures Runs(cmp, s, k) == InsertAll(cmp, s)
  {
    assert s[..|s|] == s && s[|s|..] == [];
    assert Runs(cmp, s[|s|..], k) == [];
  }

  ghost predicate SortedBy(cmp: Compare, s: seq<Handle>) {
    forall i, j :: 0 <= i < j < |s| ==> Le(cmp, s[i], s[j])
  }

  /** The elements that compare equal to `g`, in their order. */
  function Ties(cmp: Compare, g: Item, s: seq<Handle>): seq<Handle> {
    if s == [] then []
    else (if Tied(cmp, g, s[0]) then [s[0]] else []) + Ties(cmp, g, s[1..])
  }

  predicate Tied(cmp: Compare, g: Item, x: Handle) {
    cmp(g, x.item) <= 0 && cmp(x.item, g) <= 0
  }

  lemma {:induction false} TiesConcat(cmp: Compare, g: Item, s: seq<Handle>, t: seq<Handle>)
    ensures Ties(cmp, g, s + t) == Ties(cmp, g, s) + Ties(cmp, g, t)
  {
    if s == [] {
      assert s + t == t;
    } else {
      assert (s + t)[1..] == s[1..] + t;
      TiesConcat(cmp, g, s[1..], t);
    }
  }

  lemma {:induction false} NoTies(cmp: Compare, g: Item, s: seq<Handle>)
    requires forall i :: 0 <= i < |s| ==> !Tied(cmp, g, s[i])
    ensures Ties(cmp, g, s) == []
  {
    if s != [] {
      NoTies(cmp, g, s[1..]);
    }
  }

  /** Below the first element of a sorted list, `x` is strictly below them all. */
  lemma BelowAll(cmp: Compare, s: seq<Handle>, x: Handle)
    requires TotalPreorder(cmp) && SortedBy(cmp, s)
    requires s != [] ==> !Le(cmp, s[0], x)
    ensures forall i :: 0 <= i < |s| ==> Le(cmp, x, s[i]) && !Le(cmp, s[i], x)
  {
    forall i | 0 <= i < |s| ensures Le(cmp, x, s[i]) && !Le(cmp, s[i], x) {
      assert i > 0 ==> Le(cmp, s[0], s[i]);
    }
  }

  /** Ordered insertion keeps a sorted list sorted. */
  lemma {:induction false} InsertKeepsSorted(cmp: Compare, s: seq<Handle>, x: Handle)
    requires TotalPreorder(cmp) && SortedBy(cmp, s)
    ensures SortedBy(cmp, Insert(cmp, s, x))
  {
    if s == [] || !Le(cmp, s[0], x) {
      BelowAll(cmp, s, x);
    } else {
      var r := Insert(cmp, s[1..], x);
      InsertKeepsSorted(cmp, s[1..], x);
      InsertLength(cmp, s[1..], x);
      forall i | 0 <= i < |r| ensures Le(cmp, s[0], r[i]) {
        assert r[i] in multiset(r);
        assert r[i] == x || r[i] in s[1..];
      }
    }
  }

  /** Ordered insertion puts `x` after the elements it ties with. */
  lemma {:induction false} InsertAfterTies(cmp: Compare, s: seq<Handle>, x: Handle, g: Item)
    requires TotalPreorder(cmp) && SortedBy(cmp, s)
    ensures Ties(cmp, g, Insert(cmp, s, x)) == Ties(cmp, g, s) + Ties(cmp, g, [x])
  {
    if s == [] || !Le(cmp, s[0], x) {
      BelowAll(cmp, s, x);
      if Tied(cmp, g, x) {
        NoTies(cmp, g, s);
      }
      assert ([x] + s)[1..] == s;
    } else {
      InsertAfterTies(cmp, s[1..], x, g);
      assert ([s[0]] + Insert(cmp, s[1..], x))[1..] == Insert(cmp, s[1..], x);
    }
  }

  /** Sorting sorts, and is stable: equal elements keep their arrival order. */
  lemma {:induction false} InsertAllSortsStably(cmp: Compare, s: seq<Handle>, g: Item)
    requires TotalPreorder(cmp)
    ensures SortedBy(cmp, InsertAll(cmp, s))
    ensures Ties(cmp, g, InsertAll(cmp, s)) == Ties(cmp, g, s)
  {
    if s != [] {
      var s', x := s[..|s| - 1], s[|s| - 1];
      InsertAllSortsStably(cmp, s', g);
      InsertKeepsSorted(cmp, InsertAll(cmp, s'), x);
      InsertAfterTies(cmp, InsertAll(cmp, s'), x, g);
      TiesConcat(cmp, g, s', [x]);
      assert s == s' + [x];
    }
  }
}
