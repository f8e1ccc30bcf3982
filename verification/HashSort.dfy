/** HASH_SRT: the bottom-up mergesort that relinks the app-order list while it walks it. */
module HashSort {
  import opened Basics
  import opened Handles
  import opened StableOrder

  /** The output list under construction: linked both ways, except that the last `next` is stale. */
  ghost predicate OutList(s: seq<Handle>, list: Handle?, tail: Handle?)
    reads s
  {
    && Distinct(s)
    && list == At(s, 0)
    && tail == At(s, |s| - 1)
    && (forall i {:trigger s[i].prev} :: 0 <= i < |s| ==> s[i].prev == At(s, i - 1))
    && (forall i {:trigger s[i].next} :: 0 <= i < |s| - 1 ==> s[i].next == s[i + 1])
  }

  /** What is left of the left run: linked inside, with a `next` of its last node that may be stale. */
  ghost predicate LeftRun(s: seq<Handle>)
    reads s
  {
    && Distinct(s)
    && (forall i {:trigger s[i].next} :: 0 <= i < |s| - 1 ==> s[i].next == s[i + 1])
  }

  /** Step `q` past the left run: up to `insize` nodes. */
  method SkipRun(p: Handle, insize: nat, ghost rest: seq<Handle>) returns (q: Handle?, psize: nat)
    requires insize > 0 && rest != [] && rest[0] == p && NextList(rest)
    ensures psize == Min(insize, |rest|) && q == At(rest, psize)
  {
    q := p;
    psize := 0;
    while psize < insize
      invariant psize <= insize && psize < |rest| && q == rest[psize]
    {
      psize := psize + 1;
      q := q.next;
      if q == null {
        break;
      }
    }
  }

  /** Link `e` behind `tail`: the common end of the merge loop's body. */
  method Emit(e: Handle, list: Handle?, tail: Handle?, ghost out: seq<Handle>) returns (list': Handle?)
    requires OutList(out, list, tail) && e !in out
    modifies e`prev
    modifies (if out == [] then {} else {out[|out| - 1]})`next
    ensures OutList(out + [e], list', e)
  {
    list' := list;
    if tail != null {
      tail.next := e;
    } else {
      list' := e;
    }
    e.prev := tail;
  }

  /** The merge loop's heap invariant: `l` and `r` are still to be merged, `out` is done. */
  ghost predicate Merging(p: Handle?, q: Handle?, psize: nat, list: Handle?, tail: Handle?,
                          l: seq<Handle>, r: seq<Handle>, out: seq<Handle>)
    reads l, r, out
  {
    && |l| == psize && LeftRun(l) && (psize > 0 ==> p == l[0])
    && Distinct(r) && NextList(r) && q == At(r, 0)
    && OutList(out, list, tail)
    && Disjoint(l, r) && Disjoint(out, l) && Disjoint(out, r)
  }

  method TakeLeft(p: Handle, q: Handle?, psize: nat, list: Handle?, tail: Handle?,
                  ghost l: seq<Handle>, ghost r: seq<Handle>, ghost out: seq<Handle>)
    returns (p': Handle?, list': Handle?)
    requires psize > 0 && Merging(p, q, psize, list, tail, l, r, out)
    modifies p`prev
    modifies (if out == [] then {} else {out[|out| - 1]})`next
    ensures Merging(p', q, psize - 1, list', p, l[1..], r, out + [p])
  {
    p' := p.next;
    list' := Emit(p, list, tail, out);
  }

  method TakeRight(p: Handle?, q: Handle, psize: nat, list: Handle?, tail: Handle?,
                   ghost l: seq<Handle>, ghost r: seq<Handle>, ghost out: seq<Handle>)
    returns (q': Handle?, list': Handle?)
    requires Merging(p, q, psize, list, tail, l, r, out)
    modifies q`prev
    modifies (if out == [] then {} else {out[|out| - 1]})`next
    ensures Merging(p, q', psize, list', q, l, r[1..], out + [q])
  {
    q' := q.next;
    list' := Emit(q, list, tail, out);
  }

  ghost predicate Within(nodes: set<Handle>, s: seq<Handle>) {
    forall i :: 0 <= i < |s| ==> s[i] in nodes
  }

  lemma NothingToMerge(cmp: Compare)
    ensures Merge(cmp, [], []) == []
  {
  }

  lemma {:induction false} MergeTakeLeft(cmp: Compare, o: seq<Handle>, l: seq<Handle>, t: seq<Handle>)
    requires l != [] && (t == [] || Le(cmp, l[0], t[0]))
    ensures o + Merge(cmp, l, t) == (o + [l[0]]) + Merge(cmp, l[1..], t)
  {
    assert Merge(cmp, l, t) == [l[0]] + Merge(cmp, l[1..], t);
  }

  lemma {:induction false} MergeTakeRight(cmp: Compare, o: seq<Handle>, l: seq<Handle>, t: seq<Handle>, rest: seq<Handle>)
    requires t != [] && (l == [] || !Le(cmp, l[0], t[0]))
    ensures o + Merge(cmp, l, t) == (o + [t[0]]) + Merge(cmp, l, t[1..])
    ensures (t + rest)[1..] == t[1..] + rest
  {
    if l == [] {
      assert t == [t[0]] + t[1..];
    }
    var m := Merge(cmp, l, t[1..]);
    assert Merge(cmp, l, t) == [t[0]] + m;
    assert o + ([t[0]] + m) == (o + [t[0]]) + m;
  }

  /** Merge `psize` nodes from `p` with up to `qsize` nodes from `q`, appending to the output list;
      `run` and `rest` are the right run and what lies behind it. */
  method MergeRuns(cmp: Compare, p0: Handle?, q0: Handle?, psize0: nat, qsize0: nat,
                   list0: Handle?, tail0: Handle?, ghost nodes: set<Handle>,
                   ghost left: seq<Handle>, ghost run: seq<Handle>, ghost rest: seq<Handle>,
                   ghost out: seq<Handle>)
    returns (list: Handle?, tail: Handle?, q: Handle?)
    requires Merging(p0, q0, psize0, list0, tail0, left, run + rest, out)
    requires |run| == qsize0 || (|run| < qsize0 && rest == [])
    requires Within(nodes, out) && Within(nodes, left) && Within(nodes, run)
    modifies nodes`next, nodes`prev
    ensures Merging(null, q, 0, list, tail, [], rest, out + Merge(cmp, left, run))
  {
    hide Merge;
    list, tail, q := list0, tail0, q0;
    var p: Handle?, psize: nat, qsize: nat := p0, psize0, qsize0;
    ghost var o, l, t := out, left, run;
    while psize != 0 || (qsize != 0 && q != null)
      invariant Merging(p, q, psize, list, tail, l, t + rest, o)
      invariant |t| == qsize || (|t| < qsize && rest == [])
      invariant Within(nodes, o) && Within(nodes, l) && Within(nodes, t)
      invariant o + Merge(cmp, l, t) == out + Merge(cmp, left, run)
      decreases psize + |t|
    {
      var fromLeft :=
        if psize == 0 then false
        else if qsize == 0 || q == null then true
        else cmp(p.item, q.item) <= 0;
      if fromLeft {
        MergeTakeLeft(cmp, o, l, t);
        var e: Handle := p;
        p, list := TakeLeft(e, q, psize, list, tail, l, t + rest, o);
        psize, tail, l, o := psize - 1, e, l[1..], o + [e];
      } else {
        MergeTakeRight(cmp, o, l, t, rest);
        var e: Handle := q;
        q, list := TakeRight(p, e, psize, list, tail, l, t + rest, o);
        qsize, tail, t, o := qsize - 1, e, t[1..], o + [e];
      }
    }
    assert l == [] && t == [];
    assert Merge(cmp, l, t) == [] by { NothingToMerge(cmp); }
    assert t + rest == rest && o == out + Merge(cmp, left, run);
  }

  /** Between two merges: `rest` is still linked by `next` from `p`, `out` is the list built so far. */
  ghost predicate Passing(p: Handle?, list: Handle?, tail: Handle?, rest: seq<Handle>, out: seq<Handle>)
    reads rest, out
  {
    && Distinct(rest) && NextList(rest) && p == At(rest, 0)
    && OutList(out, list, tail)
    && Disjoint(out, rest)
  }

  lemma WithinMerge(cmp: Compare, nodes: set<Handle>, out: seq<Handle>, rest: seq<Handle>, m: nat, n: nat)
    requires m <= n <= |rest| && Within(nodes, rest) && Within(nodes, out)
    ensures Within(nodes, out + Merge(cmp, rest[..m], rest[m..n]))
    ensures Within(nodes, rest[n..])
  {
    var merged := Merge(cmp, rest[..m], rest[m..n]);
    MergePermutes(cmp, rest[..m], rest[m..n]);
    forall i | 0 <= i < |merged| ensures merged[i] in nodes {
      assert merged[i] in multiset(merged);
      assert merged[i] in rest[..m] || merged[i] in rest[m..n];
    }
  }

  lemma {:induction false} PassStep(cmp: Compare, out: seq<Handle>, rest: seq<Handle>, k: nat, m: nat, n: nat)
    requires k > 0 && rest != [] && m == Min(k, |rest|) && n == Min(2 * k, |rest|)
    ensures out + Pass(cmp, rest, k) == (out + Merge(cmp, rest[..m], rest[m..n])) + Pass(cmp, rest[n..], k)
  {
  }

  method EndList(list: Handle?, tail: Handle?, ghost out: seq<Handle>)
    requires OutList(out, list, tail)
    modifies (if out == [] then {} else {out[|out| - 1]})`next
    ensures AppList(out)
  {
    if tail != null {
      tail.next := null;
    }
  }

  /** Find the end of the left run, then merge it with the right one. */
  method MergePair(cmp: Compare, p: Handle, list0: Handle?, tail0: Handle?, insize: nat,
                   ghost nodes: set<Handle>, ghost rest: seq<Handle>, ghost out: seq<Handle>,
                   ghost m: nat, ghost n: nat)
    returns (list: Handle?, tail: Handle?, q: Handle?)
    requires insize > 0 && Passing(p, list0, tail0, rest, out)
    requires m == Min(insize, |rest|) && n == Min(2 * insize, |rest|)
    requires Within(nodes, rest) && Within(nodes, out)
    modifies nodes`next, nodes`prev
    ensures Passing(q, list, tail, rest[n..], out + Merge(cmp, rest[..m], rest[m..n]))
  {
    var psize: nat;
    q, psize := SkipRun(p, insize, rest);
    assert rest[m..n] + rest[n..] == rest[m..];
    list, tail, q := MergeRuns(cmp, p, q, psize, insize, list0, tail0, nodes,
      rest[..m], rest[m..n], rest[n..], out);
  }

  /** Merge the next pair of runs; `rest'` and `out'` are what is left and what is done then. */
  method MergeNext(cmp: Compare, p: Handle, list0: Handle?, tail0: Handle?, insize: nat,
                   ghost nodes: set<Handle>, ghost rest: seq<Handle>, ghost out: seq<Handle>)
    returns (list: Handle?, tail: Handle?, q: Handle?, ghost rest': seq<Handle>, ghost out': seq<Handle>)
    requires insize > 0 && Passing(p, list0, tail0, rest, out)
    requires Within(nodes, rest) && Within(nodes, out)
    modifies nodes`next, nodes`prev
    ensures Passing(q, list, tail, rest', out')
    ensures Within(nodes, rest') && Within(nodes, out')
    ensures |rest'| == |rest| - Min(2 * insize, |rest|)
    ensures out' + Pass(cmp, rest', insize) == out + Pass(cmp, rest, insize)
  {
    ghost var m, n := Min(insize, |rest|), Min(2 * insize, |rest|);
    WithinMerge(cmp, nodes, out, rest, m, n);
    PassStep(cmp, out, rest, insize, m, n);
    list, tail, q := MergePair(cmp, p, list0, tail0, insize, nodes, rest, out, m, n);
    rest', out' := rest[n..], out + Merge(cmp, rest[..m], rest[m..n]);
  }

  /** The loop of one pass over the whole list with runs of length `insize`. */
  method MergeAll(cmp: Compare, list0: Handle, insize: nat, ghost nodes: set<Handle>, ghost s: seq<Handle>)
    returns (list: Handle?, tail: Handle?, nmerges: nat, ghost out: seq<Handle>)
    requires insize > 0 && s != [] && s[0] == list0 && Distinct(s) && NextList(s) && Within(nodes, s)
    modifies nodes`next, nodes`prev
    ensures OutList(out, list, tail) && Within(nodes, out)
    ensures out == Pass(cmp, s, insize)
    ensures nmerges <= 1 <==> |s| <= 2 * insize
  {
    var p: Handle? := list0;
    list, tail, nmerges, out := null, null, 0, [];
    ghost var rest := s;
    while p != null
      invariant Passing(p, list, tail, rest, out)
      invariant Within(nodes, rest) && Within(nodes, out)
      invariant out + Pass(cmp, rest, insize) == Pass(cmp, s, insize)
      invariant nmerges == 0 ==> rest == s
      invariant nmerges == 1 ==> |rest| == |s| - Min(2 * insize, |s|)
      invariant nmerges > 1 ==> |s| > 2 * insize
      decreases |rest|
    {
      nmerges := nmerges + 1;
      list, tail, p, rest, out := MergeNext(cmp, p, list, tail, insize, nodes, rest, out);
    }
    assert out + [] == out;
  }

  /** One pass; `r` is the new order. */
  method MergePass(cmp: Compare, list0: Handle, insize: nat, ghost nodes: set<Handle>, ghost s: seq<Handle>)
    returns (list: Handle, tail: Handle, nmerges: nat, ghost r: seq<Handle>)
    requires insize > 0 && s != [] && s[0] == list0 && Distinct(s) && NextList(s) && Within(nodes, s)
    modifies nodes`next, nodes`prev
    ensures r == Pass(cmp, s, insize) && |r| == |s| && multiset(r) == multiset(s)
    ensures AppList(r) && list == r[0] && tail == r[|r| - 1] && Within(nodes, r)
    ensures nmerges <= 1 <==> |s| <= 2 * insize
  {
    var lst: Handle?, tl: Handle?;
    lst, tl, nmerges, r := MergeAll(cmp, list0, insize, nodes, s);
    PassPermutes(cmp, s, insize);
    EndList(lst, tl, r);
    list, tail := lst, tl;
  }

  /** One pass doubles the run length; with runs as long as the list the work is done. */
  lemma NextRuns(cmp: Compare, s: seq<Handle>, r: seq<Handle>, r': seq<Handle>, k: nat, k': nat)
    requires TotalPreorder(cmp) && k > 0 && k' == 2 * k && s != []
    requires r == Runs(cmp, s, k) && r' == Pass(cmp, r, k)
    ensures r' == Runs(cmp, s, k')
    ensures |s| <= k' ==> r' == InsertAll(cmp, s)
  {
    PassDoublesRuns(cmp, s, k);
    if |s| <= k' {
      WholeRun(cmp, s, k');
    }
  }

  /** HASH_SRT on a non-empty list: repeat passes with doubled runs until one merge does it all. */
  method Sort(cmp: Compare, head: Handle, ghost s: seq<Handle>)
    returns (list: Handle, tail: Handle, ghost r: seq<Handle>)
    requires TotalPreorder(cmp)
    requires s != [] && s[0] == head && AppList(s)
    modifies s`next, s`prev
    ensures r == InsertAll(cmp, s) && |r| == |s| && multiset(r) == multiset(s)
    ensures AppList(r) && list == r[0] && tail == r[|r| - 1]
  {
    hide Runs, InsertAll, Pass, TotalPreorder;
    UnitRuns(cmp, s);
    var insize, looping := 1, true;
    list, tail, r := head, head, s;
    ghost var nodes := set h | h in s;
    while looping
      invariant insize > 0
      invariant looping ==> r == Runs(cmp, s, insize) && |s| * 2 > insize
      invariant |r| == |s| && multiset(r) == multiset(s) && AppList(r) && list == r[0] && Within(nodes, r)
      invariant !looping ==> r == InsertAll(cmp, s) && tail == r[|r| - 1]
      decreases looping, 2 * |s| - insize
    {
      var nmerges: nat, tl: Handle;
      ghost var r0 := r;
      list, tl, nmerges, r := MergePass(cmp, list, insize, nodes, r);
      NextRuns(cmp, s, r0, r, insize, insize * 2);
      if nmerges <= 1 {
        looping := false;
        tail := tl;
      }
      insize := insize * 2;
    }
  }
}
