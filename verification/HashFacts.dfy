/** Consequences of the table invariant: the HASH_FSCK totals, chain lengths after an expansion,
    and runs of ordered additions. */
module HashFacts {
  import opened Arith
  import opened GearBits
  import opened Basics
  import opened Handles
  import opened StableOrder
  import opened Buckets
  import Bloom
  import opened HashTable

  ghost function TotalLength(cs: seq<seq<Handle>>): nat {
    if cs == [] then 0 else TotalLength(cs[..|cs| - 1]) + |cs[|cs| - 1]|
  }

  lemma {:induction false} ShorterChain(cs: seq<seq<Handle>>, t: nat, c: seq<Handle>)
    requires t < |cs| && |c| + 1 == |cs[t]|
    ensures TotalLength(cs[t := c]) + 1 == TotalLength(cs)
  {
    var n := |cs| - 1;
    var ds := cs[t := c];
    if t == n {
      assert ds[..n] == cs[..n];
    } else {
      ShorterChain(cs[..n], t, c);
      assert ds[..n] == cs[..n][t := c];
    }
  }

  lemma {:induction false} SomeItem(cs: seq<seq<Handle>>) returns (t: nat, h: Handle)
    requires TotalLength(cs) > 0
    ensures t < |cs| && |cs[t]| > 0 && cs[t][0] == h
  {
    var n := |cs| - 1;
    if cs[n] != [] {
      t, h := n, cs[n][0];
    } else {
      t, h := SomeItem(cs[..n]);
    }
  }

  /** The bucket chains together are as long as the app-order list. */
  lemma {:induction false} ChainsHoldAll(hash: Hash, s: seq<Handle>, cs: seq<seq<Handle>>)
    requires |cs| > 0 && Same(hash, s, cs) && Placed(hash, cs) && Distinct(s)
    ensures TotalLength(cs) == |s|
    decreases |s|
  {
    if s == [] {
      if TotalLength(cs) > 0 {
        var t, h := SomeItem(cs);
        assert false;
      }
    } else {
      var h := s[0];
      var t := Home(hash, h, |cs|);
      WithoutSame(hash, s, h, cs, t);
      PlacedWithout(hash, cs, t, h);
      WithoutLength(cs[t], h);
      ShorterChain(cs, t, Without(cs[t], h));
      ChainsHoldAll(hash, s[1..], cs[t := Without(cs[t], h)]);
    }
  }

  /** HASH_FSCK: the bucket counts add up to `num_items`, and so does the app order. */
  lemma CountsAddUp(t: HashTable)
    requires t.Valid() && t.head != null
    ensures forall b :: 0 <= b < t.buckets.Length ==> t.buckets[b].count == |t.chains[b]|
    ensures TotalLength(t.chains) == t.numItems == |t.order|
  {
    ChainsHoldAll(t.hash, t.order, t.chains);
  }

  /** Right after an expansion no chain is longer than (expand_mult + 1) * ideal_chain_maxlen. */
  lemma ExpandedChainsBounded(t: HashTable, log2: nat)
    requires t.Valid() && t.head != null
    requires t.Expanded(log2)
    ensures forall b :: 0 <= b < t.buckets.Length ==>
              |t.chains[b]| <= (t.buckets[b].expandMult + 1) * t.idealChainMaxlen
  {
    IdealIsCeiling(t.numItems, log2, 0);
    forall b | 0 <= b < t.buckets.Length
      ensures |t.chains[b]| <= (t.buckets[b].expandMult + 1) * t.idealChainMaxlen
    {
      MultCovers(t.buckets[b].count, t.idealChainMaxlen);
    }
  }

  /** An add doubles the table exactly when it makes its chain at least ten times as long as the multiplier plus one,
      and expansion has not been given up. */
  lemma ExpandsAtTen(t: HashTable, add: Handle)
    requires t.Valid() && t.head != null
    ensures |t.chains| == t.buckets.Length > 0
    ensures var b := Home(t.hash, add, |t.chains|);
            t.AddExpands(add) <==> !t.noexpand && |t.chains[b]| + 1 >= 10 * (t.buckets[b].expandMult + 1)
  {
    t.Shape(t.order);
  }

  /** Expansion is given up exactly when two expansions in a row have been ineffective; each has doubled the table. */
  lemma GivenUpIff(t: HashTable)
    requires t.Valid() && t.head != null
    ensures t.noexpand <==> exists j :: 0 < j < |t.growths| && t.growths[j - 1].Ineffective() && t.growths[j].Ineffective()
    ensures |t.chains| == 32 * Pow2(|t.growths|)
  {
    t.Shape(t.order);
    Pow2Sum(5, |t.growths|);
    Bloom.Pow2Five();
  }

  /** Masking with 2^k - 1 takes the remainder, as HASH_TO_BKT and the ideal length rely on. */
  lemma {:induction false} MaskIsRemainder(x: nat, k: nat)
    ensures And(x, Pow2(k) - 1) == x % Pow2(k)
  {
    if k > 0 {
      var m := Pow2(k - 1);
      MaskIsRemainder(x / 2, k - 1);
      Halves(x, m);
      assert (2 * m - 1) / 2 == m - 1 && (2 * m - 1) % 2 == 1;
    }
  }

  /** HASH_TO_BKT masks the hash value. */
  lemma ToBktIsMask(hashv: nat, k: nat)
    ensures ToBkt(hashv, Pow2(k)) == And(hashv, Pow2(k) - 1)
  {
    MaskIsRemainder(hashv, k);
  }

  /** A Bloom filter bit is addressed by the masked hash value. */
  lemma BloomIndexIsMask(nbits: nat, hashv: nat)
    ensures Bloom.Index(nbits, hashv) == And(hashv, Pow2(nbits) - 1)
  {
    MaskIsRemainder(hashv, nbits);
  }

  // ---- runs of HASH_ADD_INORDER and HASH_DELETE ----

  /** A client adds an element unless its key is taken, and deletes what it finds under a key;
      the flags say whether the allocations an addition may need succeed. */
  datatype OrderOp =
    | InAdd(h: Handle, tableOk: bool, expandOk: bool)
    | InDelete(key: Key)

  ghost function Removed(s: seq<Handle>, key: Key): seq<Handle> {
    if Lookup(s, key) == null then s else Without(s, Lookup(s, key))
  }

  /** Whether the operation adds its element: the key is free, and memory has not run out. */
  ghost predicate Adds(s: seq<Handle>, op: OrderOp, oomed: bool) {
    op.InAdd? && Lookup(s, op.h.item.key) == null && !oomed
  }

  ghost function InorderStep(cmp: Compare, s: seq<Handle>, op: OrderOp, oomed: bool): seq<Handle> {
    match op
    case InAdd(h, _, _) => if Adds(s, op, oomed) then Insert(cmp, s, h) else s
    case InDelete(k) => Removed(s, k)
  }

  /** The same with a plain addition. */
  ghost function PlainStep(s: seq<Handle>, op: OrderOp, oomed: bool): seq<Handle> {
    match op
    case InAdd(h, _, _) => if Adds(s, op, oomed) then s + [h] else s
    case InDelete(k) => Removed(s, k)
  }

  /** The app order after a run; `ooms` says which operations ran out of memory. */
  ghost function InorderRun(cmp: Compare, ops: seq<OrderOp>, ooms: seq<bool>): seq<Handle>
    requires |ooms| == |ops|
  {
    if ops == [] then []
    else
      var n := |ops| - 1;
      InorderStep(cmp, InorderRun(cmp, ops[..n], ooms[..n]), ops[n], ooms[n])
  }

  ghost function PlainRun(ops: seq<OrderOp>, ooms: seq<bool>): seq<Handle>
    requires |ooms| == |ops|
  {
    if ops == [] then []
    else
      var n := |ops| - 1;
      PlainStep(PlainRun(ops[..n], ooms[..n]), ops[n], ooms[n])
  }

  lemma {:induction false} WithoutSubset(s: seq<Handle>, h: Handle)
    ensures forall j :: 0 <= j < |Without(s, h)| ==> Without(s, h)[j] in s
  {
    if s != [] && s[0] != h {
      WithoutSubset(s[1..], h);
    }
  }

  /** Deleting another element commutes with an ordered insertion into a sorted list. */
  lemma {:induction false} WithoutPastInsert(cmp: Compare, s: seq<Handle>, x: Handle, h: Handle)
    requires TotalPreorder(cmp) && SortedBy(cmp, s) && h != x
    ensures Without(Insert(cmp, s, x), h) == Insert(cmp, Without(s, h), x)
  {
    if s == [] {
    } else if !Le(cmp, s[0], x) {
      BelowAll(cmp, s, x);
      WithoutSubset(s, h);
      var r := Without(s, h);
      if r != [] {
        assert r[0] in s;
        var k :| 0 <= k < |s| && s[k] == r[0];
      }
      assert ([x] + s)[1..] == s;
    } else {
      var i := Insert(cmp, s[1..], x);
      assert ([s[0]] + i)[1..] == i;
      WithoutPastInsert(cmp, s[1..], x, h);
    }
  }

  lemma {:induction false} WithoutAppend(s: seq<Handle>, x: Handle, h: Handle)
    requires h != x
    ensures Without(s + [x], h) == Without(s, h) + [x]
  {
    if s != [] {
      assert (s + [x])[1..] == s[1..] + [x];
      WithoutAppend(s[1..], x, h);
    }
  }

  /** Deleting before sorting is deleting after sorting. */
  lemma {:induction false} WithoutInsertAll(cmp: Compare, s: seq<Handle>, h: Handle)
    requires TotalPreorder(cmp) && Distinct(s)
    ensures Without(InsertAll(cmp, s), h) == InsertAll(cmp, Without(s, h))
  {
    if s != [] {
      var s', x := s[..|s| - 1], s[|s| - 1];
      var r := InsertAll(cmp, s');
      assert s == s' + [x];
      InsertAllPermutes(cmp, s');
      InsertAllSortsStably(cmp, s', x.item);
      if x == h {
        assert h !in multiset(s');
        assert h !in multiset(r);
        WithoutInsert(cmp, r, h);
        WithoutLast(s', h);
      } else {
        WithoutPastInsert(cmp, r, x, h);
        WithoutInsertAll(cmp, s', h);
        WithoutAppend(s', x, h);
        var w := Without(s', h);
        assert (w + [x])[..|w|] == w;
      }
    }
  }

  lemma KeysDistinct(s: seq<Handle>)
    requires UniqueKeys(s)
    ensures Distinct(s)
  {
  }

  /** Where `s` has unique keys, so has the list with an element under a new key added, and with a key removed. */
  lemma StepKeys(cmp: Compare, s: seq<Handle>, op: OrderOp, oomed: bool)
    requires UniqueKeys(s)
    ensures UniqueKeys(PlainStep(s, op, oomed)) && UniqueKeys(InorderStep(cmp, s, op, oomed))
  {
    KeysDistinct(s);
    match op {
      case InAdd(h, _, _) =>
        if Adds(s, op, oomed) {
          LookupAbsent(s, h.item.key);
          InsertFits(cmp, s, h);
        }
      case InDelete(k) =>
        if Lookup(s, k) != null {
          WithoutKeys(s, Lookup(s, k));
        }
    }
  }

  lemma {:induction false} RunKeys(cmp: Compare, ops: seq<OrderOp>, ooms: seq<bool>)
    requires |ooms| == |ops|
    ensures UniqueKeys(PlainRun(ops, ooms)) && UniqueKeys(InorderRun(cmp, ops, ooms))
  {
    hide PlainStep, InorderStep;
    if ops != [] {
      var n := |ops| - 1;
      RunKeys(cmp, ops[..n], ooms[..n]);
      StepKeys(cmp, PlainRun(ops[..n], ooms[..n]), ops[n], ooms[n]);
      StepKeys(cmp, InorderRun(cmp, ops[..n], ooms[..n]), ops[n], ooms[n]);
    }
  }

  /** A search does not depend on the order of the list. */
  lemma LookupPermuted(s: seq<Handle>, r: seq<Handle>, key: Key)
    requires UniqueKeys(s) && UniqueKeys(r) && multiset(s) == multiset(r)
    ensures Lookup(s, key) == Lookup(r, key)
  {
    var h := Lookup(s, key);
    LookupAbsent(s, key);
    if h != null {
      LookupIn(s, key);
      assert h in multiset(s);
    } else {
      forall i | 0 <= i < |r| ensures r[i].item.key != key {
        assert r[i] in multiset(r);
        assert r[i] in s;
      }
    }
    LookupFound(r, key, h);
  }

  /** An operation on the sorted list does what it does to the plain list, sorted. */
  lemma StepSorted(cmp: Compare, s: seq<Handle>, op: OrderOp, oomed: bool)
    requires TotalPreorder(cmp) && UniqueKeys(s) && UniqueKeys(InsertAll(cmp, s))
    ensures InorderStep(cmp, InsertAll(cmp, s), op, oomed) == InsertAll(cmp, PlainStep(s, op, oomed))
  {
    hide TotalPreorder, Lookup, Without, UniqueKeys, Distinct;
    var r := InsertAll(cmp, s);
    InsertAllPermutes(cmp, s);
    LookupPermuted(s, r, if op.InAdd? then op.h.item.key else op.key);
    KeysDistinct(s);
    if op.InAdd? {
      assert (s + [op.h])[..|s|] == s;
    } else if Lookup(s, op.key) != null {
      WithoutInsertAll(cmp, s, Lookup(s, op.key));
    }
  }

  /** Any run of ordered additions and deletions, with any failures, leaves exactly what plain additions and
      deletions followed by one HASH_SORT leave. */
  lemma {:induction false} InorderRunIsSortedRun(cmp: Compare, ops: seq<OrderOp>, ooms: seq<bool>)
    requires TotalPreorder(cmp) && |ooms| == |ops|
    ensures InorderRun(cmp, ops, ooms) == InsertAll(cmp, PlainRun(ops, ooms))
  {
    hide TotalPreorder, PlainStep, InorderStep, InsertAll;
    if ops == [] {
      NothingSorted(cmp);
    } else {
      var n := |ops| - 1;
      InorderRunIsSortedRun(cmp, ops[..n], ooms[..n]);
      RunKeys(cmp, ops[..n], ooms[..n]);
      StepSorted(cmp, PlainRun(ops[..n], ooms[..n]), ops[n], ooms[n]);
    }
  }

  /** Such a run keeps the list sorted, with equal elements in arrival order. */
  lemma InorderRunIsStable(cmp: Compare, ops: seq<OrderOp>, ooms: seq<bool>, g: Item)
    requires TotalPreorder(cmp) && |ooms| == |ops|
    ensures SortedBy(cmp, InorderRun(cmp, ops, ooms))
    ensures Ties(cmp, g, InorderRun(cmp, ops, ooms)) == Ties(cmp, g, PlainRun(ops, ooms))
  {
    hide TotalPreorder, InorderRun, PlainRun, InsertAll, SortedBy, Ties;
    InorderRunIsSortedRun(cmp, ops, ooms);
    InsertAllSortsStably(cmp, PlainRun(ops, ooms), g);
  }

  lemma NothingSorted(cmp: Compare)
    ensures InsertAll(cmp, []) == []
  {
  }

  ghost predicate From(s: seq<Handle>, nodes: set<Handle>) {
    forall k :: 0 <= k < |s| ==> s[k] in nodes
  }

  /** The elements a run may add. */
  ghost function Added(ops: seq<OrderOp>): set<Handle> {
    set i | 0 <= i < |ops| && ops[i].InAdd? :: ops[i].h
  }

  /** One client operation on the table. */
  method OrderedStep(t: HashTable, cmp: Compare, op: OrderOp) returns (oomed: bool)
    requires t.Valid()
    modifies t, t.buckets, t.order`next, t.order`prev, Members(t.chains)`hhNext, Members(t.chains)`hhPrev
    modifies if op.InAdd? then {op.h} else {}
    ensures t.Valid() && t.order == InorderStep(cmp, old(t.order), op, oomed)
    ensures oomed ==> op.InAdd? && (!op.tableOk || !op.expandOk)
    ensures t.buckets == old(t.buckets) || fresh(t.buckets)
    ensures forall k :: 0 <= k < |t.order| ==> t.order[k] in old(t.order) || (op.InAdd? && t.order[k] == op.h)
  {
    hide HashTable.Valid, Insert, Lookup, Without, UniqueKeys, Distinct;
    t.Facts();
    var key := match op case InAdd(h, _, _) => h.item.key case InDelete(k) => k;
    var found := t.Find(key);
    LookupFound(t.order, key, found);
    oomed := false;
    match op {
      case InAdd(h, tableOk, expandOk) =>
        if found == null {
          InsertFrom(cmp, t.order, h);
          oomed := t.AddInorder(cmp, h, tableOk, expandOk);
        }
      case InDelete(_) =>
        if found != null {
          WithoutSubset(t.order, found);
          t.Delete(found);
        }
    }
  }

  /** Any run of ordered adds and deletes on an empty table: its app order is that of plain adds and deletes,
      with the same failures, followed by one sort. */
  method RunInorder(t: HashTable, cmp: Compare, ops: seq<OrderOp>) returns (ooms: seq<bool>)
    requires t.Valid() && t.order == [] && TotalPreorder(cmp)
    modifies t, t.buckets, Added(ops)
    ensures |ooms| == |ops|
    ensures forall i :: 0 <= i < |ops| && ooms[i] ==> ops[i].InAdd? && (!ops[i].tableOk || !ops[i].expandOk)
    ensures t.Valid() && t.order == InorderRun(cmp, ops, ooms) == InsertAll(cmp, PlainRun(ops, ooms))
  {
    hide HashTable.Valid, TotalPreorder, InorderRun, InorderStep, InsertAll, Insert, PlainRun;
    t.Facts();
    ooms := [];
    NoOps(cmp, ops);
    for i := 0 to |ops|
      invariant t.Valid() && |ooms| == i && t.order == InorderRun(cmp, ops[..i], ooms)
      invariant forall k :: 0 <= k < i && ooms[k] ==> ops[k].InAdd? && (!ops[k].tableOk || !ops[k].expandOk)
      invariant t.buckets == old(t.buckets) || fresh(t.buckets)
      invariant From(t.order, Added(ops))
    {
      t.Facts();
      ghost var was := t.order;
      var oomed := OrderedStep(t, cmp, ops[i]);
      RunMore(cmp, ops, ooms, i, oomed);
      ooms := ooms + [oomed];
    }
    assert ops[..|ops|] == ops;
    InorderRunIsSortedRun(cmp, ops, ooms);
  }

  lemma NoOps(cmp: Compare, ops: seq<OrderOp>)
    ensures InorderRun(cmp, ops[..0], []) == []
  {
  }

  lemma RunMore(cmp: Compare, ops: seq<OrderOp>, ooms: seq<bool>, i: nat, oomed: bool)
    requires i < |ops| && |ooms| == i
    ensures InorderRun(cmp, ops[..i + 1], ooms + [oomed])
         == InorderStep(cmp, InorderRun(cmp, ops[..i], ooms), ops[i], oomed)
  {
    assert ops[..i + 1][..i] == ops[..i] && (ooms + [oomed])[..i] == ooms;
  }

  lemma InsertFrom(cmp: Compare, s: seq<Handle>, x: Handle)
    ensures forall k :: 0 <= k < |Insert(cmp, s, x)| ==> Insert(cmp, s, x)[k] == x || Insert(cmp, s, x)[k] in s
  {
    InsertLength(cmp, s, x);
    var r := Insert(cmp, s, x);
    forall k | 0 <= k < |r| ensures r[k] == x || r[k] in s {
      assert r[k] in multiset(r);
    }
  }
}
