/** Whole runs of the hash table against a plain finite map. */
module HashRuns {
  import opened Arith
  import opened Basics
  import opened Handles
  import opened Buckets
  import Bloom
  import T = HashTable
  import F = HashFacts

  /** One client step; the flags say whether the allocations it may need succeed. */
  datatype Op =
    | FindKey(key: Key)
    | AddIfAbsent(item: Item, tableOk: bool, expandOk: bool)
    | ReplaceWith(item: Item, tableOk: bool, expandOk: bool)
    | Remove(key: Key)
  {
    function OpKey(): Key {
      match this
      case FindKey(k) => k
      case AddIfAbsent(i, _, _) => i.key
      case ReplaceWith(i, _, _) => i.key
      case Remove(k) => k
    }

    predicate MayFail() {
      (AddIfAbsent? || ReplaceWith?) && (!tableOk || !expandOk)
    }
  }

  /** What a step reports: the item found under its key, and whether memory ran out. */
  datatype Outcome = Outcome(found: Option<Value>, oomed: bool)

  // ---- the reference: a finite map ----

  type Dict = map<Key, Value>

  function Get(m: Dict, k: Key): Option<Value> {
    if k in m then Some(m[k]) else None
  }

  function StepMap(m: Dict, op: Op, oomed: bool): Dict {
    match op
    case FindKey(_) => m
    case AddIfAbsent(i, _, _) => if i.key in m || oomed then m else m[i.key := i.val]
    case ReplaceWith(i, _, _) => if oomed then m - {i.key} else m[i.key := i.val]
    case Remove(k) => m - {k}
  }

  function RunMap(ops: seq<Op>, outs: seq<Outcome>): Dict
    requires |outs| == |ops|
  {
    if ops == [] then map[]
    else
      var n := |ops| - 1;
      StepMap(RunMap(ops[..n], outs[..n]), ops[n], outs[n].oomed)
  }

  // ---- insertion order of the live items ----

  function Drop(s: seq<Item>, k: Key): seq<Item> {
    if s == [] then []
    else if s[0].key == k then Drop(s[1..], k)
    else [s[0]] + Drop(s[1..], k)
  }

  predicate Has(s: seq<Item>, k: Key) {
    exists i :: 0 <= i < |s| && s[i].key == k
  }

  function StepOrder(s: seq<Item>, op: Op, oomed: bool): seq<Item> {
    match op
    case FindKey(_) => s
    case AddIfAbsent(i, _, _) => if Has(s, i.key) || oomed then s else s + [i]
    case ReplaceWith(i, _, _) => Drop(s, i.key) + if oomed then [] else [i]
    case Remove(k) => Drop(s, k)
  }

  function RunOrder(ops: seq<Op>, outs: seq<Outcome>): seq<Item>
    requires |outs| == |ops|
  {
    if ops == [] then []
    else
      var n := |ops| - 1;
      StepOrder(RunOrder(ops[..n], outs[..n]), ops[n], outs[n].oomed)
  }

  /** The items of a list, as a map. */
  ghost predicate Lists(s: seq<Item>, m: Dict) {
    && (forall i, j :: 0 <= i < j < |s| ==> s[i].key != s[j].key)
    && (forall i :: 0 <= i < |s| ==> s[i].key in m && m[s[i].key] == s[i].val)
    && (forall k :: k in m ==> Has(s, k))
  }

  lemma {:induction false} DropDrops(s: seq<Item>, k: Key)
    ensures forall i :: 0 <= i < |Drop(s, k)| ==> Drop(s, k)[i] in s && Drop(s, k)[i].key != k
    ensures forall i :: 0 <= i < |s| && s[i].key != k ==> s[i] in Drop(s, k)
    ensures (forall i, j :: 0 <= i < j < |s| ==> s[i].key != s[j].key) ==>
              forall i, j :: 0 <= i < j < |Drop(s, k)| ==> Drop(s, k)[i].key != Drop(s, k)[j].key
  {
    if s != [] {
      var r := Drop(s[1..], k);
      DropDrops(s[1..], k);
      assert s == [s[0]] + s[1..];
      assert forall j :: 0 <= j < |r| ==> r[j] in s[1..];
    }
  }

  lemma DropLists(s: seq<Item>, m: Dict, k: Key)
    requires Lists(s, m)
    ensures Lists(Drop(s, k), m - {k})
  {
    DropDrops(s, k);
    var r := Drop(s, k);
    forall x | x in m - {k} ensures Has(r, x) {
      var i :| 0 <= i < |s| && s[i].key == x;
      assert s[i] in r;
    }
  }

  lemma AppendLists(s: seq<Item>, m: Dict, i: Item)
    requires Lists(s, m) && !Has(s, i.key)
    ensures Lists(s + [i], m[i.key := i.val])
  {
    var r := s + [i];
    assert r[|s|] == i;
    forall x | x in m[i.key := i.val] ensures Has(r, x) {
      if x in m {
        var j :| 0 <= j < |s| && s[j].key == x;
        assert r[j].key == x;
      }
    }
  }

  lemma StepLists(s: seq<Item>, m: Dict, op: Op, oomed: bool)
    requires Lists(s, m)
    ensures Lists(StepOrder(s, op, oomed), StepMap(m, op, oomed))
  {
    match op
    case FindKey(_) =>
    case AddIfAbsent(i, _, _) =>
      if i.key !in m && !oomed {
        AppendLists(s, m, i);
      }
    case ReplaceWith(i, _, _) =>
      DropLists(s, m, i.key);
      var r := Drop(s, i.key);
      if oomed {
        assert r + [] == r;
      } else {
        DropDrops(s, i.key);
        AppendLists(r, m - {i.key}, i);
        assert (m - {i.key})[i.key := i.val] == m[i.key := i.val];
      }
    case Remove(k) => DropLists(s, m, k);
  }

  /** The live items in insertion order are the contents of the map, once each. */
  lemma {:induction false} RunLists(ops: seq<Op>, outs: seq<Outcome>)
    requires |outs| == |ops|
    ensures Lists(RunOrder(ops, outs), RunMap(ops, outs))
  {
    if ops != [] {
      var n := |ops| - 1;
      RunLists(ops[..n], outs[..n]);
      StepLists(RunOrder(ops[..n], outs[..n]), RunMap(ops[..n], outs[..n]), ops[n], outs[n].oomed);
    }
  }

  lemma {:induction false} ListsCount(s: seq<Item>, m: Dict)
    requires Lists(s, m)
    ensures |m| == |s|
  {
    if s == [] {
      assert forall k :: k !in m;
      assert m == map[];
    } else {
      var n := |s| - 1;
      var k := s[n].key;
      var m' := m - {k};
      forall x | x in m' ensures Has(s[..n], x) {
        var i :| 0 <= i < |s| && s[i].key == x;
        assert s[..n][i].key == x;
      }
      ListsCount(s[..n], m');
      assert m.Keys == m'.Keys + {k};
    }
  }

  // ---- the table refines the reference ----

  ghost function Items(s: seq<Handle>): (r: seq<Item>)
    ensures |r| == |s| && forall i :: 0 <= i < |s| ==> r[i] == s[i].item
  {
    seq(|s|, i requires 0 <= i < |s| => s[i].item)
  }

  lemma {:induction false} LookupItems(s: seq<Handle>, m: Dict, k: Key)
    requires Lists(Items(s), m)
    ensures T.Lookup(s, k) == null <==> k !in m
    ensures T.Lookup(s, k) != null ==> T.Lookup(s, k).item.key == k && T.Lookup(s, k).item.val == m[k]
    ensures T.Lookup(s, k) != null ==> T.Lookup(s, k) in s
  {
    T.LookupAbsent(s, k);
    if T.Lookup(s, k) != null {
      T.LookupIn(s, k);
      var i :| 0 <= i < |s| && s[i] == T.Lookup(s, k);
      assert Items(s)[i] == s[i].item;
    }
  }

  lemma ItemsTail(s: seq<Handle>, t: seq<Handle>)
    ensures Items(s + t) == Items(s) + Items(t)
    ensures s != [] ==> Items(s)[1..] == Items(s[1..])
  {
  }

  lemma {:induction false} DropAbsent(s: seq<Item>, k: Key)
    requires !Has(s, k)
    ensures Drop(s, k) == s
  {
    if s != [] {
      assert s[0].key != k;
      forall i | 0 <= i < |s[1..]| ensures s[1..][i].key != k {
        assert s[1..][i] == s[i + 1];
      }
      DropAbsent(s[1..], k);
    }
  }

  /** Removing the looked-up handle is dropping its key. */
  lemma {:induction false} WithoutItems(s: seq<Handle>, k: Key)
    requires T.UniqueKeys(s)
    ensures Drop(Items(s), k) == Items(if T.Lookup(s, k) == null then s else Without(s, T.Lookup(s, k)))
  {
    if s == [] {
    } else if s[0].item.key == k {
      ItemsTail(s, []);
      DropAbsent(Items(s[1..]), k);
    } else {
      var r, h := s[1..], T.Lookup(s, k);
      ItemsTail(s, []);
      WithoutItems(r, k);
      if h != null {
        T.LookupIn(r, k);
        ItemsTail([s[0]], Without(r, h));
        assert Without(s, h) == [s[0]] + Without(r, h);
      } else {
        ItemsTail([s[0]], r);
        assert s == [s[0]] + r;
      }
    }
  }

  /** One client step on the table. */
  method Step(t: T.HashTable, op: Op, ghost m: Dict) returns (out: Outcome)
    requires t.Valid() && Lists(Items(t.order), m)
    modifies t, t.buckets, t.order`next, t.order`prev, Members(t.chains)`hhNext, Members(t.chains)`hhPrev
    ensures t.Valid() && Items(t.order) == StepOrder(old(Items(t.order)), op, out.oomed)
    ensures out.found == Get(m, op.OpKey()) && (out.oomed ==> op.MayFail())
    ensures t.buckets == old(t.buckets) || fresh(t.buckets)
    ensures forall i :: 0 <= i < |t.order| ==> t.order[i] in old(t.order) || fresh(t.order[i])
  {
    hide T.HashTable.Valid, Lists, Drop, T.Lookup, Without, T.UniqueKeys, Has;
    ghost var s := t.order;
    t.Facts();
    var h := t.Find(op.OpKey());
    FoundItems(s, m, op.OpKey(), h);
    out := Outcome(if h == null then None else Some(h.item.val), false);
    match op {
      case FindKey(_) =>
      case AddIfAbsent(item, tableOk, expandOk) =>
        if h == null {
          var add := new Handle(item);
          var oomed := t.Add(add, tableOk, expandOk);
          out := out.(oomed := oomed);
          ItemsTail(s, [add]);
        }
      case ReplaceWith(item, tableOk, expandOk) =>
        var add := new Handle(item);
        var _, oomed := t.Replace(add, tableOk, expandOk);
        out := out.(oomed := oomed);
        ItemsTail(if h == null then s else Without(s, h), if oomed then [] else [add]);
      case Remove(k) =>
        if h != null {
          t.Delete(h);
        }
    }
  }

  lemma FoundItems(s: seq<Handle>, m: Dict, k: Key, h: Handle?)
    requires Lists(Items(s), m) && T.UniqueKeys(s)
    requires if h == null then forall i :: 0 <= i < |s| ==> s[i].item.key != k else h in s && h.item.key == k
    ensures Get(m, k) == if h == null then None else Some(h.item.val)
    ensures T.Lookup(s, k) == h && (h == null <==> !Has(Items(s), k))
    ensures Drop(Items(s), k) == Items(if h == null then s else Without(s, h))
  {
    T.LookupFound(s, k, h);
    LookupItems(s, m, k);
    WithoutItems(s, k);
    forall i | 0 <= i < |s| ensures Items(s)[i].key == s[i].item.key {}
  }

  lemma RunMore(ops: seq<Op>, outs: seq<Outcome>, i: nat, out: Outcome)
    requires i < |ops| && |outs| == i
    ensures RunMap(ops[..i + 1], outs + [out]) == StepMap(RunMap(ops[..i], outs), ops[i], out.oomed)
    ensures RunOrder(ops[..i + 1], outs + [out]) == StepOrder(RunOrder(ops[..i], outs), ops[i], out.oomed)
  {
    assert ops[..i + 1][..i] == ops[..i] && (outs + [out])[..i] == outs;
  }

  /** What a whole run reports: each step finds what the map held then. */
  ghost predicate Faithful(ops: seq<Op>, outs: seq<Outcome>) {
    && |outs| == |ops|
    && forall i :: 0 <= i < |ops| ==>
         && outs[i].found == Get(RunMap(ops[..i], outs[..i]), ops[i].OpKey())
         && (outs[i].oomed ==> ops[i].MayFail())
  }

  lemma FaithfulMore(ops: seq<Op>, outs: seq<Outcome>, i: nat, out: Outcome)
    requires i < |ops| && Faithful(ops[..i], outs)
    requires out.found == Get(RunMap(ops[..i], outs), ops[i].OpKey()) && (out.oomed ==> ops[i].MayFail())
    ensures Faithful(ops[..i + 1], outs + [out])
  {
    var ops', outs' := ops[..i + 1], outs + [out];
    forall j | 0 <= j < |ops'|
      ensures outs'[j].found == Get(RunMap(ops'[..j], outs'[..j]), ops'[j].OpKey())
      ensures outs'[j].oomed ==> ops'[j].MayFail()
    {
      assert ops'[..j] == ops[..i][..j];
      if j < i {
        assert outs'[..j] == outs[..j];
      } else {
        assert outs'[..j] == outs && ops'[..j] == ops[..i];
      }
    }
  }

  /** Any run from the empty table: lookups agree with the map, the app order is the insertion order of
      the live items, HASH_COUNT is the size of the map, and expansion has been given up exactly after two
      ineffective expansions in a row. */
  method Run(hash: Hash, bloom: Bloom.Config, ops: seq<Op>)
    returns (t: T.HashTable, outs: seq<Outcome>, count: nat)
    ensures fresh(t) && t.Valid() && Faithful(ops, outs)
    ensures Items(t.order) == RunOrder(ops, outs)
    ensures Lists(Items(t.order), RunMap(ops, outs))
    ensures count == |RunMap(ops, outs)|
    ensures t.head != null ==> (t.noexpand <==> T.TwiceIneffective(t.growths)) && |t.chains| == 32 * Pow2(|t.growths|)
  {
    hide T.HashTable.Valid, Lists, RunMap, RunOrder, StepMap, StepOrder, Faithful;
    t := new T.HashTable(hash, bloom);
    outs := [];
    RunNothing(ops);
    for i := 0 to |ops|
      invariant fresh(t) && t.Valid() && fresh(t.buckets)
      invariant forall k :: 0 <= k < |t.order| ==> fresh(t.order[k])
      invariant |outs| == i && Faithful(ops[..i], outs)
      invariant Items(t.order) == RunOrder(ops[..i], outs)
    {
      ghost var m := RunMap(ops[..i], outs);
      RunLists(ops[..i], outs);
      t.Facts();
      var out := Step(t, ops[i], m);
      RunMore(ops, outs, i, out);
      FaithfulMore(ops, outs, i, out);
      outs := outs + [out];
    }
    assert ops[..|ops|] == ops;
    RunLists(ops, outs);
    ListsCount(Items(t.order), RunMap(ops, outs));
    ghost var nodes := Members(t.chains);
    count := t.Count();
    if t.head != null {
      F.GivenUpIff(t);
    }
  }

  lemma RunNothing(ops: seq<Op>)
    ensures Faithful(ops[..0], []) && RunOrder(ops[..0], []) == []
  {
  }
}
