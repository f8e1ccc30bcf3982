/** The hash table: a head pointer plus the `UT_hash_table` it leads to. */
module HashTable {
  import opened Arith
  import opened Basics
  import opened Handles
  import opened StableOrder
  import opened Buckets
  import opened AppOrder
  import opened Bloom
  import HashSort

  const INITIAL_NUM_BUCKETS := 32
  const INITIAL_NUM_BUCKETS_LOG2 := 5
  const BKT_CAPACITY_THRESH := 10

  /** The chains hold exactly the handles `s`. */
  ghost predicate Same(hash: Hash, s: seq<Handle>, cs: seq<seq<Handle>>)
    requires |cs| > 0
  {
    && (forall i :: 0 <= i < |s| ==> s[i] in cs[Home(hash, s[i], |cs|)])
    && (forall t, k :: 0 <= t < |cs| && 0 <= k < |cs[t]| ==> cs[t][k] in s)
  }

  /** Doubling keeps the item set and sends bucket `b` only to `b` and `b + n`. */
  lemma DoubledSame(hash: Hash, s: seq<Handle>, cs: seq<seq<Handle>>, ds: seq<seq<Handle>>)
    requires Doubled(hash, cs, ds) && |ds| > 0 && Same(hash, s, cs)
    ensures Same(hash, s, ds)
  {
    forall i | 0 <= i < |s| ensures s[i] in ds[Home(hash, s[i], |ds|)] {
      var t := Home(hash, s[i], |ds|);
      HalfHome(hash(s[i].item.key), |cs|);
      SplitIn(hash, cs[t % |cs|], t, |ds|);
    }
    forall t, k | 0 <= t < |ds| && 0 <= k < |ds[t]| ensures ds[t][k] in s {
      SplitIn(hash, cs[t % |cs|], t, |ds|);
    }
  }

  /** ceil(items / 2n), as the source computes it with a shift and a mask. */
  function IdealLength(items: nat, log2: nat): nat {
    items / Pow2(log2 + 1) + if items % Pow2(log2 + 1) != 0 then 1 else 0
  }

  /** The ideal length is the least chain length with which 2n buckets hold all items. */
  lemma IdealIsCeiling(items: nat, log2: nat, c: nat)
    ensures items <= c * Pow2(log2 + 1) <==> IdealLength(items, log2) <= c
  {
    var m, q, r := Pow2(log2 + 1), items / Pow2(log2 + 1), items % Pow2(log2 + 1);
    assert items == q * m + r;
    MulAtLeast(c - q, m);
    MulAtLeast(q - c, m);
    MulAtLeast(q + 1 - c, m);
    MulAtLeast(c - q - 1, m);
    assert (q - c) * m == q * m - c * m;
    assert (c - q) * m == c * m - q * m;
    assert (q + 1 - c) * m == q * m + m - c * m;
  }

  lemma Distribute(m: int, k: int)
    ensures (m + 1) * k == m * k + k
  {
  }

  /** `expand_mult` grows fast enough to cover the chain. */
  lemma {:induction false} MultCovers(count: nat, ideal: nat)
    requires ideal > 0
    ensures count <= (MultAfter(count, ideal) + 1) * ideal
  {
    if count > 0 {
      MultCovers(count - 1, ideal);
      var m := MultAfter(count - 1, ideal);
      Distribute(m, ideal);
      Distribute(m + 1, ideal);
    }
  }

  lemma MultNext(count: nat, ideal: nat)
    ensures MultAfter(0, ideal) == 0
    ensures count > 0 ==>
              var m := MultAfter(count - 1, ideal);
              MultAfter(count, ideal) == if count > ideal && count > m * ideal then m + 1 else m
  {
  }

  /** And no faster: it is the smaller of ceil(count / ideal) and the items beyond the ideal length. */
  lemma {:induction false} MultIsLeast(count: nat, ideal: nat)
    requires ideal > 0
    ensures var m := MultAfter(count, ideal);
            if count <= ideal then m == 0
            else 0 < m <= count - ideal && (m - 1) * ideal < count && (m == count - ideal || count <= m * ideal)
  {
    hide MultAfter;
    MultNext(count, ideal);
    if count > 0 {
      MultIsLeast(count - 1, ideal);
      var m: int := MultAfter(count - 1, ideal);
      Distribute(m, ideal);
      Distribute(m - 1, ideal);
    }
  }

  ghost predicate UniqueKeys(s: seq<Handle>) {
    forall i, j :: 0 <= i < j < |s| ==> s[i].item.key != s[j].item.key
  }

  /** One expansion: the items of the table then, and those beyond the ideal chain length after it. */
  datatype Growth = Growth(items: nat, nonideal: nat) {
    predicate Ineffective() {
      nonideal > items / 2
    }
  }

  /** How many expansions in a row, up to the last one, were ineffective. */
  function Streak(g: seq<Growth>): nat {
    if g == [] || !g[|g| - 1].Ineffective() then 0 else 1 + Streak(g[..|g| - 1])
  }

  /** Some two successive expansions were both ineffective. */
  ghost predicate TwiceIneffective(g: seq<Growth>) {
    exists j :: 0 < j < |g| && g[j - 1].Ineffective() && g[j].Ineffective()
  }

  lemma OneMoreGrowth(g: seq<Growth>, x: Growth)
    ensures Streak(g + [x]) == if x.Ineffective() then Streak(g) + 1 else 0
    ensures TwiceIneffective(g + [x]) <==> TwiceIneffective(g) || Streak(g + [x]) > 1
  {
    var h := g + [x];
    assert h[..|g|] == g;
    if TwiceIneffective(g) {
      var j :| 0 < j < |g| && g[j - 1].Ineffective() && g[j].Ineffective();
      assert h[j - 1].Ineffective() && h[j].Ineffective();
    }
    if g != [] {
      assert h[|g| - 1] == g[|g| - 1] && h[|g|] == x;
    }
  }

  /** What decides about expansions, apart from the counts. */
  datatype SizeState = SizeState(
    buckets: array<Bucket>, log2NumBuckets: nat, idealChainMaxlen: nat, nonidealItems: nat,
    ineffExpands: nat, noexpand: bool, growths: seq<Growth>, expandMults: seq<nat>)
  {
    /** As HASH_MAKE_TABLE sets them up. */
    ghost predicate NeverExpanded() {
      && log2NumBuckets == INITIAL_NUM_BUCKETS_LOG2 && growths == []
      && idealChainMaxlen == nonidealItems == ineffExpands == 0 && !noexpand
      && forall u :: 0 <= u < |expandMults| ==> expandMults[u] == 0
    }
  }

  class HashTable {
    const hash: Hash
    const bloom: Config

    var head: Handle?             // null: no table

    // UT_hash_table
    var buckets: array<Bucket>
    var numBuckets: nat
    var log2NumBuckets: nat
    var numItems: nat
    var tail: Handle?
    var idealChainMaxlen: nat
    var nonidealItems: nat
    var ineffExpands: nat
    var noexpand: bool
    var bloomBv: seq<bv8>

    ghost var order: seq<Handle>         // app order
    ghost var chains: seq<seq<Handle>>   // one per bucket, front first
    ghost var growths: seq<Growth>       // the expansions since the table was made

    constructor (hash: Hash, bloom: Config)
      ensures this.hash == hash && this.bloom == bloom
      ensures Valid() && order == [] && fresh(buckets)
    {
      this.hash, this.bloom := hash, bloom;
      head, tail, order, chains := null, null, [], [];
      buckets := new Bucket[0];
      numBuckets, log2NumBuckets, numItems := 0, 0, 0;
      idealChainMaxlen, nonidealItems, ineffExpands, noexpand := 0, 0, 0, false;
      bloomBv, growths := [], [];
    }

    /** The expansion state is what the expansions so far have made it: a doubling each, none any more exactly
        after two ineffective ones in a row. */
    ghost predicate History()
      reads this`growths, this`log2NumBuckets, this`nonidealItems, this`ineffExpands, this`noexpand
    {
      && log2NumBuckets == INITIAL_NUM_BUCKETS_LOG2 + |growths|
      && (growths != [] ==> growths[|growths| - 1].nonideal == nonidealItems)
      && ineffExpands == Streak(growths)
      && (noexpand <==> TwiceIneffective(growths))
    }

    /** Everything about bucket order, for the items `s`. */
    ghost predicate BucketOrder(s: seq<Handle>)
      reads this`numBuckets, this`log2NumBuckets, this`chains, this`buckets
      reads buckets, Members(chains)`hhPrev, Members(chains)`hhNext, Members(chains)`hashv
    {
      && numBuckets == Pow2(log2NumBuckets) == |chains|
      && Placed(hash, chains) && Linked(buckets, chains)
      && Counted(buckets, chains) && AllHashed(hash, chains)
      && Same(hash, s, chains)
    }

    lemma Shape(s: seq<Handle>)
      requires BucketOrder(s)
      ensures numBuckets == |chains| == buckets.Length > 0
    {
    }

    lemma Outside(add: Handle)
      requires BucketOrder(order) && add !in order
      ensures add !in Members(chains)
    {
    }

    ghost predicate Filter(s: seq<Handle>)
      reads this`bloomBv
    {
      && (bloom.WithBloom? ==> |bloomBv| == ByteLen(bloom.nbits))
      && forall i :: 0 <= i < |s| ==> Test(bloom, bloomBv, hash(s[i].item.key))
    }

    /** The invariant HASH_FSCK checks, with `tail`, placement, table size and the filter added. */
    ghost predicate Valid()
      reads this, buckets, Members(chains), order
    {
      if head == null then order == [] && chains == []
      else
        && order != [] && List(head, tail, order)
        && BucketOrder(order)
        && numItems == |order|
        && UniqueKeys(order)
        && Filter(order)
        && History()
    }

    /** What clients rely on. */
    lemma Facts()
      requires Valid()
      ensures Distinct(order) && UniqueKeys(order)
      ensures forall t, k :: 0 <= t < |chains| && 0 <= k < |chains[t]| ==> chains[t][k] in order
    {
    }

    /** HASH_FIND. */
    method Find(key: Key) returns (out: Handle?)
      requires Valid()
      ensures out != null ==> out in order && out.item.key == key
      ensures out == null ==> forall i :: 0 <= i < |order| ==> order[i].item.key != key
    {
      out := null;
      if head != null {
        var hashv := hash(key);
        var bkt := ToBkt(hashv, numBuckets);
        if Test(bloom, bloomBv, hashv) {
          out := FindInBkt(hash, buckets, bkt, key, chains);
        }
        forall i | 0 <= i < |order| && order[i].item.key == key ensures out != null {
          assert order[i] in chains[bkt];
        }
      }
    }

    lemma Parts(s: seq<Handle>)
      requires BucketOrder(s)
      ensures numBuckets == Pow2(log2NumBuckets) == |chains| == buckets.Length
      ensures Placed(hash, chains) && Linked(buckets, chains) && AllHashed(hash, chains) && Same(hash, s, chains)
    {
    }

    /** Make `nb` the table's bucket array. */
    method Install(nb: array<Bucket>, n: nat, log2: nat, ghost ds: seq<seq<Handle>>, ghost s: seq<Handle>)
      requires n == Pow2(log2) == |ds| && Placed(hash, ds) && Linked(nb, ds)
      requires Counted(nb, ds) && AllHashed(hash, ds) && Same(hash, s, ds)
      modifies this`buckets, this`numBuckets, this`log2NumBuckets, this`chains
      ensures buckets == nb && log2NumBuckets == log2 && chains == ds && BucketOrder(s)
    {
      hide Linked, Counted, Placed, AllHashed, Same, Pow2;
      ghost var nodes := Members(ds);
      buckets, numBuckets, log2NumBuckets, chains := nb, n, log2, ds;
    }

    /** HASH_EXPAND_BUCKETS. */
    method Expand(mallocOk: bool, ghost s: seq<Handle>) returns (oomed: bool)
      requires BucketOrder(s) && numItems > 0 && History()
      modifies this`buckets, this`numBuckets, this`log2NumBuckets, this`idealChainMaxlen, this`nonidealItems
      modifies this`ineffExpands, this`noexpand, this`chains, this`growths
      modifies (if mallocOk then Members(chains) else {})`hhNext, (if mallocOk then Members(chains) else {})`hhPrev
      ensures BucketOrder(s) && History()
      ensures oomed == !mallocOk
      ensures oomed ==>
        && buckets == old(buckets) && numBuckets == old(numBuckets) && log2NumBuckets == old(log2NumBuckets)
        && idealChainMaxlen == old(idealChainMaxlen) && nonidealItems == old(nonidealItems)
        && ineffExpands == old(ineffExpands) && noexpand == old(noexpand) && chains == old(chains)
        && growths == old(growths)
      ensures !oomed ==>
        && fresh(buckets) && log2NumBuckets == old(log2NumBuckets) + 1
        && Doubled(hash, old(chains), chains)
        && idealChainMaxlen == IdealLength(numItems, old(log2NumBuckets))
        && nonidealItems == TotalExcess(chains, idealChainMaxlen)
        && Multed(buckets, idealChainMaxlen)
        && ineffExpands == (if nonidealItems > numItems / 2 then old(ineffExpands) + 1 else 0)
        && noexpand == (old(noexpand) || ineffExpands > 1)
        && growths == old(growths) + [Growth(numItems, nonidealItems)]
    {
      hide Linked, Counted, Placed, AllHashed, Doubled, Multed, TotalExcess, Same, IdealLength, Pow2, BucketOrder, Streak, TwiceIneffective;
      Parts(s);
      Pow2Next(log2NumBuckets);
      oomed := !mallocOk;
      if mallocOk {
        ghost var ds: seq<seq<Handle>>;
        var nb: array<Bucket>, nonideal: nat;
        var ideal := IdealLength(numItems, log2NumBuckets);
        nb, nonideal, ds := DoubleBuckets(hash, buckets, ideal, chains);
        DoubledSame(hash, s, chains, ds);
        idealChainMaxlen, nonidealItems := ideal, nonideal;
        Install(nb, numBuckets * 2, log2NumBuckets + 1, ds, s);
        ineffExpands := if nonidealItems > numItems / 2 then ineffExpands + 1 else 0;
        if ineffExpands > 1 {
          noexpand := true;
        }
        OneMoreGrowth(growths, Growth(numItems, nonidealItems));
        growths := growths + [Growth(numItems, nonidealItems)];
      }
    }

    /** The counting and linking of HASH_ADD_TO_BKT. */
    method PushItem(bkt: nat, add: Handle, ghost s: seq<Handle>, ghost r: seq<Handle>)
      requires BucketOrder(s) && add.hashv == hash(add.item.key) && bkt == Home(hash, add, |chains|)
      requires add !in s && Extends(s, add, r)
      modifies this`chains, buckets, add`hhNext, add`hhPrev, Members(chains)`hhPrev
      ensures bkt < |old(chains)| && chains == Push(old(chains), bkt, add) && BucketOrder(r)
      ensures bkt < buckets.Length
      ensures Members(chains) == old(Members(chains)) + {add}
      ensures old(buckets[bkt].hhHead) == At(old(chains)[bkt], 0)
      ensures buckets[bkt] == Bucket(add, old(buckets[bkt].count) + 1, old(buckets[bkt].expandMult))
      ensures forall u :: 0 <= u < buckets.Length && u != bkt ==> buckets[u] == old(buckets[u])
    {
      hide Extends, Pow2, Chain, AllHashed, Same;
      NotInChains(hash, s, chains, add, bkt);
      buckets[bkt] := buckets[bkt].(count := buckets[bkt].count + 1);
      PushFront(hash, buckets, bkt, add, chains);
      PushSame(hash, s, add, r, chains, bkt);
      PushHashed(hash, chains, bkt, add);
      chains := Push(chains, bkt, add);
    }

    /** HASH_DEL_IN_BKT after the failed expansion: takes back what PushItem did to the chains `cs`. */
    method PopItem(bkt: nat, add: Handle, ghost s: seq<Handle>, ghost r: seq<Handle>, ghost cs: seq<seq<Handle>>)
      requires BucketOrder(r) && add !in s && Extends(s, add, r)
      requires bkt < |cs| && chains == Push(cs, bkt, add) && Home(hash, add, |cs|) == bkt
      modifies this`chains, buckets, Members(chains)`hhNext, Members(chains)`hhPrev
      ensures chains == cs && BucketOrder(s)
      ensures bkt < buckets.Length && buckets[bkt].hhHead == At(cs[bkt], 0)
      ensures buckets[bkt].count == old(buckets[bkt].count) - 1 && buckets[bkt].expandMult == old(buckets[bkt].expandMult)
      ensures forall u :: 0 <= u < buckets.Length && u != bkt ==> buckets[u] == old(buckets[u])
    {
      DelInBkt(hash, buckets, bkt, add, chains);
      assert Without(chains[bkt], add) == cs[bkt];
      assert chains[bkt := cs[bkt]] == cs;
      PlacedWithout(hash, chains, bkt, add);
      PopSame(hash, s, add, r, cs, bkt);
      chains := cs;
    }

    /** Expand, or, when memory runs out, unlink `add` again. */
    method Grow(bkt: nat, add: Handle, mallocOk: bool, ghost s: seq<Handle>, ghost r: seq<Handle>,
                ghost cs: seq<seq<Handle>>)
      returns (oomed: bool)
      requires BucketOrder(r) && numItems > 0 && add !in s && Extends(s, add, r) && History()
      requires bkt < |cs| && chains == Push(cs, bkt, add) && Home(hash, add, |cs|) == bkt
      modifies this`buckets, this`numBuckets, this`log2NumBuckets, this`idealChainMaxlen, this`nonidealItems
      modifies this`ineffExpands, this`noexpand, this`chains, this`growths
      modifies buckets, Members(chains)`hhNext, Members(chains)`hhPrev
      ensures oomed == !mallocOk && History()
      ensures oomed ==>
        && chains == cs && BucketOrder(s) && SameFields() && bkt < buckets.Length
        && buckets[bkt] == old(Bucket(At(cs[bkt], 0), buckets[bkt].count - 1, buckets[bkt].expandMult))
        && forall u :: 0 <= u < buckets.Length && u != bkt ==> buckets[u] == old(buckets[u])
      ensures !oomed ==>
        && BucketOrder(r) && fresh(buckets) && Grown(old(Sizes()), old(chains))
    {
      hide BucketOrder, Doubled, Multed, TotalExcess, IdealLength, Extends, History;
      oomed := Expand(mallocOk, r);
      if oomed {
        PopItem(bkt, add, s, r, cs);
      }
    }

    /** HASH_ADD_TO_BKT, with the expansion it may trigger; `r` lists the items with `add` among them. */
    method AddToBkt(bkt: nat, add: Handle, mallocOk: bool, ghost s: seq<Handle>, ghost r: seq<Handle>)
      returns (oomed: bool)
      requires BucketOrder(s) && numItems > 0 && History()
      requires add.hashv == hash(add.item.key) && bkt == Home(hash, add, |chains|)
      requires add !in s && Extends(s, add, r)
      modifies this`buckets, this`numBuckets, this`log2NumBuckets, this`idealChainMaxlen, this`nonidealItems
      modifies this`ineffExpands, this`noexpand, this`chains, this`growths
      modifies buckets, add`hhNext, add`hhPrev, Members(chains)`hhNext, Members(chains)`hhPrev
      ensures oomed == (old(MustExpand(bkt)) && !mallocOk) && History()
      ensures oomed ==> BucketOrder(s) && SameFields() && chains == old(chains)
      ensures oomed ==> forall u :: 0 <= u < buckets.Length ==> buckets[u] == old(buckets[u])
      ensures !oomed ==> BucketOrder(r)
      ensures !oomed && !old(MustExpand(bkt)) ==> Sizes() == old(Sizes()) && chains == Push(old(chains), bkt, add)
      ensures !oomed && old(MustExpand(bkt)) ==> fresh(buckets) && Grown(old(Sizes()), Push(old(chains), bkt, add))
    {
      hide BucketOrder, Doubled, Multed, TotalExcess, IdealLength, Extends, History;
      ghost var cs := chains;
      PushItem(bkt, add, s, r);
      SizesKept();
      oomed := false;
      if buckets[bkt].count >= (buckets[bkt].expandMult + 1) * BKT_CAPACITY_THRESH && !noexpand {
        oomed := Grow(bkt, add, mallocOk, s, r, cs);
      }
    }

    ghost function Sizes(): SizeState
      reads this`buckets, this`log2NumBuckets, this`idealChainMaxlen, this`nonidealItems
      reads this`ineffExpands, this`noexpand, this`growths, buckets
    {
      var bs := buckets;
      SizeState(bs, log2NumBuckets, idealChainMaxlen, nonidealItems, ineffExpands, noexpand, growths,
                seq(bs.Length, u requires 0 <= u < bs.Length reads bs => bs[u].expandMult))
    }

    twostate lemma SizesKept()
      requires SameFields() && forall u :: 0 <= u < buckets.Length ==> buckets[u].expandMult == old(buckets[u].expandMult)
      ensures Sizes() == old(Sizes())
    {
      assert Sizes().expandMults == old(Sizes().expandMults);
    }

    twostate lemma SameSizes()
      requires Sizes() == old(Sizes())
      ensures buckets == old(buckets) && noexpand == old(noexpand) && forall u :: 0 <= u < buckets.Length ==> buckets[u].expandMult == old(buckets[u].expandMult)
    {
      forall u | 0 <= u < buckets.Length ensures buckets[u].expandMult == old(buckets[u].expandMult) {
        assert Sizes().expandMults[u] == old(Sizes().expandMults[u]);
      }
    }

    /** The table has just been doubled, with the sizes `was` and the chains `cs` before that: its ideal length is the ceiling of items
        per bucket, the non-ideal items are those beyond it, every `expand_mult` covers its chain, and a second
        ineffective expansion in a row is the last one. */
    ghost predicate Grown(was: SizeState, cs: seq<seq<Handle>>)
      reads this, buckets
    {
      && Expanded(was.log2NumBuckets) && Doubled(hash, cs, chains)
      && ineffExpands == (if nonidealItems > numItems / 2 then was.ineffExpands + 1 else 0)
      && noexpand == (was.noexpand || ineffExpands > 1)
      && growths == was.growths + [Growth(numItems, nonidealItems)]
    }

    /** What a successful add makes of the sizes `was` and the chains `cs`: a push on the chain of `add`, and an
        expansion if one is due. */
    ghost predicate BucketsAfterAdd(add: Handle, was: SizeState, cs: seq<seq<Handle>>, expands: bool)
      reads this, buckets
    {
      && |cs| > 0
      && var ds := Push(cs, Home(hash, add, |cs|), add);
         if expands then Grown(was, ds) else Sizes() == was && chains == ds
    }

    lemma NotExpanded(add: Handle, was: SizeState, cs: seq<seq<Handle>>)
      requires BucketsAfterAdd(add, was, cs, false)
      ensures Sizes() == was
    {
    }

    /** The test at the end of HASH_ADD_TO_BKT, before `add` is counted. */
    ghost predicate MustExpand(bkt: nat)
      requires bkt < buckets.Length
      reads this, buckets
    {
      buckets[bkt].count + 1 >= (buckets[bkt].expandMult + 1) * BKT_CAPACITY_THRESH && !noexpand
    }

    /** The buckets with `extra` too many in the count of bucket `t`: what the rollback hands to the deletion. */
    ghost predicate BucketsBut(t: nat, extra: nat)
      reads this`numBuckets, this`log2NumBuckets, this`chains, this`buckets
      reads buckets, Members(chains)`hhPrev, Members(chains)`hhNext, Members(chains)`hashv
    {
      && numBuckets == Pow2(log2NumBuckets) == |chains| && t < |chains|
      && Placed(hash, chains) && Linked(buckets, chains) && AllHashed(hash, chains)
      && forall u :: 0 <= u < |chains| ==> buckets[u].count == |chains[u]| + if u == t then extra else 0
    }

    /** The bucket half of HASH_DELETE_HH. */
    method DeleteFromBkt(del: Handle, ghost t: nat)
      requires t < |chains| && t == Home(hash, del, |chains|) && del.hashv == hash(del.item.key)
      requires BucketsBut(t, if del in chains[t] then 0 else 1)
      requires del in chains[t] || Detached(del)
      modifies this`chains, buckets, Opt(del.hhPrev)`hhNext, Opt(del.hhNext)`hhPrev
      ensures chains == old(chains)[t := Without(old(chains)[t], del)] && BucketsBut(t, 0)
      ensures forall u :: 0 <= u < buckets.Length && u != t ==> buckets[u] == old(buckets[u])
      ensures buckets[t].expandMult == old(buckets[t].expandMult) && buckets[t].count == old(buckets[t].count) - 1
    {
      var bkt := ToBkt(del.hashv, numBuckets);
      PlacedWithout(hash, chains, t, del);
      HashedWithout(hash, chains, t, del);
      WithoutLength(chains[t], del);
      ghost var ds := chains[t := Without(chains[t], del)];
      ghost var nodes := Members(ds);
      DelInBkt(hash, buckets, bkt, del, chains);
      chains := ds;
    }

    lemma Neighbours(del: Handle)
      requires List(head, tail, order) && del in order
      ensures del.prev == null && del.next == null <==> |order| == 1
      ensures del.prev == null || del.prev in order
      ensures del.next == null || del.next in order
    {
      var k :| 0 <= k < |order| && order[k] == del;
      assert del.prev == At(order, k - 1) && del.next == At(order, k + 1);
    }

    /** The app-order half of HASH_DELETE_HH. */
    method RemoveFromOrder(del: Handle)
      requires head != null && List(head, tail, order) && del in order
      requires !(del.prev == null && del.next == null)
      modifies this`head, this`tail, this`order, Opt(del.prev)`next, Opt(del.next)`prev
      ensures |old(order)| > 1
      ensures head != null && List(head, tail, order) && order == Without(old(order), del)
    {
      Neighbours(del);
      ghost var k :| 0 <= k < |order| && order[k] == del;
      ghost var r := Without(order, del);
      WithoutAt(order, k);
      WithoutIn(order, del);
      head, tail := Remove(head, tail, del, order, k, r);
      order := r;
    }

    /** HASH_DELETE_HH. */
    method DeleteHH(del: Handle, ghost t: nat)
      requires head != null && List(head, tail, order) && del in order && numItems > 0
      requires t < |chains| && t == Home(hash, del, |chains|) && del.hashv == hash(del.item.key)
      requires BucketsBut(t, if del in chains[t] then 0 else 1)
      requires del in chains[t] || Detached(del)
      modifies this`head, this`tail, this`numItems, this`order, this`chains, buckets
      modifies order`next, order`prev, Opt(del.hhPrev)`hhNext, Opt(del.hhNext)`hhPrev
      ensures |old(order)| == 1 ==> head == null && order == [] && chains == []
      ensures |old(order)| > 1 ==>
        && head != null && List(head, tail, order) && order == Without(old(order), del)
        && numItems == old(numItems) - 1
        && chains == old(chains)[t := Without(old(chains)[t], del)] && BucketsBut(t, 0)
        && (forall u :: 0 <= u < buckets.Length && u != t ==> buckets[u] == old(buckets[u]))
        && buckets[t].expandMult == old(buckets[t].expandMult) && buckets[t].count == old(buckets[t].count) - 1
    {
      hide BucketsBut, Without, AppOrder.List;
      ghost var nodes := Members(chains);
      Neighbours(del);
      if del.prev == null && del.next == null {
        head, order, chains := null, [], [];
      } else {
        RemoveFromOrder(del);
        DeleteFromBkt(del, t);
        numItems := numItems - 1;
      }
    }

    /** HASH_ROLLBACK_BKT: count the unlinked `add` once more, for the deletion that follows. */
    method RollbackBkt(add: Handle, ghost s: seq<Handle>)
      requires BucketOrder(s) && add !in s && add.hashv == hash(add.item.key)
      modifies buckets, add`hhNext, add`hhPrev
      ensures Detached(add) && add !in chains[Home(hash, add, |chains|)] && BucketsBut(Home(hash, add, |chains|), 1)
      ensures forall u :: 0 <= u < buckets.Length ==>
        buckets[u] == old(buckets[u]).(count := old(buckets[u].count) + if u == Home(hash, add, |chains|) then 1 else 0)
    {
      var bkt := ToBkt(add.hashv, numBuckets);
      assert add !in chains[bkt];
      forall t, i | 0 <= t < |chains| && 0 <= i < |chains[t]| ensures chains[t][i] != add {
        assert chains[t][i] in s;
      }
      buckets[bkt] := buckets[bkt].(count := buckets[bkt].count + 1);
      add.hhNext := null;
      add.hhPrev := null;
    }

    /** The failing half of HASH_ADD_TO_TABLE: roll the bucket back and delete `add` again. */
    method Rollback(add: Handle, ghost s: seq<Handle>)
      requires head != null && List(head, tail, order) && BucketOrder(s)
      requires add in order && |order| > 1 && s == Without(order, add) && add !in s
      requires add.hashv == hash(add.item.key) && numItems > 0
      modifies this`head, this`tail, this`numItems, this`order, this`chains, buckets
      modifies order`next, order`prev, add`hhNext, add`hhPrev
      ensures head != null && order == s && List(head, tail, s) && BucketOrder(s)
      ensures numItems == old(numItems) - 1 && chains == old(chains)
      ensures forall u :: 0 <= u < buckets.Length ==> buckets[u] == old(buckets[u])
    {
      hide AppOrder.List, Placed, AllHashed, Same, Without;
      ghost var t := Home(hash, add, |chains|);
      ghost var nodes := Members(chains);
      RollbackBkt(add, s);
      DeleteHH(add, t);
      WithoutAbsent(old(chains)[t], add);
      assert chains == old(chains);
    }

    /** HASH_MAKE_TABLE with every allocation succeeding. */
    method MakeTable(add: Handle)
      modifies this
      ensures head == old(head) && tail == add && numItems == 0 && fresh(buckets)
      ensures order == old(order) && BucketOrder([]) && Filter([])
      ensures log2NumBuckets == INITIAL_NUM_BUCKETS_LOG2 && forall u :: 0 <= u < buckets.Length ==> buckets[u] == EmptyBucket
      ensures forall u :: 0 <= u < |chains| ==> chains[u] == []
      ensures idealChainMaxlen == nonidealItems == ineffExpands == 0 && !noexpand && growths == []
    {
      hide Linked, Counted, Placed, AllHashed, ByteLen, Pow2, BucketOrder;
      tail, numItems := add, 0;
      idealChainMaxlen, nonidealItems, ineffExpands, noexpand, growths := 0, 0, 0, false, [];
      bloomBv := if bloom.WithBloom? then seq(ByteLen(bloom.nbits), _ => 0) else [];
      var nb: array<Bucket>;
      ghost var ds: seq<seq<Handle>>;
      nb, ds := EmptyBuckets(hash, INITIAL_NUM_BUCKETS);
      Pow2Five();
      Install(nb, INITIAL_NUM_BUCKETS, INITIAL_NUM_BUCKETS_LOG2, ds, []);
    }

    /** HASH_BLOOM_ADD: no item of `s` is lost from the filter. */
    method BloomAdd(add: Handle, ghost s: seq<Handle>, ghost r: seq<Handle>)
      requires Filter(s) && Extends(s, add, r) && add.hashv == hash(add.item.key)
      modifies this`bloomBv
      ensures Filter(r)
    {
      FilterAdd(hash, bloom, bloomBv, s, add, r);
      bloomBv := Bloom.Add(bloom, bloomBv, add.hashv);
    }

    /** The end of HASH_ADD_TO_TABLE: the rollback or the filter bit. */
    method Settle(add: Handle, oomed: bool, ghost s: seq<Handle>)
      requires head != null && List(head, tail, order) && Filter(s) && numItems == |order| == |s| + 1
      requires BucketOrder(if oomed then s else order) && (oomed ==> s != [])
      requires Extends(s, add, order) && s == Without(order, add) && add !in s
      requires add.hashv == hash(add.item.key)
      modifies this`head, this`tail, this`numItems, this`order, this`chains, this`bloomBv, buckets
      modifies order`next, order`prev, add`hhNext, add`hhPrev
      ensures head != null && List(head, tail, order) && BucketOrder(order) && Filter(order) && numItems == |order|
      ensures chains == old(chains)
      ensures forall u :: 0 <= u < buckets.Length ==> buckets[u] == old(buckets[u])
      ensures if oomed then order == s && bloomBv == old(bloomBv)
              else order == old(order) && head == old(head) && tail == old(tail)
      ensures !oomed && old(Multed(buckets, idealChainMaxlen)) ==> Multed(buckets, idealChainMaxlen)
      ensures Sizes() == old(Sizes())
    {
      hide BucketOrder, AppOrder.List, Filter, Without, Home, Multed;
      ghost var nodes := Members(chains);
      if oomed {
        Rollback(add, s);
      } else {
        BloomAdd(add, s, order);
      }
      SizesKept();
    }

    /** The sizes of a table that has just been doubled from 2^log2 buckets. */
    ghost predicate Expanded(log2: nat)
      reads this, buckets
    {
      && log2NumBuckets == log2 + 1 && idealChainMaxlen == IdealLength(numItems, log2)
      && nonidealItems == TotalExcess(chains, idealChainMaxlen) && Multed(buckets, idealChainMaxlen)
    }

    /** HASH_ADD_TO_TABLE: bucket, expansion, filter, and the rollback; `s` is the app order without `add`. */
    method AddToTable(add: Handle, mallocOk: bool, ghost s: seq<Handle>)
      returns (oomed: bool)
      requires head != null && List(head, tail, order) && BucketOrder(s) && Filter(s) && History()
      requires Extends(s, add, order) && |order| == |s| + 1 && s == Without(order, add) && add !in s
      requires add.hashv == hash(add.item.key) && numItems == |s|
      requires s == [] ==> buckets[Home(hash, add, |chains|)] == EmptyBucket
      modifies this, buckets, order`next, order`prev
      modifies add`hhNext, add`hhPrev, Members(chains)`hhNext, Members(chains)`hhPrev
      ensures head != null && List(head, tail, order) && BucketOrder(order) && Filter(order) && numItems == |order|
      ensures History()
      ensures oomed == (old(MustExpand(Home(hash, add, |chains|))) && !mallocOk)
      ensures buckets == old(buckets) || fresh(buckets)
      ensures !oomed ==> order == old(order) && head == old(head) && tail == old(tail)
      ensures !oomed ==> BucketsAfterAdd(add, old(Sizes()), old(chains), old(MustExpand(Home(hash, add, |chains|))))
      ensures oomed ==>
        && order == s && SameFields() && chains == old(chains) && bloomBv == old(bloomBv)
        && forall u :: 0 <= u < buckets.Length ==> buckets[u] == old(buckets[u])
    {
      hide BucketOrder, AppOrder.List, IdealLength, Doubled, Multed, TotalExcess;
      hide Filter, Extends, Without, History;
      Shape(s);
      numItems := numItems + 1;
      var bkt := ToBkt(add.hashv, numBuckets);
      oomed := AddToBkt(bkt, add, mallocOk, s, order);
      Settle(add, oomed, s);
    }

    /** A further item in order: before the first handle that compares greater, or at the end. */
    method InsertItem(cmp: Compare, add: Handle)
      requires head != null && Valid() && add !in order
      modifies this`head, this`tail, this`order, add`next, add`prev, order`next, order`prev
      ensures head != null && order == Insert(cmp, old(order), add) && List(head, tail, order)
      ensures BucketOrder(old(order)) && Filter(old(order)) && numItems == |old(order)|
    {
      hide BucketOrder, Filter, Insert;
      ghost var nodes := Members(chains);
      var iter: Handle?;
      ghost var k: nat;
      iter, k := FindSpot(cmp, head, add, order);
      ghost var r := Spliced(order, k, add);
      SplicedDistinct(order, k, add);
      if iter != null {
        head := LinkBefore(head, tail, iter, add, order, k, r);
      } else {
        Append(head, tail, add, order);
        tail := add;
        assert r == order + [add];
      }
      order := r;
    }

    /** HASH_ADD_INORDER. */
    method AddInorder(cmp: Compare, add: Handle, tableOk: bool, expandOk: bool) returns (oomed: bool)
      requires Valid() && add !in order
      requires forall i :: 0 <= i < |order| ==> order[i].item.key != add.item.key
      modifies this, buckets, add, order`next, order`prev, Members(chains)`hhNext, Members(chains)`hhPrev
      ensures Valid()
      ensures oomed == if old(head) == null then !tableOk else old(AddExpands(add)) && !expandOk
      ensures buckets == old(buckets) || fresh(buckets)
      ensures !oomed ==> order == Insert(cmp, old(order), add)
      ensures !oomed ==> if old(head) == null then Sizes().NeverExpanded() else
                BucketsAfterAdd(add, old(Sizes()), old(chains), old(AddExpands(add)))
      ensures oomed ==> Untouched()
    {
      hide BucketOrder, Filter, AppOrder.List, Insert, Without, Sizes, BucketsAfterAdd, SizeState.NeverExpanded, History;
      ghost var s := order;
      ghost var nodes := Members(chains);
      if head != null {
        Outside(add);
        Ends(head, tail, s);
      }
      add.hashv := hash(add.item.key);
      InsertFits(cmp, s, add);
      if head == null {
        if !tableOk {
          return true;
        }
        NewTable(add);
        Shape(s);
      } else {
        InsertItem(cmp, add);
      }
      ghost var was, cs := Sizes(), chains;
      oomed := AddToTable(add, expandOk, s);
      if old(head) == null {
        NotExpanded(add, was, cs);
      }
      Ends(head, tail, order);
    }

    /** `del` has left its chain; nothing else that decides about an expansion has changed. */
    twostate predicate OneFewer(del: Handle)
      reads this, buckets
    {
      && Sizes() == old(Sizes()) && chains == Gone(hash, old(chains), del)
      && (forall u :: 0 <= u < buckets.Length && |chains| > 0 ==>
            buckets[u].count == old(buckets[u].count) - if u == Home(hash, del, |chains|) then 1 else 0)
    }

    /** HASH_DELETE of an item of the table. */
    method Delete(del: Handle)
      requires Valid() && del in order
      modifies this, buckets, order`next, order`prev, Members(chains)`hhNext, Members(chains)`hhPrev
      ensures Valid() && order == Without(old(order), del)
      ensures head != null ==> |chains| > 0 && OneFewer(del)
      ensures buckets == old(buckets) && Fewer(order, old(order)) && Members(chains) <= old(Members(chains))
    {
      hide AppOrder.List, Without, Filter, BucketOrder, BucketsBut, UniqueKeys, Same, Placed, Members, History;
      InChain(del);
      ghost var t, s, cs := Home(hash, del, |chains|), order, chains;
      DeleteHH(del, t);
      if head != null {
        AfterDelete(s, del, cs, t);
      } else {
        WithoutLength(s, del);
        assert Members(chains) == {} by { NoMembers(); }
      }
    }

    /** The invariant for the items that are left. */
    lemma AfterDelete(s: seq<Handle>, del: Handle, cs: seq<seq<Handle>>, t: nat)
      requires Distinct(s) && UniqueKeys(s) && Filter(s)
      requires t < |cs| && t == Home(hash, del, |cs|) && Placed(hash, cs) && Same(hash, s, cs)
      requires BucketsBut(t, 0) && chains == cs[t := Without(cs[t], del)]
      ensures BucketOrder(Without(s, del)) && Filter(Without(s, del)) && UniqueKeys(Without(s, del))
      ensures Fewer(Without(s, del), s) && Members(chains) <= Members(cs)
      ensures |Without(s, del)| == |s| - if del in s then 1 else 0
    {
      WithoutSame(hash, s, del, cs, t);
      WithoutIn(s, del);
      WithoutKeys(s, del);
      WithoutLength(s, del);
      MembersWithout(cs, t, del);
    }

    lemma InChain(del: Handle)
      requires BucketOrder(order) && List(head, tail, order) && del in order
      ensures |chains| > 0 && Distinct(order)
      ensures var t := Home(hash, del, |chains|);
              del in chains[t] && del.hashv == hash(del.item.key) && BucketsBut(t, 0)
      ensures Placed(hash, chains) && Same(hash, order, chains)
      ensures del.hhPrev == null || del.hhPrev in Members(chains)
      ensures del.hhNext == null || del.hhNext in Members(chains)
    {
      var t := Home(hash, del, |chains|);
      var k :| 0 <= k < |chains[t]| && chains[t][k] == del;
      assert Hashed(hash, chains[t]);
      assert del.hhPrev == At(chains[t], k - 1) && del.hhNext == At(chains[t], k + 1);
    }

    /** The deletion that HASH_REPLACE makes before it adds: the item with the key of `add`, if any. */
    method DeleteKey(key: Key) returns (replaced: Handle?)
      requires Valid()
      modifies this, buckets, order`next, order`prev, Members(chains)`hhNext, Members(chains)`hhPrev
      ensures Valid() && buckets == old(buckets)
      ensures Fewer(order, old(order)) && Members(chains) <= old(Members(chains))
      ensures replaced == Lookup(old(order), key)
      ensures order == if replaced == null then old(order) else Without(old(order), replaced)
      ensures Lookup(order, key) == null
      ensures replaced == null ==> head == old(head) && Sizes() == old(Sizes())
      ensures head != null ==> Sizes() == old(Sizes()) && chains == Gone(hash, old(chains), replaced)
      ensures head != null ==> (KeyExpands(key, 0) <==> old(KeyExpands(key, if replaced == null then 0 else 1)))
    {
      hide BucketOrder, Filter, AppOrder.List, Sizes, Without, UniqueKeys, Gone, History;
      replaced := Find(key);
      LookupFound(order, key, replaced);
      if replaced != null {
        ghost var s := order;
        Facts();
        Delete(replaced);
        LookupGone(s, key, replaced);
        if head != null {
          Shape(order);
          SameSizes();
          GoneLength(hash, old(chains), replaced);
        }
      } else {
        GoneLength(hash, chains, null);
      }
    }

    /** Whether a push for `key` would double the table after `gone` items of its bucket have left. */
    ghost predicate KeyExpands(key: Key, gone: nat)
      requires Valid()
      reads this, buckets, Members(chains), order
    {
      head != null &&
      var b := ToBkt(hash(key), |chains|);
      buckets[b].count - gone + 1 >= (buckets[b].expandMult + 1) * BKT_CAPACITY_THRESH && !noexpand
    }

    /** What a successful replacement makes of the sizes and the chains: those of a new table, or those of an add
        once `replaced` has left. */
    ghost predicate AfterReplace(add: Handle, replaced: Handle?, s: seq<Handle>, was: SizeState, cs: seq<seq<Handle>>,
                                 expands: bool)
      reads this, buckets
    {
      if (if replaced == null then s == [] else s == [replaced]) then Sizes().NeverExpanded()
      else BucketsAfterAdd(add, was, Gone(hash, cs, replaced), expands)
    }

    /** HASH_REPLACE; `add` may be the item that is replaced. */
    method Replace(add: Handle, tableOk: bool, expandOk: bool) returns (replaced: Handle?, oomed: bool)
      requires Valid()
      modifies this, buckets, add, order`next, order`prev, Members(chains)`hhNext, Members(chains)`hhPrev
      ensures Valid()
      ensures replaced == Lookup(old(order), add.item.key)
      ensures order == (if replaced == null then old(order) else Without(old(order), replaced))
                     + if oomed then [] else [add]
      ensures var none := if replaced == null then old(order) == [] else old(order) == [replaced];
              oomed == if none then !tableOk
                       else old(KeyExpands(add.item.key, if replaced == null then 0 else 1)) && !expandOk
      ensures !oomed ==> AfterReplace(add, replaced, old(order), old(Sizes()), old(chains),
                old(KeyExpands(add.item.key, if replaced == null then 0 else 1)))
      ensures buckets == old(buckets) || fresh(buckets)
      ensures forall i :: 0 <= i < |order| ==> order[i] == add || order[i] in old(order)
    {
      hide BucketOrder, Filter, AppOrder.List;
      replaced := DeleteKey(add.item.key);
      LookupAbsent(order, add.item.key);
      oomed := Add(add, tableOk, expandOk);
    }

    /** HASH_REPLACE_INORDER. */
    method ReplaceInorder(cmp: Compare, add: Handle, tableOk: bool, expandOk: bool)
      returns (replaced: Handle?, oomed: bool)
      requires Valid()
      modifies this, buckets, add, order`next, order`prev, Members(chains)`hhNext, Members(chains)`hhPrev
      ensures Valid()
      ensures replaced == Lookup(old(order), add.item.key)
      ensures var s := if replaced == null then old(order) else Without(old(order), replaced);
              order == if oomed then s else Insert(cmp, s, add)
      ensures var none := if replaced == null then old(order) == [] else old(order) == [replaced];
              oomed == if none then !tableOk
                       else old(KeyExpands(add.item.key, if replaced == null then 0 else 1)) && !expandOk
      ensures !oomed ==> AfterReplace(add, replaced, old(order), old(Sizes()), old(chains),
                old(KeyExpands(add.item.key, if replaced == null then 0 else 1)))
    {
      hide BucketOrder, Filter, AppOrder.List, Insert;
      replaced := DeleteKey(add.item.key);
      LookupAbsent(order, add.item.key);
      oomed := AddInorder(cmp, add, tableOk, expandOk);
    }

    /** Neither the buckets nor the filter care about the app order. */
    lemma PermutedItems(s: seq<Handle>, r: seq<Handle>)
      requires BucketOrder(s) && Filter(s) && UniqueKeys(s) && multiset(r) == multiset(s) && Distinct(r)
      ensures BucketOrder(r) && Filter(r) && UniqueKeys(r)
    {
      forall i | 0 <= i < |r| ensures r[i] in s {
        assert r[i] in multiset(r);
      }
      forall i | 0 <= i < |s| ensures s[i] in r {
        assert s[i] in multiset(s);
      }
    }

    /** HASH_SORT. */
    method Sort(cmp: Compare)
      requires Valid() && TotalPreorder(cmp)
      modifies this`head, this`tail, this`order, order`next, order`prev
      ensures Valid() && order == InsertAll(cmp, old(order))
      ensures (head == null) == old(head == null)
    {
      hide BucketOrder, Filter, InsertAll, TotalPreorder, UniqueKeys, NextList, Distinct;
      if head != null {
        ghost var nodes := Members(chains);
        ghost var s := order;
        ghost var r: seq<Handle>;
        head, tail, r := HashSort.Sort(cmp, head, order);
        order := r;
        PermutedItems(s, r);
      } else {
        InsertAllPermutes(cmp, order);
      }
    }

    /** HASH_COUNT. */
    method Count() returns (n: nat)
      requires Valid()
      ensures n == |order|
    {
      n := if head != null then numItems else 0;
    }

    /** HASH_CLEAR. */
    method Clear()
      modifies this`head, this`order, this`chains
      ensures Valid() && order == []
    {
      if head != null {
        head := null;
      }
      order, chains := [], [];
    }

    /** No table field other than `numItems`, `head`, `tail` and the filter has changed. */
    twostate predicate SameFields()
      reads this
    {
      && buckets == old(buckets) && numBuckets == old(numBuckets) && log2NumBuckets == old(log2NumBuckets)
      && idealChainMaxlen == old(idealChainMaxlen) && nonidealItems == old(nonidealItems)
      && ineffExpands == old(ineffExpands) && noexpand == old(noexpand) && growths == old(growths)
    }

    /** Whether adding `add` doubles the table, for which it needs memory. */
    ghost predicate AddExpands(add: Handle)
      requires Valid()
      reads this, buckets, Members(chains), order
    {
      head != null && MustExpand(Home(hash, add, |chains|))
    }

    /** An add that runs out of memory leaves the table as it was. */
    twostate predicate Untouched()
      reads this, buckets
    {
      && head == old(head) && order == old(order)
      && (head != null ==>
            && tail == old(tail) && numItems == old(numItems) && bloomBv == old(bloomBv)
            && chains == old(chains) && SameFields()
            && forall u :: 0 <= u < buckets.Length ==> buckets[u] == old(buckets[u]))
    }

    /** With the same app order and chains, every link of every item is the same. */
    twostate lemma SameLinks()
      requires old(Valid()) && Valid() && order == old(order) && (order != [] ==> chains == old(chains))
      ensures forall i :: 0 <= i < |order| ==>
                && order[i].prev == old(order[i].prev) && order[i].next == old(order[i].next)
                && order[i].hhPrev == old(order[i].hhPrev) && order[i].hhNext == old(order[i].hhNext)
    {
      forall i | 0 <= i < |order|
        ensures order[i].hhPrev == old(order[i].hhPrev) && order[i].hhNext == old(order[i].hhNext)
      {
        var t := Home(hash, order[i], |chains|);
        var k :| 0 <= k < |chains[t]| && chains[t][k] == order[i];
        assert chains[t][k].hhPrev == At(chains[t], k - 1) && old(chains[t][k].hhPrev) == At(chains[t], k - 1);
        assert chains[t][k].hhNext == At(chains[t], k + 1) && old(chains[t][k].hhNext) == At(chains[t], k + 1);
      }
      forall i | 0 <= i < |order|
        ensures order[i].prev == old(order[i].prev) && order[i].next == old(order[i].next)
      {
        assert order[i].prev == At(order, i - 1) && old(order[i].prev) == At(order, i - 1);
        assert order[i].next == At(order, i + 1) && old(order[i].next) == At(order, i + 1);
      }
    }

    /** The first item: a new table whose app order is `add` alone. */
    method NewTable(add: Handle)
      requires head == null && order == []
      modifies this, add`next, add`prev
      ensures head == add && order == [add] && List(head, tail, order) && numItems == 0
      ensures BucketOrder([]) && Filter([]) && fresh(buckets) && Members(chains) == {}
      ensures Sizes().NeverExpanded() && History()
      ensures forall u :: 0 <= u < buckets.Length ==> buckets[u] == EmptyBucket
    {
      add.next := null;
      add.prev := null;
      MakeTable(add);
      head := add;
      order := [add];
    }

    /** A further item: HASH_APPEND_LIST. */
    method AppendItem(add: Handle)
      requires head != null && Valid() && add !in order
      modifies this`tail, this`order, add`next, add`prev, order`next
      ensures order == old(order) + [add] && List(head, tail, order)
      ensures BucketOrder(old(order)) && Filter(old(order)) && numItems == |old(order)|
    {
      hide BucketOrder;
      ghost var nodes := Members(chains);
      Append(head, tail, add, order);
      tail, order := add, order + [add];
    }

    /** HASH_ADD: `tableOk` and `expandOk` say whether the allocations of a new table and of an expansion succeed. */
    method Add(add: Handle, tableOk: bool, expandOk: bool) returns (oomed: bool)
      requires Valid() && add !in order
      requires forall i :: 0 <= i < |order| ==> order[i].item.key != add.item.key
      modifies this, buckets, add, order`next, order`prev, Members(chains)`hhNext, Members(chains)`hhPrev
      ensures Valid()
      ensures oomed == if old(head) == null then !tableOk else old(AddExpands(add)) && !expandOk
      ensures buckets == old(buckets) || fresh(buckets)
      ensures !oomed ==> order == old(order) + [add]
      ensures !oomed ==> if old(head) == null then Sizes().NeverExpanded() else
                BucketsAfterAdd(add, old(Sizes()), old(chains), old(AddExpands(add)))
      ensures oomed ==> Untouched()
    {
      hide BucketOrder, Filter, AppOrder.List, Without, Sizes, BucketsAfterAdd, SizeState.NeverExpanded, History;
      ghost var s := order;
      ghost var nodes := Members(chains);
      if head != null {
        Outside(add);
        Ends(head, tail, s);
      }
      add.hashv := hash(add.item.key);
      if head == null {
        if !tableOk {
          return true;
        }
        NewTable(add);
        Shape(s);
      } else {
        AppendItem(add);
      }
      WithoutLast(s, add);
      assert order == s + [add];
      ghost var was, cs := Sizes(), chains;
      oomed := AddToTable(add, expandOk, s);
      if old(head) == null {
        NotExpanded(add, was, cs);
      }
      Ends(head, tail, order);
    }
  }

  /** The chains without a handle that has been taken out of its own. */
  ghost function Gone(hash: Hash, cs: seq<seq<Handle>>, h: Handle?): seq<seq<Handle>> {
    if h == null || cs == [] then cs
    else var t := Home(hash, h, |cs|); cs[t := Without(cs[t], h)]
  }

  lemma GoneLength(hash: Hash, cs: seq<seq<Handle>>, h: Handle?)
    ensures |Gone(hash, cs, h)| == |cs|
    ensures h == null ==> Gone(hash, cs, h) == cs
  {
  }

  /** `r` has the handles of `s` and `h`, and no others. */
  ghost predicate Extends(s: seq<Handle>, h: Handle, r: seq<Handle>) {
    && h in r
    && (forall i :: 0 <= i < |s| ==> s[i] in r)
    && (forall i :: 0 <= i < |r| ==> r[i] == h || r[i] in s)
  }

  lemma PushSame(hash: Hash, s: seq<Handle>, h: Handle, r: seq<Handle>, cs: seq<seq<Handle>>, t: nat)
    requires t < |cs| && t == Home(hash, h, |cs|) && Extends(s, h, r) && Same(hash, s, cs)
    ensures Same(hash, r, Push(cs, t, h))
    ensures Members(Push(cs, t, h)) == Members(cs) + {h}
  {
    var ds := Push(cs, t, h);
    assert ds[t][0] == h;
    forall i | 0 <= i < |cs[t]| ensures ds[t][i + 1] == cs[t][i] {}
    assert forall i :: 0 <= i < |cs[t]| ==> cs[t][i] in ds[t];
    forall x | x in Members(cs) ensures x in Members(ds) {
      var u, i :| 0 <= u < |cs| && 0 <= i < |cs[u]| && cs[u][i] == x;
      assert u != t ==> ds[u][i] == x;
    }
  }

  lemma NotInChains(hash: Hash, s: seq<Handle>, cs: seq<seq<Handle>>, h: Handle, t: nat)
    requires t < |cs| && Same(hash, s, cs) && h !in s
    ensures h !in cs[t]
  {
  }

  lemma PushHashed(hash: Hash, cs: seq<seq<Handle>>, t: nat, h: Handle)
    requires t < |cs| && AllHashed(hash, cs) && h.hashv == hash(h.item.key)
    ensures AllHashed(hash, Push(cs, t, h))
  {
    var ds := Push(cs, t, h);
    forall u | 0 <= u < |ds| ensures Hashed(hash, ds[u]) {
      assert Hashed(hash, cs[u]);
    }
  }

  lemma PopSame(hash: Hash, s: seq<Handle>, h: Handle, r: seq<Handle>, cs: seq<seq<Handle>>, t: nat)
    requires t < |cs| && t == Home(hash, h, |cs|) && Extends(s, h, r) && h !in s
    requires Same(hash, r, Push(cs, t, h)) && Placed(hash, Push(cs, t, h))
    ensures Same(hash, s, cs)
  {
    var ds := Push(cs, t, h);
    assert ds[t][0] == h;
    forall u, k | 0 <= u < |cs| && 0 <= k < |cs[u]| ensures cs[u][k] in s {
      assert if u == t then cs[u][k] == ds[u][k + 1] else cs[u][k] == ds[u][k];
    }
  }

  /** Setting the filter's bit for `h` keeps every other item findable. */
  lemma FilterAdd(hash: Hash, c: Config, bv: seq<bv8>, s: seq<Handle>, h: Handle, r: seq<Handle>)
    requires (c.WithBloom? ==> |bv| == ByteLen(c.nbits)) && Extends(s, h, r)
    requires forall i :: 0 <= i < |s| ==> Test(c, bv, hash(s[i].item.key))
    ensures forall i :: 0 <= i < |r| ==> Test(c, Bloom.Add(c, bv, hash(h.item.key)), hash(r[i].item.key))
  {
    forall i | 0 <= i < |r| ensures Test(c, Bloom.Add(c, bv, hash(h.item.key)), hash(r[i].item.key)) {
      AddRemembers(c, bv, hash(h.item.key), hash(r[i].item.key));
    }
  }

  lemma {:induction false} WithoutLast(s: seq<Handle>, h: Handle)
    requires h !in s
    ensures Without(s + [h], h) == s && Extends(s, h, s + [h])
  {
    if s != [] {
      WithoutLast(s[1..], h);
      assert (s + [h])[1..] == s[1..] + [h];
    }
    assert (s + [h])[|s|] == h;
    assert forall i :: 0 <= i < |s| ==> (s + [h])[i] == s[i];
  }

  lemma {:induction false} WithoutInsert(cmp: Compare, s: seq<Handle>, x: Handle)
    requires x !in s
    ensures Without(Insert(cmp, s, x), x) == s
  {
    if s != [] && Le(cmp, s[0], x) {
      var r := Insert(cmp, s[1..], x);
      WithoutInsert(cmp, s[1..], x);
      assert ([s[0]] + r)[1..] == r;
    }
  }

  /** An ordered insertion is an insertion somewhere. */
  lemma {:induction false} InsertSplices(cmp: Compare, s: seq<Handle>, x: Handle) returns (k: nat)
    ensures Opened(s, k, x, Insert(cmp, s, x))
  {
    k := 0;
    if s != [] && Le(cmp, s[0], x) {
      var j := InsertSplices(cmp, s[1..], x);
      k := j + 1;
      assert forall i :: 1 <= i < |s| ==> s[i] == s[1..][i - 1];
    }
  }

  lemma InsertFits(cmp: Compare, s: seq<Handle>, x: Handle)
    requires x !in s && UniqueKeys(s) && forall i :: 0 <= i < |s| ==> s[i].item.key != x.item.key
    ensures var r := Insert(cmp, s, x);
            Without(r, x) == s && Extends(s, x, r) && |r| == |s| + 1 && UniqueKeys(r)
    ensures s == [] ==> Insert(cmp, s, x) == [x]
  {
    hide Insert, Without;
    var r := Insert(cmp, s, x);
    WithoutInsert(cmp, s, x);
    var k := InsertSplices(cmp, s, x);
    forall i | 0 <= i < |s| ensures s[i] in r {
      assert s[i] == r[if i < k then i else i + 1];
    }
  }

  lemma WithoutKeys(s: seq<Handle>, h: Handle)
    requires Distinct(s) && UniqueKeys(s)
    ensures UniqueKeys(Without(s, h))
  {
    if h in s {
      var k :| 0 <= k < |s| && s[k] == h;
      WithoutAt(s, k);
    } else {
      WithoutAbsent(s, h);
    }
  }

  lemma WithoutSame(hash: Hash, s: seq<Handle>, h: Handle, cs: seq<seq<Handle>>, t: nat)
    requires t < |cs| && t == Home(hash, h, |cs|) && Same(hash, s, cs) && Placed(hash, cs) && Distinct(s)
    ensures Same(hash, Without(s, h), cs[t := Without(cs[t], h)])
  {
    var r, ds := Without(s, h), cs[t := Without(cs[t], h)];
    WithoutIn(s, h);
    WithoutIn(cs[t], h);
    forall i | 0 <= i < |r| ensures r[i] in ds[Home(hash, r[i], |ds|)] {
      var j :| 0 <= j < |s| && s[j] == r[i];
      assert s[j] in cs[Home(hash, s[j], |cs|)];
    }
    forall u, k | 0 <= u < |ds| && 0 <= k < |ds[u]| ensures ds[u][k] in r {
      assert ds[u][k] in cs[u] && ds[u][k] != h;
      var j :| 0 <= j < |cs[u]| && cs[u][j] == ds[u][k];
      assert cs[u][j] in s;
    }
  }

  /** The item with this key, as a plain list search. */
  ghost function Lookup(s: seq<Handle>, key: Key): Handle? {
    if s == [] then null
    else if s[0].item.key == key then s[0]
    else Lookup(s[1..], key)
  }

  lemma {:induction false} LookupAbsent(s: seq<Handle>, key: Key)
    ensures Lookup(s, key) == null <==> forall i :: 0 <= i < |s| ==> s[i].item.key != key
  {
    if s != [] {
      LookupAbsent(s[1..], key);
      assert s == [s[0]] + s[1..];
    }
  }

  lemma {:induction false} LookupFound(s: seq<Handle>, key: Key, h: Handle?)
    requires UniqueKeys(s)
    requires if h == null then forall i :: 0 <= i < |s| ==> s[i].item.key != key else h in s && h.item.key == key
    ensures Lookup(s, key) == h
  {
    if s != [] && s[0].item.key != key {
      LookupFound(s[1..], key, h);
    }
  }

  lemma {:induction false} LookupIn(s: seq<Handle>, key: Key)
    requires Lookup(s, key) != null
    ensures Lookup(s, key) in s && Lookup(s, key).item.key == key
  {
    if s[0].item.key != key {
      LookupIn(s[1..], key);
    }
  }

  lemma LookupGone(s: seq<Handle>, key: Key, h: Handle)
    requires UniqueKeys(s) && Distinct(s) && h in s && h.item.key == key
    ensures Lookup(Without(s, h), key) == null
  {
    WithoutIn(s, h);
    LookupAbsent(Without(s, h), key);
  }

  ghost predicate Fewer(r: seq<Handle>, s: seq<Handle>) {
    forall i :: 0 <= i < |r| ==> r[i] in s
  }

  lemma NoMembers()
    ensures Members([]) == {}
  {
  }

  lemma MembersWithout(cs: seq<seq<Handle>>, t: nat, h: Handle)
    requires t < |cs| && Distinct(cs[t])
    ensures Members(cs[t := Without(cs[t], h)]) <= Members(cs)
  {
    WithoutIn(cs[t], h);
    var ds := cs[t := Without(cs[t], h)];
    forall x | x in Members(ds) ensures x in Members(cs) {
      var u, i :| 0 <= u < |ds| && 0 <= i < |ds[u]| && ds[u][i] == x;
      assert ds[u][i] in cs[u];
      var j :| 0 <= j < |cs[u]| && cs[u][j] == x;
    }
  }
}
