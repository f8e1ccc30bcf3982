/** Bucket chains: placement by hash, pushing, unlinking, searching, and doubling the table. */
module Buckets {
  import opened Arith
  import opened Basics
  import opened Handles

  type Hash = Key -> nat

  datatype Bucket = Bucket(hhHead: Handle?, count: nat, expandMult: nat)

  const EmptyBucket := Bucket(null, 0, 0)

  /** HASH_TO_BKT; `num_bkts` is a power of two, so masking is taking the remainder. */
  function ToBkt(hashv: nat, numBkts: nat): nat
    requires numBkts > 0
  {
    hashv % numBkts
  }

  function Home(hash: Hash, h: Handle, n: nat): nat
    requires n > 0
  {
    ToBkt(hash(h.item.key), n)
  }

  /** A bucket chain: `hhPrev` mirrors `hhNext`. */
  ghost predicate Chain(s: seq<Handle>)
    reads (set h | h in s)`hhPrev, (set h | h in s)`hhNext
  {
    (forall i {:trigger s[i].hhPrev} :: 0 <= i < |s| ==> s[i].hhPrev == At(s, i - 1))
    && (forall i {:trigger s[i].hhNext} :: 0 <= i < |s| ==> s[i].hhNext == At(s, i + 1))
  }

  /** Every handle sits in the bucket its hash names, once. */
  ghost predicate Placed(hash: Hash, cs: seq<seq<Handle>>) {
    && (forall t :: 0 <= t < |cs| ==> Distinct(cs[t]))
    && (forall t, i :: 0 <= t < |cs| && 0 <= i < |cs[t]| ==> Home(hash, cs[t][i], |cs|) == t)
  }

  ghost function Members(cs: seq<seq<Handle>>): set<Handle> {
    set t, i | 0 <= t < |cs| && 0 <= i < |cs[t]| :: cs[t][i]
  }

  /** The bucket array holds exactly the chains `cs`. */
  ghost predicate Linked(bs: array<Bucket>, cs: seq<seq<Handle>>)
    reads bs, Members(cs)`hhPrev, Members(cs)`hhNext
  {
    && bs.Length == |cs|
    && (forall t :: 0 <= t < |cs| ==> bs[t].hhHead == At(cs[t], 0))
    && (forall t :: 0 <= t < |cs| ==> Chain(cs[t]))
  }

  ghost predicate Counted(bs: array<Bucket>, cs: seq<seq<Handle>>)
    reads bs
  {
    && bs.Length == |cs|
    && forall t :: 0 <= t < |cs| ==> bs[t].count == |cs[t]|
  }

  /** Push `h` on the front of chain `t`. */
  ghost function Push(cs: seq<seq<Handle>>, t: nat, h: Handle): seq<seq<Handle>>
    requires t < |cs|
  {
    cs[t := [h] + cs[t]]
  }

  /** Link `h` in front of the chain `s`. */
  method LinkFront(h: Handle, first: Handle?, ghost s: seq<Handle>)
    requires Distinct(s) && Chain(s) && first == At(s, 0) && h !in s
    modifies h`hhNext, h`hhPrev, Opt(first)`hhPrev
    ensures Chain([h] + s)
  {
    h.hhNext := first;
    h.hhPrev := null;
    if first != null {
      first.hhPrev := h;
    }
    ghost var r := [h] + s;
    forall i | 0 <= i < |r| ensures r[i].hhNext == At(r, i + 1) && r[i].hhPrev == At(r, i - 1) {
      assert i > 0 ==> r[i] == s[i - 1];
    }
  }

  /** The linking statements that HASH_ADD_TO_BKT and HASH_EXPAND_BUCKETS share. */
  method PushFront(hash: Hash, bs: array<Bucket>, t: nat, h: Handle, ghost cs: seq<seq<Handle>>)
    requires t < |cs| && Placed(hash, cs) && Linked(bs, cs)
    requires Home(hash, h, |cs|) == t && h !in cs[t]
    modifies bs, h`hhNext, h`hhPrev, (if cs[t] == [] then {} else {cs[t][0]})`hhPrev
    ensures Placed(hash, Push(cs, t, h)) && Linked(bs, Push(cs, t, h))
    ensures bs[t] == old(bs[t]).(hhHead := h)
    ensures forall u :: 0 <= u < bs.Length && u != t ==> bs[u] == old(bs[u])
  {
    assert forall u, i :: 0 <= u < |cs| && u != t && 0 <= i < |cs[u]| ==> cs[u][i] != h && cs[u][i] != At(cs[t], 0);
    LinkFront(h, bs[t].hhHead, cs[t]);
    bs[t] := bs[t].(hhHead := h);
    assert forall u :: 0 <= u < |cs| && u != t ==> Chain(cs[u]);
  }

  ghost predicate Detached(h: Handle)
    reads h
  {
    h.hhPrev == null && h.hhNext == null
  }

  /** Bypass `h`; a detached handle has nothing to bypass. */
  method Unlink(h: Handle, ghost s: seq<Handle>)
    requires Distinct(s) && Chain(s)
    requires h in s || Detached(h)
    modifies Opt(h.hhPrev)`hhNext, Opt(h.hhNext)`hhPrev
    ensures Chain(Without(s, h))
    ensures At(Without(s, h), 0) == if At(s, 0) == h then old(h.hhNext) else At(s, 0)
  {
    ghost var r, k := Without(s, h), |s|;
    if h in s {
      k :| 0 <= k < |s| && s[k] == h;
      WithoutAt(s, k);
      assert h.hhPrev == At(s, k - 1) && h.hhNext == At(s, k + 1);
    } else {
      WithoutAbsent(s, h);
    }
    if h.hhPrev != null {
      h.hhPrev.hhNext := h.hhNext;
    }
    if h.hhNext != null {
      h.hhNext.hhPrev := h.hhPrev;
    }
  }

  lemma PlacedWithout(hash: Hash, cs: seq<seq<Handle>>, t: nat, h: Handle)
    requires t < |cs| && Placed(hash, cs)
    ensures Placed(hash, cs[t := Without(cs[t], h)])
  {
    var r, ds := Without(cs[t], h), cs[t := Without(cs[t], h)];
    WithoutIn(cs[t], h);
    forall u, i | 0 <= u < |ds| && 0 <= i < |ds[u]| ensures Home(hash, ds[u][i], |ds|) == u {
      if u == t {
        assert ds[u] == r && r[i] in cs[t];
      }
    }
  }

  /** HASH_DEL_IN_BKT on a handle of chain `t`, or, in the rollback, on one already detached. */
  method DelInBkt(hash: Hash, bs: array<Bucket>, t: nat, h: Handle, ghost cs: seq<seq<Handle>>)
    requires t < |cs| && Placed(hash, cs) && Linked(bs, cs) && bs[t].count > 0
    requires h in cs[t] || Detached(h)
    modifies bs, Opt(h.hhPrev)`hhNext, Opt(h.hhNext)`hhPrev
    ensures Linked(bs, cs[t := Without(cs[t], h)])
    ensures bs[t].count == old(bs[t].count) - 1 && bs[t].expandMult == old(bs[t].expandMult)
    ensures forall u :: 0 <= u < bs.Length && u != t ==> bs[u] == old(bs[u])
  {
    bs[t] := bs[t].(count := bs[t].count - 1);
    if bs[t].hhHead == h {
      bs[t] := bs[t].(hhHead := h.hhNext);
    }
    ghost var near := Opt(h.hhPrev) + Opt(h.hhNext);
    assert forall x :: x in near ==> x in cs[t];
    assert forall u, i :: 0 <= u < |cs| && u != t && 0 <= i < |cs[u]| ==> cs[u][i] !in near;
    Unlink(h, cs[t]);
  }

  /** The cached hash values are the hashes of the keys. */
  ghost predicate Hashed(hash: Hash, s: seq<Handle>)
    reads (set h | h in s)`hashv
  {
    forall i :: 0 <= i < |s| ==> s[i].hashv == hash(s[i].item.key)
  }

  /** HASH_FIND_IN_BKT: walk the chain to the first handle with this hash value and key. */
  method FindInBkt(hash: Hash, bs: array<Bucket>, t: nat, key: Key, ghost cs: seq<seq<Handle>>)
    returns (out: Handle?)
    requires t < |cs| && Linked(bs, cs) && Hashed(hash, cs[t])
    ensures out != null ==> out in cs[t] && out.item.key == key
    ensures out == null ==> forall i :: 0 <= i < |cs[t]| ==> cs[t][i].item.key != key
  {
    out := bs[t].hhHead;
    ghost var k := 0;
    while out != null
      invariant 0 <= k <= |cs[t]| && out == At(cs[t], k)
      invariant forall i :: 0 <= i < k ==> cs[t][i].item.key != key
      decreases |cs[t]| - k
    {
      if out.hashv == hash(key) && out.item.key == key {
        break;
      }
      out := out.hhNext;
      k := k + 1;
    }
  }

  // ---- HASH_EXPAND_BUCKETS ----

  /** The handles of an old chain that go to new bucket `t` of `m`, in reverse. */
  ghost function Split(hash: Hash, s: seq<Handle>, t: nat, m: nat): seq<Handle>
    requires m > 0
  {
    if s == [] then []
    else
      var x, r := s[|s| - 1], Split(hash, s[..|s| - 1], t, m);
      if Home(hash, x, m) == t then [x] + r else r
  }

  /** The new table's chains once buckets below `i`, and the first `j` handles of bucket `i`, have moved. */
  ghost predicate Moved(hash: Hash, cs: seq<seq<Handle>>, i: nat, j: nat, ds: seq<seq<Handle>>) {
    && |ds| == 2 * |cs| && |cs| > 0 && i <= |cs| && (j > 0 ==> i < |cs| && j <= |cs[i]|)
    && forall t :: 0 <= t < |ds| ==>
         ds[t] == Split(hash, Taken(cs, i, j, t % |cs|), t, |ds|)
  }

  /** The part of old bucket `b` that has been walked. */
  ghost function Taken(cs: seq<seq<Handle>>, i: nat, j: nat, b: nat): seq<Handle>
    requires b < |cs| && (b == i ==> j <= |cs[i]|)
  {
    if b < i then cs[b] else if b == i then cs[i][..j] else []
  }

  /** How far `count` insertions push `expand_mult`. */
  function MultAfter(count: nat, ideal: nat): nat {
    if count == 0 then 0
    else
      var m := MultAfter(count - 1, ideal);
      if count > ideal && count > m * ideal then m + 1 else m
  }

  function Excess(count: nat, ideal: nat): nat {
    if count > ideal then count - ideal else 0
  }

  /** The items of all chains that lie beyond the ideal length. */
  ghost function TotalExcess(cs: seq<seq<Handle>>, ideal: nat): nat {
    if cs == [] then 0
    else TotalExcess(cs[..|cs| - 1], ideal) + Excess(|cs[|cs| - 1]|, ideal)
  }

  ghost predicate Multed(bs: array<Bucket>, ideal: nat)
    reads bs
  {
    forall t :: 0 <= t < bs.Length ==> bs[t].expandMult == MultAfter(bs[t].count, ideal)
  }

  lemma {:induction false} PushExcess(cs: seq<seq<Handle>>, t: nat, h: Handle, ideal: nat)
    requires t < |cs|
    ensures TotalExcess(Push(cs, t, h), ideal)
         == TotalExcess(cs, ideal) + if |cs[t]| + 1 > ideal then 1 else 0
  {
    var n := |cs| - 1;
    var ds := Push(cs, t, h);
    if t == n {
      assert ds[..n] == cs[..n];
    } else {
      PushExcess(cs[..n], t, h, ideal);
      assert ds[..n] == Push(cs[..n], t, h);
    }
  }

  /** Count one more handle in bucket `b`, noting what lies beyond the ideal length. */
  method CountUp(nb: array<Bucket>, b: nat, ideal: nat, nonideal0: nat, ghost ds: seq<seq<Handle>>, h: Handle)
    returns (nonideal: nat)
    requires b < |ds| && Counted(nb, ds) && Multed(nb, ideal) && nonideal0 == TotalExcess(ds, ideal)
    modifies nb
    ensures Counted(nb, Push(ds, b, h)) && Multed(nb, ideal)
    ensures nonideal == TotalExcess(Push(ds, b, h), ideal)
    ensures forall t :: 0 <= t < nb.Length ==> nb[t].hhHead == old(nb[t].hhHead)
  {
    nonideal := nonideal0;
    PushExcess(ds, b, h, ideal);
    nb[b] := nb[b].(count := nb[b].count + 1);
    if nb[b].count > ideal {
      nonideal := nonideal + 1;
      if nb[b].count > nb[b].expandMult * ideal {
        nb[b] := nb[b].(expandMult := nb[b].expandMult + 1);
      }
    }
  }

  /** The body of the expansion's inner loop: move one handle to its new bucket `t`. */
  method Rehash(hash: Hash, nb: array<Bucket>, h: Handle, ideal: nat, nonideal0: nat,
                ghost t: nat, ghost ds: seq<seq<Handle>>)
    returns (nonideal: nat)
    requires t < |ds| && Placed(hash, ds) && Linked(nb, ds) && Counted(nb, ds) && Multed(nb, ideal)
    requires h.hashv == hash(h.item.key) && Home(hash, h, |ds|) == t && h !in ds[t]
    requires nonideal0 == TotalExcess(ds, ideal)
    modifies nb, h`hhNext, h`hhPrev, (if ds[t] == [] then {} else {ds[t][0]})`hhPrev
    ensures Placed(hash, Push(ds, t, h)) && Linked(nb, Push(ds, t, h))
    ensures Counted(nb, Push(ds, t, h)) && Multed(nb, ideal)
    ensures nonideal == TotalExcess(Push(ds, t, h), ideal)
  {
    var b := ToBkt(h.hashv, nb.Length);
    nonideal := CountUp(nb, b, ideal, nonideal0, ds, h);
    PushFront(hash, nb, b, h, ds);
  }

  /** Doubling the table sends bucket `b` only to `b` and `b + n`. */
  lemma HalfHome(x: nat, n: nat)
    requires n > 0
    ensures x % (2 * n) % n == x % n
    ensures x % (2 * n) == x % n || x % (2 * n) == x % n + n
  {
    var q, r := x / (2 * n), x % (2 * n);
    assert x == q * (2 * n) + r;
    var r' := if r < n then r else r - n;
    var q' := if r < n then 2 * q else 2 * q + 1;
    assert q * (2 * n) == (2 * q) * n;
    assert q' * n == (2 * q) * n + if r < n then 0 else n;
    assert x == q' * n + r' && 0 <= r' < n;
    ModIs(x, n, q', r');
    ModIs(r, n, if r < n then 0 else 1, r');
  }

  lemma {:induction false} SplitIn(hash: Hash, s: seq<Handle>, t: nat, m: nat)
    requires m > 0
    ensures forall i :: 0 <= i < |Split(hash, s, t, m)| ==>
              Split(hash, s, t, m)[i] in s && Home(hash, Split(hash, s, t, m)[i], m) == t
    ensures forall i :: 0 <= i < |s| && Home(hash, s[i], m) == t ==> s[i] in Split(hash, s, t, m)
  {
    if s != [] {
      SplitIn(hash, s[..|s| - 1], t, m);
    }
  }

  lemma SplitMore(hash: Hash, s: seq<Handle>, j: nat, t: nat, m: nat)
    requires m > 0 && j < |s|
    ensures Split(hash, s[..j + 1], t, m)
         == (if Home(hash, s[j], m) == t then [s[j]] else []) + Split(hash, s[..j], t, m)
  {
    assert s[..j + 1][..j] == s[..j];
  }

  /** The handle about to move is not in its new bucket yet, and moving it is one more step of `Moved`. */
  lemma MovedNext(hash: Hash, cs: seq<seq<Handle>>, i: nat, j: nat, ds: seq<seq<Handle>>, t: nat)
    requires i < |cs| && j < |cs[i]| && Placed(hash, cs) && Moved(hash, cs, i, j, ds)
    requires t == Home(hash, cs[i][j], |ds|)
    ensures t < |ds| && t % |cs| == i
    ensures cs[i][j] !in ds[t]
    ensures ds[t] != [] ==> ds[t][0] in cs[i][..j]
    ensures Moved(hash, cs, i, j + 1, Push(ds, t, cs[i][j]))
  {
    hide Split;
    var h, n := cs[i][j], |cs|;
    HalfHome(hash(h.item.key), n);
    assert Home(hash, h, n) == i;
    SplitIn(hash, cs[i][..j], t, 2 * n);
    var ds' := Push(ds, t, h);
    forall u | 0 <= u < 2 * n ensures ds'[u] == Split(hash, Taken(cs, i, j + 1, u % n), u, 2 * n) {
      if u % n == i {
        SplitMore(hash, cs[i], j, u, 2 * n);
        assert u != t ==> ds[u] == [] + ds[u];
      }
    }
  }

  lemma MovedRow(hash: Hash, cs: seq<seq<Handle>>, i: nat, ds: seq<seq<Handle>>)
    requires i < |cs| && Moved(hash, cs, i, |cs[i]|, ds)
    ensures Moved(hash, cs, i + 1, 0, ds)
  {
    assert cs[i][..|cs[i]|] == cs[i];
    forall t | 0 <= t < |ds| ensures Taken(cs, i + 1, 0, t % |cs|) == Taken(cs, i, |cs[i]|, t % |cs|) {
      if t % |cs| == i + 1 {
        assert cs[i + 1][..0] == [];
      }
    }
  }

  /** From handle `j` of bucket `i` on, the old chains can still be walked. */
  ghost predicate Walkable(cs: seq<seq<Handle>>, i: nat, j: nat)
    reads Members(cs)
  {
    && (forall k :: i < |cs| && j <= k < |cs[i]| ==> cs[i][k].hhNext == At(cs[i], k + 1))
    && (forall u, k :: i < u < |cs| && 0 <= k < |cs[u]| ==> cs[u][k].hhNext == At(cs[u], k + 1))
  }

  /** The state of the new table between two moves. */
  ghost predicate Moving(hash: Hash, nb: array<Bucket>, cs: seq<seq<Handle>>, i: nat, j: nat,
                         ds: seq<seq<Handle>>, ideal: nat, nonideal: nat)
    reads nb, Members(ds)
  {
    && Moved(hash, cs, i, j, ds)
    && Placed(hash, ds) && Linked(nb, ds) && Counted(nb, ds) && Multed(nb, ideal)
    && nonideal == TotalExcess(ds, ideal)
  }

  /** Move handle `j` of old bucket `i`. */
  method MoveOne(hash: Hash, nb: array<Bucket>, h: Handle, ideal: nat, nonideal0: nat,
                 ghost cs: seq<seq<Handle>>, ghost i: nat, ghost j: nat, ghost ds: seq<seq<Handle>>)
    returns (next: Handle?, nonideal: nat, ghost ds': seq<seq<Handle>>)
    requires i < |cs| && j < |cs[i]| && h == cs[i][j] && Placed(hash, cs) && Hashed(hash, cs[i])
    requires Walkable(cs, i, j) && Moving(hash, nb, cs, i, j, ds, ideal, nonideal0)
    modifies nb, Members(cs)`hhNext, Members(cs)`hhPrev
    ensures next == At(cs[i], j + 1)
    ensures Walkable(cs, i, j + 1) && Moving(hash, nb, cs, i, j + 1, ds', ideal, nonideal)
  {
    hide TotalExcess, MultAfter, Split, Home, ToBkt;
    ghost var t := Home(hash, h, |ds|);
    MovedNext(hash, cs, i, j, ds, t);
    next := h.hhNext;
    nonideal := Rehash(hash, nb, h, ideal, nonideal0, t, ds);
    ds' := Push(ds, t, h);
  }

  ghost predicate AllHashed(hash: Hash, cs: seq<seq<Handle>>)
    reads Members(cs)`hashv
  {
    forall t :: 0 <= t < |cs| ==> Hashed(hash, cs[t])
  }

  /** The inner loop: walk old bucket `i`, saving each `hh_next` before it is overwritten. */
  method MoveChain(hash: Hash, nb: array<Bucket>, first: Handle?, ideal: nat, nonideal0: nat,
                   ghost cs: seq<seq<Handle>>, ghost i: nat, ghost ds: seq<seq<Handle>>)
    returns (nonideal: nat, ghost ds': seq<seq<Handle>>)
    requires i < |cs| && first == At(cs[i], 0) && Placed(hash, cs) && AllHashed(hash, cs)
    requires Walkable(cs, i, 0) && Moving(hash, nb, cs, i, 0, ds, ideal, nonideal0)
    modifies nb, Members(cs)`hhNext, Members(cs)`hhPrev
    ensures AllHashed(hash, cs)
    ensures Walkable(cs, i + 1, 0) && Moving(hash, nb, cs, i + 1, 0, ds', ideal, nonideal)
  {
    hide Split, TotalExcess, MultAfter, Placed, Linked, Counted;
    var thh := first;
    nonideal, ds' := nonideal0, ds;
    ghost var j: nat := 0;
    while thh != null
      invariant j <= |cs[i]| && thh == At(cs[i], j) && AllHashed(hash, cs)
      invariant Walkable(cs, i, j) && Moving(hash, nb, cs, i, j, ds', ideal, nonideal)
      decreases |cs[i]| - j
    {
      thh, nonideal, ds' := MoveOne(hash, nb, thh, ideal, nonideal, cs, i, j, ds');
      j := j + 1;
    }
    MovedRow(hash, cs, i, ds');
  }

  /** A zeroed bucket array. */
  method EmptyBuckets(hash: Hash, n: nat) returns (nb: array<Bucket>, ghost ds: seq<seq<Handle>>)
    ensures fresh(nb) && Linked(nb, ds) && Counted(nb, ds) && |ds| == n
    ensures forall t :: 0 <= t < n ==> ds[t] == [] && nb[t] == EmptyBucket
    ensures Placed(hash, ds) && AllHashed(hash, ds)
  {
    nb := new Bucket[n](_ => EmptyBucket);
    ds := seq(n, _ => []);
  }

  lemma {:induction false} EmptyExcess(cs: seq<seq<Handle>>, ideal: nat)
    requires forall t :: 0 <= t < |cs| ==> cs[t] == []
    ensures TotalExcess(cs, ideal) == 0
  {
    if cs != [] {
      EmptyExcess(cs[..|cs| - 1], ideal);
    }
  }

  /** The new table before the first move. */
  lemma StartMoving(hash: Hash, nb: array<Bucket>, cs: seq<seq<Handle>>, ds: seq<seq<Handle>>, ideal: nat)
    requires Linked(nb, ds) && Counted(nb, ds) && Placed(hash, ds) && |ds| == 2 * |cs| > 0
    requires forall t :: 0 <= t < |ds| ==> ds[t] == [] && nb[t] == EmptyBucket
    ensures Moving(hash, nb, cs, 0, 0, ds, ideal, 0)
  {
    EmptyExcess(ds, ideal);
    assert forall t :: 0 <= t < |cs| ==> cs[t][..0] == [];
  }

  /** The outer loop of HASH_EXPAND_BUCKETS: fill the array of twice the size from the old chains. */
  method MoveAll(hash: Hash, bs: array<Bucket>, nb: array<Bucket>, ideal: nat,
                 ghost cs: seq<seq<Handle>>, ghost ds0: seq<seq<Handle>>)
    returns (nonideal: nat, ghost ds: seq<seq<Handle>>)
    requires bs != nb && bs.Length == |cs| && forall t :: 0 <= t < |cs| ==> bs[t].hhHead == At(cs[t], 0)
    requires Placed(hash, cs) && AllHashed(hash, cs) && Walkable(cs, 0, 0)
    requires Moving(hash, nb, cs, 0, 0, ds0, ideal, 0)
    modifies nb, Members(cs)`hhNext, Members(cs)`hhPrev
    ensures AllHashed(hash, cs)
    ensures Moving(hash, nb, cs, |cs|, 0, ds, ideal, nonideal)
  {
    hide Moving, Walkable, AllHashed, Linked;
    nonideal, ds := 0, ds0;
    var i: nat := 0;
    while i < bs.Length
      invariant i <= |cs| && AllHashed(hash, cs)
      invariant Walkable(cs, i, 0) && Moving(hash, nb, cs, i, 0, ds, ideal, nonideal)
    {
      nonideal, ds := MoveChain(hash, nb, bs[i].hhHead, ideal, nonideal, cs, i, ds);
      i := i + 1;
    }
    assert i == |cs|;
  }

  /** The chains after doubling: every old bucket split in two, reversed. */
  ghost predicate Doubled(hash: Hash, cs: seq<seq<Handle>>, ds: seq<seq<Handle>>) {
    && |cs| > 0 && |ds| == 2 * |cs|
    && forall t :: 0 <= t < |ds| ==> ds[t] == Split(hash, cs[t % |cs|], t, |ds|)
  }

  lemma DoubledHashed(hash: Hash, cs: seq<seq<Handle>>, ds: seq<seq<Handle>>)
    requires Doubled(hash, cs, ds) && AllHashed(hash, cs)
    ensures AllHashed(hash, ds)
  {
    forall t | 0 <= t < |ds| ensures Hashed(hash, ds[t]) {
      SplitIn(hash, cs[t % |cs|], t, |ds|);
      assert Hashed(hash, cs[t % |cs|]);
    }
  }

  /** What one successful expansion does to the buckets. */
  method DoubleBuckets(hash: Hash, bs: array<Bucket>, ideal: nat, ghost cs: seq<seq<Handle>>)
    returns (nb: array<Bucket>, nonideal: nat, ghost ds: seq<seq<Handle>>)
    requires |cs| > 0 && Placed(hash, cs) && AllHashed(hash, cs) && Linked(bs, cs)
    modifies Members(cs)`hhNext, Members(cs)`hhPrev
    ensures fresh(nb) && |ds| == 2 * |cs| && Doubled(hash, cs, ds)
    ensures Placed(hash, ds) && Linked(nb, ds) && Counted(nb, ds) && AllHashed(hash, ds)
    ensures Multed(nb, ideal) && nonideal == TotalExcess(ds, ideal)
  {
    hide MultAfter, TotalExcess, Split;
    nb, ds := EmptyBuckets(hash, 2 * bs.Length);
    StartMoving(hash, nb, cs, ds, ideal);
    nonideal, ds := MoveAll(hash, bs, nb, ideal, cs, ds);
    forall t | 0 <= t < |ds| ensures ds[t] == Split(hash, cs[t % |cs|], t, |ds|) {
      assert Taken(cs, |cs|, 0, t % |cs|) == cs[t % |cs|];
    }
    DoubledHashed(hash, cs, ds);
  }

  lemma HashedWithout(hash: Hash, cs: seq<seq<Handle>>, t: nat, h: Handle)
    requires t < |cs| && Distinct(cs[t]) && AllHashed(hash, cs)
    ensures AllHashed(hash, cs[t := Without(cs[t], h)])
  {
    WithoutIn(cs[t], h);
    assert Hashed(hash, cs[t]);
  }
}
