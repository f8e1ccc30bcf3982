/** The intrusive handle (`UT_hash_handle`) and the two doubly linked shapes it takes part in. */
module Handles {
  import opened Basics

  type Key(==, !new)
  type Value(!new)

  /** The user's element: what the key compare and the sort compare look at. */
  datatype Item = Item(key: Key, val: Value)

  class Handle {
    const item: Item
    var hashv: nat
    var prev: Handle?      // app order
    var next: Handle?
    var hhPrev: Handle?    // bucket order
    var hhNext: Handle?

    constructor (item: Item)
      ensures this.item == item
    {
      this.item := item;
    }
  }

  ghost function At(s: seq<Handle>, i: int): Handle? {
    if 0 <= i < |s| then s[i] else null
  }

  ghost function Opt(h: Handle?): set<Handle> {
    if h == null then {} else {h}
  }

  ghost predicate Disjoint(s: seq<Handle>, t: seq<Handle>) {
    forall i, j :: 0 <= i < |s| && 0 <= j < |t| ==> s[i] != t[j]
  }

  /** `next` walks exactly `s` and then ends; nothing is said about `prev`. */
  ghost predicate NextList(s: seq<Handle>)
    reads (set h | h in s)`next
  {
    forall i {:trigger s[i].next} :: 0 <= i < |s| ==> s[i].next == At(s, i + 1)
  }

  /** The app-order list: `prev` mirrors `next`. */
  ghost predicate AppList(s: seq<Handle>)
    reads (set h | h in s)`next, (set h | h in s)`prev
  {
    && Distinct(s)
    && NextList(s)
    && forall i {:trigger s[i].prev} :: 0 <= i < |s| ==> s[i].prev == At(s, i - 1)
  }

  /** `s` without (the first occurrence of) `h`. */
  ghost function Without(s: seq<Handle>, h: Handle): seq<Handle> {
    if s == [] then []
    else if s[0] == h then s[1..]
    else [s[0]] + Without(s[1..], h)
  }

  lemma {:induction false} WithoutAbsent(s: seq<Handle>, h: Handle)
    requires h !in s
    ensures Without(s, h) == s
  {
    if s != [] {
      WithoutAbsent(s[1..], h);
    }
  }

  /** `r` is `s` with position `k` closed up. */
  ghost predicate ClosedUp(s: seq<Handle>, k: nat, r: seq<Handle>) {
    && k < |s| && |r| == |s| - 1
    && (forall i :: 0 <= i < k ==> r[i] == s[i])
    && (forall i :: k <= i < |r| ==> r[i] == s[i + 1])
  }

  lemma {:induction false} WithoutAt(s: seq<Handle>, k: nat)
    requires Distinct(s) && k < |s|
    ensures ClosedUp(s, k, Without(s, s[k]))
  {
    if k > 0 {
      WithoutAt(s[1..], k - 1);
    }
  }

  lemma {:induction false} WithoutIn(s: seq<Handle>, h: Handle)
    requires Distinct(s)
    ensures Distinct(Without(s, h))
    ensures forall i :: 0 <= i < |Without(s, h)| ==> Without(s, h)[i] in s && Without(s, h)[i] != h
    ensures forall i :: 0 <= i < |s| && s[i] != h ==> s[i] in Without(s, h)
  {
    if s != [] && s[0] != h {
      var r := Without(s[1..], h);
      WithoutIn(s[1..], h);
      assert s[0] !in s[1..] && s[0] !in r;
      assert s == [s[0]] + s[1..];
    }
  }

  lemma {:induction false} WithoutLength(s: seq<Handle>, h: Handle)
    ensures |Without(s, h)| == |s| - if h in s then 1 else 0
  {
    if s != [] && s[0] != h {
      WithoutLength(s[1..], h);
    }
  }
}
