/** The app-order list: append, ordered insertion and removal of a handle. */
module AppOrder {
  import opened Basics
  import opened Handles
  import opened StableOrder

  ghost predicate List(head: Handle?, tail: Handle?, s: seq<Handle>)
    reads (set h | h in s)`next, (set h | h in s)`prev
  {
    AppList(s) && head == At(s, 0) && tail == At(s, |s| - 1)
  }

  lemma Ends(head: Handle?, tail: Handle?, s: seq<Handle>)
    requires List(head, tail, s)
    ensures head == At(s, 0) && tail == At(s, |s| - 1)
  {
  }

  /** HASH_APPEND_LIST. */
  method Append(head: Handle, tail: Handle, add: Handle, ghost s: seq<Handle>)
    requires List(head, tail, s) && add !in s
    modifies add`next, add`prev, tail`next
    ensures List(head, add, s + [add])
  {
    add.next := null;
    add.prev := tail;
    tail.next := add;
  }

  ghost function Spliced(s: seq<Handle>, k: nat, h: Handle): seq<Handle>
    requires k <= |s|
  {
    s[..k] + [h] + s[k..]
  }

  /** `r` is `s` with `h` at position `k`. */
  ghost predicate Opened(s: seq<Handle>, k: nat, h: Handle, r: seq<Handle>) {
    && k <= |s| && |r| == |s| + 1 && r[k] == h
    && (forall i :: 0 <= i < k ==> r[i] == s[i])
    && (forall i :: k < i < |r| ==> r[i] == s[i - 1])
  }

  lemma SplicedDistinct(s: seq<Handle>, k: nat, h: Handle)
    requires k <= |s| && Distinct(s) && h !in s
    ensures Opened(s, k, h, Spliced(s, k, h)) && Distinct(Spliced(s, k, h))
  {
  }

  /** HASH_AKBI_INNER_LOOP: the first handle that compares greater than `add`, or null. */
  method FindSpot(cmp: Compare, head: Handle, add: Handle, ghost s: seq<Handle>)
    returns (iter: Handle?, ghost k: nat)
    requires s != [] && head == s[0] && NextList(s)
    ensures k <= |s| && iter == At(s, k)
    ensures Spliced(s, k, add) == Insert(cmp, s, add)
  {
    iter, k := head, 0;
    while true
      invariant k < |s| && iter == s[k]
      invariant s[..k] + Insert(cmp, s[k..], add) == Insert(cmp, s, add)
      decreases |s| - k
    {
      if cmp(iter.item, add.item) > 0 {
        break;
      }
      assert s[k..][1..] == s[k + 1..] && s[..k] + [s[k]] == s[..k + 1];
      assert Insert(cmp, s[k..], add) == [s[k]] + Insert(cmp, s[k + 1..], add);
      k := k + 1;
      iter := iter.next;
      if iter == null {
        break;
      }
    }
  }

  /** The linking of HASH_ADD_..._INORDER in front of `iter`; `r` is the new order. */
  method LinkBefore(head: Handle, tail: Handle, iter: Handle, add: Handle,
                    ghost s: seq<Handle>, ghost k: nat, ghost r: seq<Handle>)
    returns (head': Handle)
    requires List(head, tail, s) && k < |s| && iter == s[k]
    requires Opened(s, k, add, r) && Distinct(r)
    modifies add`next, add`prev, iter`prev, (if k == 0 then {} else {s[k - 1]})`next
    ensures List(head', tail, r)
  {
    head' := head;
    add.next := iter;
    add.prev := iter.prev;
    if add.prev != null {
      add.prev.next := add;
    } else {
      head' := add;
    }
    iter.prev := add;
    forall i | 0 <= i < |r| ensures r[i].next == At(r, i + 1) && r[i].prev == At(r, i - 1) {
      assert i != k ==> r[i] == s[if i < k then i else i - 1];
    }
    assert head' == r[0] && tail == r[|s|];
  }

  /** The app-order part of HASH_DELETE_HH, when another handle is left; `r` is the new order. */
  method Remove(head: Handle, tail: Handle, del: Handle, ghost s: seq<Handle>, ghost k: nat, ghost r: seq<Handle>)
    returns (head': Handle, tail': Handle)
    requires List(head, tail, s) && |s| > 1
    requires ClosedUp(s, k, r) && Distinct(r) && del == s[k]
    modifies Opt(del.prev)`next, Opt(del.next)`prev
    ensures List(head', tail', r)
  {
    head', tail' := head, tail;
    if del == tail {
      tail' := del.prev;
    }
    if del.prev != null {
      del.prev.next := del.next;
    } else {
      head' := del.next;
    }
    if del.next != null {
      del.next.prev := del.prev;
    }
  }
}
