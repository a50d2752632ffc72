/**
  The per-owner list of kitty ids, `BoundedVec<KittyIndex, ConstU32<256>>`,
  and the three operations the pallet applies to it: `try_push`, the search
  `iter().position(..)` and `swap_remove`.
 */
module OwnerList {
  import opened Types

  ghost predicate NoDuplicates(l: seq<KittyIndex>) {
    forall i, j | 0 <= i < j < |l| :: l[i] != l[j]
  }

  /** `BoundedVec::try_push`: appends unless the list is already at capacity. */
  function TryPush(l: seq<KittyIndex>, id: KittyIndex): (r: Option<seq<KittyIndex>>)
    ensures r.Some? <==> |l| < MAX_OWNER_KITTIES
    ensures r.Some? ==> r.value == l + [id] && |r.value| <= MAX_OWNER_KITTIES
  {
    if |l| < MAX_OWNER_KITTIES then Some(l + [id]) else None
  }

  /** `iter().position(|k| k == &id)`: the first index that holds `id`. */
  function FirstIndex(l: seq<KittyIndex>, id: KittyIndex): (r: Option<nat>)
    ensures r.None? <==> id !in l
    ensures r.Some? ==> r.value < |l| && l[r.value] == id && id !in l[..r.value]
  {
    if |l| == 0 then None
    else if l[0] == id then Some(0)
    else
      match FirstIndex(l[1..], id)
      case None => None
      case Some(i) =>
        assert l[..i + 1] == [l[0]] + l[1..][..i];
        Some(i + 1)
  }

  /** The same search, written as the loop the iterator runs. */
  method Position(l: seq<KittyIndex>, id: KittyIndex) returns (r: Option<nat>)
    ensures r == FirstIndex(l, id)
  {
    var i := 0;
    while i < |l| && l[i] != id
      invariant 0 <= i <= |l|
      invariant id !in l[..i]
    {
      assert l[..i + 1] == l[..i] + [l[i]];
      i := i + 1;
    }
    if i < |l| {
      r := Some(i);
    } else {
      assert l[..i] == l;
      r := None;
    }
  }

  /** `Vec::swap_remove(i)`: the last element takes the place of the removed one. */
  function SwapRemove(l: seq<KittyIndex>, i: nat): (r: seq<KittyIndex>)
    requires i < |l|
    ensures |r| == |l| - 1
    ensures forall j | 0 <= j < |r| && j != i :: r[j] == l[j]
    ensures i < |r| ==> r[i] == l[|l| - 1]
  {
    l[i := l[|l| - 1]][..|l| - 1]
  }

  /** `swap_remove` removes exactly one occurrence of the element at `i`. */
  lemma SwapRemovePermutes(l: seq<KittyIndex>, i: nat)
    requires i < |l|
    ensures multiset(SwapRemove(l, i)) == multiset(l) - multiset{l[i]}
  {
    var n := |l| - 1;
    if i == n {
      assert l == SwapRemove(l, i) + [l[i]];
    } else {
      var r := SwapRemove(l, i);
      assert l == l[..i] + [l[i]] + l[i + 1..n] + [l[n]];
      assert r == l[..i] + [l[n]] + l[i + 1..n];
      calc {
        multiset(l);
        multiset(l[..i]) + multiset{l[i]} + multiset(l[i + 1..n]) + multiset{l[n]};
        multiset(r) + multiset{l[i]};
      }
    }
  }

  /** On a list without duplicates, `swap_remove` keeps the list free of
      duplicates and removes exactly the element at `i`. */
  lemma SwapRemoveMembers(l: seq<KittyIndex>, i: nat)
    requires i < |l| && NoDuplicates(l)
    ensures NoDuplicates(SwapRemove(l, i))
    ensures forall x :: x in SwapRemove(l, i) <==> x in l && x != l[i]
  {
    SwapRemovePermutes(l, i);
    var r := SwapRemove(l, i);
    forall x ensures x in r <==> x in l && x != l[i] {
      assert x in r <==> x in multiset(r);
      assert x in l <==> x in multiset(l);
      if x == l[i] {
        assert multiset(l)[x] == 1 by { NoDuplicatesCountsOnce(l, i); }
      }
    }
    forall p, q | 0 <= p < q < |r| ensures r[p] != r[q] {
      var n := |l| - 1;
      if q == i {
        assert r[q] == l[n] && r[p] == l[p];
      } else if p == i {
        assert r[p] == l[n] && r[q] == l[q];
      } else {
        assert r[p] == l[p] && r[q] == l[q];
      }
    }
  }

  lemma NoDuplicatesCountsOnce(l: seq<KittyIndex>, i: nat)
    requires i < |l| && NoDuplicates(l)
    ensures multiset(l)[l[i]] == 1
  {
    assert l == l[..i] + [l[i]] + l[i + 1..];
    assert l[i] !in l[..i] by {
      forall j | 0 <= j < i ensures l[..i][j] != l[i] {}
    }
    var tail := l[i + 1..];
    assert l[i] !in tail by {
      forall j | 0 <= j < |tail| ensures tail[j] != l[i] {
        assert tail[j] == l[i + 1 + j];
      }
    }
    assert multiset(l) == multiset(l[..i]) + multiset{l[i]} + multiset(l[i + 1..]);
  }

  /** Appending an id that is not yet in the list keeps it free of duplicates. */
  lemma PushKeepsNoDuplicates(l: seq<KittyIndex>, id: KittyIndex)
    requires NoDuplicates(l) && id !in l
    ensures NoDuplicates(l + [id])
  {
  }
}
