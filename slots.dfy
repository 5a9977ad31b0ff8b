/** The slot scan both extraction routines perform: for i in range(1, last + 1), append the
    entry slot i yields, if it yields one. Stated once, generically, so that its shape
    (bounded, in slot order, nothing lost) is proved once for diagnoses and procedures. */
module Slots {
  import opened Wrappers

  /** The entries of slots `i`..`last`, in slot order. */
  function Present<T>(at: nat -> Option<T>, i: nat, last: nat): seq<T>
    requires 1 <= i <= last + 1
    decreases last + 1 - i
  {
    if i == last + 1 then [] else ToSeq(at(i)) + Present(at, i + 1, last)
  }

  /** The loop itself: slots 1..`last` in order, each entry appended as it is found. */
  method Scan<T>(at: nat -> Option<T>, last: nat) returns (found: seq<T>)
    ensures found == Present(at, 1, last)
  {
    found := [];
    for i := 1 to last + 1
      invariant found + Present(at, i, last) == Present(at, 1, last)
    {
      var entry := at(i);
      ghost var rest := Present(at, i + 1, last);
      assert Present(at, i, last) == ToSeq(entry) + rest;
      if entry.Some? {
        assert found + ([entry.value] + rest) == (found + [entry.value]) + rest;
        found := found + [entry.value];
      } else {
        assert ToSeq(entry) + rest == rest;
      }
    }
  }

  /** Entries that know their own slot come out at most one per slot, in strictly increasing
      slot order within `i`..`last`, each being what its slot yields. */
  lemma {:induction false} PresentShape<T>(at: nat -> Option<T>, slot: T -> nat, i: nat, last: nat)
    requires 1 <= i <= last + 1
    requires forall j :: at(j).Some? ==> slot(at(j).value) == j
    ensures |Present(at, i, last)| <= last + 1 - i
    ensures forall k :: 0 <= k < |Present(at, i, last)| ==>
              i <= slot(Present(at, i, last)[k]) <= last
              && at(slot(Present(at, i, last)[k])) == Some(Present(at, i, last)[k])
    ensures forall k, l :: 0 <= k < l < |Present(at, i, last)| ==>
              slot(Present(at, i, last)[k]) < slot(Present(at, i, last)[l])
    decreases last + 1 - i
  {
    if i <= last {
      PresentShape(at, slot, i + 1, last);
      var rest := Present(at, i + 1, last);
      assert Present(at, i, last) == ToSeq(at(i)) + rest;
      if at(i).Some? {
        assert Present(at, i, last) == [at(i).value] + rest;
        assert forall k :: 1 <= k < |Present(at, i, last)| ==> Present(at, i, last)[k] == rest[k - 1];
      }
    }
  }

  /** Nothing is lost: every slot in `i`..`last` that yields an entry contributes it. */
  lemma {:induction false} PresentCover<T>(at: nat -> Option<T>, i: nat, j: nat, last: nat)
    requires 1 <= i <= j <= last
    requires at(j).Some?
    ensures at(j).value in Present(at, i, last)
    decreases j - i
  {
    var rest := Present(at, i + 1, last);
    assert Present(at, i, last) == ToSeq(at(i)) + rest;
    if i < j {
      PresentCover(at, i + 1, j, last);
      assert at(j).value in rest;
    } else {
      assert ToSeq(at(i)) == [at(j).value];
    }
  }

  /** Membership in the scan is exactly "yielded by some slot in `i`..`last`". */
  lemma PresentMembers<T>(at: nat -> Option<T>, slot: T -> nat, last: nat)
    requires 1 <= last
    requires forall j :: at(j).Some? ==> slot(at(j).value) == j
    ensures forall x :: x in Present(at, 1, last) <==> exists j :: 1 <= j <= last && at(j) == Some(x)
  {
    PresentShape(at, slot, 1, last);
    forall j | 1 <= j <= last && at(j).Some?
      ensures at(j).value in Present(at, 1, last)
    {
      PresentCover(at, 1, j, last);
    }
    forall x | x in Present(at, 1, last)
      ensures exists j :: 1 <= j <= last && at(j) == Some(x)
    {
      var k :| 0 <= k < |Present(at, 1, last)| && Present(at, 1, last)[k] == x;
      assert at(slot(x)) == Some(x);
    }
  }
}
