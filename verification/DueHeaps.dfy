/** The scheduler's priority queue: a binary heap laid out level by level in a growable vector. */
module DueHeaps {
  import opened Options
  import opened SchedulerRuns

  function Parent(i: nat): nat
    requires i > 0
  {
    (i - 1) / 2
  }

  /** No entry comes before its parent. */
  ghost predicate IsHeap(s: seq<Entry>) {
    forall i :: 0 < i < |s| ==> !Earlier(s[i], s[Parent(i)])
  }

  lemma {:induction false} RootIsLeast(s: seq<Entry>, i: nat)
    requires IsHeap(s) && i < |s|
    ensures !Earlier(s[i], s[0])
  {
    if i > 0 {
      RootIsLeast(s, Parent(i));
      assert !Earlier(s[i], s[Parent(i)]);
    }
  }

  /** Heap order everywhere except that the entry at `i` may come before its parent. */
  ghost predicate HeapAbove(s: seq<Entry>, i: nat) {
    && (forall k :: 0 < k < |s| && k != i ==> !Earlier(s[k], s[Parent(k)]))
    && (forall k :: 0 < k < |s| && Parent(k) == i && i > 0 ==> !Earlier(s[k], s[Parent(i)]))
  }

  /** Heap order everywhere except that the entry at `i` may come after its children. */
  ghost predicate HeapBelow(s: seq<Entry>, i: nat) {
    && (forall k :: 0 < k < |s| && Parent(k) != i ==> !Earlier(s[k], s[Parent(k)]))
    && (forall k :: 0 < k < |s| && Parent(k) == i && i > 0 ==> !Earlier(s[k], s[Parent(i)]))
  }

  function Swapped(s: seq<Entry>, i: nat, j: nat): (r: seq<Entry>)
    requires i < |s| && j < |s|
    ensures |r| == |s| && multiset(r) == multiset(s)
  {
    s[i := s[j]][j := s[i]]
  }

  lemma {:induction false} SwapUp(s: seq<Entry>, i: nat)
    requires 0 < i < |s| && HeapAbove(s, i) && Earlier(s[i], s[Parent(i)])
    ensures HeapAbove(Swapped(s, i, Parent(i)), Parent(i))
  {
    var p := Parent(i);
    var r := Swapped(s, i, p);
    forall k | 0 < k < |r| && k != p
      ensures !Earlier(r[k], r[Parent(k)])
    {
      assert k != i ==> !Earlier(s[k], s[Parent(k)]);
      if k != i && Parent(k) == i {
        assert !Earlier(s[k], s[p]);
      }
    }
    forall k | 0 < k < |r| && Parent(k) == p && p > 0
      ensures !Earlier(r[k], r[Parent(p)])
    {
      assert !Earlier(s[p], s[Parent(p)]);
      assert k != i ==> !Earlier(s[k], s[p]);
    }
  }

  lemma SwapDown(s: seq<Entry>, i: nat, c: nat)
    requires 0 < c < |s| && Parent(c) == i && HeapBelow(s, i) && Earlier(s[c], s[i])
    requires forall k :: 0 < k < |s| && Parent(k) == i ==> !Earlier(s[k], s[c])
    ensures HeapBelow(Swapped(s, i, c), c)
  {
    var r := Swapped(s, i, c);
    forall k | 0 < k < |r| && Parent(k) != c
      ensures !Earlier(r[k], r[Parent(k)])
    {
      if k == i {
        assert !Earlier(s[c], s[Parent(i)]);
      } else if Parent(k) != i {
        assert !Earlier(s[k], s[Parent(k)]);
      }
    }
    forall k | 0 < k < |r| && Parent(k) == c
      ensures !Earlier(r[k], r[i])
    {
      assert !Earlier(s[k], s[c]);
    }
  }

  function LeastChild(s: seq<Entry>, i: nat): (c: nat)
    requires 2 * i + 1 < |s|
    ensures i < c < |s| && Parent(c) == i
    ensures forall k :: 0 < k < |s| && Parent(k) == i ==> !Earlier(s[k], s[c])
  {
    if 2 * i + 2 < |s| && Earlier(s[2 * i + 2], s[2 * i + 1]) then 2 * i + 2 else 2 * i + 1
  }

  lemma Settled(s: seq<Entry>, i: nat)
    requires i < |s| && HeapBelow(s, i)
    requires 2 * i + 1 < |s| ==> !Earlier(s[LeastChild(s, i)], s[i])
    ensures IsHeap(s)
  {
    forall k | 0 < k < |s|
      ensures !Earlier(s[k], s[Parent(k)])
    {
      if Parent(k) == i {
        assert !Earlier(s[k], s[LeastChild(s, i)]);
      }
    }
  }

  lemma LastToRoot(s: seq<Entry>)
    requires IsHeap(s) && |s| > 1
    ensures var r := s[..|s| - 1][0 := s[|s| - 1]];
            HeapBelow(r, 0) && multiset(r) == multiset(s) - multiset{s[0]}
  {
    var r := s[..|s| - 1][0 := s[|s| - 1]];
    assert s == s[..|s| - 1] + [s[|s| - 1]];
    forall k | 0 < k < |r| && Parent(k) != 0
      ensures !Earlier(r[k], r[Parent(k)])
    {
      assert r[k] == s[k] && r[Parent(k)] == s[Parent(k)];
    }
  }

  class DueHeap {
    var entries: seq<Entry>

    ghost predicate Ordered()
      reads this
    {
      IsHeap(entries)
    }

    constructor ()
      ensures Ordered() && entries == []
    {
      entries := [];
    }

    method Push(e: Entry)
      requires Ordered()
      modifies this
      ensures Ordered() && multiset(entries) == multiset(old(entries)) + multiset{e}
    {
      entries := entries + [e];
      var i := |entries| - 1;
      while i > 0 && Earlier(entries[i], entries[Parent(i)])
        invariant 0 <= i < |entries| && HeapAbove(entries, i)
        invariant multiset(entries) == multiset(old(entries)) + multiset{e}
      {
        SwapUp(entries, i);
        entries := Swapped(entries, i, Parent(i));
        i := Parent(i);
      }
    }

    method Peek() returns (top: Option<Entry>)
      requires Ordered()
      ensures entries == [] ==> top == None
      ensures entries != [] ==> top.Some? && IsLeast(top.value, multiset(entries))
    {
      if entries == [] {
        return None;
      }
      LeastRoot(entries);
      top := Some(entries[0]);
    }

    /** The last entry takes the root's place and sinks below earlier children. */
    method Pop() returns (top: Option<Entry>)
      requires Ordered()
      modifies this
      ensures Ordered()
      ensures old(entries) == [] ==> top == None && entries == []
      ensures old(entries) != [] ==> top.Some? && IsLeast(top.value, multiset(old(entries))) &&
                                     multiset(entries) == multiset(old(entries)) - multiset{top.value}
    {
      if entries == [] {
        return None;
      }
      LeastRoot(entries);
      top := Some(entries[0]);
      if |entries| == 1 {
        entries := [];
        return;
      }
      LastToRoot(entries);
      entries := entries[..|entries| - 1][0 := entries[|entries| - 1]];
      SinkRoot();
    }

    method SinkRoot()
      requires entries != [] && HeapBelow(entries, 0)
      modifies this
      ensures Ordered() && multiset(entries) == multiset(old(entries))
    {
      var i := 0;
      while 2 * i + 1 < |entries|
        invariant 0 <= i < |entries| && HeapBelow(entries, i)
        invariant multiset(entries) == multiset(old(entries))
        decreases |entries| - i
      {
        var c := LeastChild(entries, i);
        if !Earlier(entries[c], entries[i]) {
          Settled(entries, i);
          return;
        }
        SwapDown(entries, i, c);
        entries := Swapped(entries, i, c);
        i := c;
      }
      Settled(entries, i);
    }
  }

  /** An entry of `m` that no other entry comes before. */
  ghost predicate IsLeast(e: Entry, m: multiset<Entry>) {
    e in m && forall o :: o in m ==> !Earlier(o, e)
  }

  lemma LeastRoot(s: seq<Entry>)
    requires IsHeap(s) && s != []
    ensures IsLeast(s[0], multiset(s))
  {
    forall o | o in multiset(s)
      ensures !Earlier(o, s[0])
    {
      var i :| 0 <= i < |s| && s[i] == o;
      RootIsLeast(s, i);
    }
  }
}
