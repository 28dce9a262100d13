/** The 4-ary heap of timers and periodics, with the cached times and the back-indices (ev.c:805-935). */
module TimerHeap {
  import opened Watchers

  const HEAP0: nat := 3        // index of the first heap entry
  const DHEAP: nat := 4

  datatype Entry = Entry(w: Watcher, at: real)

  /** HPARENT, with C's division: it truncates, so the root is its own parent. */
  function Parent(k: int): int
    requires k >= HEAP0
  {
    var d := k - HEAP0 - 1;
    (if d >= 0 then d / DHEAP else -(-d / DHEAP)) + HEAP0
  }

  lemma Children(p: int, c: int)
    requires p >= HEAP0 && c > HEAP0
    ensures Parent(c) == p <==> DHEAP * (p - HEAP0) + HEAP0 + 1 <= c <= DHEAP * (p - HEAP0) + HEAP0 + DHEAP
    ensures HEAP0 <= Parent(c) < c
  {}

  /** Of entries HEAP0 .. n-1, entry i is not before its parent. */
  ghost predicate InOrder(s: seq<Entry>, i: int)
    requires HEAP0 <= i < |s|
  {
    i == HEAP0 || (HEAP0 <= Parent(i) < |s| && s[Parent(i)].at <= s[i].at)
  }

  ghost predicate IsHeap(s: seq<Entry>, n: int) {
    n <= |s| && forall i {:trigger InOrder(s, i)} :: HEAP0 <= i < n ==> InOrder(s, i)
  }

  /** A heap but for slot k: only the entries whose place does not depend on what slot k holds are in order,
      and k's parent is not behind k's children. */
  ghost predicate HeapBut(s: seq<Entry>, n: int, k: int) {
    && HEAP0 <= k < n <= |s|
    && (forall i {:trigger InOrder(s, i)} :: HEAP0 <= i < n && i != k && Parent(i) != k ==> InOrder(s, i))
    && (forall i {:trigger Parent(i)} :: HEAP0 < i < n && Parent(i) == k && k != HEAP0 ==> s[Parent(k)].at <= s[i].at)
  }

  ghost predicate AboveChildren(s: seq<Entry>, n: int, k: int)
    requires HEAP0 <= k < n <= |s|
  {
    forall i {:trigger Parent(i)} :: HEAP0 < i < n && Parent(i) == k ==> s[k].at <= s[i].at
  }

  function Swapped(s: seq<Entry>, i: nat, j: nat): seq<Entry>
    requires i < |s| && j < |s|
  {
    s[i := s[j]][j := s[i]]
  }

  ghost function Entries(s: seq<Entry>, n: int): set<Entry>
    requires n <= |s|
  {
    set i | HEAP0 <= i < n :: s[i]
  }

  /** t holds the same entries as s, in another order between HEAP0 and n. */
  ghost predicate Reordered(s: seq<Entry>, t: seq<Entry>, n: int) {
    && HEAP0 <= n <= |s| == |t|
    && multiset(s) == multiset(t)
    && Entries(s, n) == Entries(t, n)
    && s[..HEAP0] == t[..HEAP0] && s[n..] == t[n..]
  }

  lemma SwapReorders(s: seq<Entry>, t: seq<Entry>, n: int, i: nat, j: nat)
    requires Reordered(s, t, n) && HEAP0 <= i < n && HEAP0 <= j < n
    ensures Reordered(s, Swapped(t, i, j), n)
  {
    var u := Swapped(t, i, j);
    forall e ensures e in Entries(t, n) <==> e in Entries(u, n) {
      if e in Entries(t, n) {
        var m :| HEAP0 <= m < n && t[m] == e;
        assert u[if m == i then j else if m == j then i else m] == e;
      }
      if e in Entries(u, n) {
        var m :| HEAP0 <= m < n && u[m] == e;
        assert t[if m == i then j else if m == j then i else m] == e;
      }
    }
  }

  /** With its children and its parent in order, slot k completes the heap. */
  lemma Settled(s: seq<Entry>, n: int, k: int)
    requires HeapBut(s, n, k) && AboveChildren(s, n, k) && InOrder(s, k)
    ensures IsHeap(s, n)
  {}

  lemma Rooted(s: seq<Entry>, k: int)
    requires HEAP0 <= k < |s|
    requires Parent(k) == k || (HEAP0 <= Parent(k) < |s| && s[Parent(k)].at <= s[k].at)
    ensures InOrder(s, k)
  {}

  /** Slot k and its least child c, which is before it, change places. */
  lemma StepDown(s: seq<Entry>, n: int, k: int, c: int)
    requires HeapBut(s, n, k) && InOrder(s, k) && IsLeast(s, n, k, c) && s[c].at < s[k].at
    ensures HeapBut(Swapped(s, k, c), n, c) && InOrder(Swapped(s, k, c), c)
  {
    var t := Swapped(s, k, c);
    Children(k, c);
    forall i | HEAP0 <= i < n && i != c && Parent(i) != c ensures InOrder(t, i) {
      if i > HEAP0 {
        Children(k, i);
        Children(c, i);
        if i != k && Parent(i) != k { assert InOrder(s, i); }
      }
    }
    forall i | HEAP0 < i < n && Parent(i) == c ensures t[Parent(c)].at <= t[i].at {
      Children(c, i);
      assert InOrder(s, i);
    }
  }

  ghost predicate IsLeast(s: seq<Entry>, n: int, k: int, c: int)
    requires n <= |s|
  {
    && HEAP0 < c < n && Parent(c) == k
    && forall i {:trigger Parent(i)} :: HEAP0 < i < n && Parent(i) == k ==> s[c].at <= s[i].at
  }

  lemma LeastIs(s: seq<Entry>, n: int, k: int, c: int)
    requires HEAP0 <= k < n <= |s|
    requires var pos := DHEAP * (k - HEAP0) + HEAP0 + 1;
             pos <= c < n && c < pos + DHEAP && forall i :: pos <= i < n && i < pos + DHEAP ==> s[c].at <= s[i].at
    ensures IsLeast(s, n, k, c) && c > k
  {}

  lemma NoChildren(s: seq<Entry>, n: int, k: int)
    requires HEAP0 <= k < n <= |s| && DHEAP * (k - HEAP0) + HEAP0 + 1 >= n
    ensures AboveChildren(s, n, k)
  {}

  lemma AboveLeast(s: seq<Entry>, n: int, k: int, c: int)
    requires HEAP0 <= k < n <= |s| && IsLeast(s, n, k, c) && s[k].at <= s[c].at
    ensures AboveChildren(s, n, k)
  {}

  /** Slot k and its parent, which is behind it, change places. */
  lemma StepUp(s: seq<Entry>, n: int, k: int)
    requires HeapBut(s, n, k) && AboveChildren(s, n, k) && HEAP0 < k && s[Parent(k)].at > s[k].at
    ensures HEAP0 <= Parent(k) < k
    ensures HeapBut(Swapped(s, k, Parent(k)), n, Parent(k)) && AboveChildren(Swapped(s, k, Parent(k)), n, Parent(k))
  {
    var p := Parent(k);
    Children(p, k);
    var t := Swapped(s, k, p);
    if p > HEAP0 { Children(Parent(p), p); assert InOrder(s, p); }
    forall i | HEAP0 <= i < n && i != p && Parent(i) != p ensures InOrder(t, i) {
      if i > HEAP0 {
        Children(p, i);
        Children(k, i);
        if Parent(i) != k { assert InOrder(s, i); }
      }
    }
    forall i | HEAP0 < i < n && Parent(i) == p ensures t[p].at <= t[i].at {
      Children(p, i);
      if i != k { assert InOrder(s, i); }
    }
    forall i | HEAP0 < i < n && Parent(i) == p && p != HEAP0 ensures t[Parent(p)].at <= t[i].at {
      Children(p, i);
      if i != k { assert InOrder(s, i); }
    }
  }

  // ----- on the array

  ghost function Watched(heap: array<Entry>, n: int): set<Watcher>
    requires n <= heap.Length
    reads heap
  {
    set i | HEAP0 <= i < n :: heap[i].w
  }

  /** The array with he in the hole at k. */
  ghost function Filled(heap: array<Entry>, k: int, he: Entry): seq<Entry>
    requires 0 <= k < heap.Length
    reads heap
  {
    heap[..][k := he]
  }

  /** Every entry but k knows its place, and none of them is he's. */
  ghost predicate IndexedBut(heap: array<Entry>, n: int, k: int, he: Entry)
    requires n <= heap.Length
    reads heap, Watched(heap, n)`active
  {
    forall i :: HEAP0 <= i < n && i != k ==> heap[i].w.active == i && heap[i].w != he.w
  }

  ghost predicate Indexed(heap: array<Entry>, n: int)
    requires n <= heap.Length
    reads heap, Watched(heap, n)`active
  {
    forall i :: HEAP0 <= i < n ==> heap[i].w.active == i
  }

  /** The least of the up to four children from pos on; end is behind the last entry. */
  method LeastChild(heap: array<Entry>, pos: nat, end: nat) returns (c: nat)
    requires pos < end <= heap.Length
    ensures pos <= c < end && c < pos + DHEAP
    ensures forall i :: pos <= i < end && i < pos + DHEAP ==> heap[c].at <= heap[i].at
  {
    c := pos;
    if pos + DHEAP - 1 < end {
      if heap[pos + 1].at < heap[c].at { c := pos + 1; }
      if heap[pos + 2].at < heap[c].at { c := pos + 2; }
      if heap[pos + 3].at < heap[c].at { c := pos + 3; }
    } else {
      if pos + 1 < end && heap[pos + 1].at < heap[c].at { c := pos + 1; }
      if pos + 2 < end && heap[pos + 2].at < heap[c].at { c := pos + 2; }
      if pos + 3 < end { assert false; }    // what the source compares here is never there
    }
  }

  /** What the array has in place of a hole are entries that were there before. */
  lemma Among(s: seq<Entry>, heap: array<Entry>, n: int, k: int, he: Entry, i: int)
    requires HEAP0 <= k < n <= heap.Length && HEAP0 <= i < n && i != k
    requires Reordered(s, Filled(heap, k, he), n)
    ensures heap[i] in Entries(s, n) && he in Entries(s, n)
  {
    assert Filled(heap, k, he)[i] in Entries(Filled(heap, k, he), n);
    assert Filled(heap, k, he)[k] in Entries(Filled(heap, k, he), n);
  }

  /** heap[k] = heap[from], and the moved watcher learns its place. */
  method MoveEntry(heap: array<Entry>, ghost n: int, k: nat, from: nat, he: Entry)
    requires HEAP0 <= k < n <= heap.Length && HEAP0 <= from < n && from != k
    requires IndexedBut(heap, n, k, he)
    modifies heap, heap[from].w`active
    ensures Filled(heap, from, he) == Swapped(old(Filled(heap, k, he)), k, from)
    ensures IndexedBut(heap, n, from, he)
  {
    heap[k] := heap[from];
    heap[k].w.active := k;
  }

  /** heap[k] = he, and its watcher learns its place. */
  method Settle(heap: array<Entry>, ghost n: int, k: nat, he: Entry)
    requires HEAP0 <= k < n <= heap.Length && IndexedBut(heap, n, k, he)
    modifies heap, he.w`active
    ensures heap[..] == old(Filled(heap, k, he)) && Indexed(heap, n)
  {
    heap[k] := he;
    he.w.active := k;
  }

  /** downheap: away from the root. */
  method DownHeap(heap: array<Entry>, N: nat, k0: nat)
    requires HEAP0 <= k0 < N + HEAP0 <= heap.Length
    requires HeapBut(heap[..], N + HEAP0, k0) && InOrder(heap[..], k0)
    requires IndexedBut(heap, N + HEAP0, k0, heap[k0])
    modifies heap, Watched(heap, N + HEAP0)`active
    ensures IsHeap(heap[..], N + HEAP0) && Indexed(heap, N + HEAP0)
    ensures Reordered(old(heap[..]), heap[..], N + HEAP0)
  {
    hide HeapBut, InOrder, IsHeap, IsLeast, AboveChildren;
    var k, n, he := k0, N + HEAP0, heap[k0];
    assert Filled(heap, k, he) == heap[..];
    while true
      invariant HEAP0 <= k < n
      invariant HeapBut(Filled(heap, k, he), n, k) && InOrder(Filled(heap, k, he), k)
      invariant IndexedBut(heap, n, k, he)
      invariant Reordered(old(heap[..]), Filled(heap, k, he), n)
      decreases n - k
    {
      var pos := DHEAP * (k - HEAP0) + HEAP0 + 1;
      ghost var s := Filled(heap, k, he);
      if pos >= n {
        NoChildren(s, n, k);
        break;
      }
      var c := LeastChild(heap, pos, n);
      LeastIs(s, n, k, c);
      if he.at <= heap[c].at {
        AboveLeast(s, n, k, c);
        break;
      }
      StepDown(s, n, k, c);
      SwapReorders(old(heap[..]), s, n, k, c);
      Among(old(heap[..]), heap, n, k, he, c);
      MoveEntry(heap, n, k, c, he);
      k := c;
    }
    Settled(Filled(heap, k, he), n, k);
    Settle(heap, n, k, he);
  }

  /** upheap: towards the root. n is behind the last entry, which the source does not need to know. */
  method UpHeap(heap: array<Entry>, k0: nat, ghost n: int)
    requires HEAP0 <= k0 < n <= heap.Length
    requires HeapBut(heap[..], n, k0) && AboveChildren(heap[..], n, k0)
    requires IndexedBut(heap, n, k0, heap[k0])
    modifies heap, Watched(heap, n)`active
    ensures IsHeap(heap[..], n) && Indexed(heap, n)
    ensures Reordered(old(heap[..]), heap[..], n)
  {
    hide HeapBut, InOrder, IsHeap, AboveChildren;
    var k, he := k0, heap[k0];
    assert Filled(heap, k, he) == heap[..];
    while true
      invariant HEAP0 <= k < n
      invariant HeapBut(Filled(heap, k, he), n, k) && AboveChildren(Filled(heap, k, he), n, k)
      invariant IndexedBut(heap, n, k, he)
      invariant Reordered(old(heap[..]), Filled(heap, k, he), n)
      decreases k
    {
      var p := Parent(k);
      ghost var s := Filled(heap, k, he);
      if p == k || heap[p].at <= he.at {
        Rooted(s, k);
        break;
      }
      StepUp(s, n, k);
      SwapReorders(old(heap[..]), s, n, k, p);
      Among(old(heap[..]), heap, n, k, he, p);
      MoveEntry(heap, n, k, p, he);
      k := p;
    }
    Settled(Filled(heap, k, he), n, k);
    Settle(heap, n, k, he);
  }

  /** adjustheap: slot k may hold any time. */
  method AdjustHeap(heap: array<Entry>, N: nat, k: nat)
    requires HEAP0 <= k < N + HEAP0 <= heap.Length
    requires HeapBut(heap[..], N + HEAP0, k) && IndexedBut(heap, N + HEAP0, k, heap[k])
    modifies heap, Watched(heap, N + HEAP0)`active
    ensures IsHeap(heap[..], N + HEAP0) && Indexed(heap, N + HEAP0)
    ensures Reordered(old(heap[..]), heap[..], N + HEAP0)
  {
    if k > HEAP0 && heap[Parent(k)].at >= heap[k].at {
      UpHeap(heap, k, N + HEAP0);
    } else {
      DownHeap(heap, N, k);
    }
  }

  /** No watcher is on the heap twice. */
  ghost predicate Distinct(s: seq<Entry>, n: int) {
    n <= |s| && forall i, j :: HEAP0 <= i < j < n ==> s[i].w != s[j].w
  }

  /** Entry n, in whatever place it belongs, follows a heap of the first entries. */
  lemma Appended(s: seq<Entry>, heap: array<Entry>, n: int)
    requires Reordered(s, heap[..], n) && n < |s| && Distinct(s, n + 1)
    requires IsHeap(heap[..], n) && Indexed(heap, n)
    ensures HeapBut(heap[..], n + 1, n) && AboveChildren(heap[..], n + 1, n)
    ensures IndexedBut(heap, n + 1, n, heap[n])
    ensures Reordered(s, heap[..], n + 1)
  {
    var t := heap[..];
    assert s[n] == s[n..][0] == t[n..][0] == t[n];
    assert Entries(s, n + 1) == Entries(s, n) + {s[n]};
    assert Entries(t, n + 1) == Entries(t, n) + {t[n]};
    assert s[n + 1..] == s[n..][1..] == t[n..][1..] == t[n + 1..];
    forall i | HEAP0 <= i < n ensures t[i].w != t[n].w {
      assert t[i] in Entries(t, n);
    }
    forall i | HEAP0 < i < n + 1 ensures Parent(i) < n { Children(Parent(i), i); }
  }

  lemma ReorderedTwice(s: seq<Entry>, t: seq<Entry>, u: seq<Entry>, n: int)
    requires Reordered(s, t, n) && Reordered(t, u, n)
    ensures Reordered(s, u, n)
  {}

  /** What is on a part of the reordered array was on the whole. */
  lemma WatchedMore(s: seq<Entry>, heap: array<Entry>, n: int, m: int)
    requires Reordered(s, heap[..], n) && n <= m <= |s|
    ensures forall i :: HEAP0 <= i < m ==> heap[i] in Entries(s, m)
  {
    forall i | HEAP0 <= i < m ensures heap[i] in Entries(s, m) {
      if i < n {
        assert heap[..][i] in Entries(heap[..], n);
      } else {
        assert s[i] == s[n..][i - n] == heap[..][n..][i - n] == heap[i];
      }
    }
  }

  /** reheap: an array in any order, with any indices. */
  method ReHeap(heap: array<Entry>, N: nat)
    requires N + HEAP0 <= heap.Length && Distinct(heap[..], N + HEAP0)
    modifies heap, Watched(heap, N + HEAP0)`active
    ensures IsHeap(heap[..], N + HEAP0) && Indexed(heap, N + HEAP0)
    ensures Reordered(old(heap[..]), heap[..], N + HEAP0)
  {
    assert IsHeap(heap[..], HEAP0) && Reordered(heap[..], heap[..], HEAP0);
    hide IsHeap, HeapBut, AboveChildren, InOrder, Distinct, Reordered;
    for i := 0 to N
      invariant IsHeap(heap[..], i + HEAP0) && Indexed(heap, i + HEAP0)
      invariant Reordered(old(heap[..]), heap[..], i + HEAP0)
    {
      Appended(old(heap[..]), heap, i + HEAP0);
      WatchedMore(old(heap[..]), heap, i + HEAP0, N + HEAP0);
      ghost var s := heap[..];
      UpHeap(heap, i + HEAP0, i + HEAP0 + 1);
      ReorderedTwice(old(heap[..]), s, heap[..], i + HEAP0 + 1);
    }
  }
}
