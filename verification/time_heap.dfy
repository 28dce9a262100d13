/** A loop's timers or periodics: a growing array that holds a heap (ev.c:1663-1768, 2100-2231). */
module TimeHeaps {
  import opened ArraySize
  import opened TimerHeap
  import opened Watchers

  const SIZEOF_ANHE: nat := 16

  type Dues = map<Watcher, real>    // the running watchers, and when each is due

  /** The entries are the watchers that are due, each with its time. */
  ghost predicate Holds(s: seq<Entry>, n: int, due: Dues) {
    && n <= |s|
    && (forall i :: HEAP0 <= i < n ==> s[i].w in due && s[i].at == due[s[i].w])
    && (forall w :: w in due ==> exists i :: HEAP0 <= i < n && s[i].w == w)
  }

  lemma ReorderedHolds(s: seq<Entry>, t: seq<Entry>, n: int, due: Dues)
    requires Holds(s, n, due) && Reordered(s, t, n)
    ensures Holds(t, n, due)
  {
    forall i | HEAP0 <= i < n ensures t[i].w in due && t[i].at == due[t[i].w] {
      assert t[i] in Entries(t, n);
    }
    forall w | w in due ensures exists i :: HEAP0 <= i < n && t[i].w == w {
      var j :| HEAP0 <= j < n && s[j].w == w;
      assert s[j] in Entries(s, n);
      var i :| HEAP0 <= i < n && t[i] == s[j];
      assert t[i].w == w;
    }
  }

  /** Whatever is put in a slot of a heap, the rest of the heap is in order. */
  lemma AnyInSlot(s: seq<Entry>, n: int, k: int, e: Entry)
    requires IsHeap(s, n) && HEAP0 <= k < n
    ensures HeapBut(s[k := e], n, k)
  {
    var t := s[k := e];
    forall i | HEAP0 <= i < n && i != k && Parent(i) != k ensures InOrder(t, i) {
      assert InOrder(s, i);
    }
    forall i | HEAP0 < i < n && Parent(i) == k && k != HEAP0 ensures t[Parent(k)].at <= t[i].at {
      Children(k, i);
      Children(Parent(k), k);
      assert InOrder(s, i) && InOrder(s, k);
    }
  }

  /** A heap of cnt entries; with none, there need not even be an array. */
  ghost predicate Sound(s: seq<Entry>, cnt: nat, due: Dues) {
    if cnt == 0 then due == map[] else Holds(s, cnt + HEAP0, due) && IsHeap(s, cnt + HEAP0)
  }

  lemma SamePrefix(s: seq<Entry>, t: seq<Entry>, cnt: nat, due: Dues)
    requires Sound(s, cnt, due) && |s| <= |t| && forall i :: 0 <= i < |s| ==> t[i] == s[i]
    ensures Sound(t, cnt, due)
  {
    if cnt > 0 {
      forall i | HEAP0 <= i < cnt + HEAP0 ensures InOrder(t, i) { assert InOrder(s, i); }
    }
  }

  /** Some order for slot k, and the rest in place. */
  ghost predicate Unsettled(s: seq<Entry>, cnt: nat, due: Dues, k: int) {
    && HEAP0 <= k < cnt + HEAP0 <= |s|
    && Holds(s, cnt + HEAP0, due)
    && HeapBut(s, cnt + HEAP0, k)
  }

  lemma PutAtEnd(s: seq<Entry>, cnt: nat, due: Dues, e: Entry)
    requires Sound(s, cnt, due) && e.w !in due && cnt + HEAP0 < |s|
    ensures var t := s[cnt + HEAP0 := e];
            Unsettled(t, cnt + 1, due[e.w := e.at], cnt + HEAP0) && AboveChildren(t, cnt + 1 + HEAP0, cnt + HEAP0)
  {
    var n := cnt + HEAP0;
    var t := s[n := e];
    forall i | HEAP0 <= i < n ensures InOrder(t, i) && Parent(i) < n {
      assert InOrder(s, i);
      if i > HEAP0 { Children(Parent(i), i); }
    }
    if n > HEAP0 { Children(Parent(n), n); }
    var more := due[e.w := e.at];
    forall w | w in more ensures exists i :: HEAP0 <= i < n + 1 && t[i].w == w {
      if w == e.w {
        assert t[n].w == w;
      } else {
        var i :| HEAP0 <= i < n && s[i].w == w;
        assert t[i].w == w;
      }
    }
  }

  ghost predicate OnlyAt(s: seq<Entry>, n: int, w: Watcher, k: int) {
    && HEAP0 <= k < n <= |s| && s[k].w == w
    && forall i :: HEAP0 <= i < n && s[i].w == w ==> i == k
  }

  lemma SetAt(s: seq<Entry>, cnt: nat, due: Dues, k: int, e: Entry)
    requires Sound(s, cnt, due) && OnlyAt(s, cnt + HEAP0, e.w, k)
    ensures Unsettled(s[k := e], cnt, due[e.w := e.at], k)
  {
    AnyInSlot(s, cnt + HEAP0, k, e);
    HoldsAt(s, cnt + HEAP0, due, k, e, s[k := e]);
  }

  lemma LastOut(s: seq<Entry>, cnt: nat, due: Dues, w: Watcher)
    requires Sound(s, cnt, due) && OnlyAt(s, cnt + HEAP0, w, cnt - 1 + HEAP0)
    ensures Sound(s, cnt - 1, due - {w})
  {}

  lemma HoldsAt(s: seq<Entry>, n: int, due: Dues, k: int, e: Entry, t: seq<Entry>)
    requires Holds(s, n, due) && OnlyAt(s, n, e.w, k) && t == s[k := e]
    ensures Holds(t, n, due[e.w := e.at])
  {
    var set_ := due[e.w := e.at];
    forall w | w in set_ ensures exists i :: HEAP0 <= i < n && t[i].w == w {
      var i :| HEAP0 <= i < n && s[i].w == w;
      assert t[i].w == w;
    }
  }

  /** The last entry takes the place of the one that goes. */
  lemma TakeOut(s: seq<Entry>, cnt: nat, due: Dues, k: int, w: Watcher, t: seq<Entry>)
    requires Sound(s, cnt, due) && OnlyAt(s, cnt + HEAP0, w, k) && k < cnt - 1 + HEAP0
    requires t == s[k := s[cnt - 1 + HEAP0]]
    ensures Unsettled(t, cnt - 1, due - {w}, k)
  {
    var last, less := cnt - 1 + HEAP0, due - {w};
    forall x | x in less ensures exists i :: HEAP0 <= i < last && t[i].w == x {
      var i :| HEAP0 <= i < last + 1 && s[i].w == x;
      assert t[if i == last then k else i].w == x;
    }
    AnyInSlot(s, cnt + HEAP0, k, s[last]);
  }

  /** No entry is before the root. */
  lemma {:induction false} RootIsLeast(s: seq<Entry>, n: int, i: int)
    requires IsHeap(s, n) && HEAP0 <= i < n
    ensures s[HEAP0].at <= s[i].at
    decreases i
  {
    assert InOrder(s, i);
    if i > HEAP0 {
      Children(Parent(i), i);
      RootIsLeast(s, n, Parent(i));
    }
  }

  class TimeHeap {
    var heap: array<Entry>
    var cnt: nat
    ghost var due: Dues

    /** All is in order but that slot k may hold any time, and its watcher may not know its place. */
    ghost predicate Loose(k: int)
      reads this, heap, due.Keys`active, due.Keys`at
    {
      && Unsettled(heap[..], cnt, due, k)
      && IndexedBut(heap, cnt + HEAP0, k, heap[k])
      && forall w :: w in due ==> w.at == due[w]
    }

    ghost predicate Valid()
      reads this, heap, due.Keys`active, due.Keys`at
    {
      && Sound(heap[..], cnt, due)
      && (cnt > 0 ==> cnt + HEAP0 <= heap.Length && Indexed(heap, cnt + HEAP0))
      && forall w :: w in due ==> w.at == due[w]
    }

    constructor ()
      ensures Valid() && due == map[] && fresh(heap)
    {
      heap := new Entry[0];
      cnt, due := 0, map[];
    }

    lemma Places()
      requires Valid()
      ensures forall w :: w in due ==> HEAP0 <= w.active < cnt + HEAP0 <= heap.Length
      ensures forall w :: w in due ==> heap[w.active] == Entry(w, due[w]) && w.at == due[w]
    {}

    method Adjust(k: nat)
      requires Loose(k)
      modifies heap, due.Keys`active
      ensures Valid()
    {
      hide IsHeap, HeapBut, InOrder;
      AdjustHeap(heap, cnt, k);
      ReorderedHolds(old(heap[..]), heap[..], cnt + HEAP0, due);
    }

    method SiftDown()
      requires Loose(HEAP0)
      modifies heap, due.Keys`active
      ensures Valid()
    {
      assert InOrder(heap[..], HEAP0);
      hide IsHeap, HeapBut, InOrder;
      DownHeap(heap, cnt, HEAP0);
      ReorderedHolds(old(heap[..]), heap[..], cnt + HEAP0, due);
    }

    method SiftUp(k: nat)
      requires Loose(k) && AboveChildren(heap[..], cnt + HEAP0, k)
      modifies heap, due.Keys`active
      ensures Valid()
    {
      hide IsHeap, HeapBut, AboveChildren;
      UpHeap(heap, k, cnt + HEAP0);
      ReorderedHolds(old(heap[..]), heap[..], cnt + HEAP0, due);
    }

    /** array_needsize; what the new part holds does not matter. */
    method NeedSize(need: nat, filler: Entry)
      requires Valid()
      modifies `heap
      ensures heap == old(heap) || fresh(heap)
      ensures Valid() && heap.Length >= need
    {
      if need > heap.Length {
        var was := heap;
        var max := NextSize(SIZEOF_ANHE, was.Length, need);
        var grown := new Entry[max](i => filler);
        for i := 0 to was.Length
          invariant forall j :: 0 <= j < i ==> grown[j] == was[j]
        {
          grown[i] := was[i];
        }
        SamePrefix(was[..], grown[..], cnt, due);
        heap := grown;
      }
    }

    /** The last lines of ev_timer_start and ev_periodic_start: a watcher with its time set joins. */
    method Add(w: Watcher)
      requires Valid() && w !in due
      modifies this, heap, w`active, due.Keys`active
      ensures heap == old(heap) || fresh(heap)
      ensures Valid() && due == old(due)[w := w.at] && cnt == old(cnt) + 1
    {
      NeedSize(cnt + 1 + HEAP0, Entry(w, w.at));
      Append(w);
      SiftUp(w.active);
    }

    method Append(w: Watcher)
      requires Valid() && w !in due && cnt + HEAP0 < heap.Length
      modifies `cnt, `due, heap, w`active
      ensures w.active == cnt + HEAP0 - 1 && due == old(due)[w := w.at] && cnt == old(cnt) + 1
      ensures Loose(w.active) && AboveChildren(heap[..], cnt + HEAP0, w.active)
    {
      PutAtEnd(heap[..], cnt, due, Entry(w, w.at));
      hide IsHeap, HeapBut, InOrder;
      cnt := cnt + 1;
      w.active := cnt + HEAP0 - 1;
      heap[w.active] := Entry(w, w.at);
      due := due[w := w.at];
    }

    lemma Alone(w: Watcher)
      requires Valid() && w in due
      ensures cnt > 0 && OnlyAt(heap[..], cnt + HEAP0, w, w.active) && heap[w.active] == Entry(w, due[w])
    {}

    /** The common lines of ev_timer_stop and ev_periodic_stop. */
    method Remove(w: Watcher)
      requires Valid() && w in due
      modifies `cnt, `due, heap, due.Keys`active
      ensures Valid() && due == old(due) - {w} && cnt == old(cnt) - 1
      ensures w.active == old(w.active)
    {
      Alone(w);
      var active := w.active;
      if active < cnt - 1 + HEAP0 {
        FillFromLast(w);
        Adjust(active);
      } else {
        LastOut(heap[..], cnt, due, w);
        cnt := cnt - 1;
        due := due - {w};
      }
    }

    method FillFromLast(w: Watcher)
      requires Valid() && w in due
      requires cnt > 0 && HEAP0 <= w.active < cnt - 1 + HEAP0
      modifies `cnt, `due, heap
      ensures due == old(due) - {w} && cnt == old(cnt) - 1
      ensures Loose(w.active)
    {
      Alone(w);
      Others();
      hide IsHeap, HeapBut, InOrder, Holds, OnlyAt, Sound, Indexed, Unsettled, Valid;
      ghost var s := heap[..];
      heap[w.active] := heap[cnt - 1 + HEAP0];
      TakeOut(s, cnt, due, w.active, w, heap[..]);
      cnt := cnt - 1;
      due := due - {w};
    }

    lemma Others()
      requires Valid() && cnt > 0
      ensures Sound(heap[..], cnt, due)
      ensures cnt + HEAP0 <= heap.Length && forall i :: HEAP0 <= i < cnt + HEAP0 ==> heap[i].w.active == i
      ensures forall w :: w in due ==> w.at == due[w]
    {}

    /** A new time for a running watcher, its cached copy, and its place. */
    method SetTime(w: Watcher, at: real)
      requires Valid() && w in due
      modifies `due, heap, w`at, due.Keys`active
      ensures Valid() && due == old(due)[w := at]
    {
      Alone(w);
      SetAt(heap[..], cnt, due, w.active, Entry(w, at));
      hide IsHeap, HeapBut, InOrder;
      w.at := at;
      heap[w.active] := Entry(w, at);
      due := due[w := at];
      Adjust(w.active);
    }

    /** The same for the watcher at the root. */
    method SetRoot(at: real)
      requires Valid() && cnt > 0
      modifies `due, heap, heap[HEAP0].w`at, due.Keys`active
      ensures Valid() && due == old(due)[old(heap[HEAP0].w) := at]
    {
      ghost var w := heap[HEAP0].w;
      Alone(w);
      SetAt(heap[..], cnt, due, HEAP0, Entry(w, at));
      hide IsHeap, HeapBut, InOrder;
      heap[HEAP0].w.at := at;
      heap[HEAP0] := Entry(heap[HEAP0].w, at);
      due := due[w := at];
      SiftDown();
    }

    /** Valid, but for the order. */
    ghost predicate Unordered()
      reads this, heap, due.Keys`active, due.Keys`at
    {
      && cnt + HEAP0 <= heap.Length
      && Holds(heap[..], cnt + HEAP0, due)
      && Indexed(heap, cnt + HEAP0)
      && forall w :: w in due ==> w.at == due[w]
    }

    lemma Where()
      requires Unordered()
      ensures forall i :: HEAP0 <= i < cnt + HEAP0 ==> heap[i].w in due
      ensures forall w :: w in due ==> HEAP0 <= w.active < cnt + HEAP0 && heap[w.active].w == w && w.at == due[w]
    {}

    lemma There(i: nat)
      requires Unordered() && HEAP0 <= i < cnt + HEAP0
      ensures OnlyAt(heap[..], cnt + HEAP0, heap[i].w, i)
    {}

    /** Give entry i another time, and leave it where it is. */
    method Retime(i: nat, at: real)
      requires Unordered() && HEAP0 <= i < cnt + HEAP0
      modifies `due, heap, heap[i].w`at
      ensures Unordered() && due == old(due)[heap[i].w := at]
      ensures forall j :: HEAP0 <= j < cnt + HEAP0 ==> heap[j].w == old(heap[j].w)
    {
      hide Holds, OnlyAt;
      var e := heap[i];
      ghost var s := heap[..];
      Where();
      There(i);
      e.w.at := at;
      heap[i] := Entry(e.w, at);
      HoldsAt(s, cnt + HEAP0, due, i, heap[i], heap[..]);
      due := due[e.w := at];
    }

    /** reheap. */
    method Rebuild()
      requires Unordered()
      modifies heap, due.Keys`active
      ensures Valid()
    {
      ReHeap(heap, cnt);
      hide IsHeap;
      ReorderedHolds(old(heap[..]), heap[..], cnt + HEAP0, due);
      if cnt == 0 { assert due.Keys == {}; }
    }

    /** The root is due first. */
    lemma Root()
      requires Valid()
      ensures cnt > 0 ==> cnt + HEAP0 <= heap.Length && heap[HEAP0].w in due && heap[HEAP0].at == due[heap[HEAP0].w]
      ensures forall w :: w in due ==> cnt > 0 && heap[HEAP0].at <= due[w]
    {
      Places();
      forall w | w in due ensures cnt > 0 && heap[HEAP0].at <= due[w] {
        RootIsLeast(heap[..], cnt + HEAP0, w.active);
      }
    }
  }
}
