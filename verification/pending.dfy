/** The queues of pending events, one for each priority (ev.c:648-660, 1625-1642, 2019-2038). */
module Pending {
  import opened Watchers

  const MINPRI := -2
  const NUMPRI: nat := 5

  datatype Slot = Slot(w: Watcher?, events: bv32)

  /** Where a waiting watcher stands: its priority, and its place in the queue of that priority. */
  datatype Rank = Rank(priority: int, place: nat)

  /** Of a higher priority, or of the same one and queued later. */
  predicate Sooner(a: Rank, b: Rank) {
    a.priority > b.priority || (a.priority == b.priority && a.place > b.place)
  }

  predicate InRange(priority: int) {
    MINPRI <= priority < MINPRI + NUMPRI
  }

  /** The nearest priority in range. */
  function Clamp(priority: int): int {
    var p := if priority < MINPRI then MINPRI else priority;
    if p > MINPRI + NUMPRI - 1 then MINPRI + NUMPRI - 1 else p
  }

  function Distance(a: int, b: int): nat {
    if a < b then b - a else a - b
  }

  /** ABSPRI. */
  function AbsPri(priority: int): nat
    requires InRange(priority)
  {
    priority - MINPRI
  }

  type Wants = map<Watcher, bv32>    // what each waiting watcher is to be called with
  type Ranks = map<Watcher, Rank>

  /** The slot that w's rank leads to is w's, and has the events it waits for. */
  ghost predicate Queued(q: seq<seq<Slot>>, want: Wants, ranks: Ranks, w: Watcher) {
    && w in want && w in ranks && InRange(ranks[w].priority) && AbsPri(ranks[w].priority) < |q|
    && 0 < ranks[w].place <= |q[AbsPri(ranks[w].priority)]|
    && q[AbsPri(ranks[w].priority)][ranks[w].place - 1] == Slot(w, want[w])
  }

  /** Slot i of queue p is dead, or its watcher's rank leads back to it. */
  ghost predicate SlotOk(q: seq<seq<Slot>>, ranks: Ranks, p: int, i: int)
    requires 0 <= p < |q| && 0 <= i < |q[p]|
  {
    q[p][i].w != null ==> q[p][i].w in ranks && ranks[q[p][i].w] == Rank(p + MINPRI, i + 1)
  }

  ghost predicate QueuesOk(q: seq<seq<Slot>>, want: Wants, ranks: Ranks) {
    && |q| == NUMPRI
    && want.Keys == ranks.Keys
    && (forall w {:trigger Queued(q, want, ranks, w)} :: w in want ==> Queued(q, want, ranks, w))
    && (forall p, i {:trigger SlotOk(q, ranks, p, i)} :: 0 <= p < NUMPRI && 0 <= i < |q[p]| ==> SlotOk(q, ranks, p, i))
  }

  /** A waiting watcher is in one slot. */
  lemma QueuedOnce(q: seq<seq<Slot>>, want: Wants, ranks: Ranks, w: Watcher, p: int, i: int)
    requires QueuesOk(q, want, ranks) && 0 <= p < NUMPRI && 0 <= i < |q[p]|
    ensures q[p][i].w == w <==> w in want && ranks[w] == Rank(p + MINPRI, i + 1)
  {
    assert SlotOk(q, ranks, p, i);
    if w in want { assert Queued(q, want, ranks, w); }
  }

  function Put(q: seq<seq<Slot>>, p: nat, i: nat, s: Slot): (r: seq<seq<Slot>>)
    requires p < |q| && i < |q[p]|
    ensures |r| == |q| && |r[p]| == |q[p]|
  {
    q[p := q[p][i := s]]
  }

  lemma PutKeeps(q: seq<seq<Slot>>, want: Wants, ranks: Ranks, w: Watcher, events: bv32)
    requires QueuesOk(q, want, ranks) && w in want
    ensures Queued(q, want, ranks, w)
    ensures QueuesOk(Put(q, AbsPri(ranks[w].priority), ranks[w].place - 1, Slot(w, events)), want[w := events], ranks)
  {
    assert Queued(q, want, ranks, w);
    var p, i := AbsPri(ranks[w].priority), ranks[w].place - 1;
    var r := Put(q, p, i, Slot(w, events));
    forall x | x in want ensures Queued(r, want[w := events], ranks, x) {
      assert Queued(q, want, ranks, x);
      QueuedOnce(q, want, ranks, x, p, i);
    }
    forall h, j | 0 <= h < NUMPRI && 0 <= j < |r[h]| ensures SlotOk(r, ranks, h, j) {
      assert SlotOk(q, ranks, h, j);
    }
  }

  lemma KillKeeps(q: seq<seq<Slot>>, want: Wants, ranks: Ranks, w: Watcher, events: bv32)
    requires QueuesOk(q, want, ranks) && w in want
    ensures Queued(q, want, ranks, w)
    ensures QueuesOk(Put(q, AbsPri(ranks[w].priority), ranks[w].place - 1, Slot(null, events)), want - {w}, ranks - {w})
  {
    assert Queued(q, want, ranks, w);
    var p, i := AbsPri(ranks[w].priority), ranks[w].place - 1;
    var r := Put(q, p, i, Slot(null, events));
    forall x | x in want - {w} ensures Queued(r, want - {w}, ranks - {w}, x) {
      assert Queued(q, want, ranks, x);
      QueuedOnce(q, want, ranks, x, p, i);
    }
    forall h, j | 0 <= h < NUMPRI && 0 <= j < |r[h]| ensures SlotOk(r, ranks - {w}, h, j) {
      assert SlotOk(q, ranks, h, j);
      QueuedOnce(q, want, ranks, w, h, j);
    }
  }

  lemma AppendKeeps(q: seq<seq<Slot>>, want: Wants, ranks: Ranks, w: Watcher, priority: int, events: bv32)
    requires QueuesOk(q, want, ranks) && w !in want && InRange(priority)
    ensures var p := AbsPri(priority);
            QueuesOk(q[p := q[p] + [Slot(w, events)]], want[w := events], ranks[w := Rank(priority, |q[p]| + 1)])
  {
    var p := AbsPri(priority);
    var r, want', ranks' := q[p := q[p] + [Slot(w, events)]], want[w := events], ranks[w := Rank(priority, |q[p]| + 1)];
    forall x | x in want' ensures Queued(r, want', ranks', x) {
      if x != w { assert Queued(q, want, ranks, x); }
    }
    forall h, j | 0 <= h < NUMPRI && 0 <= j < |r[h]| ensures SlotOk(r, ranks', h, j) {
      if j < |q[h]| { assert SlotOk(q, ranks, h, j); }
    }
  }

  function WithoutLast(q: seq<seq<Slot>>, p: nat): seq<seq<Slot>>
    requires p < |q| && q[p] != []
  {
    q[p := q[p][..|q[p]| - 1]]
  }

  function Less<T>(m: map<Watcher, T>, w: Watcher?): map<Watcher, T> {
    if w == null then m else m - {w}
  }

  lemma MinusMinus<T>(m: map<Watcher, T>, a: set<Watcher>, b: set<Watcher>)
    ensures m - a - b == m - (a + b)
  {}

  /** The last slot of the highest queue in use holds the watcher of the highest rank, or none. */
  lemma PopKeeps(q: seq<seq<Slot>>, want: Wants, ranks: Ranks, p: nat)
    requires QueuesOk(q, want, ranks) && p < NUMPRI && q[p] != [] && forall h :: p < h < NUMPRI ==> q[h] == []
    ensures var s := q[p][|q[p]| - 1];
            && QueuesOk(WithoutLast(q, p), Less(want, s.w), Less(ranks, s.w))
            && (s.w != null ==> s.w in want && s.events == want[s.w])
            && (s.w != null ==> forall w :: w in want && w != s.w ==> Sooner(ranks[s.w], ranks[w]))
  {
    var last := |q[p]| - 1;
    var s := q[p][last];
    assert SlotOk(q, ranks, p, last);
    if s.w != null { assert Queued(q, want, ranks, s.w); }
    var r := WithoutLast(q, p);
    forall x | x in Less(want, s.w)
      ensures Queued(r, Less(want, s.w), Less(ranks, s.w), x)
      ensures s.w != null ==> Sooner(ranks[s.w], ranks[x])
    {
      assert Queued(q, want, ranks, x);
      QueuedOnce(q, want, ranks, x, p, last);
    }
    forall h, j | 0 <= h < NUMPRI && 0 <= j < |r[h]| ensures SlotOk(r, Less(ranks, s.w), h, j) {
      assert SlotOk(q, ranks, h, j);
    }
  }

  lemma EmptyWantsNothing(q: seq<seq<Slot>>, want: Wants, ranks: Ranks)
    requires QueuesOk(q, want, ranks) && forall h :: 0 <= h < NUMPRI ==> q[h] == []
    ensures want == map[] && ranks == map[]
  {
    assert forall w :: w in want ==> Queued(q, want, ranks, w);
    assert want.Keys == {};
  }

  datatype Call = Call(w: Watcher, events: bv32)

  /** The watchers that a watcher's callback stops. */
  type Stops = map<Watcher, seq<Watcher>>

  function StoppedBy(stops: Stops, w: Watcher): seq<Watcher> {
    if w in stops then stops[w] else []
  }

  function SetOf(s: seq<Watcher>): set<Watcher> {
    set x | x in s
  }

  /** What is left when w is called, and its callback stops watchers. */
  function After<T>(m: map<Watcher, T>, stops: Stops, w: Watcher?): map<Watcher, T> {
    if w == null then m else m - ({w} + SetOf(StoppedBy(stops, w)))
  }

  /** Each call is of a watcher that waited, with all it was fed; they come in the order of rank, so no watcher
      is called twice; and none is called that an earlier callback stopped. */
  ghost predicate Called(calls: seq<Call>, want: Wants, ranks: Ranks, stops: Stops)
    requires want.Keys == ranks.Keys
  {
    && (forall i :: 0 <= i < |calls| ==> calls[i].w in want && calls[i].events == want[calls[i].w])
    && (forall i, j :: 0 <= i < j < |calls| ==> Sooner(ranks[calls[i].w], ranks[calls[j].w]))
    && (forall i, j :: 0 <= i < j < |calls| ==> calls[j].w !in StoppedBy(stops, calls[i].w))
  }

  ghost predicate IsCalled(calls: seq<Call>, w: Watcher) {
    exists i :: 0 <= i < |calls| && calls[i].w == w
  }

  ghost predicate IsStopped(calls: seq<Call>, stops: Stops, w: Watcher) {
    exists i :: 0 <= i < |calls| && w in StoppedBy(stops, calls[i].w)
  }

  /** Every watcher that waited has been called or stopped, or still waits. */
  ghost predicate Accounted(calls: seq<Call>, stops: Stops, want: set<Watcher>, want': set<Watcher>) {
    forall w :: w in want && w !in want' ==> IsCalled(calls, w) || IsStopped(calls, stops, w)
  }

  lemma AccountedCall(calls: seq<Call>, stops: Stops, want: set<Watcher>, want': set<Watcher>, c: Call)
    requires Accounted(calls, stops, want, want')
    ensures Accounted(calls + [c], stops, want, want' - ({c.w} + SetOf(StoppedBy(stops, c.w))))
  {
    var more := calls + [c];
    assert more[|calls|] == c;
    forall x | x in want && (x == c.w || x in StoppedBy(stops, c.w) || x !in want')
      ensures IsCalled(more, x) || IsStopped(more, stops, x)
    {
      if x == c.w || x in StoppedBy(stops, c.w) {
      } else if IsCalled(calls, x) {
        var i :| 0 <= i < |calls| && calls[i].w == x;
        assert more[i].w == x;
      } else {
        var i :| 0 <= i < |calls| && x in StoppedBy(stops, calls[i].w);
        assert more[i] == calls[i];
      }
    }
  }

  /** What still waits, waits in its old place, behind all calls, and no call has stopped it. */
  ghost predicate Behind(calls: seq<Call>, stops: Stops, want: Wants, ranks: Ranks, want': Wants, ranks': Ranks)
    requires want.Keys == ranks.Keys && want'.Keys == ranks'.Keys
  {
    && Called(calls, want, ranks, stops)
    && (forall w :: w in want' ==> w in want && want'[w] == want[w] && ranks'[w] == ranks[w])
    && (forall w, i :: 0 <= i < |calls| && w in want' ==>
          Sooner(ranks[calls[i].w], ranks[w]) && w !in StoppedBy(stops, calls[i].w))
  }

  lemma BehindCall(calls: seq<Call>, stops: Stops, want: Wants, ranks: Ranks, want': Wants, ranks': Ranks, w: Watcher)
    requires want.Keys == ranks.Keys && want'.Keys == ranks'.Keys
    requires Behind(calls, stops, want, ranks, want', ranks') && w in want'
    requires forall x :: x in want' && x != w ==> Sooner(ranks'[w], ranks'[x])
    ensures Behind(calls + [Call(w, want'[w])], stops, want, ranks, After(want', stops, w), After(ranks', stops, w))
  {
    hide StoppedBy;
  }

  class Queues {
    var pendings: seq<seq<Slot>>
    ghost var known: set<Watcher>      // the watchers that may be fed
    ghost var want: Wants
    ghost var ranks: Ranks

    ghost predicate Valid()
      reads this, known`priority, known`pending
    {
      && QueuesOk(pendings, want, ranks)
      && |pendings| == NUMPRI
      && want.Keys == ranks.Keys <= known
      && forall w {:trigger w.pending} {:trigger w in ranks} :: w in known ==>
           if w in ranks then w.pending > 0 && Rank(w.priority, w.pending) == ranks[w] else w.pending == 0
    }

    constructor (all: set<Watcher>)
      requires forall w :: w in all ==> w.pending == 0
      ensures Valid() && known == all && want == map[]
    {
      pendings := seq(NUMPRI, i => []);
      known, want, ranks := all, map[], map[];
    }

    /** pri_adjust: it leaves a waiting watcher's priority as it is. */
    method AdjustPriority(w: Watcher)
      requires Valid() && w in known
      modifies w`priority
      ensures Valid() && InRange(w.priority) && w.priority == Clamp(old(w.priority))
      ensures forall p :: InRange(p) ==> Distance(w.priority, old(w.priority)) <= Distance(p, old(w.priority))
    {
      if w.pending != 0 { QueuedHere(w); }
      w.priority := Clamp(w.priority);
    }

    /** ev_feed_event. */
    method Feed(w: Watcher, revents: bv32)
      requires Valid() && w in known && InRange(w.priority)
      modifies `pendings, `want, `ranks, w`pending
      ensures Valid()
      ensures want == old(want)[w := if w in old(want) then old(want[w]) | revents else revents]
    {
      if w.pending != 0 {
        QueuedHere(w);
        SetEvents(w, pendings[AbsPri(w.priority)][w.pending - 1].events | revents);
      } else {
        Enqueue(w, revents);
      }
    }

    method SetEvents(w: Watcher, events: bv32)
      requires Valid() && w in want
      modifies `pendings, `want
      ensures Valid() && want == old(want)[w := events]
    {
      hide QueuesOk;
      QueuedHere(w);
      PutKeeps(pendings, want, ranks, w, events);
      pendings := Put(pendings, AbsPri(w.priority), w.pending - 1, Slot(w, events));
      want := want[w := events];
    }

    method Enqueue(w: Watcher, revents: bv32)
      requires Valid() && w in known - want.Keys && InRange(w.priority)
      modifies `pendings, `want, `ranks, w`pending
      ensures Valid() && want == old(want)[w := revents]
    {
      hide QueuesOk;
      var p := AbsPri(w.priority);
      AppendKeeps(pendings, want, ranks, w, w.priority, revents);
      w.pending := |pendings[p]| + 1;
      pendings := pendings[p := pendings[p] + [Slot(w, revents)]];
      want, ranks := want[w := revents], ranks[w := Rank(w.priority, w.pending)];
    }

    lemma QueuedHere(w: Watcher)
      requires Valid() && w in known && w.pending != 0
      ensures InRange(w.priority) && |pendings| == NUMPRI && w.pending <= |pendings[AbsPri(w.priority)]|
      ensures w in want && pendings[AbsPri(w.priority)][w.pending - 1] == Slot(w, want[w])
    {
      assert w in ranks;
      assert Queued(pendings, want, ranks, w);
    }

    /** A watcher that waits is in exactly the slot its pending field names, and no other watcher is in a slot. */
    lemma PendingIsQueued(w: Watcher, p: nat, i: nat)
      requires Valid() && w in known && p < NUMPRI && i < |pendings[p]|
      ensures pendings[p][i].w == w <==> w.priority == p + MINPRI && w.pending == i + 1
      ensures w.pending != 0 <==> w in want
    {
      QueuedOnce(pendings, want, ranks, w, p, i);
    }

    /** clear_pending and ev_clear_pending: the slot stays, without a watcher. */
    method Clear(w: Watcher) returns (events: bv32)
      requires Valid() && w in known
      modifies `pendings, `want, `ranks, w`pending
      ensures Valid()
      ensures want == old(want) - {w} && ranks == old(ranks) - {w}
      ensures events == if w in old(want) then old(want[w]) else 0
      ensures Keeps(old(pendings), pendings)
    {
      hide QueuesOk;
      events := 0;
      if w.pending != 0 {
        QueuedHere(w);
        var p := AbsPri(w.priority);
        events := pendings[p][w.pending - 1].events;
        KillKeeps(pendings, want, ranks, w, events);
        pendings := Put(pendings, p, w.pending - 1, Slot(null, events));
        w.pending := 0;
      } else {
        assert w !in want && want == want - {w} && ranks == ranks - {w};
      }
      want, ranks := want - {w}, ranks - {w};
    }

    /** The queues are as long as they were. */
    static ghost predicate Keeps(a: seq<seq<Slot>>, b: seq<seq<Slot>>) {
      && |a| == |b|
      && forall p :: 0 <= p < |a| ==> |a[p]| == |b[p]|
    }

    /** EV_CB_INVOKE of a callback that stops watchers. */
    method Invoke(stopped: seq<Watcher>)
      requires Valid() && forall x :: x in stopped ==> x in known
      modifies `pendings, `want, `ranks, known`pending
      ensures Valid() && Keeps(old(pendings), pendings)
      ensures want == old(want) - SetOf(stopped) && ranks == old(ranks) - SetOf(stopped)
    {
      hide QueuesOk;
      for k := 0 to |stopped|
        invariant Valid() && Keeps(old(pendings), pendings)
        invariant want == old(want) - SetOf(stopped[..k]) && ranks == old(ranks) - SetOf(stopped[..k])
      {
        assert SetOf(stopped[..k + 1]) == SetOf(stopped[..k]) + {stopped[k]};
        MinusMinus(old(want), SetOf(stopped[..k]), {stopped[k]});
        MinusMinus(old(ranks), SetOf(stopped[..k]), {stopped[k]});
        var events := Clear(stopped[k]);
      }
      assert stopped[..|stopped|] == stopped;
    }

    /** Take the last slot off queue p, and mark its watcher as not pending. */
    method Pop(p: nat) returns (s: Slot)
      requires Valid() && p < NUMPRI && pendings[p] != []
      requires forall h :: p < h < NUMPRI ==> pendings[h] == []
      modifies `pendings, `want, `ranks, known`pending
      ensures Valid()
      ensures s == old(pendings[p][|pendings[p]| - 1]) && pendings == WithoutLast(old(pendings), p)
      ensures want == Less(old(want), s.w) && ranks == Less(old(ranks), s.w)
      ensures s.w != null ==> s.w in old(want) && s.events == old(want[s.w])
      ensures s.w != null ==> forall w :: w in old(want) && w != s.w ==> Sooner(old(ranks[s.w]), old(ranks)[w])
    {
      PopKeeps(pendings, want, ranks, p);
      hide QueuesOk;
      s := pendings[p][|pendings[p]| - 1];
      pendings := WithoutLast(pendings, p);
      if s.w != null {
        s.w.pending := 0;
      }
      want, ranks := Less(want, s.w), Less(ranks, s.w);
    }

    /** Take the last slot off queue p, and call its watcher if it has one. */
    method PopAndCall(p: nat, stops: Stops) returns (s: Slot)
      requires Valid() && forall w, x :: w in known && x in StoppedBy(stops, w) ==> x in known
      requires p < NUMPRI && pendings[p] != [] && forall h :: p < h < NUMPRI ==> pendings[h] == []
      modifies `pendings, `want, `ranks, known`pending
      ensures Valid() && Keeps(WithoutLast(old(pendings), p), pendings)
      ensures want == After(old(want), stops, s.w) && ranks == After(old(ranks), stops, s.w)
      ensures s.w != null ==> s.w in old(want) && s.events == old(want[s.w])
      ensures s.w != null ==> forall w :: w in old(want) && w != s.w ==> Sooner(old(ranks[s.w]), old(ranks)[w])
    {
      hide QueuesOk, StoppedBy, SetOf;
      s := Pop(p);
      if s.w != null {
        MinusMinus(old(want), {s.w}, SetOf(StoppedBy(stops, s.w)));
        MinusMinus(old(ranks), {s.w}, SetOf(StoppedBy(stops, s.w)));
        Invoke(StoppedBy(stops, s.w));
      }
    }

    /** call_pending, with callbacks that feed no events. */
    method CallPending(stops: Stops) returns (calls: seq<Call>)
      requires Valid() && forall w, x :: w in known && x in StoppedBy(stops, w) ==> x in known
      modifies `pendings, `want, `ranks, known`pending
      ensures Valid() && want == map[]
      ensures old(want).Keys == old(ranks).Keys && Called(calls, old(want), old(ranks), stops)
      ensures forall w :: w in old(want) ==> IsCalled(calls, w) || IsStopped(calls, stops, w)
    {
      calls := DrainQueues(stops);
    }

    method DrainQueues(stops: Stops) returns (calls: seq<Call>)
      requires Valid() && forall w, x :: w in known && x in StoppedBy(stops, w) ==> x in known
      modifies `pendings, `want, `ranks, known`pending
      ensures Valid() && want == map[]
      ensures old(want).Keys == old(ranks).Keys && Behind(calls, stops, old(want), old(ranks), want, ranks)
      ensures Accounted(calls, stops, old(want.Keys), {})
    {
      calls := [];
      assert Behind(calls, stops, old(want), old(ranks), want, ranks) &&
          Accounted(calls, stops, old(want.Keys), want.Keys);
      hide QueuesOk, Behind, Accounted, StoppedBy, SetOf;
      var pri := NUMPRI;
      while pri > 0
        invariant 0 <= pri <= NUMPRI && Valid()
        invariant forall h :: pri <= h < NUMPRI ==> pendings[h] == []
        invariant Behind(calls, stops, old(want), old(ranks), want, ranks)
        invariant Accounted(calls, stops, old(want.Keys), want.Keys)
      {
        pri := pri - 1;
        while pendings[pri] != []
          invariant Valid()
          invariant forall h :: pri < h < NUMPRI ==> pendings[h] == []
          invariant Behind(calls, stops, old(want), old(ranks), want, ranks)
          invariant Accounted(calls, stops, old(want.Keys), want.Keys)
          decreases |pendings[pri]|
        {
          ghost var before, place := want, ranks;
          var s := PopAndCall(pri, stops);
          if s.w != null {
            BehindCall(calls, stops, old(want), old(ranks), before, place, s.w);
            AccountedCall(calls, stops, old(want.Keys), before.Keys, Call(s.w, s.events));
            calls := calls + [Call(s.w, s.events)];
          }
        }
      }
      EmptyWantsNothing(pendings, want, ranks);
      assert want.Keys == {};
    }
  }
}
