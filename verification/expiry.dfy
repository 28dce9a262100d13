/** What one run of timers_reify or periodics_reify does to the running watchers and to what they wait for. */
module Expiry {
  import opened Pending
  import opened TimeHeaps
  import opened Watchers
  import opened Wrappers

  type Nexts = map<Watcher, Option<real>>    // when a watcher that fires is due again, or None when it stops

  ghost function Expired(due: Dues, now: real): set<Watcher> {
    set w | w in due && due[w] < now
  }

  /** One watcher fires: it gets a new time, or leaves. */
  function Fire(due: Dues, next: Nexts, w: Watcher): (r: Dues)
    requires w in due && w in next
    ensures r.Keys <= due.Keys
  {
    if next[w] == None then due - {w} else due[w := next[w].value]
  }

  /** Some of the watchers that were due have fired, the others are as they were. */
  ghost predicate Firing(due: Dues, next: Nexts, now: real, fired: seq<Watcher>, due': Dues)
    requires due.Keys <= next.Keys
  {
    && (forall w :: w in fired ==> w in due && due[w] < now)
    && (forall w :: w in due' ==> w in due)
    && (forall w :: w in due && w !in fired ==> w in due' && due'[w] == due[w])
    && (forall w :: w in fired ==> (w in due' <==> next[w] != None))
    && (forall w :: w in fired && w in due' ==> due'[w] == next[w].value)
  }

  /** Each once, the earliest first, and none that is still to fire was earlier. */
  ghost predicate InTurn(due: Dues, fired: seq<Watcher>) {
    && (forall w :: w in fired ==> w in due)
    && (forall i, j :: 0 <= i < j < |fired| ==> fired[i] != fired[j] && due[fired[i]] <= due[fired[j]])
    && (forall i, w :: 0 <= i < |fired| && w in due && w !in fired ==> due[fired[i]] <= due[w])
  }

  /** No watcher is due again in the past. */
  ghost predicate Forward(next: Nexts, now: real) {
    forall w :: w in next && next[w] != None ==> next[w].value >= now
  }

  lemma FireNext(due: Dues, next: Nexts, now: real, fired: seq<Watcher>, due': Dues, w: Watcher)
    requires due.Keys <= next.Keys && Forward(next, now)
    requires Firing(due, next, now, fired, due') && InTurn(due, fired)
    requires w in due' && due'[w] < now && forall x :: x in due' ==> due'[w] <= due'[x]
    ensures w !in fired
    ensures Firing(due, next, now, fired + [w], Fire(due', next, w)) && InTurn(due, fired + [w])
    ensures Expired(Fire(due', next, w), now) < Expired(due', now)
  {
    assert w !in fired;
    assert w in Expired(due', now) && w !in Expired(Fire(due', next, w), now);
  }

  /** What the watchers wait for when w has fired; a watcher that stops loses what it waited for before. */
  function Fed(want: Wants, next: Nexts, event: bv32, w: Watcher): Wants
    requires w in next
  {
    want[w := if next[w] != None && w in want then want[w] | event else event]
  }

  function With(want: Wants, w: Watcher, event: bv32): Wants {
    want[w := if w in want then want[w] | event else event]
  }

  lemma FedOnce(want: Wants, next: Nexts, event: bv32, w: Watcher)
    requires w in next
    ensures Fed(want, next, event, w) == With(if next[w] == None then want - {w} else want, w, event)
  {
    if next[w] == None {
      assert (want - {w})[w := event] == want[w := event];
    }
  }

  /** A watcher that fires keeps the events it was fed before if and only if it does not stop, or they are all the same
      as that of its expiry. */
  lemma KeepsEarlierEvents(want: Wants, next: Nexts, event: bv32, fired: seq<Watcher>, want': Wants, w: Watcher)
    requires FedAll(want, next, event, fired, want') && w in fired && w in want
    ensures want'[w] == want[w] | event <==> next[w] != None || want[w] | event == event
  {}

  /** Such a loss: a one-shot watcher that was fed 4 is called with 0x100 alone. */
  lemma LosesEarlierEvents(w: Watcher)
    ensures FedAll(map[w := 4], map[w := None], 0x100, [w], map[w := 0x100]) && 4 | 0x100 as bv32 != 0x100
  {}

  /** The watchers that fired, and no others, have been fed. */
  ghost predicate FedAll(want: Wants, next: Nexts, event: bv32, fired: seq<Watcher>, want': Wants) {
    && (forall w :: w in fired ==> w in next && w in want' && want'[w] == Fed(want, next, event, w)[w])
    && (forall w :: w in want' ==> w in fired || w in want)
    && (forall w :: w in want && w !in fired ==> w in want' && want'[w] == want[w])
  }

  lemma FedNext(want: Wants, next: Nexts, event: bv32, fired: seq<Watcher>, want': Wants, w: Watcher)
    requires FedAll(want, next, event, fired, want') && w in next && w !in fired
    ensures FedAll(want, next, event, fired + [w], Fed(want', next, event, w))
  {}
}
