/** A loop's timers, or its periodics: the two differ in their clock and in how a watcher is due again
    (ev.c:1663-1768, 2044-2060, 2100-2241). */
module Schedules {
  import opened Expiry
  import opened Pending
  import opened PeriodicTimes
  import opened TimeHeaps
  import opened TimerHeap
  import opened Watchers
  import opened Wrappers

  datatype Kind = Relative | WallClock

  const EV_TIMEOUT: bv32 := 0x100
  const EV_PERIODIC: bv32 := 0x200

  function Renewed(at: real, repeat: real, now: real): real {
    if at + repeat < now then now else at + repeat
  }

  ghost function When(due: Dues, w: Watcher): Option<real> {
    if w in due then Some(due[w]) else None
  }

  /** When a watcher is due that is started now; a timer's own time is relative then. */
  ghost predicate DueFirst(kind: Kind, w: Watcher, own: real, now: real, when: Option<real>)
    reads w`offset, w`interval, w`rescheduleCb
  {
    when != None &&
    if kind == Relative then when.value - now == own
    else if w.rescheduleCb != None then when.value == w.rescheduleCb.value(now)
    else if w.interval > 0.0 then IsFirst(w.offset, w.interval, now, when.value)
    else when.value == w.offset
  }

  /** When a watcher that fires is due again, which was due at was: a timer its repeat time later but not in the past, a
      periodic at the first time of its grid that is far enough ahead. */
  ghost predicate DueAgain(kind: Kind, w: Watcher, was: real, now: real, when: Option<real>)
    reads w`repeat, w`offset, w`interval, w`rescheduleCb
  {
    if kind == Relative then
      if w.repeat == 0.0 then when == None
      else when != None && when.value >= was + w.repeat && when.value >= now &&
           (when.value == was + w.repeat || when.value == now)
    else if w.rescheduleCb != None then when == Some(w.rescheduleCb.value(now))
    else if w.interval == 0.0 then when == None
    else when != None &&
         if w.interval >= TIME_EPSILON then IsFirst(w.offset, w.interval, now + TIME_EPSILON, when.value)
         else IsFirst(w.offset, w.interval, now, when.value - w.interval)
  }

  /** What Firing and FedAll come to when next is right. */
  lemma FiredAgain(kind: Kind, now: real, due: Dues, next: Nexts, fired: seq<Watcher>, due': Dues)
    requires due.Keys == next.Keys && Firing(due, next, now, fired, due')
    requires (forall w :: w in due' ==> due'[w] >= now) && forall w :: w in due ==>
               DueAgain(kind, w, due[w], now, next[w])
    ensures forall w :: w in fired ==> DueAgain(kind, w, due[w], now, When(due', w))
    ensures forall w :: w in due && w !in fired ==> When(due', w) == Some(due[w])
    ensures forall w :: w in fired <==> w in due && due[w] < now
  {
    hide DueAgain;
    forall w | w in fired ensures When(due', w) == next[w] {}
  }

  lemma FedGains(want: Wants, next: Nexts, event: bv32, due: Dues, fired: seq<Watcher>, want': Wants, due': Dues,
                 now: real)
    requires due.Keys == next.Keys && Firing(due, next, now, fired, due') && FedAll(want, next, event, fired, want')
    ensures forall w :: w in fired ==> w in want' && want'[w] == Gained(want, w, w in due', event)
    ensures forall w :: w !in fired ==> (w in want' <==> w in want) && (w in want ==> want'[w] == want[w])
  {}

  /** What a watcher waits for that has fired, and waited for before. */
  function Gained(before: Wants, w: Watcher, runs: bool, event: bv32): bv32 {
    if runs && w in before then before[w] | event else event
  }

  class Schedule {
    const kind: Kind
    const queues: Queues
    const timers: TimeHeap
    var now: real                     // mn_now, or ev_rt_now
    var activecnt: int
    ghost const all: set<Watcher>     // the watchers of this kind, running or not

    ghost predicate Valid()
      reads this, queues, queues.known`priority, queues.known`pending
      reads timers, timers.heap, all`priority, all`active, all`at
    {
      && timers.due.Keys <= all <= queues.known
      && queues.Valid() && timers.Valid()
      && Tracked(timers.due.Keys)
    }

    /** The active watchers are those that run. */
    ghost predicate Tracked(running: set<Watcher>)
      reads all`priority, all`active
    {
      forall w {:trigger w.active} {:trigger w in running} :: w in all ==>
        if w in running then w.active >= HEAP0 && InRange(w.priority) else w.active == 0
    }

    constructor (kind: Kind, queues: Queues, watchers: set<Watcher>)
      requires queues.Valid() && watchers <= queues.known
      requires forall w :: w in watchers ==> w.active == 0
      ensures Valid() && timers.due == map[] && activecnt == 0
      ensures this.kind == kind && this.queues == queues && all == watchers && fresh(timers) && fresh(timers.heap)
    {
      this.kind := kind;
      this.queues := queues;
      timers := new TimeHeap();
      now, activecnt, all := 0.0, 0, watchers;
    }

    lemma ActiveRuns(w: Watcher)
      requires Valid() && w in all
      ensures w.active != 0 <==> w in timers.due
      ensures w !in timers.due ==> timers.due - {w} == timers.due
    {}

    /** The root of the heap is due first. */
    lemma Top()
      requires Valid()
      ensures timers.cnt > 0 ==> 0 <= HEAP0 < timers.heap.Length
      ensures timers.cnt > 0 ==>
                var e := timers.heap[HEAP0];
                e.w in all && e.w in timers.due && e.at == timers.due[e.w] == e.w.at
      ensures forall w :: w in timers.due ==> w in all && timers.cnt > 0 && timers.heap[HEAP0].at <= timers.due[w]
    {
      timers.Places();
      timers.Root();
    }

    // ----- starting and stopping

    /** Set a watcher's time before it starts. */
    function FirstTime(w: Watcher): real
      reads `now, w
    {
      if kind == Relative then w.at + now
      else if w.rescheduleCb != None then w.rescheduleCb.value(now)
      else if w.interval != 0.0 then RoundUp(w.offset, w.interval, now)
      else w.offset
    }

    /** The source asserts that a repeat or an interval time is not negative. */
    predicate Startable(w: Watcher)
      reads w
    {
      if kind == Relative then w.repeat >= 0.0 else w.rescheduleCb == None ==> w.interval >= 0.0
    }

    lemma FirstIs(w: Watcher)
      requires Startable(w)
      ensures DueFirst(kind, w, w.at, now, Some(FirstTime(w)))
    {
      hide RoundUp, IsFirst;
      if w.interval > 0.0 { RoundUpIsFirst(w.offset, w.interval, now); }
    }

    /** ev_timer_start and ev_periodic_start. */
    method Start(w: Watcher)
      requires Valid() && w in all && Startable(w)
      modifies `activecnt, timers, timers.heap, w`at, w`priority, all`active
      ensures timers.heap == old(timers.heap) || fresh(timers.heap)
      ensures Valid()
      ensures timers.due == if w in old(timers.due) then old(timers.due) else old(timers.due)[w := old(FirstTime(w))]
      ensures w !in old(timers.due) ==> DueFirst(kind, w, old(w.at), now, When(timers.due, w))
      ensures activecnt == old(activecnt) + if w in old(timers.due) then 0 else 1
      ensures queues.want == old(queues.want)
    {
      ActiveRuns(w);
      FirstIs(w);
      hide Valid, FirstTime, DueFirst;
      if w.active != 0 { return; }
      SetIdle(w, FirstTime(w));
      Join(w);
    }

    /** ev_start, and the heap. */
    method Join(w: Watcher)
      requires Valid() && w in all && w !in timers.due
      modifies `activecnt, timers, timers.heap, w`priority, all`active
      ensures timers.heap == old(timers.heap) || fresh(timers.heap)
      ensures Valid() && timers.due == old(timers.due)[w := w.at]
      ensures activecnt == old(activecnt) + 1 && queues.want == old(queues.want)
    {
      hide Sound, Indexed, QueuesOk;
      queues.AdjustPriority(w);
      activecnt := activecnt + 1;
      timers.Add(w);
      timers.Places();
    }

    /** ev_timer_stop and ev_periodic_stop: a timer's time becomes relative again; what a watcher waited for is lost. */
    method Stop(w: Watcher)
      requires Valid() && w in all
      modifies `activecnt, queues`pendings, queues`want, queues`ranks, w`pending, w`at,
               timers`cnt, timers`due, timers.heap, all`active
      ensures Valid()
      ensures timers.due == old(timers.due) - {w} && queues.want == old(queues.want) - {w}
      ensures w.at == if w in old(timers.due) && kind == Relative then old(w.at) - now else old(w.at)
      ensures activecnt == old(activecnt) - if w in old(timers.due) then 1 else 0
    {
      var events := queues.Clear(w);
      if w.active != 0 { Leave(w); }
    }

    method Leave(w: Watcher)
      requires Valid() && w in timers.due
      modifies `activecnt, w`at, timers`cnt, timers`due, timers.heap, all`active
      ensures Valid()
      ensures timers.due == old(timers.due) - {w} && activecnt == old(activecnt) - 1
      ensures w.at == if kind == Relative then old(w.at) - now else old(w.at)
    {
      hide Valid;
      TakeOff(w);
      SetIdle(w, if kind == Relative then w.at - now else w.at);
    }

    method TakeOff(w: Watcher)
      requires Valid() && w in timers.due
      modifies `activecnt, timers`cnt, timers`due, timers.heap, all`active
      ensures Valid() && w in all
      ensures timers.due == old(timers.due) - {w} && activecnt == old(activecnt) - 1
    {
      hide Sound, Indexed, QueuesOk;
      timers.Remove(w);
      activecnt := activecnt - 1;
      timers.Places();
      w.active := 0;
    }

    method SetIdle(w: Watcher, at: real)
      requires Valid() && w in all - timers.due.Keys
      modifies w`at
      ensures Valid() && w.at == at
    {
      w.at := at;
    }

    method SetTime(w: Watcher, at: real)
      requires Valid() && w in timers.due
      modifies timers`due, timers.heap, w`at, all`active
      ensures Valid() && timers.due == old(timers.due)[w := at]
    {
      hide Sound, Indexed, QueuesOk;
      timers.SetTime(w, at);
      timers.Places();
    }

    /** ev_timer_again: whether it ran or not, the timer is due after its repeat time, or not at all without one. */
    method TimerAgain(w: Watcher)
      requires Valid() && kind == Relative && w in all && (w in timers.due || w.repeat >= 0.0)
      modifies `activecnt, queues`pendings, queues`want, queues`ranks, w`pending, w`at, w`priority,
               timers, timers.heap, all`active
      ensures timers.heap == old(timers.heap) || fresh(timers.heap)
      ensures Valid()
      ensures timers.due == if w.repeat == 0.0 then old(timers.due) - {w} else old(timers.due)[w := now + w.repeat]
      ensures queues.want == if w.repeat == 0.0 && w in old(timers.due) then old(queues.want) - {w}
                             else old(queues.want)
    {
      hide Valid;
      ActiveRuns(w);
      if w.active != 0 {
        if w.repeat != 0.0 {
          SetTime(w, now + w.repeat);
        } else {
          Stop(w);
        }
      } else if w.repeat != 0.0 {
        StartIn(w, w.repeat);
      }
    }

    /** A timer that does not run is started with the time given. */
    method StartIn(w: Watcher, after: real)
      requires Valid() && kind == Relative && w in all && w !in timers.due && w.repeat >= 0.0
      modifies `activecnt, w`at, w`priority, timers, timers.heap, all`active
      ensures timers.heap == old(timers.heap) || fresh(timers.heap)
      ensures Valid() && timers.due == old(timers.due)[w := now + after] && queues.want == old(queues.want)
    {
      hide Valid, DueFirst, When, RoundUp;
      SetIdle(w, after);
      Start(w);
    }

    /** ev_periodic_again: whether it ran or not, the periodic runs and is due when its parameters say. */
    method PeriodicAgain(w: Watcher)
      requires Valid() && kind == WallClock && w in all && Startable(w)
      modifies `activecnt, queues`pendings, queues`want, queues`ranks, w`pending, w`at, w`priority,
               timers, timers.heap, all`active
      ensures timers.heap == old(timers.heap) || fresh(timers.heap)
      ensures Valid()
      ensures timers.due == old(timers.due)[w := old(FirstTime(w))] && queues.want == old(queues.want) - {w}
      ensures DueFirst(kind, w, old(w.at), now, When(timers.due, w))
    {
      hide Valid, DueFirst, When;
      Stop(w);
      Start(w);
    }

    // ----- expiry

    const event: bv32 := if kind == Relative then EV_TIMEOUT else EV_PERIODIC

    /** When a watcher that has fired is due again, if it does not stop. */
    function NextTime(w: Watcher): Option<real>
      reads `now, w`at, w`repeat, w`offset, w`interval, w`rescheduleCb
    {
      if kind == Relative then
        if w.repeat != 0.0 then Some(Renewed(w.at, w.repeat, now)) else None
      else if w.rescheduleCb != None then Some(w.rescheduleCb.value(now))
      else if w.interval != 0.0 then Some(NextTrigger(w.offset, w.interval, now))
      else None
    }

    ghost function NextTimes(): Nexts
      reads `now, timers`due, timers.due.Keys
      ensures NextTimes().Keys == timers.due.Keys
    {
      map w | w in timers.due :: NextTime(w)
    }

    /** What the source asserts while it handles expired watchers. */
    ghost predicate Wellbehaved()
      reads `now, timers, all
    {
      forall w :: w in all && w in timers.due ==>
        Startable(w) && (kind == WallClock && w.rescheduleCb != None ==> w.rescheduleCb.value(now) >= now)
    }

    lemma NoneInThePast()
      requires Wellbehaved() && timers.due.Keys <= all
      ensures forall w :: w in timers.due && NextTime(w) != None ==> NextTime(w).value >= now
    {}

    lemma NextIs(w: Watcher)
      requires Startable(w)
      ensures DueAgain(kind, w, w.at, now, NextTime(w))
    {
      hide NextTrigger, IsFirst;
      if kind == WallClock && w.interval > 0.0 { NextTriggerIs(w.offset, w.interval, now); }
    }

    lemma NextTimesAre()
      requires Valid() && Wellbehaved()
      ensures forall w :: w in timers.due ==>
                NextTimes()[w] == NextTime(w) && DueAgain(kind, w, timers.due[w], now, NextTime(w))
    {
      timers.Places();
      hide NextTime, DueAgain;
      forall w | w in timers.due ensures DueAgain(kind, w, timers.due[w], now, NextTime(w)) {
        NextIs(w);
      }
    }

    /** The watcher at the root is rescheduled or stopped. */
    method Reschedule(w: Watcher)
      requires Valid() && timers.cnt > 0 && w == timers.heap[HEAP0].w && w in timers.due
      modifies `activecnt, queues`pendings, queues`want, queues`ranks, w`pending, w`at,
               timers`cnt, timers`due, timers.heap, all`active
      ensures Valid() && InRange(w.priority)
      ensures timers.due == if old(NextTime(w)) == None then old(timers.due) - {w}
                            else old(timers.due)[w := old(NextTime(w)).value]
      ensures queues.want == if old(NextTime(w)) == None then old(queues.want) - {w} else old(queues.want)
    {
      hide Sound, Indexed, QueuesOk, NextTime;
      timers.Places();
      var next := NextTime(w);
      if next != None {
        timers.SetRoot(next.value);
        timers.Places();
      } else {
        Stop(w);
      }
    }

    method FeedFired(w: Watcher)
      requires Valid() && w in all && InRange(w.priority)
      modifies queues`pendings, queues`want, queues`ranks, w`pending
      ensures Valid()
      ensures queues.want == With(old(queues.want), w, event)
    {
      hide Sound, Indexed, QueuesOk;
      queues.Feed(w, event);
    }

    /** One round of the loop. */
    method FireRoot(w: Watcher, ghost next: Nexts)
      requires Valid() && timers.cnt > 0 && HEAP0 < timers.heap.Length && w == timers.heap[HEAP0].w && w in timers.due
      requires w in all && w in next && next[w] == NextTime(w)
      modifies `activecnt, queues`pendings, queues`want, queues`ranks, w`pending, w`at,
               timers`cnt, timers`due, timers.heap, all`active
      ensures Valid()
      ensures timers.due == Fire(old(timers.due), next, w)
      ensures queues.want == Fed(old(queues.want), next, event, w)
    {
      hide Valid, NextTime;
      FedOnce(queues.want, next, event, w);
      Reschedule(w);
      hide Fed;
      FeedFired(w);
    }

    /** next is right about those that have not fired. */
    ghost predicate Foreseen(next: Nexts, fired: seq<Watcher>)
      reads `now, all`at, all`repeat, all`offset, all`interval, all`rescheduleCb
    {
      next.Keys <= all && forall w :: w in next && w !in fired ==> next[w] == NextTime(w)
    }

    /** The loop's body. due and want are what there was before the loop. */
    method FireOne(ghost next: Nexts, ghost due: Dues, ghost want: Wants, sofar: seq<Watcher>)
      returns (fired: seq<Watcher>)
      requires Valid() && timers.cnt > 0 && HEAP0 < timers.heap.Length && timers.heap[HEAP0].at < now
      requires timers.due.Keys <= due.Keys <= next.Keys && Forward(next, now) && Foreseen(next, sofar)
      requires Firing(due, next, now, sofar, timers.due) && InTurn(due, sofar) &&
               FedAll(want, next, event, sofar, queues.want)
      modifies `activecnt, queues`pendings, queues`want, queues`ranks, all`pending, all`at,
               timers`cnt, timers`due, timers.heap, all`active
      ensures Valid() && timers.due.Keys <= due.Keys && (timers.cnt > 0 ==> HEAP0 < timers.heap.Length)
      ensures Firing(due, next, now, fired, timers.due) && InTurn(due, fired) &&
              FedAll(want, next, event, fired, queues.want)
      ensures Foreseen(next, fired)
      ensures Expired(timers.due, now) < Expired(old(timers.due), now)
    {
      hide Firing, InTurn, FedAll, Fire, Fed, Expired, Valid, Forward, NextTime;
      Top();
      var w := timers.heap[HEAP0].w;
      FireNext(due, next, now, sofar, timers.due, w);
      FedNext(want, next, event, sofar, queues.want, w);
      FireRoot(w, next);
      fired := sofar + [w];
      Top();
    }

    method FireAll(ghost next: Nexts) returns (fired: seq<Watcher>)
      requires Valid() && timers.due.Keys == next.Keys && Forward(next, now) && Foreseen(next, [])
      modifies `activecnt, queues`pendings, queues`want, queues`ranks, all`pending, all`at,
               timers`cnt, timers`due, timers.heap, all`active
      ensures Valid() && forall w :: w in timers.due ==> timers.due[w] >= now
      ensures Firing(old(timers.due), next, now, fired, timers.due) && InTurn(old(timers.due), fired)
      ensures FedAll(old(queues.want), next, event, fired, queues.want)
    {
      fired := [];
      assert Firing(timers.due, next, now, fired, timers.due) && InTurn(timers.due, fired);
      assert FedAll(queues.want, next, event, fired, queues.want);
      hide Firing, InTurn, FedAll, Expired, Valid, Foreseen, Forward;
      Top();
      while timers.cnt > 0 && timers.heap[HEAP0].at < now
        invariant Valid() && timers.due.Keys <= old(timers.due).Keys && (timers.cnt > 0 ==> HEAP0 < timers.heap.Length)
        invariant Firing(old(timers.due), next, now, fired, timers.due) && InTurn(old(timers.due), fired)
        invariant FedAll(old(queues.want), next, event, fired, queues.want) && Foreseen(next, fired)
        decreases Expired(timers.due, now)
      {
        fired := FireOne(next, old(timers.due), old(queues.want), fired);
      }
      Top();
    }

    /** timers_reify and periodics_reify. */
    method Reify() returns (fired: seq<Watcher>)
      requires Valid() && Wellbehaved()
      modifies `activecnt, queues`pendings, queues`want, queues`ranks, all`pending, all`at,
               timers`cnt, timers`due, timers.heap, all`active
      ensures Valid()
      ensures forall w :: w in fired <==> w in old(timers.due) && old(timers.due)[w] < now
      ensures InTurn(old(timers.due), fired)
      ensures Firing(old(timers.due), old(NextTimes()), now, fired, timers.due)
      ensures forall w :: w in timers.due ==> timers.due[w] >= now
      ensures FedAll(old(queues.want), old(NextTimes()), event, fired, queues.want)
      ensures forall w :: w in fired ==> DueAgain(kind, w, old(timers.due)[w], now, When(timers.due, w))
      ensures forall w :: w in old(timers.due) && w !in fired ==> When(timers.due, w) == Some(old(timers.due)[w])
      ensures forall w :: w in fired ==>
                w in queues.want && queues.want[w] == Gained(old(queues.want), w, w in timers.due, event)
      ensures forall w :: w !in fired ==>
                (w in queues.want <==> w in old(queues.want)) &&
                (w in queues.want ==> queues.want[w] == old(queues.want)[w])
      ensures event == if kind == Relative then 0x100 else 0x200
    {
      hide DueAgain, NextTime, Valid, Wellbehaved, Firing, FedAll, InTurn, Gained, When;
      ghost var due, want := timers.due, queues.want;
      ghost var next := NextTimes();
      Foresee(next);
      NextTimesAre();
      fired := FireAll(next);
      FiredAgain(kind, now, due, next, fired, timers.due);
      FedGains(want, next, event, due, fired, queues.want, timers.due, now);
    }

    lemma Foresee(next: Nexts)
      requires Valid() && Wellbehaved() && next == NextTimes()
      ensures timers.due.Keys == next.Keys && Forward(next, now) && Foreseen(next, [])
    {
      hide NextTime;
      Top();
      NoneInThePast();
      hide Valid, Wellbehaved;
    }

    // ----- after a time jump

    /** The time of a running periodic after the clock has jumped. */
    function MovedTime(w: Watcher): real
      reads `now, w`at, w`offset, w`interval, w`rescheduleCb
    {
      if w.rescheduleCb != None then w.rescheduleCb.value(now)
      else if w.interval != 0.0 then RoundUp(w.offset, w.interval, now)
      else w.at
    }

    ghost predicate Moved(w: Watcher, was: real, at: real)
      reads `now, w`offset, w`interval, w`rescheduleCb
    {
      if w.rescheduleCb != None then at == w.rescheduleCb.value(now)
      else if w.interval > 0.0 then IsFirst(w.offset, w.interval, now, at)
      else w.interval == 0.0 ==> at == was
    }

    lemma MovedIs(w: Watcher)
      ensures Moved(w, w.at, MovedTime(w))
    {
      hide RoundUp, IsFirst;
      if w.interval > 0.0 { RoundUpIsFirst(w.offset, w.interval, now); }
    }

    /** periodics_reschedule. */
    method RescheduleAll()
      requires Valid() && kind == WallClock
      modifies timers`due, timers.heap, all`at, all`active
      ensures Valid()
      ensures timers.due.Keys == old(timers.due.Keys)
      ensures forall w :: w in timers.due ==> timers.due[w] == old(MovedTime(w))
      ensures forall w :: w in timers.due ==>
                if w.rescheduleCb != None then timers.due[w] == w.rescheduleCb.value(now)
                else if w.interval > 0.0 then IsFirst(w.offset, w.interval, now, timers.due[w])
                else w.interval == 0.0 ==> timers.due[w] == old(timers.due)[w]
    {
      hide QueuesOk, MovedTime, Sound, Indexed, IsFirst;
      timers.Places();
      forall w | w in timers.due ensures Moved(w, timers.due[w], MovedTime(w)) { MovedIs(w); }
      if timers.cnt > 0 { MoveAndRebuild(); }
      timers.Places();
    }

    method MoveAndRebuild()
      requires timers.Valid() && timers.cnt > 0 && timers.due.Keys <= all
      modifies timers`due, timers.heap, timers.due.Keys`at, timers.due.Keys`active
      ensures timers.Valid() && timers.due.Keys == old(timers.due.Keys)
      ensures forall w :: w in timers.due ==> timers.due[w] == old(MovedTime(w))
    {
      hide IsHeap, Holds, MovedTime;
      MoveAll();
      timers.Rebuild();
    }

    method MoveAll()
      requires timers.Unordered() && timers.due.Keys <= all
      modifies timers`due, timers.heap, timers.due.Keys`at
      ensures timers.Unordered() && timers.due.Keys == old(timers.due.Keys)
      ensures forall w :: w in timers.due ==> timers.due[w] == old(MovedTime(w))
    {
      hide Holds, MovedTime;
      timers.Where();
      var n := timers.cnt + HEAP0;
      for i := HEAP0 to n
        invariant timers.Unordered() && timers.due.Keys == old(timers.due.Keys)
        invariant forall j :: HEAP0 <= j < n ==>
                    timers.heap[j].w == old(timers.heap[j].w) && timers.heap[j].w in timers.due
        invariant forall j :: HEAP0 <= j < i ==> timers.due[timers.heap[j].w] == old(MovedTime(timers.heap[j].w))
        invariant forall j :: i <= j < n ==> timers.heap[j].w.at == old(timers.heap[j].w.at)
      {
        timers.Retime(i, MovedTime(timers.heap[i].w));
      }
      timers.Where();
    }
  }
}
