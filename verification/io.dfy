/** Io watchers: the lists of the watchers of each descriptor, the list of descriptors whose lists may have changed,
    and the poll set that is brought up to date from them (ev.c:673-739, 1998-2014, 2060-2098). */
module Io {
  import opened ArraySize
  import opened Pending
  import opened PollSets
  import opened Watchers
  import opened Wrappers

  const EV_IOFDSET: bv8 := 0x80
  const SIZEOF_ANFD: nat := 16

  datatype Anfd = Anfd(head: seq<Watcher>, events: bv8, reify: bv8)

  datatype Interest = Interest(fd: nat, events: bv8)

  type Running = map<Watcher, Interest>     // the active watchers

  /** The events that remain when the flag for a new descriptor is taken away. */
  function Plain(events: bv8): bv8 {
    events & !EV_IOFDSET
  }

  /** What a watcher is called for when it was set for these events: the same, bit by bit, but for that flag. */
  ghost predicate CalledFor(asked: bv8, events: bv8) {
    && events & EV_IOFDSET == 0 && events | EV_IOFDSET == asked | EV_IOFDSET
    && events & EV_READ == asked & EV_READ && events & EV_WRITE == asked & EV_WRITE
    && (asked & !(EV_READ | EV_WRITE | EV_IOFDSET) == 0 ==> events & !(EV_READ | EV_WRITE) == 0)
  }

  lemma PlainBits(events: bv8)
    ensures CalledFor(events, Plain(events))
  {}

  function Mask(running: Running, w: Watcher): bv8 {
    if w in running then running[w].events else 0
  }

  /** All the events that some watcher is interested in. */
  function Union(ws: seq<Watcher>, running: Running): bv8 {
    if ws == [] then 0
    else
      var w := ws[|ws| - 1];
      Union(ws[..|ws| - 1], running) | Mask(running, w)
  }

  lemma {:induction false} UnionHas(ws: seq<Watcher>, running: Running, bits: bv8)
    ensures Union(ws, running) & bits != 0 <==> exists w :: w in ws && w in running && running[w].events & bits != 0
  {
    if ws != [] {
      var w, front := ws[|ws| - 1], ws[..|ws| - 1];
      UnionHas(front, running, bits);
      BitsOfOr(Union(front, running), Mask(running, w), bits);
      assert ws == front + [w];
    }
  }

  lemma BitsOfOr(a: bv8, b: bv8, bits: bv8)
    ensures (a | b) & bits != 0 <==> a & bits != 0 || b & bits != 0
  {}

  /** A list depends only on its own watchers' interests. */
  lemma {:induction false} SameUnion(ws: seq<Watcher>, running: Running, running': Running)
    requires forall w :: w in ws ==> Mask(running, w) == Mask(running', w)
    ensures Union(ws, running) == Union(ws, running')
  {
    hide Mask;
    if ws != [] {
      var w := ws[|ws| - 1];
      SameUnion(ws[..|ws| - 1], running, running');
      assert Mask(running, w) == Mask(running', w);
    }
  }

  /** The lists hold the running watchers, each once and under its own descriptor. */
  ghost predicate ListsOk(anfds: seq<Anfd>, running: Running) {
    && (forall fd, k :: 0 <= fd < |anfds| && 0 <= k < |anfds[fd].head| ==>
          anfds[fd].head[k] in running && running[anfds[fd].head[k]].fd == fd)
    && (forall fd :: 0 <= fd < |anfds| ==> NoDup(anfds[fd].head))
    && (forall w :: w in running ==> running[w].fd < |anfds| && w in anfds[running[w].fd].head)
  }

  /** Only descriptors in changes, or but, have out of date events; all that are marked are in changes. */
  ghost predicate ChangesBut(anfds: seq<Anfd>, changes: seq<nat>, running: Running, but: int) {
    && (forall fd :: fd in changes ==> fd < |anfds|)
    && (forall fd :: 0 <= fd < |anfds| && fd !in changes ==> anfds[fd].reify == 0)
    && (forall fd :: 0 <= fd < |anfds| && fd !in changes && fd != but ==>
          anfds[fd].events == Union(anfds[fd].head, running))
  }

  /** The poll set is what the descriptors' events say. */
  ghost predicate PolledOk(anfds: seq<Anfd>, polled: Polled) {
    && (forall fd :: fd in polled ==> fd < |anfds|)
    && (forall fd :: 0 <= fd < |anfds| ==>
          if anfds[fd].events == 0 then fd !in polled else fd in polled && polled[fd] == PollEvents(anfds[fd].events))
  }

  /** The descriptors, the change list and the poll set belong together. */
  ghost predicate StateOk(anfds: seq<Anfd>, changes: seq<nat>, running: Running, polled: Polled, but: int) {
    ListsOk(anfds, running) && ChangesBut(anfds, changes, running, but) && PolledOk(anfds, polled)
  }

  ghost predicate Interested(running: Running, fd: nat, bits: bv8) {
    exists w :: w in running && running[w].fd == fd && running[w].events & bits != 0
  }

  /** The poll set is exactly what the running watchers are interested in. */
  ghost predicate UpToDate(running: Running, polled: Polled) {
    && (forall w :: w in running && running[w].events != 0 ==> running[w].fd in polled)
    && (forall fd :: fd in polled ==>
          && Interested(running, fd, 0xFF)
          && (polled[fd] & POLLIN != 0 <==> Interested(running, fd, EV_READ))
          && (polled[fd] & POLLOUT != 0 <==> Interested(running, fd, EV_WRITE))
          && polled[fd] & !(POLLIN | POLLOUT) == 0)
  }

  lemma PollBits(ev: bv8)
    ensures PollEvents(ev) & POLLIN != 0 <==> ev & EV_READ != 0
    ensures PollEvents(ev) & POLLOUT != 0 <==> ev & EV_WRITE != 0
    ensures PollEvents(ev) & !(POLLIN | POLLOUT) == 0
    ensures ev & 0xFF == ev
  {}

  lemma ListInterest(anfds: seq<Anfd>, running: Running, fd: nat, bits: bv8)
    requires ListsOk(anfds, running) && fd < |anfds|
    ensures Union(anfds[fd].head, running) & bits != 0 <==> Interested(running, fd, bits)
  {
    UnionHas(anfds[fd].head, running, bits);
  }

  /** Without pending changes the poll set is up to date. */
  lemma NothingPending(anfds: seq<Anfd>, running: Running, polled: Polled)
    requires StateOk(anfds, [], running, polled, -1)
    ensures UpToDate(running, polled)
  {
    hide Union;
    forall w | w in running && running[w].events != 0 ensures running[w].fd in polled {
      var fd := running[w].fd;
      ListInterest(anfds, running, fd, 0xFF);
      PollBits(running[w].events);
      PollBits(anfds[fd].events);
    }
    forall fd | fd in polled
      ensures Interested(running, fd, 0xFF)
      ensures polled[fd] & POLLIN != 0 <==> Interested(running, fd, EV_READ)
      ensures polled[fd] & POLLOUT != 0 <==> Interested(running, fd, EV_WRITE)
      ensures polled[fd] & !(POLLIN | POLLOUT) == 0
    {
      ListInterest(anfds, running, fd, 0xFF);
      ListInterest(anfds, running, fd, EV_READ);
      ListInterest(anfds, running, fd, EV_WRITE);
      PollBits(anfds[fd].events);
    }
  }

  // ----- what each step keeps

  function WithHead(anfds: seq<Anfd>, fd: nat, head: seq<Watcher>): (r: seq<Anfd>)
    requires fd < |anfds|
    ensures |r| == |anfds|
  {
    anfds[fd := anfds[fd].(head := head)]
  }

  /** Where the heads are the same, watchers that come or go on fd do not matter elsewhere. */
  lemma OtherLists(anfds: seq<Anfd>, changes: seq<nat>, running: Running, anfds': seq<Anfd>, running': Running, fd: nat)
    requires ListsOk(anfds, running) && ChangesBut(anfds, changes, running, -1)
    requires fd < |anfds| == |anfds'| && anfds' == WithHead(anfds, fd, anfds'[fd].head)
    requires forall w :: w in running && running[w].fd != fd ==> w in running' && running'[w] == running[w]
    ensures ChangesBut(anfds', changes, running', fd)
  {
    forall f | 0 <= f < |anfds| && f !in changes && f != fd
      ensures anfds'[f].events == Union(anfds'[f].head, running')
    {
      assert anfds'[f] == anfds[f];
      SameUnion(anfds[f].head, running, running');
    }
  }

  lemma AddKeeps(anfds: seq<Anfd>, changes: seq<nat>, running: Running, polled: Polled, w: Watcher, fd: nat,
                 events: bv8)
    requires StateOk(anfds, changes, running, polled, -1) && w !in running && fd < |anfds|
    ensures var anfds', running' := WithHead(anfds, fd, [w] + anfds[fd].head), running[w := Interest(fd, events)];
            StateOk(anfds', changes, running', polled, fd)
  {
    var anfds', running' := WithHead(anfds, fd, [w] + anfds[fd].head), running[w := Interest(fd, events)];
    OtherLists(anfds, changes, running, anfds', running', fd);
    assert anfds'[fd].head[0] == w;
    forall x | x in running' ensures running'[x].fd < |anfds'| && x in anfds'[running'[x].fd].head {
      if x != w {
        var f := running[x].fd;
        var k :| 0 <= k < |anfds[f].head| && anfds[f].head[k] == x;
        assert anfds'[f].head[if f == fd then k + 1 else k] == x;
      }
    }
  }

  function CutAt(s: seq<Watcher>, k: nat): seq<Watcher>
    requires k < |s|
  {
    s[..k] + s[k + 1..]
  }

  lemma DeleteLists(anfds: seq<Anfd>, running: Running, fd: nat, k: nat)
    requires ListsOk(anfds, running) && fd < |anfds| && k < |anfds[fd].head|
    ensures ListsOk(WithHead(anfds, fd, CutAt(anfds[fd].head, k)), running - {anfds[fd].head[k]})
  {}

  lemma DeleteKeeps(anfds: seq<Anfd>, changes: seq<nat>, running: Running, polled: Polled, fd: nat, k: nat)
    requires StateOk(anfds, changes, running, polled, -1) && fd < |anfds| && k < |anfds[fd].head|
    ensures var anfds', running' := WithHead(anfds, fd, CutAt(anfds[fd].head, k)), running - {anfds[fd].head[k]};
            StateOk(anfds', changes, running', polled, fd)
  {
    hide CutAt;
    var head := CutAt(anfds[fd].head, k);
    DeleteLists(anfds, running, fd, k);
    assert running[anfds[fd].head[k]].fd == fd;
    OtherLists(anfds, changes, running, WithHead(anfds, fd, head), running - {anfds[fd].head[k]}, fd);
    SameEvents(anfds, WithHead(anfds, fd, head), polled);
  }

  lemma SameEvents(anfds: seq<Anfd>, anfds': seq<Anfd>, polled: Polled)
    requires PolledOk(anfds, polled) && |anfds'| == |anfds|
    requires forall f :: 0 <= f < |anfds| ==> anfds'[f].events == anfds[f].events
    ensures PolledOk(anfds', polled)
  {}

  lemma GrowKeeps(anfds: seq<Anfd>, changes: seq<nat>, running: Running, polled: Polled, more: nat)
    requires StateOk(anfds, changes, running, polled, -1)
    ensures var anfds' := anfds + seq(more, _ => Anfd([], 0, 0));
            StateOk(anfds', changes, running, polled, -1)
  {}

  function Marked(anfds: seq<Anfd>, fd: nat, reify: bv8): (r: seq<Anfd>)
    requires fd < |anfds|
    ensures |r| == |anfds|
  {
    anfds[fd := Anfd(anfds[fd].head, anfds[fd].events, reify)]
  }

  function Listed(anfds: seq<Anfd>, changes: seq<nat>, fd: nat): seq<nat>
    requires fd < |anfds|
  {
    if anfds[fd].reify == 0 then changes + [fd] else changes
  }

  /** fd_change: a descriptor that is marked is in the list already. */
  lemma MarkKeeps(anfds: seq<Anfd>, changes: seq<nat>, running: Running, polled: Polled, fd: nat, reify: bv8)
    requires StateOk(anfds, changes, running, polled, fd) && fd < |anfds|
    ensures StateOk(Marked(anfds, fd, reify), Listed(anfds, changes, fd), running, polled, -1)
  {}

  /** What the backend is told about fd, whose events turn from oev to nev. */
  function Modified(polled: Polled, fd: nat, oev: bv8, nev: bv8): Polled {
    if oev == nev then polled else if nev == 0 then polled - {fd} else polled[fd := PollEvents(nev)]
  }

  lemma ReifyKeeps(anfds: seq<Anfd>, changes: seq<nat>, running: Running, polled: Polled)
    requires StateOk(anfds, changes, running, polled, -1) && changes != []
    ensures changes[0] < |anfds|
    ensures var fd := changes[0];
            var nev := Union(anfds[fd].head, running);
            var anfds' := anfds[fd := Anfd(anfds[fd].head, nev, 0)];
            StateOk(anfds', changes[1..], running, Modified(polled, fd, anfds[fd].events, nev), -1)
  {
    hide Union;
    assert changes[0] in changes;
    assert forall fd :: fd in changes <==> fd == changes[0] || fd in changes[1..];
  }

  class IoLoop {
    const queues: Queues
    const polls: PollSet
    var anfds: seq<Anfd>
    var fdchanges: seq<nat>
    var activecnt: int
    ghost const all: set<Watcher>      // the loop's io watchers
    ghost var running: Running

    ghost predicate Valid()
      reads `anfds, `fdchanges, `running, queues, queues.known`priority, queues.known`pending
      reads polls, polls.pollidxs, polls.polls, all`active, all`priority, all`fd, all`events
    {
      ValidBut(-1)
    }

    /** Valid, but descriptor fd may have out of date events although it is not in the change list. */
    ghost predicate ValidBut(fd: int)
      reads `anfds, `fdchanges, `running, queues, queues.known`priority, queues.known`pending
      reads polls, polls.pollidxs, polls.polls, all`active, all`priority, all`fd, all`events
    {
      && running.Keys <= all <= queues.known
      && queues.Valid() && polls.Valid()
      && StateOk(anfds, fdchanges, running, polls.polled, fd)
      && Tracked(running)
    }

    ghost predicate Tracked(running: Running)
      reads all`active, all`priority, all`fd, all`events
    {
      forall w {:trigger w.active} {:trigger w in running} :: w in all ==>
        if w in running then w.active == 1 && InRange(w.priority) && running[w] == Interest(w.fd, w.events)
        else w.active == 0
    }

    constructor (queues: Queues, watchers: set<Watcher>)
      requires queues.Valid() && watchers <= queues.known && forall w :: w in watchers ==> w.active == 0
      ensures Valid() && running == map[] && this.queues == queues && all == watchers && activecnt == 0
      ensures fresh(polls) && fresh(polls.pollidxs) && fresh(polls.polls)
    {
      this.queues := queues;
      polls := new PollSet();
      anfds, fdchanges, activecnt := [], [], 0;
      all, running := watchers, map[];
    }

    /** array_needsize of anfds; the new part is zero. */
    method NeedFd(need: nat)
      requires Valid()
      modifies `anfds
      ensures Valid() && |anfds| >= need && fdchanges == old(fdchanges)
    {
      hide Union;
      if need > |anfds| {
        var max := NextSize(SIZEOF_ANFD, |anfds|, need);
        var more := max - |anfds|;
        GrowKeeps(anfds, fdchanges, running, polls.polled, more);
        hide StateOk, QueuesOk, Inverse;
        anfds := anfds + seq(more, _ => Anfd([], 0, 0));
      }
    }

    /** ev_io_start. */
    method Start(w: Watcher)
      requires Valid() && w in all
      modifies `anfds, `fdchanges, `activecnt, `running, w`active, w`priority, w`events
      ensures Valid()
      ensures running == if w in old(running) then old(running)
                         else old(running)[w := Interest(w.fd, Plain(old(w.events)))]
      ensures activecnt == old(activecnt) + if w in old(running) then 0 else 1
      ensures w in running && (w !in old(running) ==> running[w].fd == w.fd && running[w].events == w.events)
      ensures w !in old(running) ==> CalledFor(old(w.events), w.events)
    {
      ActiveRuns(w);
      PlainBits(w.events);
      hide ValidBut, Plain, CalledFor;
      if w.active != 0 { return; }
      activecnt := activecnt + 1;
      NeedFd(w.fd + 1);
      var flags := w.events & (EV_IOFDSET | 1);
      Enlist(w);
      FdChange(w.fd, flags);
    }

    lemma ActiveRuns(w: Watcher)
      requires Valid() && w in all
      ensures w.active != 0 <==> w in running
      ensures w in running ==> w.fd < |anfds| && w in anfds[w.fd].head
      ensures w !in running ==> running - {w} == running
    {}

    /** w becomes active, and the first in the list of its descriptor. */
    method Enlist(w: Watcher)
      requires Valid() && w in all && w !in running && w.fd < |anfds|
      modifies `anfds, `running, w`active, w`priority, w`events
      ensures ValidBut(w.fd) && fdchanges == old(fdchanges) && |anfds| == old(|anfds|)
      ensures running == old(running)[w := Interest(w.fd, Plain(old(w.events)))] && w.events == Plain(old(w.events))
    {
      hide StateOk, QueuesOk, Inverse, Plain;
      AddKeeps(anfds, fdchanges, running, polls.polled, w, w.fd, Plain(w.events));
      w.active := 1;
      queues.AdjustPriority(w);
      anfds := WithHead(anfds, w.fd, [w] + anfds[w.fd].head);
      w.events := Plain(w.events);
      running := running[w := Interest(w.fd, w.events)];
    }

    /** fd_change. */
    method FdChange(fd: nat, flags: bv8)
      requires ValidBut(fd) && fd < |anfds|
      modifies `anfds, `fdchanges
      ensures Valid()
      ensures anfds == Marked(old(anfds), fd, old(anfds[fd]).reify | flags) &&
              fdchanges == Listed(old(anfds), old(fdchanges), fd)
    {
      hide StateOk, QueuesOk, Inverse;
      MarkKeeps(anfds, fdchanges, running, polls.polled, fd, anfds[fd].reify | flags);
      var reify := anfds[fd].reify;
      anfds := anfds[fd := anfds[fd].(reify := reify | flags)];
      fdchanges := if reify == 0 then fdchanges + [fd] else fdchanges;
    }

    /** ev_io_stop: the source asserts that the descriptor of an active watcher has a list. */
    method Stop(w: Watcher)
      requires Valid() && w in all
      modifies `anfds, `fdchanges, `activecnt, `running, w`active, w`pending, queues`pendings, queues`want, queues`ranks
      ensures Valid()
      ensures running == old(running) - {w} && queues.want == old(queues.want) - {w}
      ensures activecnt == old(activecnt) - if w in old(running) then 1 else 0
    {
      ClearPending(w);
      ActiveRuns(w);
      hide ValidBut;
      if w.active != 0 { Deactivate(w); }
    }

    method Deactivate(w: Watcher)
      requires Valid() && w in running && w.fd < |anfds| && w in anfds[w.fd].head
      modifies `anfds, `fdchanges, `activecnt, `running, w`active
      ensures Valid() && running == old(running) - {w} && activecnt == old(activecnt) - 1
    {
      hide ValidBut;
      Delist(w);
      activecnt := activecnt - 1;
      FdChange(w.fd, 1);
    }

    method ClearPending(w: Watcher)
      requires Valid() && w in all
      modifies w`pending, queues`pendings, queues`want, queues`ranks
      ensures Valid() && queues.want == old(queues.want) - {w}
    {
      hide StateOk, QueuesOk, Inverse;
      var events := queues.Clear(w);
    }

    static method Find(head: seq<Watcher>, w: Watcher) returns (k: nat)
      requires w in head
      ensures k < |head| && head[k] == w && w !in head[..k]
    {
      k := 0;
      while head[k] != w
        invariant 0 <= k < |head| && w in head[k..] && w !in head[..k]
        decreases |head| - k
      {
        k := k + 1;
      }
    }

    /** wlist_del, and the watcher is not active any more. */
    method Delist(w: Watcher)
      requires Valid() && w in running && w.fd < |anfds| && w in anfds[w.fd].head
      modifies `anfds, `running, w`active
      ensures ValidBut(w.fd) && running == old(running) - {w} && |anfds| == old(|anfds|) && fdchanges == old(fdchanges)
    {
      hide ValidBut;
      var k := Find(anfds[w.fd].head, w);
      DelistAt(w, k);
    }

    method DelistAt(w: Watcher, k: nat)
      requires Valid() && w in running && w.fd < |anfds| && k < |anfds[w.fd].head| && anfds[w.fd].head[k] == w
      modifies `anfds, `running, w`active
      ensures ValidBut(w.fd) && running == old(running) - {w} && |anfds| == old(|anfds|) && fdchanges == old(fdchanges)
    {
      hide StateOk, QueuesOk, Inverse, NoDup, CutAt;
      ghost var less := running - {w};
      var shorter := WithHead(anfds, w.fd, CutAt(anfds[w.fd].head, k));
      DeleteKeeps(anfds, fdchanges, running, polls.polled, w.fd, k);
      hide WithHead;
      Leave(w, shorter, less);
    }

    method Leave(w: Watcher, shorter: seq<Anfd>, ghost less: Running)
      modifies `anfds, `running, w`active
      ensures anfds == shorter && running == less && w.active == 0
    {
      w.active := 0;
      anfds := shorter;
      running := less;
    }

    /** Valid, but of the change list only the part from i on counts. */
    ghost predicate ValidFrom(i: nat)
      reads `anfds, `fdchanges, `running, queues, queues.known`priority, queues.known`pending
      reads polls, polls.pollidxs, polls.polls, all`active, all`priority, all`fd, all`events
    {
      && i <= |fdchanges|
      && running.Keys <= all <= queues.known
      && queues.Valid() && polls.Valid()
      && StateOk(anfds, fdchanges[i..], running, polls.polled, -1)
      && Tracked(running)
    }

    /** The events of a list, as its watchers have them now. */
    method Collect(fd: nat) returns (events: bv8)
      requires ListsOk(anfds, running) && running.Keys <= all && Tracked(running) && fd < |anfds|
      ensures events == Union(anfds[fd].head, running)
    {
      var head := anfds[fd].head;
      events := 0;
      for k := 0 to |head|
        invariant events == Union(head[..k], running)
      {
        var w := head[k];
        assert head[..k + 1] == head[..k] + [w];
        events := events | w.events;
      }
      assert head[..|head|] == head;
    }

    /** One round of fd_reify. */
    method ReifyOne(i: nat)
      requires ValidFrom(i) && i < |fdchanges|
      modifies `anfds, polls, polls.pollidxs, polls.polls
      ensures polls.pollidxs == old(polls.pollidxs) || fresh(polls.pollidxs)
      ensures polls.polls == old(polls.polls) || fresh(polls.polls)
      ensures ValidFrom(i + 1)
    {
      var fd := fdchanges[i];
      assert fdchanges[i..][0] == fd && fdchanges[i..][1..] == fdchanges[i + 1..];
      ReifyKeeps(anfds, fdchanges[i..], running, polls.polled);
      var events := Collect(fd);
      hide StateOk, Inverse, QueuesOk, Union, PollEvents, ListsOk;
      var was := anfds[fd];
      anfds := anfds[fd := Anfd(was.head, events, 0)];
      Tell(fd, was, events);
    }

    /** Tell the backend. It need not be told of events that are the same. */
    method Tell(fd: nat, was: Anfd, events: bv8)
      requires polls.Valid()
      modifies polls, polls.pollidxs, polls.polls
      ensures polls.pollidxs == old(polls.pollidxs) || fresh(polls.pollidxs)
      ensures polls.polls == old(polls.polls) || fresh(polls.polls)
      ensures polls.Valid() && polls.polled == Modified(old(polls.polled), fd, was.events, events)
    {
      hide Inverse, PollEvents;
      if was.events != events || was.reify & EV_IOFDSET != 0 {
        polls.Modify(fd, was.events, events);
      }
    }

    /** fd_reify. */
    method Reify()
      requires Valid()
      modifies `anfds, `fdchanges, polls, polls.pollidxs, polls.polls
      ensures polls.pollidxs == old(polls.pollidxs) || fresh(polls.pollidxs)
      ensures polls.polls == old(polls.polls) || fresh(polls.polls)
      ensures Valid() && fdchanges == []
      ensures UpToDate(running, polls.polled)
    {
      assert fdchanges[0..] == fdchanges;
      var cnt := |fdchanges|;
      for i := 0 to cnt
        invariant ValidFrom(i) && fdchanges == old(fdchanges)
        invariant polls.pollidxs == old(polls.pollidxs) || fresh(polls.pollidxs)
        invariant polls.polls == old(polls.polls) || fresh(polls.polls)
      {
        ReifyOne(i);
      }
      assert fdchanges[cnt..] == [];
      fdchanges := [];
      NothingPending(anfds, running, polls.polled);
    }
  }
}
