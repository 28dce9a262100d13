/** The poll backend's set of descriptors: a dense array for poll(2), and an index into it (ev_poll.c:42-81). */
module PollSets {
  import opened ArraySize

  const EV_READ: bv8 := 0x01
  const EV_WRITE: bv8 := 0x02
  const POLLIN: bv16 := 0x0001
  const POLLOUT: bv16 := 0x0004

  const SIZEOF_INT: nat := 4
  const SIZEOF_POLLFD: nat := 8

  datatype PollFd = PollFd(fd: nat, events: bv16)

  function PollEvents(ev: bv8): bv16 {
    (if ev & EV_READ != 0 then POLLIN else 0) | (if ev & EV_WRITE != 0 then POLLOUT else 0)
  }

  type Polled = map<nat, bv16>      // what poll(2) is asked for

  /** The two arrays are inverse to each other, and hold what is polled. */
  ghost predicate Inverse(idxs: seq<int>, polls: seq<PollFd>, cnt: nat, polled: Polled) {
    && cnt <= |polls|
    && (forall fd :: 0 <= fd < |idxs| ==> idxs[fd] == -1 || (0 <= idxs[fd] < cnt && polls[idxs[fd]].fd == fd))
    && (forall i :: 0 <= i < cnt ==> polls[i].fd < |idxs| && idxs[polls[i].fd] == i)
    && (forall i :: 0 <= i < cnt ==> polls[i].fd in polled && polled[polls[i].fd] == polls[i].events)
    && (forall fd :: fd in polled ==> fd < |idxs| && idxs[fd] >= 0)
  }

  /** A new descriptor goes behind the others. */
  lemma AddLast(idxs: seq<int>, polls: seq<PollFd>, cnt: nat, polled: Polled, fd: nat, events: bv16)
    requires Inverse(idxs, polls, cnt, polled) && fd < |idxs| && idxs[fd] < 0 && cnt < |polls|
    ensures Inverse(idxs[fd := cnt], polls[cnt := PollFd(fd, events)], cnt + 1, polled[fd := events])
  {}

  lemma ChangeOne(idxs: seq<int>, polls: seq<PollFd>, cnt: nat, polled: Polled, fd: nat, events: bv16)
    requires Inverse(idxs, polls, cnt, polled) && fd < |idxs| && idxs[fd] >= 0
    ensures Inverse(idxs, polls[idxs[fd] := PollFd(fd, events)], cnt, polled[fd := events])
  {}

  function Removed(polls: seq<PollFd>, cnt: nat, i: nat): seq<PollFd>
    requires i < cnt <= |polls|
  {
    if i < cnt - 1 then polls[i := polls[cnt - 1]] else polls
  }

  function Unlisted(idxs: seq<int>, polls: seq<PollFd>, cnt: nat, fd: nat): seq<int>
    requires cnt <= |polls| && fd < |idxs| && 0 <= idxs[fd] < cnt && polls[cnt - 1].fd < |idxs|
  {
    var i := idxs[fd];
    if i < cnt - 1 then idxs[fd := -1][polls[cnt - 1].fd := i] else idxs[fd := -1]
  }

  /** The last descriptor takes the place of one that goes. */
  lemma RemoveOne(idxs: seq<int>, polls: seq<PollFd>, cnt: nat, polled: Polled, fd: nat)
    requires Inverse(idxs, polls, cnt, polled) && fd < |idxs| && idxs[fd] >= 0
    ensures Inverse(Unlisted(idxs, polls, cnt, fd), Removed(polls, cnt, idxs[fd]), cnt - 1, polled - {fd})
  {
    var i, last := idxs[fd], cnt - 1;
    var rest, index := Removed(polls, cnt, i), Unlisted(idxs, polls, cnt, fd);
    forall j | 0 <= j < last ensures rest[j].fd < |index| && index[rest[j].fd] == j && rest[j].fd != fd {
      var from := if j == i then last else j;
      assert rest[j] == polls[from] && idxs[polls[from].fd] == from;
    }
    forall f | 0 <= f < |index| ensures index[f] == -1 || (0 <= index[f] < last && rest[index[f]].fd == f) {
      assert idxs[f] == -1 || (0 <= idxs[f] < cnt && polls[idxs[f]].fd == f);
    }
  }

  /** Longer arrays make no difference, if the index is filled up with -1. */
  lemma LongerArrays(idxs: seq<int>, polls: seq<PollFd>, cnt: nat, polled: Polled, idxs': seq<int>, polls': seq<PollFd>)
    requires Inverse(idxs, polls, cnt, polled) && |idxs| <= |idxs'| && |polls| <= |polls'|
    requires forall fd :: 0 <= fd < |idxs'| ==> idxs'[fd] == if fd < |idxs| then idxs[fd] else -1
    requires forall i :: 0 <= i < |polls| ==> polls'[i] == polls[i]
    ensures Inverse(idxs', polls', cnt, polled)
  {}

  class PollSet {
    var pollidxs: array<int>
    var polls: array<PollFd>
    var pollcnt: nat
    ghost var polled: Polled

    ghost predicate Valid()
      reads this, pollidxs, polls
    {
      Inverse(pollidxs[..], polls[..], pollcnt, polled)
    }

    /** poll_init. */
    constructor ()
      ensures Valid() && polled == map[] && fresh(pollidxs) && fresh(polls)
    {
      pollidxs, polls := new int[0], new PollFd[0];
      pollcnt, polled := 0, map[];
    }

    method NeedIndex(need: nat)
      requires Valid()
      modifies `pollidxs
      ensures pollidxs == old(pollidxs) || fresh(pollidxs)
      ensures Valid() && pollidxs.Length >= need
    {
      if need > pollidxs.Length {
        var was := pollidxs;
        var max := NextSize(SIZEOF_INT, was.Length, need);
        var grown := new int[max](_ => -1);
        for i := 0 to was.Length
          invariant forall j :: 0 <= j < max ==> grown[j] == if j < i then was[j] else -1
        {
          grown[i] := was[i];
        }
        LongerArrays(was[..], polls[..], pollcnt, polled, grown[..], polls[..]);
        pollidxs := grown;
      }
    }

    method NeedPolls(need: nat)
      requires Valid()
      modifies `polls
      ensures polls == old(polls) || fresh(polls)
      ensures Valid() && polls.Length >= need
    {
      if need > polls.Length {
        var was := polls;
        var max := NextSize(SIZEOF_POLLFD, was.Length, need);
        var grown := new PollFd[max];
        for i := 0 to was.Length
          invariant forall j :: 0 <= j < i ==> grown[j] == was[j]
        {
          grown[i] := was[i];
        }
        LongerArrays(pollidxs[..], was[..], pollcnt, polled, pollidxs[..], grown[..]);
        polls := grown;
      }
    }

    /** poll_modify. */
    method Modify(fd: nat, oev: bv8, nev: bv8)
      requires Valid()
      modifies this, pollidxs, polls
      ensures pollidxs == old(pollidxs) || fresh(pollidxs)
      ensures polls == old(polls) || fresh(polls)
      ensures Valid()
      ensures polled == if oev == nev then old(polled) else if nev == 0 then old(polled) - {fd}
                        else old(polled)[fd := PollEvents(nev)]
    {
      hide Inverse;
      if oev == nev { return; }
      NeedIndex(fd + 1);
      var idx := pollidxs[fd];
      if idx < 0 {
        idx := Allocate(fd);
      }
      InPlace(fd);
      if nev != 0 {
        ChangeOne(pollidxs[..], polls[..], pollcnt, polled, fd, PollEvents(nev));
        polls[idx] := PollFd(fd, PollEvents(nev));
        polled := polled[fd := PollEvents(nev)];
      } else {
        Remove(fd, idx);
      }
    }

    /** What the source asserts. */
    lemma InPlace(fd: nat)
      requires Valid() && fd < pollidxs.Length && pollidxs[fd] >= 0
      ensures pollidxs[fd] < pollcnt <= polls.Length && polls[pollidxs[fd]].fd == fd
    {}

    /** A slot of polls for fd; what it asks for is not set yet. */
    method Allocate(fd: nat) returns (idx: nat)
      requires Valid() && fd < pollidxs.Length && pollidxs[fd] < 0
      modifies `polls, `pollcnt, `polled, pollidxs, polls
      ensures polls == old(polls) || fresh(polls)
      ensures Valid() && 0 <= pollidxs[fd] == idx < pollcnt
      ensures polled == old(polled)[fd := polls[idx].events]
    {
      idx := pollcnt;
      NeedPolls(pollcnt + 1);
      AddLast(pollidxs[..], polls[..], pollcnt, polled, fd, polls[idx].events);
      pollcnt := pollcnt + 1;
      pollidxs[fd] := idx;
      polls[idx] := PollFd(fd, polls[idx].events);
      polled := polled[fd := polls[idx].events];
    }

    method Remove(fd: nat, idx: nat)
      requires Valid() && fd < pollidxs.Length && pollidxs[fd] == idx
      modifies `pollcnt, `polled, pollidxs, polls
      ensures Valid() && polled == old(polled) - {fd}
    {
      InPlace(fd);
      ghost var idxs, slots, cnt := pollidxs[..], polls[..], pollcnt;
      RemoveOne(idxs, slots, cnt, polled, fd);
      assert slots[cnt - 1].fd < |idxs|;
      hide Inverse;
      pollidxs[fd] := -1;
      pollcnt := pollcnt - 1;
      if idx < pollcnt {
        polls[idx] := polls[pollcnt];
        pollidxs[polls[idx].fd] := idx;
      }
      assert pollidxs[..] == Unlisted(idxs, slots, cnt, fd) && polls[..] == Removed(slots, cnt, idx);
      polled := polled - {fd};
    }
  }
}
