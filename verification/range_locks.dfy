/** The byte-range locks of a node (fuse/fuse.c:2938-3055): fcntl-style locking per owner over one list. */
module RangeLocks {
  import opened Wrappers

  const OFFSET_MAX: int := 0x7fff_ffff_ffff_ffff
  const ENOLCK: int := -37

  datatype Kind = Read | Write | Unlock
  datatype Lock = Lock(kind: Kind, start: int, end: int, pid: int, owner: int)

  /** A lock as it is seen at a byte. */
  datatype Held = Held(kind: Kind, pid: int)

  ghost predicate Covers(l: Lock, owner: int, x: int) {
    l.owner == owner && l.start <= x <= l.end
  }

  /** What owner holds at byte x. */
  ghost function HeldAt(locks: seq<Lock>, owner: int, x: int): Option<Held> {
    if locks == [] then None
    else if Covers(locks[0], owner, x) then Some(Held(locks[0].kind, locks[0].pid))
    else HeldAt(locks[1..], owner, x)
  }

  ghost function KindAt(locks: seq<Lock>, owner: int, x: int): Option<Kind> {
    var h := HeldAt(locks, owner, x);
    if h == None then None else Some(h.value.kind)
  }

  ghost predicate InRange(l: Lock) {
    0 <= l.start <= l.end <= OFFSET_MAX
  }

  /** a lies wholly before b, and is not to be merged with it. */
  ghost predicate Before(a: Lock, b: Lock) {
    a.end < b.start && (a.kind == b.kind ==> a.end + 1 < b.start)
  }

  /** Each owner's locks are sorted, disjoint and maximally merged. */
  ghost predicate Valid(locks: seq<Lock>) {
    && (forall i :: 0 <= i < |locks| ==> InRange(locks[i]) && locks[i].kind != Unlock)
    && (forall i, j :: 0 <= i < j < |locks| && locks[i].owner == locks[j].owner ==> Before(locks[i], locks[j]))
  }

  /** What owner holds at x once req has been granted to a list that reads as locks. */
  ghost function Updated(locks: seq<Lock>, req: Lock, owner: int, x: int): Option<Kind> {
    if Covers(req, owner, x) then (if req.kind == Unlock then None else Some(req.kind))
    else KindAt(locks, owner, x)
  }

  ghost predicate IsPointUpdate(before: seq<Lock>, req: Lock, after: seq<Lock>) {
    forall owner, x :: KindAt(after, owner, x) == Updated(before, req, owner, x)
  }

  /** The same with the process ids, for a lock that is put in place as it is. */
  ghost function Replaced(locks: seq<Lock>, lock: Lock, owner: int, x: int): Option<Held> {
    if Covers(lock, owner, x) then (if lock.kind == Unlock then None else Some(Held(lock.kind, lock.pid)))
    else HeldAt(locks, owner, x)
  }

  ghost predicate IsReplacement(before: seq<Lock>, lock: Lock, after: seq<Lock>) {
    forall owner, x :: HeldAt(after, owner, x) == Replaced(before, lock, owner, x)
  }

  /** lock is req, or reaches further over bytes that the owner held in the same way. */
  ghost predicate Widens(locks: seq<Lock>, req: Lock, lock: Lock) {
    && lock.kind == req.kind && lock.owner == req.owner && lock.pid == req.pid
    && lock.start <= req.start && req.end <= lock.end && (lock.kind == Unlock ==> lock == req)
    && forall x :: Covers(lock, lock.owner, x) && !Covers(req, lock.owner, x) ==>
          KindAt(locks, lock.owner, x) == Some(req.kind)
  }

  lemma WidensItself(locks: seq<Lock>, req: Lock)
    ensures Widens(locks, req, req)
  {}

  /** Whatever a request takes over, it gives nobody more or less than it asked for. */
  lemma WideIsPointUpdate(before: seq<Lock>, req: Lock, lock: Lock, after: seq<Lock>)
    requires Widens(before, req, lock) && IsReplacement(before, lock, after)
    ensures IsPointUpdate(before, req, after)
  {
    forall o, x ensures KindAt(after, o, x) == Updated(before, req, o, x) {
      assert HeldAt(after, o, x) == Replaced(before, lock, o, x);
    }
  }

  // ----- reading the list

  lemma {:induction false} HeldNone(locks: seq<Lock>, owner: int, x: int)
    ensures HeldAt(locks, owner, x) == None <==> forall i :: 0 <= i < |locks| ==> !Covers(locks[i], owner, x)
  {
    if locks != [] {
      HeldNone(locks[1..], owner, x);
      assert forall i :: 1 <= i < |locks| ==> locks[i] == locks[1..][i - 1];
      assert forall i :: 0 <= i < |locks| - 1 ==> locks[1..][i] == locks[i + 1];
    }
  }

  lemma {:induction false} HeldSome(locks: seq<Lock>, owner: int, x: int, i: nat)
    requires Valid(locks) && i < |locks| && Covers(locks[i], owner, x)
    ensures HeldAt(locks, owner, x) == Some(Held(locks[i].kind, locks[i].pid))
  {
    if i > 0 {
      assert Before(locks[0], locks[i]) || locks[0].owner != locks[i].owner;
      HeldSome(locks[1..], owner, x, i - 1);
    }
  }

  lemma {:induction false} HeldAppend(a: seq<Lock>, b: seq<Lock>, owner: int, x: int)
    ensures HeldAt(a + b, owner, x) == if HeldAt(a, owner, x) == None then HeldAt(b, owner, x) else HeldAt(a, owner, x)
  {
    if a == [] {
      assert a + b == b;
    } else {
      assert (a + b)[1..] == a[1..] + b;
      HeldAppend(a[1..], b, owner, x);
    }
  }

  predicate Conflicts(l: Lock, req: Lock) {
    l.owner != req.owner && req.start <= l.end && l.start <= req.end && (l.kind == Write || req.kind == Write)
  }

  /** A list that locks_insert is working on: lock is still to be placed, at i or later. */
  ghost predicate Pending(locks: seq<Lock>, lock: Lock, i: nat) {
    && Valid(locks) && InRange(lock) && i <= |locks|
    && (forall j :: 0 <= j < i && locks[j].owner == lock.owner ==> Before(locks[j], lock))
  }

  /** Everything the owner has from i on lies behind lock. */
  ghost predicate Ahead(locks: seq<Lock>, lock: Lock, i: nat) {
    forall j :: i <= j < |locks| && locks[j].owner == lock.owner ==> Before(lock, locks[j])
  }

  // ----- one turn of locks_insert

  /** Two lists and two requests that come to the same thing. */
  ghost predicate SameOutcome(locks: seq<Lock>, lock: Lock, locks': seq<Lock>, lock': Lock) {
    forall o, x :: Replaced(locks', lock', o, x) == Replaced(locks, lock, o, x)
  }

  lemma Unchanged(a: seq<Lock>, r: Lock)
    ensures SameOutcome(a, r, a, r)
  {}

  lemma Chained(a: seq<Lock>, ra: Lock, b: seq<Lock>, rb: Lock)
    requires SameOutcome(a, ra, b, rb)
    ensures forall c, rc :: SameOutcome(b, rb, c, rc) ==> SameOutcome(a, ra, c, rc)
    ensures forall c :: IsReplacement(b, rb, c) ==> IsReplacement(a, ra, c)
  {}

  lemma HeldParts(a: seq<Lock>, m: seq<Lock>, b: seq<Lock>, o: int, x: int)
    ensures HeldAt(a + m + b, o, x) ==
            if HeldAt(a, o, x) != None then HeldAt(a, o, x)
            else if HeldAt(m, o, x) != None then HeldAt(m, o, x)
            else HeldAt(b, o, x)
  {
    HeldAppend(a + m, b, o, x);
    HeldAppend(a, m, o, x);
  }

  /** Replacing the i-th lock by m matters only outside the requested range. */
  lemma Replace(locks: seq<Lock>, i: nat, m: seq<Lock>, lock: Lock)
    requires i < |locks|
    requires forall o, x :: !Covers(lock, o, x) ==> HeldAt(m, o, x) == HeldAt([locks[i]], o, x)
    ensures SameOutcome(locks, lock, locks[..i] + m + locks[i + 1..], lock)
  {
    assert locks == locks[..i] + [locks[i]] + locks[i + 1..];
    forall o, x
      ensures Replaced(locks[..i] + m + locks[i + 1..], lock, o, x) == Replaced(locks, lock, o, x)
    {
      HeldParts(locks[..i], m, locks[i + 1..], o, x);
      HeldParts(locks[..i], [locks[i]], locks[i + 1..], o, x);
    }
  }

  lemma ReplaceOne(locks: seq<Lock>, i: nat, l: Lock, lock: Lock)
    requires i < |locks|
    requires forall o, x :: !Covers(lock, o, x) ==> HeldAt([l], o, x) == HeldAt([locks[i]], o, x)
    ensures SameOutcome(locks, lock, locks[i := l], lock)
  {
    Replace(locks, i, [l], lock);
    assert locks[..i] + [l] + locks[i + 1..] == locks[i := l];
  }

  lemma Drop(locks: seq<Lock>, i: nat, lock: Lock)
    requires Pending(locks, lock, i) && i < |locks|
    requires locks[i].owner == lock.owner && lock.start <= locks[i].start && locks[i].end <= lock.end
    ensures Pending(locks[..i] + locks[i + 1..], lock, i) && !Ahead(locks, lock, i)
    ensures Behind(locks[..i] + locks[i + 1..], lock, i)
    ensures SameOutcome(locks, lock, locks[..i] + locks[i + 1..], lock)
  {
    Replace(locks, i, [], lock);
    assert locks[..i] + [] + locks[i + 1..] == locks[..i] + locks[i + 1..];
  }

  /** A lock of another owner, or wholly before the request, is passed by. */
  lemma Skip(locks: seq<Lock>, i: nat, lock: Lock)
    requires Pending(locks, lock, i) && i < |locks| && (locks[i].owner != lock.owner || Before(locks[i], lock))
    ensures Pending(locks, lock, i + 1) && (Ahead(locks, lock, i) ==> Ahead(locks, lock, i + 1))
    ensures Behind(locks, lock, i) ==> Behind(locks, lock, i + 1)
  {}

  /** At a lock behind the request, and at the end of the list, the place of the request is found. */
  lemma Found(locks: seq<Lock>, i: nat, lock: Lock)
    requires Pending(locks, lock, i)
    requires i < |locks| ==> locks[i].owner == lock.owner && Before(lock, locks[i])
    ensures Ahead(locks, lock, i)
  {}

  /** A lock of another kind that reaches into the request from before loses its end. */
  lemma TrimEnd(locks: seq<Lock>, i: nat, lock: Lock)
    requires Pending(locks, lock, i) && i < |locks| && locks[i].owner == lock.owner && locks[i].kind != lock.kind
    requires locks[i].start < lock.start <= locks[i].end <= lock.end
    ensures var locks' := locks[i := locks[i].(end := lock.start - 1)];
            Pending(locks', lock, i + 1) && SameOutcome(locks, lock, locks', lock) && Behind(locks', lock, i + 1)
    ensures !Ahead(locks, lock, i)
  {
    ReplaceOne(locks, i, locks[i].(end := lock.start - 1), lock);
  }

  /** A lock of another kind that reaches beyond the request loses its beginning. */
  lemma TrimStart(locks: seq<Lock>, i: nat, lock: Lock)
    requires Pending(locks, lock, i) && i < |locks| && locks[i].owner == lock.owner && locks[i].kind != lock.kind
    requires lock.start <= locks[i].start <= lock.end < locks[i].end
    ensures var locks' := locks[i := locks[i].(start := lock.end + 1)];
            Pending(locks', lock, i) && Ahead(locks', lock, i) && SameOutcome(locks, lock, locks', lock)
  {
    ReplaceOne(locks, i, locks[i].(start := lock.end + 1), lock);
  }

  lemma Bounds(locks: seq<Lock>, i: nat, lock: Lock)
    requires Pending(locks, lock, i)
    ensures Valid(locks) && i <= |locks| && InRange(lock) && (i < |locks| ==> InRange(locks[i]))
  {}

  lemma AtStart(locks: seq<Lock>, lock: Lock)
    requires Valid(locks) && InRange(lock)
    ensures Pending(locks, lock, 0)
  {}

  /** A lock of another kind around the request is cut in two. */
  lemma Split(locks: seq<Lock>, i: nat, lock: Lock)
    requires Pending(locks, lock, i) && i < |locks| && locks[i].owner == lock.owner && locks[i].kind != lock.kind
    requires locks[i].start < lock.start && lock.end < locks[i].end
    ensures var l := locks[i];
            var locks' := locks[..i] + [l.(end := lock.start - 1), l.(start := lock.end + 1)] + locks[i + 1..];
            Pending(locks', lock, i + 1) && Ahead(locks', lock, i + 1) && SameOutcome(locks, lock, locks', lock)
            && Behind(locks', lock, i + 1)
    ensures !Ahead(locks, lock, i)
  {
    var l := locks[i];
    var m := [l.(end := lock.start - 1), l.(start := lock.end + 1)];
    forall o, x | !Covers(lock, o, x) ensures HeldAt(m, o, x) == HeldAt([l], o, x) {
      assert m == [m[0]] + [m[1]];
      HeldAppend([m[0]], [m[1]], o, x);
    }
    Replace(locks, i, m, lock);
  }

  /** lock, which touches the i-th lock of its own kind, takes that lock's range over. */
  lemma Merge(locks: seq<Lock>, i: nat, lock: Lock, lock': Lock)
    requires Pending(locks, lock, i) && i < |locks| && locks[i].owner == lock.owner && locks[i].kind == lock.kind
    requires locks[i].end >= lock.start - 1 && lock.end >= locks[i].start - 1 && lock.start <= lock.end
    requires lock' == lock.(start := if locks[i].start < lock.start then locks[i].start else lock.start,
                            end := if lock.end < locks[i].end then locks[i].end else lock.end)
    ensures Pending(locks[..i] + locks[i + 1..], lock', i) && !Ahead(locks, lock, i)
    ensures SameOutcome(locks, lock', locks[..i] + locks[i + 1..], lock')
    ensures forall x :: Covers(lock', lock.owner, x) && !Covers(lock, lock.owner, x) ==>
              KindAt(locks, lock.owner, x) == Some(lock.kind)
    ensures Behind(locks[..i] + locks[i + 1..], lock', i)
  {
    Replace(locks, i, [], lock');
    assert locks[..i] + [] + locks[i + 1..] == locks[..i] + locks[i + 1..];
    forall x | Covers(lock', lock.owner, x) && !Covers(lock, lock.owner, x)
      ensures KindAt(locks, lock.owner, x) == Some(lock.kind)
    {
      HeldSome(locks, lock.owner, x, i);
    }
  }

  /** None of the owner's locks of the requested kind from i on reaches back over lock. */
  ghost predicate Behind(locks: seq<Lock>, lock: Lock, i: nat) {
    forall j :: i <= j < |locks| && locks[j].owner == lock.owner && locks[j].kind == lock.kind ==>
        lock.start < locks[j].start
  }

  /** What held for a lock holds for a wider one. */
  lemma Widen(before: seq<Lock>, req: Lock, lock: Lock, locks: seq<Lock>, lock': Lock)
    requires Widens(before, req, lock) && SameOutcome(before, lock, locks, lock) && lock.kind != Unlock
    requires lock' == lock.(start := lock'.start, end := lock'.end) && lock'.start <= lock.start &&
             lock.end <= lock'.end
    requires forall x :: Covers(lock', lock.owner, x) && !Covers(lock, lock.owner, x) ==>
               KindAt(locks, lock.owner, x) == Some(lock.kind)
    ensures Widens(before, req, lock') && SameOutcome(before, lock', locks, lock')
  {
    hide HeldAt;
    forall o, x ensures Replaced(locks, lock', o, x) == Replaced(before, lock', o, x) {
      assert Replaced(locks, lock, o, x) == Replaced(before, lock, o, x);
    }
    forall x | Covers(lock', lock.owner, x) && !Covers(req, lock.owner, x)
      ensures KindAt(before, lock.owner, x) == Some(req.kind) {
      if !Covers(lock, lock.owner, x) {
        assert Replaced(locks, lock, lock.owner, x) == Replaced(before, lock, lock.owner, x);
      }
    }
  }

  /** What the owner has lies before or behind lock, so it has nothing in lock's range. */
  lemma NothingThere(locks: seq<Lock>, i: nat, lock: Lock, o: int, x: int)
    requires Pending(locks, lock, i) && Ahead(locks, lock, i) && Covers(lock, o, x)
    ensures HeldAt(locks, o, x) == None && HeldAt(locks[..i], o, x) == None
  {
    hide HeldAt;
    HeldNone(locks, o, x);
    HeldNone(locks[..i], o, x);
  }

  /** The end of the list, or a lock behind the request: everything of the owner's is out of the way. */
  lemma Place(locks: seq<Lock>, i: nat, lock: Lock)
    requires Pending(locks, lock, i) && Ahead(locks, lock, i) && lock.kind != Unlock
    ensures Valid(locks[..i] + [lock] + locks[i..])
    ensures IsReplacement(locks, lock, locks[..i] + [lock] + locks[i..])
  {
    hide HeldAt;
    PlacePoints(locks, i, lock);
    hide IsReplacement;
  }

  lemma PlacePoints(locks: seq<Lock>, i: nat, lock: Lock)
    requires Pending(locks, lock, i) && Ahead(locks, lock, i) && lock.kind != Unlock
    ensures IsReplacement(locks, lock, locks[..i] + [lock] + locks[i..])
  {
    var a, b := locks[..i], locks[i..];
    hide Pending, Ahead;
    assert locks == a + [] + b;
    forall o, x ensures HeldAt(a + [lock] + b, o, x) == Replaced(locks, lock, o, x) {
      HeldParts(a, [lock], b, o, x);
      HeldParts(a, [], b, o, x);
      if Covers(lock, o, x) { NothingThere(locks, i, lock, o, x); }
    }
  }

  /** The same for a range that is given up: nothing of it is left. */
  lemma NothingLeft(locks: seq<Lock>, i: nat, lock: Lock)
    requires Pending(locks, lock, i) && Ahead(locks, lock, i) && lock.kind == Unlock
    ensures IsReplacement(locks, lock, locks)
  {
    hide HeldAt, Pending, Ahead;
    forall o, x ensures HeldAt(locks, o, x) == Replaced(locks, lock, o, x) {
      if Covers(lock, o, x) { NothingThere(locks, i, lock, o, x); }
    }
  }

  /** The early exit: a lock of the same kind already covers the request. */
  lemma AlreadyHeld(locks: seq<Lock>, i: nat, lock: Lock)
    requires Valid(locks) && i < |locks| && locks[i].owner == lock.owner && locks[i].kind == lock.kind
    requires locks[i].start <= lock.start && lock.end <= locks[i].end
    ensures IsPointUpdate(locks, lock, locks) && !Behind(locks, lock, i)
  {
    forall o, x ensures KindAt(locks, o, x) == Updated(locks, lock, o, x) {
      if Covers(lock, o, x) { HeldSome(locks, o, x, i); }
    }
  }

  // ----- locks_conflict and exclusion

  /** While one owner has a byte locked for writing, nobody else has it locked at all. */
  ghost predicate Exclusive(locks: seq<Lock>) {
    forall o, p, x :: o != p && KindAt(locks, o, x) == Some(Write) ==> KindAt(locks, p, x) == None
  }

  /** No lock of the list conflicts with req: byte by byte, req is compatible with what the others hold. */
  ghost predicate Compatible(locks: seq<Lock>, req: Lock) {
    forall o, x :: o != req.owner && req.start <= x <= req.end && KindAt(locks, o, x) != None ==>
      KindAt(locks, o, x) == Some(Read) && req.kind != Write
  }

  /** locks_conflict decides compatibility. */
  lemma ConflictDecides(locks: seq<Lock>, req: Lock)
    requires Valid(locks) && InRange(req)
    ensures Compatible(locks, req) <==> forall i :: 0 <= i < |locks| ==> !Conflicts(locks[i], req)
  {
    forall i | 0 <= i < |locks| && Conflicts(locks[i], req) ensures !Compatible(locks, req) {
      var l := locks[i];
      var x := if l.start < req.start then req.start else l.start;
      HeldSome(locks, l.owner, x, i);
      assert KindAt(locks, l.owner, x) == Some(l.kind);
    }
    if forall i :: 0 <= i < |locks| ==> !Conflicts(locks[i], req) {
      forall o, x | o != req.owner && req.start <= x <= req.end && KindAt(locks, o, x) != None
        ensures KindAt(locks, o, x) == Some(Read) && req.kind != Write
      {
        HeldNone(locks, o, x);
        var i :| 0 <= i < |locks| && Covers(locks[i], o, x);
        HeldSome(locks, o, x, i);
      }
    }
  }

  /** Granting a lock keeps exclusion if and only if locks_conflict finds nothing against it. */
  lemma GrantKeepsExclusion(before: seq<Lock>, req: Lock, after: seq<Lock>)
    requires Valid(before) && InRange(req) && req.kind != Unlock && Exclusive(before) &&
             IsPointUpdate(before, req, after)
    ensures Exclusive(after) <==> forall i :: 0 <= i < |before| ==> !Conflicts(before[i], req)
  {
    ConflictDecides(before, req);
    if Compatible(before, req) {
      forall o, p, x | o != p && KindAt(after, o, x) == Some(Write) ensures KindAt(after, p, x) == None {
        assert KindAt(after, o, x) == Updated(before, req, o, x);
        assert KindAt(after, p, x) == Updated(before, req, p, x);
      }
    } else {
      var o, x :| o != req.owner && req.start <= x <= req.end && KindAt(before, o, x) != None &&
                  !(KindAt(before, o, x) == Some(Read) && req.kind != Write);
      assert KindAt(after, o, x) == Updated(before, req, o, x);
      assert KindAt(after, req.owner, x) == Updated(before, req, req.owner, x) == Some(req.kind);
      HeldNone(before, o, x);
      var i :| 0 <= i < |before| && Covers(before[i], o, x);
      HeldSome(before, o, x, i);
    }
  }

  /** Giving a range up never breaks exclusion. */
  lemma UnlockKeepsExclusion(before: seq<Lock>, req: Lock, after: seq<Lock>)
    requires req.kind == Unlock && Exclusive(before) && IsPointUpdate(before, req, after)
    ensures Exclusive(after)
  {}

  // ----- struct flock and back

  datatype Flock = Flock(kind: Kind, start: int, len: int, pid: int)

  /** flock_to_lock; the caller fills in the owner. */
  function FromFlock(f: Flock): Lock {
    Lock(f.kind, f.start, if f.len != 0 then f.start + f.len - 1 else OFFSET_MAX, f.pid, 0)
  }

  /** lock_to_flock. */
  function ToFlock(l: Lock): Flock {
    Flock(l.kind, l.start, if l.end == OFFSET_MAX then 0 else l.end - l.start + 1, l.pid)
  }

  /** The byte is in the range of a struct flock, whose length 0 means to the end. */
  predicate InFlock(f: Flock, x: int) {
    f.start <= x <= OFFSET_MAX && (f.len == 0 || x < f.start + f.len)
  }

  /** The conversions keep the kind and the process id, and the bytes. */
  lemma FlockMeans(l: Lock, f: Flock, x: int)
    ensures InRange(l) ==> (InFlock(ToFlock(l), x) <==> Covers(l, l.owner, x))
    ensures f.start >= 0 && f.len >= 0 && f.start + f.len - 1 <= OFFSET_MAX ==>
              (InFlock(f, x) <==> Covers(FromFlock(f), FromFlock(f).owner, x))
    ensures ToFlock(l).kind == l.kind && ToFlock(l).pid == l.pid
    ensures FromFlock(f).kind == f.kind && FromFlock(f).pid == f.pid && FromFlock(f).owner == 0
  {}

  lemma FlockRoundTrip(l: Lock, f: Flock)
    requires InRange(l)
    ensures FromFlock(ToFlock(l)) == l.(owner := 0)
    ensures f.start >= 0 && f.len >= 0 && f.start + f.len - 1 <= OFFSET_MAX ==>
              (ToFlock(FromFlock(f)) == f <==> f.len == 0 || f.start + f.len - 1 != OFFSET_MAX)
  {}

  // ----- the list of a node

  class Inode {
    var locks: seq<Lock>

    constructor ()
      ensures locks == []
    {
      locks := [];
    }

    /** locks_conflict: the first lock of another owner that req may not overlap, as an index; -1 if none. */
    method Conflict(req: Lock) returns (k: int)
      ensures -1 <= k < |locks|
      ensures k >= 0 ==> Conflicts(locks[k], req) && forall i :: 0 <= i < k ==> !Conflicts(locks[i], req)
      ensures k < 0 ==> forall i :: 0 <= i < |locks| ==> !Conflicts(locks[i], req)
    {
      k := 0;
      while k < |locks|
        invariant 0 <= k <= |locks|
        invariant forall i :: 0 <= i < k ==> !Conflicts(locks[i], req)
      {
        var l := locks[k];
        if l.owner != req.owner && req.start <= l.end && l.start <= req.end && (l.kind == Write || req.kind == Write) {
          return;
        }
        k := k + 1;
      }
      k := -1;
    }

    /** locks_insert. The two spare list cells may fail to be allocated. */
    method Insert(req: Lock) returns (err: int)
      requires Valid(locks) && InRange(req)
      modifies this
      ensures err == 0 || err == ENOLCK
      ensures err == ENOLCK ==> locks == old(locks) && !(req.kind == Unlock && req.start == 0 && req.end == OFFSET_MAX)
      ensures err == 0 ==> Valid(locks) && IsPointUpdate(old(locks), req, locks)
      ensures err == 0 && locks != old(locks) ==>
                exists lock :: Widens(old(locks), req, lock) && IsReplacement(old(locks), lock, locks)
    {
      hide SameOutcome, IsPointUpdate, IsReplacement, Pending, Ahead, Behind, Widens, Valid;
      var lock := req;
      var spare1, spare2 := false, false;
      if lock.kind != Unlock || lock.start != 0 || lock.end != OFFSET_MAX {
        if * { return ENOLCK; }
        spare1, spare2 := true, true;
      }
      err := 0;
      var i := 0;
      Unchanged(locks, req);
      WidensItself(locks, req);
      AtStart(locks, req);
      ghost var touched := false;
      while i < |locks|
        invariant 0 <= i <= |locks| && Pending(locks, lock, i)
        invariant Widens(old(locks), req, lock) && SameOutcome(old(locks), lock, locks, lock)
        invariant lock.kind == req.kind && (lock.kind == Unlock ==> lock == req)
        invariant if touched then Behind(locks, lock, i) else locks == old(locks) && lock == req
        invariant spare1 <==> (req.kind != Unlock || req.start != 0 || req.end != OFFSET_MAX)
        invariant !spare2 && spare1 ==> Ahead(locks, lock, i)
        decreases |locks| - i + if spare2 then 1 else 0
      {
        var l := locks[i];
        Chained(old(locks), lock, locks, lock);
        Bounds(locks, i, lock);
        if l.owner != lock.owner {
          Skip(locks, i, lock);
          i := i + 1;
        } else if lock.kind == l.kind {
          if l.end < lock.start - 1 {
            Skip(locks, i, lock);
            i := i + 1;
          } else if lock.end < l.start - 1 {
            break;
          } else if l.start <= lock.start && lock.end <= l.end {
            AlreadyHeld(locks, i, lock);
            return;
          } else {
            ghost var narrow := lock;
            if l.start < lock.start { lock := lock.(start := l.start); }
            if lock.end < l.end { lock := lock.(end := l.end); }
            Merge(locks, i, narrow, lock);
            Widen(old(locks), req, narrow, locks, lock);
            Chained(old(locks), lock, locks, lock);
            locks := locks[..i] + locks[i + 1..];
            touched := true;
          }
        } else if l.end < lock.start {
          Skip(locks, i, lock);
          i := i + 1;
        } else if lock.end < l.start {
          break;
        } else if lock.start <= l.start && l.end <= lock.end {
          Drop(locks, i, lock);
          locks := locks[..i] + locks[i + 1..];
          touched := true;
        } else if l.end <= lock.end {
          TrimEnd(locks, i, lock);
          locks := locks[i := l.(end := lock.start - 1)];
          i := i + 1;
          touched := true;
        } else if lock.start <= l.start {
          TrimStart(locks, i, lock);
          locks := locks[i := l.(start := lock.end + 1)];
          break;
        } else {
          Split(locks, i, lock);
          assert spare2;
          spare2 := false;
          locks := locks[..i] + [l.(end := lock.start - 1), l.(start := lock.end + 1)] + locks[i + 1..];
          i := i + 1;
          touched := true;
        }
      }
      Found(locks, i, lock);
      Bounds(locks, i, lock);
      Chained(old(locks), lock, locks, lock);
      if lock.kind == Unlock {
        NothingLeft(locks, i, lock);
      } else {
        Place(locks, i, lock);
        assert spare1;
        spare1 := false;
        locks := locks[..i] + [lock] + locks[i..];
      }
      WideIsPointUpdate(old(locks), req, lock, locks);
    }
  }
}
