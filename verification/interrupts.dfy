/** How INTERRUPT requests find the requests they are for (fuse/fuse_lowlevel.c:114-156, 994-1073, 1289-1300,
    1409-1417), as a state machine: a step is what one thread does while it holds a lock. */
module Interrupts {
  import opened Wrappers

  /** A thread in find_interrupted, with its count on the request: it waits for the request's lock; has it; has marked
      the request and read its callback; has called that; has let go of the lock. */
  datatype Phase = Waiting | Locked | Calling(cb: Option<nat>) | Called | Leaving

  /** Where a thread in fuse_req_interrupt_func is: it waits for the request's lock; has it; has stored the callback;
      has called it if it must. It has no count on the request. */
  datatype Stage = Asking | Entered | Stored | Done

  datatype Registrar = Registrar(req: nat, cb: Option<nat>, at: Stage)

  /** What became of an INTERRUPT. */
  datatype Fate = Waits | MarkedInFlight(req: nat) | MarkedArrival(req: nat) | Duplicate(of: nat) | Refused

  type Ids = map<nat, nat>

  /** Requests are named by numbers that are never used again, callbacks by one for each registration. */
  datatype State = State(
    unique: Ids,                       // the kernel's id of each request that has arrived
    target: Ids,                       // the id that each INTERRUPT that has arrived is for
    list: seq<nat>,                    // f->list: the requests in flight
    queue: seq<nat>,                   // f->interrupts
    ctr: map<nat, nat>,                // of the requests that have not been destroyed
    interrupted: set<nat>,
    func: map<nat, nat>,               // u.ni.func, where it is not NULL
    finds: map<nat, nat>,              // by their INTERRUPT, the requests that threads have found
    phase: map<nat, Phase>,            // and where the threads are
    registrars: map<nat, Registrar>,   // the threads that register callbacks
    refusing: set<nat>,                // taken off the queue, to be answered EAGAIN
    fates: map<nat, Fate>,
    destroyed: seq<nat>,
    registered: map<nat, nat>,         // the request each callback was registered for
    called: set<nat>,
    answered: set<nat>)                // the INTERRUPTs that were answered EAGAIN

  datatype Event =
    | Arrive(req: nat, id: nat)        // check_interrupt and the insertion in fuse_ll_process
    | Interrupt(intr: nat, id: nat)    // do_interrupt, up to where find_interrupted lets go of f->lock
    | TakeLock(intr: nat)
    | Mark(intr: nat)
    | Call(intr: nat)
    | Release(intr: nat)               // unlocks the request
    | Leave(intr: nat)                 // the last lines of find_interrupted and of do_interrupt
    | Refuse(intr: nat)                // fuse_reply_err(intr, EAGAIN)
    | Ask(thread: nat, req: nat, cb: Option<nat>)  // fuse_req_interrupt_func is called
    | Enter(thread: nat)               // takes the request's lock
    | Store(thread: nat)
    | Check(thread: nat)               // reads interrupted, and calls the callback
    | Unlock(thread: nat)
    | Reply(req: nat)                  // free_req, also from within a callback

  // ----- the steps

  /** The first element with the given id. */
  function Find(s: seq<nat>, ids: Ids, id: nat): (k: nat)
    ensures k <= |s| && (k < |s| ==> s[k] in ids && ids[s[k]] == id)
    ensures forall i :: 0 <= i < k ==> !(s[i] in ids && ids[s[i]] == id)
  {
    if s == [] || (s[0] in ids && ids[s[0]] == id) then 0 else 1 + Find(s[1..], ids, id)
  }

  function IndexIn(s: seq<nat>, x: nat): (k: nat)
    ensures k <= |s| && x !in s[..k] && (k < |s| ==> s[k] == x)
  {
    if s == [] || s[0] == x then 0 else 1 + IndexIn(s[1..], x)
  }

  /** list_del_req. */
  function Cut(s: seq<nat>, k: nat): seq<nat>
    requires k < |s|
  {
    s[..k] + s[k + 1..]
  }

  predicate HasLock(p: Phase) {
    p == Locked || p.Calling? || p == Called
  }

  predicate Owns(g: Registrar, r: nat) {
    g.req == r && g.at != Asking
  }

  predicate BothOwn(g: Registrar, h: Registrar) {
    Owns(g, h.req) && Owns(h, g.req)
  }

  ghost predicate LockHeld(s: State, r: nat) {
    || (exists k :: k in s.registrars && Owns(s.registrars[k], r))
    || (exists i :: i in s.finds && i in s.phase && s.finds[i] == r && HasLock(s.phase[i]))
  }

  function Destroy(s: State, x: nat): State {
    s.(ctr := s.ctr - {x}, destroyed := s.destroyed + [x])
  }

  /** ctr++. */
  function More(ctr: map<nat, nat>, x: nat): map<nat, nat> {
    ctr[x := if x in ctr then ctr[x] + 1 else 1]
  }

  function Less(ctr: map<nat, nat>, x: nat): map<nat, nat> {
    if x !in ctr || ctr[x] <= 1 then ctr - {x} else ctr[x := ctr[x] - 1]
  }

  /** ctr--, and destroy_req when nothing is left. */
  function Drop(s: State, x: nat): State {
    s.(ctr := Less(s.ctr, x), destroyed := if x in Less(s.ctr, x) then s.destroyed else s.destroyed + [x])
  }

  predicate Fresh(s: State, x: nat) {
    x !in s.unique && x !in s.target
  }

  function ArrivalOf(s: State, r: nat, id: nat): State {
    s.(unique := s.unique[r := id], list := s.list + [r], ctr := s.ctr[r := 1])
  }

  /** The k-th INTERRUPT of the queue marks the arrival, and is destroyed. */
  function MarkedOf(s: State, k: nat, r: nat): State
    requires k < |s.queue|
  {
    Destroy(s, s.queue[k]).(interrupted := s.interrupted + {r}, queue := Cut(s.queue, k),
                              fates := s.fates[s.queue[k] := MarkedArrival(r)])
  }

  /** The first INTERRUPT of the queue is taken off to be refused. */
  function RefusedOf(s: State): State
    requires s.queue != []
  {
    s.(queue := Cut(s.queue, 0), refusing := s.refusing + {s.queue[0]}, fates := s.fates[s.queue[0] := Refused])
  }

  /** check_interrupt, then the request is the last of the list. */
  function ArriveStep(s: State, r: nat, id: nat): State {
    var k := Find(s.queue, s.target, id);
    var t := ArrivalOf(s, r, id);
    if k < |s.queue| then MarkedOf(t, k, r) else if s.queue != [] then RefusedOf(t) else t
  }

  function FoundOf(s: State, i: nat, id: nat, r: nat): State {
    s.(target := s.target[i := id], ctr := More(s.ctr[i := 1], r), finds := s.finds[i := r],
       phase := s.phase[i := Waiting])
  }

  function DuplicateOf(s: State, i: nat, id: nat, j: nat): State {
    s.(target := s.target[i := id], destroyed := s.destroyed + [i], fates := s.fates[i := Duplicate(j)])
  }

  function QueuedOf(s: State, i: nat, id: nat): State {
    s.(target := s.target[i := id], ctr := s.ctr[i := 1], queue := s.queue + [i], fates := s.fates[i := Waits])
  }

  function InterruptStep(s: State, i: nat, id: nat): State {
    var j, k := Find(s.list, s.unique, id), Find(s.queue, s.target, id);
    if j < |s.list| then FoundOf(s, i, id, s.list[j])
    else if k < |s.queue| then DuplicateOf(s, i, id, s.queue[k])
    else QueuedOf(s, i, id)
  }

  function FuncOf(func: map<nat, nat>, r: nat): Option<nat> {
    if r in func then Some(func[r]) else None
  }

  function WithCall(called: set<nat>, cb: Option<nat>): set<nat> {
    if cb == None then called else called + {cb.value}
  }

  predicate At(s: State, i: nat, p: Phase) {
    i in s.finds && i in s.phase && s.phase[i] == p
  }

  function TakeLockOf(s: State, i: nat): State { s.(phase := s.phase[i := Locked]) }

  function MarkOf(s: State, i: nat): State
    requires i in s.finds
  {
    var r := s.finds[i];
    s.(interrupted := s.interrupted + {r}, phase := s.phase[i := Calling(FuncOf(s.func, r))],
       fates := s.fates[i := MarkedInFlight(r)])
  }

  function CallOf(s: State, i: nat): State
    requires i in s.phase && s.phase[i].Calling?
  {
    s.(called := WithCall(s.called, s.phase[i].cb), phase := s.phase[i := Called])
  }

  function ReleaseOf(s: State, i: nat): State { s.(phase := s.phase[i := Leaving]) }

  function LeaveOf(s: State, i: nat): State
    requires i in s.finds
  {
    Destroy(Drop(s, s.finds[i]), i).(finds := s.finds - {i}, phase := s.phase - {i})
  }

  function RefuseOf(s: State, i: nat): State {
    Drop(s, i).(refusing := s.refusing - {i}, answered := s.answered + {i})
  }

  function ReplyOf(s: State, r: nat): State
    requires r in s.list
  {
    Drop(s, r).(func := s.func - {r}, list := Cut(s.list, IndexIn(s.list, r)))
  }

  function AskOf(s: State, k: nat, r: nat, cb: Option<nat>): State {
    s.(registrars := s.registrars[k := Registrar(r, cb, Asking)],
       registered := if cb == None then s.registered else s.registered[cb.value := r])
  }

  function EnterOf(s: State, k: nat): State
    requires k in s.registrars
  {
    s.(registrars := s.registrars[k := s.registrars[k].(at := Entered)])
  }

  function StoreOf(s: State, k: nat): State
    requires k in s.registrars
  {
    var g := s.registrars[k];
    s.(func := if g.cb == None then s.func - {g.req} else s.func[g.req := g.cb.value],
       registrars := s.registrars[k := g.(at := Stored)])
  }

  function CheckOf(s: State, k: nat): State
    requires k in s.registrars
  {
    var g := s.registrars[k];
    s.(called := if g.req in s.interrupted then WithCall(s.called, g.cb) else s.called,
       registrars := s.registrars[k := g.(at := Done)])
  }

  function UnlockOf(s: State, k: nat): State { s.(registrars := s.registrars - {k}) }

  predicate Stands(s: State, k: nat, at: Stage) {
    k in s.registrars && s.registrars[k].at == at
  }

  /** One step of one thread; None if it is not that thread's turn. */
  ghost function Step(s: State, e: Event): Option<State> {
    match e
    case Arrive(r, id) =>
      if Fresh(s, r) then Some(ArriveStep(s, r, id)) else None
    case Interrupt(i, id) =>
      if Fresh(s, i) then Some(InterruptStep(s, i, id)) else None
    case TakeLock(i) =>
      if At(s, i, Waiting) && !LockHeld(s, s.finds[i]) then Some(TakeLockOf(s, i)) else None
    case Mark(i) =>
      if At(s, i, Locked) then Some(MarkOf(s, i)) else None
    case Call(i) =>
      if i in s.phase && s.phase[i].Calling? then Some(CallOf(s, i)) else None
    case Release(i) =>
      if At(s, i, Called) then Some(ReleaseOf(s, i)) else None
    case Leave(i) =>
      if At(s, i, Leaving) then Some(LeaveOf(s, i)) else None
    case Refuse(i) =>
      if i in s.refusing then Some(RefuseOf(s, i)) else None
    case Ask(k, r, cb) =>
      if k !in s.registrars && r in s.list && (cb == None || cb.value !in s.registered)
      then Some(AskOf(s, k, r, cb)) else None
    case Enter(k) =>
      if Stands(s, k, Asking) && !LockHeld(s, s.registrars[k].req) then Some(EnterOf(s, k)) else None
    case Store(k) =>
      if Stands(s, k, Entered) then Some(StoreOf(s, k)) else None
    case Check(k) =>
      if Stands(s, k, Stored) then Some(CheckOf(s, k)) else None
    case Unlock(k) =>
      if Stands(s, k, Done) then Some(UnlockOf(s, k)) else None
    case Reply(r) =>
      if r in s.list then Some(ReplyOf(s, r)) else None
  }

  // ----- the invariant

  ghost predicate IdsOk(unique: Ids, target: Ids, list: seq<nat>, queue: seq<nat>, refusing: set<nat>,
                        finds: map<nat, nat>) {
    && unique.Keys !! target.Keys
    && NoDup(list) && NoDup(queue)
    && (forall r :: r in list ==> r in unique)
    && (forall i :: i in queue ==> i in target && i !in refusing && i !in finds)
    && (forall i :: i in refusing ==> i in target && i !in finds)
    && (forall i :: i in finds ==> i in target && finds[i] in unique && unique[finds[i]] == target[i])
  }

  ghost function Finding(finds: map<nat, nat>, r: nat): set<nat> {
    set i | i in finds && finds[i] == r
  }

  /** A request is counted once while it is in flight, and once by each thread that has found it. */
  ghost predicate CountOk(list: seq<nat>, finds: map<nat, nat>, ctr: map<nat, nat>, r: nat) {
    if r in list || Finding(finds, r) != {} then r in ctr && ctr[r] == |Finding(finds, r)| + if r in list then 1 else 0
    else r !in ctr
  }

  ghost predicate IntrCountOk(queue: seq<nat>, refusing: set<nat>, finds: map<nat, nat>, ctr: map<nat, nat>, i: nat) {
    if i in queue || i in refusing || i in finds then i in ctr && ctr[i] == 1 else i !in ctr
  }

  ghost predicate CountsOk(unique: Ids, target: Ids, list: seq<nat>, queue: seq<nat>, refusing: set<nat>,
                           finds: map<nat, nat>, ctr: map<nat, nat>)
  {
    && (forall r {:trigger r in unique} :: r in unique ==> CountOk(list, finds, ctr, r))
    && (forall i {:trigger i in target} :: i in target ==> IntrCountOk(queue, refusing, finds, ctr, i))
    && (forall x :: x in ctr ==> x in unique || x in target)
  }

  /** Every request that has arrived is alive, or has been destroyed once. */
  ghost predicate DestroyedOk(unique: Ids, target: Ids, ctr: map<nat, nat>, destroyed: seq<nat>) {
    && NoDup(destroyed)
    && (forall x :: x in destroyed ==> x !in ctr && (x in unique || x in target))
    && (forall x :: x in unique ==> x in ctr || x in destroyed)
    && (forall x :: x in target ==> x in ctr || x in destroyed)
  }

  /** Interrupt i has marked r, which is the request it was for. */
  ghost predicate HasMarked(unique: Ids, target: Ids, fates: map<nat, Fate>, i: nat, r: nat) {
    && i in fates && (fates[i] == MarkedInFlight(r) || fates[i] == MarkedArrival(r))
    && i in target && r in unique && unique[r] == target[i]
  }

  ghost predicate FateOk(unique: Ids, target: Ids, queue: seq<nat>, finds: map<nat, nat>, phase: map<nat, Phase>,
                         fates: map<nat, Fate>, interrupted: set<nat>, i: nat)
    requires i in target
  {
    if i in phase && (phase[i] == Waiting || phase[i] == Locked) then i !in fates
    else
      i in fates && match fates[i]
        case Waits => i in queue
        case MarkedInFlight(r) => HasMarked(unique, target, fates, i, r) && r in interrupted &&
            (i in finds ==> finds[i] == r)
        case MarkedArrival(r) => HasMarked(unique, target, fates, i, r) && r in interrupted && i !in finds
        case Duplicate(j) => j != i && j in target && target[j] == target[i] && i !in finds
        case Refused => i !in finds
  }

  ghost predicate FatesOk(unique: Ids, target: Ids, queue: seq<nat>, finds: map<nat, nat>, phase: map<nat, Phase>,
                          fates: map<nat, Fate>, interrupted: set<nat>)
  {
    && finds.Keys == phase.Keys
    && (forall i {:trigger i in target} :: i in target ==>
          FateOk(unique, target, queue, finds, phase, fates, interrupted, i))
    && (forall i :: i in fates ==> i in target)
    && (forall i :: i in queue ==> i in fates && fates[i] == Waits)
    && (forall r {:trigger r in interrupted} :: r in interrupted ==> exists i :: HasMarked(unique, target, fates, i, r))
  }

  /** No INTERRUPT waits for a request that is in flight, and no two for the same. */
  ghost predicate WaitingOk(unique: Ids, target: Ids, list: seq<nat>, queue: seq<nat>) {
    && (forall i :: i in queue ==> i in target)
    && (forall r :: r in list ==> r in unique)
    && (forall i, r :: i in queue && r in list ==> target[i] != unique[r])
    && (forall j, k :: 0 <= j < k < |queue| ==> target[queue[j]] != target[queue[k]])
  }

  /** At most one thread has a request's lock. */
  ghost predicate LocksOk(unique: Ids, finds: map<nat, nat>, phase: map<nat, Phase>,
                          registrars: map<nat, Registrar>) {
    && finds.Keys == phase.Keys
    && (forall k :: k in registrars ==> registrars[k].req in unique)
    && (forall i, k :: i in finds && k in registrars && Owns(registrars[k], finds[i]) ==> !HasLock(phase[i]))
    && (forall k, l :: k in registrars && l in registrars && BothOwn(registrars[k], registrars[l]) ==> k == l)
    && (forall i, j :: i in finds && j in finds && finds[i] == finds[j] && HasLock(phase[i]) && HasLock(phase[j]) ==>
          i == j)
  }

  ghost predicate AboutTo(finds: map<nat, nat>, phase: map<nat, Phase>, i: nat, r: nat, cb: nat) {
    i in finds && i in phase && finds[i] == r && phase[i] == Calling(Some(cb))
  }

  ghost predicate Ready(registrars: map<nat, Registrar>, k: nat, r: nat, cb: nat) {
    k in registrars && registrars[k] == Registrar(r, Some(cb), Stored)
  }

  /** The callback has been called, or a thread is about to call it. */
  ghost predicate Notified(finds: map<nat, nat>, phase: map<nat, Phase>, registrars: map<nat, Registrar>,
                           called: set<nat>, r: nat, cb: nat)
  {
    || cb in called
    || (exists i :: AboutTo(finds, phase, i, r, cb))
    || (exists k :: Ready(registrars, k, r, cb))
  }

  ghost predicate CallbackOf(registered: map<nat, nat>, cb: Option<nat>, r: nat) {
    cb != None ==> cb.value in registered && registered[cb.value] == r
  }

  ghost predicate CallsOk(unique: Ids, list: seq<nat>, finds: map<nat, nat>, phase: map<nat, Phase>,
                          registrars: map<nat, Registrar>, func: map<nat, nat>, registered: map<nat, nat>,
                          called: set<nat>, interrupted: set<nat>)
  {
    && finds.Keys == phase.Keys
    && (forall r :: r in func ==> CallbackOf(registered, Some(func[r]), r))
    && (forall r :: r in func && r in interrupted ==> Notified(finds, phase, registrars, called, r, func[r]))
    && (forall k :: k in registrars ==> CallbackOf(registered, registrars[k].cb, registrars[k].req))
    && (forall k :: k in registrars && registrars[k].at == Stored && registrars[k].req in func ==>
          registrars[k].cb == Some(func[registrars[k].req]))
    && (forall i :: i in finds && phase[i].Calling? ==>
          finds[i] in interrupted && CallbackOf(registered, phase[i].cb, finds[i]))
    && (forall cb :: cb in called ==> cb in registered && registered[cb] in interrupted)
    && (forall cb :: cb in registered ==> registered[cb] in unique)
    && (forall r :: r in list ==> r in unique)
  }

  ghost predicate Identified(s: State) { IdsOk(s.unique, s.target, s.list, s.queue, s.refusing, s.finds) }

  ghost predicate Counted(s: State) { CountsOk(s.unique, s.target, s.list, s.queue, s.refusing, s.finds, s.ctr) }

  ghost predicate DestroyedOnce(s: State) { DestroyedOk(s.unique, s.target, s.ctr, s.destroyed) }

  ghost predicate Accounted(s: State) { FatesOk(s.unique, s.target, s.queue, s.finds, s.phase, s.fates, s.interrupted) }

  ghost predicate NoneMissed(s: State) { WaitingOk(s.unique, s.target, s.list, s.queue) }

  ghost predicate Exclusive(s: State) { LocksOk(s.unique, s.finds, s.phase, s.registrars) }

  ghost predicate CallsMade(s: State) {
    CallsOk(s.unique, s.list, s.finds, s.phase, s.registrars, s.func, s.registered, s.called, s.interrupted)
  }

  ghost predicate Inv(s: State) {
    Identified(s) && Counted(s) && DestroyedOnce(s) && Accounted(s) && NoneMissed(s) && Exclusive(s) && CallsMade(s)
  }

  const initial := State(map[], map[], [], [], map[], {}, map[], map[], map[], map[], {}, map[], [], map[], {}, {})

  lemma InitOk()
    ensures Inv(initial)
  {}

  // ----- the steps of a thread that has found its request

  lemma TakeLockKeeps(s: State, i: nat)
    requires Inv(s) && At(s, i, Waiting) && !LockHeld(s, s.finds[i])
    ensures Inv(TakeLockOf(s, i))
  {
    hide IdsOk, CountsOk, DestroyedOk, FatesOk, WaitingOk, LocksOk, CallsOk;
    TakeLockFates(s, i);
    TakeLockLocks(s, i);
    TakeLockCalls(s, i);
  }

  lemma TakeLockFates(s: State, i: nat)
    requires Accounted(s) && At(s, i, Waiting)
    ensures Accounted(TakeLockOf(s, i))
  {}

  lemma TakeLockLocks(s: State, i: nat)
    requires Exclusive(s) && At(s, i, Waiting) && !LockHeld(s, s.finds[i])
    ensures Exclusive(TakeLockOf(s, i))
  {}

  lemma TakeLockCalls(s: State, i: nat)
    requires CallsMade(s) && At(s, i, Waiting)
    ensures CallsMade(TakeLockOf(s, i))
  {
    var t := TakeLockOf(s, i);
    assert forall j, r, cb :: AboutTo(s.finds, s.phase, j, r, cb) ==> AboutTo(t.finds, t.phase, j, r, cb);
  }

  lemma MarkKeeps(s: State, i: nat)
    requires Inv(s) && At(s, i, Locked)
    ensures Inv(MarkOf(s, i))
  {
    hide IdsOk, CountsOk, DestroyedOk, FatesOk, WaitingOk, LocksOk, CallsOk;
    MarkFates(s, i);
    MarkLocks(s, i);
    MarkCalls(s, i);
  }

  lemma MarkFates(s: State, i: nat)
    requires Accounted(s) && Identified(s) && At(s, i, Locked)
    ensures Accounted(MarkOf(s, i))
  {
    var t := MarkOf(s, i);
    assert HasMarked(t.unique, t.target, t.fates, i, s.finds[i]);
    forall j | j in t.target ensures FateOk(t.unique, t.target, t.queue, t.finds, t.phase, t.fates, t.interrupted, j) {
      assert j in s.target;
    }
    KeepMarks(s, t, i);
  }

  /** Marks stay when another INTERRUPT's fate is decided, or more requests arrive. */
  lemma KeepMarks(s: State, t: State, i: nat)
    requires Accounted(s) && s.unique.Keys <= t.unique.Keys &&
             (forall r :: r in s.unique ==> t.unique[r] == s.unique[r])
    requires s.target.Keys <= t.target.Keys && (forall j :: j in s.target ==> t.target[j] == s.target[j])
    requires forall j :: j in s.fates && j != i ==> j in t.fates && t.fates[j] == s.fates[j]
    requires i in s.fates ==> !s.fates[i].MarkedInFlight? && !s.fates[i].MarkedArrival?
    ensures forall r :: r in s.interrupted ==> exists j :: HasMarked(t.unique, t.target, t.fates, j, r)
  {
    forall r | r in s.interrupted ensures exists j :: HasMarked(t.unique, t.target, t.fates, j, r) {
      var j :| HasMarked(s.unique, s.target, s.fates, j, r);
      assert HasMarked(t.unique, t.target, t.fates, j, r);
    }
  }

  lemma MarkLocks(s: State, i: nat)
    requires Exclusive(s) && At(s, i, Locked)
    ensures Exclusive(MarkOf(s, i))
  {}

  /** The thread that marks a request reads its callback at the same time, and will call it. */
  lemma MarkCalls(s: State, i: nat)
    requires CallsMade(s) && At(s, i, Locked)
    ensures CallsMade(MarkOf(s, i))
  {
    hide Notified, LocksOk;
    var t := MarkOf(s, i);
    forall q | q in t.func && q in t.interrupted
      ensures Notified(t.finds, t.phase, t.registrars, t.called, q, t.func[q]) {
      MarkNotifies(s, i, q);
    }
  }

  lemma MarkNotifies(s: State, i: nat, q: nat)
    requires CallsMade(s) && At(s, i, Locked)
    requires q in s.func && (q == s.finds[i] || q in s.interrupted)
    ensures var t := MarkOf(s, i); Notified(t.finds, t.phase, t.registrars, t.called, q, t.func[q])
  {
    var t := MarkOf(s, i);
    if q == s.finds[i] {
      assert AboutTo(t.finds, t.phase, i, q, t.func[q]);
    } else {
      KeepNotified(s, t, i, q, s.func[q]);
    }
  }

  lemma KeepNotified(s: State, t: State, i: nat, r: nat, cb: nat)
    requires Notified(s.finds, s.phase, s.registrars, s.called, r, cb)
    requires s.called <= t.called && t.registrars == s.registrars && s.finds == t.finds
    requires forall j :: j in s.phase && j != i ==> j in t.phase && t.phase[j] == s.phase[j]
    requires !AboutTo(s.finds, s.phase, i, r, cb) || cb in t.called
    ensures Notified(t.finds, t.phase, t.registrars, t.called, r, cb)
  {
    if j :| AboutTo(s.finds, s.phase, j, r, cb) && j != i {
      assert AboutTo(t.finds, t.phase, j, r, cb);
    }
  }

  lemma CallKeeps(s: State, i: nat)
    requires Inv(s) && i in s.phase && s.phase[i].Calling?
    ensures Inv(CallOf(s, i))
  {
    hide IdsOk, CountsOk, DestroyedOk, FatesOk, WaitingOk, LocksOk, CallsOk;
    CallFates(s, i);
    CallLocks(s, i);
    CallCalls(s, i);
  }

  lemma CallFates(s: State, i: nat)
    requires Accounted(s) && i in s.phase && s.phase[i].Calling?
    ensures Accounted(CallOf(s, i))
  {}

  lemma CallLocks(s: State, i: nat)
    requires Exclusive(s) && i in s.phase && s.phase[i].Calling?
    ensures Exclusive(CallOf(s, i))
  {}

  lemma CallCalls(s: State, i: nat)
    requires CallsMade(s) && i in s.phase && s.phase[i].Calling?
    ensures CallsMade(CallOf(s, i))
  {
    var t := CallOf(s, i);
    forall q | q in t.func && q in t.interrupted
      ensures Notified(t.finds, t.phase, t.registrars, t.called, q, t.func[q]) {
      KeepNotified(s, t, i, q, s.func[q]);
    }
  }

  lemma ReleaseKeeps(s: State, i: nat)
    requires Inv(s) && At(s, i, Called)
    ensures Inv(ReleaseOf(s, i))
  {
    hide IdsOk, CountsOk, DestroyedOk, FatesOk, WaitingOk, LocksOk, CallsOk;
    ReleaseFates(s, i);
    ReleaseLocks(s, i);
    ReleaseCalls(s, i);
  }

  lemma ReleaseFates(s: State, i: nat)
    requires Accounted(s) && At(s, i, Called)
    ensures Accounted(ReleaseOf(s, i))
  {}

  lemma ReleaseLocks(s: State, i: nat)
    requires Exclusive(s) && At(s, i, Called)
    ensures Exclusive(ReleaseOf(s, i))
  {}

  lemma ReleaseCalls(s: State, i: nat)
    requires CallsMade(s) && At(s, i, Called)
    ensures CallsMade(ReleaseOf(s, i))
  {
    var t := ReleaseOf(s, i);
    forall q | q in t.func && q in t.interrupted
      ensures Notified(t.finds, t.phase, t.registrars, t.called, q, t.func[q]) {
      KeepNotified(s, t, i, q, s.func[q]);
    }
  }

  // ----- destroying

  lemma DestroyOnce(unique: Ids, target: Ids, ctr: map<nat, nat>, destroyed: seq<nat>, x: nat)
    requires DestroyedOk(unique, target, ctr, destroyed) && x in ctr && (x in unique || x in target)
    ensures DestroyedOk(unique, target, ctr - {x}, destroyed + [x])
  {}

  /** Dropping a count destroys the request if it was the last, and never a second time. */
  lemma DropDestroys(s: State, x: nat)
    requires DestroyedOnce(s) && x in s.ctr && s.ctr[x] > 0 && (x in s.unique || x in s.target)
    ensures DestroyedOnce(Drop(s, x))
  {}

  lemma LeaveKeeps(s: State, i: nat)
    requires Inv(s) && At(s, i, Leaving)
    ensures Inv(LeaveOf(s, i))
  {
    hide IdsOk, CountsOk, DestroyedOk, FatesOk, WaitingOk, LocksOk, CallsOk;
    LeaveIds(s, i);
    LeaveCounts(s, i);
    LeaveDestroys(s, i);
    LeaveFates(s, i);
    LeaveLocks(s, i);
    LeaveCalls(s, i);
  }

  lemma LeaveIds(s: State, i: nat)
    requires Identified(s) && i in s.finds
    ensures Identified(LeaveOf(s, i))
  {}

  lemma FoundIsCounted(s: State, i: nat)
    requires Identified(s) && Counted(s) && i in s.finds
    ensures var r := s.finds[i];
            r != i && r in s.ctr && s.ctr[r] == |Finding(s.finds, r) - {i}| + 1 + if r in s.list then 1 else 0
    ensures i in s.ctr && i in s.target
  {
    var r := s.finds[i];
    assert r in s.unique && i in s.target;
    assert i in Finding(s.finds, r);
  }

  /** One finder less, one count less. */
  lemma CountLess(list: seq<nat>, finds: map<nat, nat>, ctr: map<nat, nat>, i: nat, q: nat)
    requires i in finds && i in ctr && finds[i] in ctr && ctr[finds[i]] > 0 && q != i && i != finds[i]
    requires CountOk(list, finds, ctr, q)
    ensures CountOk(list, finds - {i}, Less(ctr, finds[i]) - {i}, q)
  {
    var rest := finds - {i};
    assert Finding(rest, q) == Finding(finds, q) - {i};
    if q == finds[i] {
      assert i in Finding(finds, q);
    } else {
      assert i !in Finding(finds, q) && Finding(rest, q) == Finding(finds, q);
    }
  }

  lemma LeaveCounts(s: State, i: nat)
    requires Identified(s) && Counted(s) && i in s.finds
    ensures Counted(LeaveOf(s, i))
  {
    FoundIsCounted(s, i);
    CountsLeave(s.unique, s.target, s.list, s.queue, s.refusing, s.finds, s.ctr, i);
    hide CountsOk, IdsOk, Less, CountOk;
  }

  lemma CountsLeave(unique: Ids, target: Ids, list: seq<nat>, queue: seq<nat>, refusing: set<nat>, finds: map<nat, nat>,
                    ctr: map<nat, nat>, i: nat)
    requires IdsOk(unique, target, list, queue, refusing, finds) &&
             CountsOk(unique, target, list, queue, refusing, finds, ctr)
    requires i in finds && i in ctr && finds[i] in ctr && ctr[finds[i]] > 0
    ensures CountsOk(unique, target, list, queue, refusing, finds - {i}, Less(ctr, finds[i]) - {i})
  {
    var r, finds', ctr' := finds[i], finds - {i}, Less(ctr, finds[i]) - {i};
    assert r in unique && r !in target && i in target;
    forall q | q in unique ensures CountOk(list, finds', ctr', q) {
      assert q !in target;
      CountLess(list, finds, ctr, i, q);
    }
    hide CountOk;
    forall j | j in target ensures IntrCountOk(queue, refusing, finds', ctr', j) {
      assert j !in unique && IntrCountOk(queue, refusing, finds, ctr, j);
    }
  }

  lemma LeaveDestroys(s: State, i: nat)
    requires Identified(s) && Counted(s) && DestroyedOnce(s) && i in s.finds
    ensures DestroyedOnce(LeaveOf(s, i))
  {
    FoundIsCounted(s, i);
    DropDestroys(s, s.finds[i]);
    var d := Drop(s, s.finds[i]);
    DestroyOnce(d.unique, d.target, d.ctr, d.destroyed, i);
  }

  lemma LeaveFates(s: State, i: nat)
    requires Accounted(s) && At(s, i, Leaving)
    ensures Accounted(LeaveOf(s, i))
  {}

  lemma LeaveLocks(s: State, i: nat)
    requires Exclusive(s) && i in s.finds
    ensures Exclusive(LeaveOf(s, i))
  {}

  lemma LeaveCalls(s: State, i: nat)
    requires CallsMade(s) && At(s, i, Leaving)
    ensures CallsMade(LeaveOf(s, i))
  {
    CallsLeave(s.unique, s.list, s.finds, s.phase, s.registrars, s.func, s.registered, s.called, s.interrupted, i);
    hide CallsOk;
  }

  lemma CallsLeave(unique: Ids, list: seq<nat>, finds: map<nat, nat>, phase: map<nat, Phase>,
                   registrars: map<nat, Registrar>, func: map<nat, nat>, registered: map<nat, nat>,
                   called: set<nat>, interrupted: set<nat>, i: nat)
    requires CallsOk(unique, list, finds, phase, registrars, func, registered, called, interrupted)
    requires i in finds && i in phase && phase[i] == Leaving
    ensures CallsOk(unique, list, finds - {i}, phase - {i}, registrars, func, registered, called, interrupted)
  {
    forall q | q in func && q in interrupted
      ensures Notified(finds - {i}, phase - {i}, registrars, called, q, func[q]) {
      if j :| AboutTo(finds, phase, j, q, func[q]) {
        assert AboutTo(finds - {i}, phase - {i}, j, q, func[q]);
      }
    }
    hide Notified;
  }

  lemma RefuseKeeps(s: State, i: nat)
    requires Inv(s) && i in s.refusing
    ensures Inv(RefuseOf(s, i))
  {
    hide CountsOk, DestroyedOk, FatesOk, WaitingOk, LocksOk, CallsOk;
    RefuseCounts(s, i);
    DropDestroys(s, i);
    hide Less;
  }

  lemma RefuseCounts(s: State, i: nat)
    requires Identified(s) && Counted(s) && i in s.refusing
    ensures i in s.target && i in s.ctr && s.ctr[i] == 1 && Counted(RefuseOf(s, i))
  {}

  lemma ReplyKeeps(s: State, r: nat)
    requires Inv(s) && r in s.list
    ensures Inv(ReplyOf(s, r))
  {
    CutIsWithout(s.list, r);
    ReplyCounts(s, r);
    DropDestroys(s, r);
    ReplyLists(s, r, Cut(s.list, IndexIn(s.list, r)));
    ReplyCalls(s, r, Cut(s.list, IndexIn(s.list, r)));
    hide IdsOk, CountsOk, DestroyedOk, FatesOk, WaitingOk, LocksOk, CallsOk;
  }

  lemma CutIsWithout(s: seq<nat>, x: nat)
    requires NoDup(s) && x in s
    ensures var c := Cut(s, IndexIn(s, x)); NoDup(c) && forall y :: y in c <==> y in s && y != x
  {}

  lemma ReplyCounts(s: State, r: nat)
    requires Identified(s) && Counted(s) && r in s.list
    ensures r in s.unique && r in s.ctr && s.ctr[r] > 0 && Counted(ReplyOf(s, r))
  {
    CutIsWithout(s.list, r);
    assert r in s.unique && CountOk(s.list, s.finds, s.ctr, r);
    hide Cut, IndexIn, Less;
    CountsReply(s.unique, s.target, s.list, s.queue, s.refusing, s.finds, s.ctr, r, Cut(s.list, IndexIn(s.list, r)));
    hide CountsOk, IdsOk, CountOk;
  }

  lemma CountsReply(unique: Ids, target: Ids, list: seq<nat>, queue: seq<nat>, refusing: set<nat>, finds: map<nat, nat>,
                    ctr: map<nat, nat>, r: nat, rest: seq<nat>)
    requires unique.Keys !! target.Keys && CountsOk(unique, target, list, queue, refusing, finds, ctr)
    requires r in list && r in unique && r in ctr && forall y :: y in rest <==> y in list && y != r
    ensures CountsOk(unique, target, rest, queue, refusing, finds, Less(ctr, r))
  {}

  /** A request that leaves the list takes its callback along. A thread that is registering one goes on. */
  lemma ReplyLists(s: State, r: nat, rest: seq<nat>)
    requires Identified(s) && NoneMissed(s) && NoDup(rest)
    requires forall y :: y in rest <==> y in s.list && y != r
    ensures IdsOk(s.unique, s.target, rest, s.queue, s.refusing, s.finds)
    ensures WaitingOk(s.unique, s.target, rest, s.queue)
  {}

  lemma ReplyCalls(s: State, r: nat, rest: seq<nat>)
    requires CallsMade(s) && forall y :: y in rest <==> y in s.list && y != r
    ensures CallsOk(s.unique, rest, s.finds, s.phase, s.registrars, s.func - {r}, s.registered, s.called, s.interrupted)
  {}

  // ----- registering a callback

  lemma AskKeeps(s: State, k: nat, r: nat, cb: Option<nat>)
    requires Inv(s) && k !in s.registrars && r in s.list && (cb == None || cb.value !in s.registered)
    ensures Inv(AskOf(s, k, r, cb))
  {
    AskCalls(s, k, r, cb);
    AskLocks(s, k, r, cb);
    hide IdsOk, CountsOk, DestroyedOk, FatesOk, WaitingOk, LocksOk, CallsOk;
  }

  lemma AskLocks(s: State, k: nat, r: nat, cb: Option<nat>)
    requires Exclusive(s) && Identified(s) && k !in s.registrars && r in s.list
    ensures Exclusive(AskOf(s, k, r, cb))
  {}

  lemma AskCalls(s: State, k: nat, r: nat, cb: Option<nat>)
    requires CallsMade(s) && k !in s.registrars && r in s.list && (cb == None || cb.value !in s.registered)
    ensures CallsMade(AskOf(s, k, r, cb))
  {
    var t := AskOf(s, k, r, cb);
    forall q | q in s.func && q in s.interrupted
      ensures Notified(s.finds, s.phase, t.registrars, s.called, q, s.func[q]) {
      StillNotified(s, t, k, q, s.func[q]);
    }
    hide Notified;
  }

  /** What one registering thread does leaves the others alone. */
  lemma StillNotified(s: State, t: State, k: nat, r: nat, cb: nat)
    requires Notified(s.finds, s.phase, s.registrars, s.called, r, cb)
    requires s.called <= t.called && s.finds == t.finds && s.phase == t.phase
    requires forall l :: l in s.registrars && l != k ==> l in t.registrars && t.registrars[l] == s.registrars[l]
    requires !Ready(s.registrars, k, r, cb) || cb in t.called
    ensures Notified(t.finds, t.phase, t.registrars, t.called, r, cb)
  {
    if l :| Ready(s.registrars, l, r, cb) && l != k {
      assert Ready(t.registrars, l, r, cb);
    }
  }

  lemma EnterKeeps(s: State, k: nat)
    requires Inv(s) && Stands(s, k, Asking) && !LockHeld(s, s.registrars[k].req)
    ensures Inv(EnterOf(s, k))
  {
    EnterCalls(s, k);
    EnterLocks(s, k);
    hide IdsOk, CountsOk, DestroyedOk, FatesOk, WaitingOk, LocksOk, CallsOk;
  }

  lemma EnterLocks(s: State, k: nat)
    requires Exclusive(s) && Stands(s, k, Asking) && !LockHeld(s, s.registrars[k].req)
    ensures Exclusive(EnterOf(s, k))
  {}

  lemma EnterCalls(s: State, k: nat)
    requires CallsMade(s) && Stands(s, k, Asking)
    ensures CallsMade(EnterOf(s, k))
  {
    var t := EnterOf(s, k);
    forall q | q in t.func && q in t.interrupted
      ensures Notified(t.finds, t.phase, t.registrars, t.called, q, t.func[q]) {
      StillNotified(s, t, k, q, s.func[q]);
    }
    hide Notified;
  }

  lemma StoreKeeps(s: State, k: nat)
    requires Inv(s) && Stands(s, k, Entered)
    ensures Inv(StoreOf(s, k))
  {
    StoreCalls(s, k);
    StoreLocks(s, k);
    hide IdsOk, CountsOk, DestroyedOk, FatesOk, WaitingOk, LocksOk, CallsOk;
  }

  lemma StoreLocks(s: State, k: nat)
    requires Exclusive(s) && Stands(s, k, Entered)
    ensures Exclusive(StoreOf(s, k))
  {}

  /** The thread that stores a callback will call it itself if the request is interrupted already. */
  lemma StoreCalls(s: State, k: nat)
    requires CallsMade(s) && Exclusive(s) && Stands(s, k, Entered)
    ensures CallsMade(StoreOf(s, k))
  {
    hide Notified;
    var t := StoreOf(s, k);
    forall q | q in t.func && q in t.interrupted
      ensures Notified(t.finds, t.phase, t.registrars, t.called, q, t.func[q]) {
      StoreNotifies(s, k, q);
    }
  }

  lemma StoreNotifies(s: State, k: nat, q: nat)
    requires CallsMade(s) && Stands(s, k, Entered) && q in StoreOf(s, k).func && q in s.interrupted
    ensures var t := StoreOf(s, k); Notified(t.finds, t.phase, t.registrars, t.called, q, t.func[q])
  {
    var t := StoreOf(s, k);
    if q == s.registrars[k].req {
      assert Ready(t.registrars, k, q, t.func[q]);
    } else {
      StillNotified(s, t, k, q, s.func[q]);
    }
  }

  lemma CheckKeeps(s: State, k: nat)
    requires Inv(s) && Stands(s, k, Stored)
    ensures Inv(CheckOf(s, k))
  {
    CheckCalls(s, k);
    CheckLocks(s, k);
    hide IdsOk, CountsOk, DestroyedOk, FatesOk, WaitingOk, LocksOk, CallsOk;
  }

  lemma CheckLocks(s: State, k: nat)
    requires Exclusive(s) && Stands(s, k, Stored)
    ensures Exclusive(CheckOf(s, k))
  {}

  lemma CheckCalls(s: State, k: nat)
    requires CallsMade(s) && Stands(s, k, Stored)
    ensures CallsMade(CheckOf(s, k))
  {
    var t := CheckOf(s, k);
    forall q | q in t.func && q in t.interrupted
      ensures Notified(t.finds, t.phase, t.registrars, t.called, q, t.func[q]) {
      StillNotified(s, t, k, q, s.func[q]);
    }
    hide Notified;
  }

  lemma UnlockKeeps(s: State, k: nat)
    requires Inv(s) && Stands(s, k, Done)
    ensures Inv(UnlockOf(s, k))
  {
    UnlockCalls(s, k);
    UnlockLocks(s, k);
    hide IdsOk, CountsOk, DestroyedOk, FatesOk, WaitingOk, LocksOk, CallsOk;
  }

  lemma UnlockLocks(s: State, k: nat)
    requires Exclusive(s)
    ensures Exclusive(UnlockOf(s, k))
  {}

  lemma UnlockCalls(s: State, k: nat)
    requires CallsMade(s) && Stands(s, k, Done)
    ensures CallsMade(UnlockOf(s, k))
  {
    var t := UnlockOf(s, k);
    forall q | q in t.func && q in t.interrupted
      ensures Notified(t.finds, t.phase, t.registrars, t.called, q, t.func[q]) {
      StillNotified(s, t, k, q, s.func[q]);
    }
    hide Notified;
  }

  // ----- arrivals

  /** Nothing is known of a request that has not arrived. */
  lemma FreshIsNew(s: State, x: nat)
    requires Inv(s) && Fresh(s, x)
    ensures x !in s.list && x !in s.queue && x !in s.refusing && x !in s.finds && x !in s.phase
    ensures x !in s.ctr && x !in s.fates && x !in s.destroyed
  {}

  lemma FirstFound(s: seq<nat>, ids: Ids, id: nat)
    requires forall x :: x in s ==> x in ids
    ensures var k := Find(s, ids, id);
            if k < |s| then s[k] in s && ids[s[k]] == id else forall x :: x in s ==> ids[x] != id
  {}

  lemma Known(s: State)
    requires Identified(s)
    ensures (forall r :: r in s.list ==> r in s.unique) && forall j :: j in s.queue ==> j in s.target
  {}

  lemma InterruptKeeps(s: State, i: nat, id: nat)
    requires Inv(s) && Fresh(s, i)
    ensures Inv(InterruptStep(s, i, id))
  {
    Known(s);
    hide Find, IdsOk, CountsOk, DestroyedOk, FatesOk, WaitingOk, LocksOk, CallsOk;
    FirstFound(s.list, s.unique, id);
    FirstFound(s.queue, s.target, id);
    var j, k := Find(s.list, s.unique, id), Find(s.queue, s.target, id);
    if j < |s.list| {
      FoundKeeps(s, i, id, s.list[j]);
    } else if k < |s.queue| {
      DuplicateKeeps(s, i, id, s.queue[k]);
    } else {
      QueuedKeeps(s, i, id);
    }
  }

  // An INTERRUPT whose request is in flight.

  lemma FoundKeeps(s: State, i: nat, id: nat, r: nat)
    requires Inv(s) && Fresh(s, i) && r in s.list && r in s.unique && s.unique[r] == id
    ensures Inv(FoundOf(s, i, id, r))
  {
    hide IdsOk, CountsOk, DestroyedOk, FatesOk, WaitingOk, LocksOk, CallsOk;
    FreshIsNew(s, i);
    FindIds(s.unique, s.target, s.list, s.queue, s.refusing, s.finds, i, r, id);
    CountsFind(s.unique, s.target, s.list, s.queue, s.refusing, s.finds, s.ctr, i, r, id);
    NewDestroyed(s.unique, s.target, s.ctr, s.destroyed, i, id, More(s.ctr[i := 1], r));
    FindFates(s, i, id, r);
    AddFinder(s, i, r);
    NewWaiting(s.unique, s.target, s.list, s.queue, i, id);
  }

  lemma FindIds(unique: Ids, target: Ids, list: seq<nat>, queue: seq<nat>, refusing: set<nat>, finds: map<nat, nat>,
                i: nat, r: nat, id: nat)
    requires IdsOk(unique, target, list, queue, refusing, finds) && i !in unique && i !in target
    requires r in unique && unique[r] == id
    ensures IdsOk(unique, target[i := id], list, queue, refusing, finds[i := r])
  {}

  /** One finder more, one count more. */
  lemma CountMore(list: seq<nat>, finds: map<nat, nat>, ctr: map<nat, nat>, i: nat, r: nat, q: nat)
    requires i !in finds && r in ctr && q != i && r != i && (q == r ==> r in list)
    requires CountOk(list, finds, ctr, q)
    ensures CountOk(list, finds[i := r], More(ctr[i := 1], r), q)
  {
    var more := finds[i := r];
    if q == r {
      assert Finding(more, q) == Finding(finds, q) + {i};
    } else {
      assert Finding(more, q) == Finding(finds, q);
    }
  }

  lemma CountsFind(unique: Ids, target: Ids, list: seq<nat>, queue: seq<nat>, refusing: set<nat>, finds: map<nat, nat>,
                   ctr: map<nat, nat>, i: nat, r: nat, id: nat)
    requires IdsOk(unique, target, list, queue, refusing, finds) &&
             CountsOk(unique, target, list, queue, refusing, finds, ctr)
    requires r in list && r in unique && i !in finds && i !in unique && i !in target
    ensures r in ctr && CountsOk(unique, target[i := id], list, queue, refusing, finds[i := r], More(ctr[i := 1], r))
  {
    assert CountOk(list, finds, ctr, r);
    var target', finds', ctr' := target[i := id], finds[i := r], More(ctr[i := 1], r);
    forall q | q in unique ensures CountOk(list, finds', ctr', q) {
      CountMore(list, finds, ctr, i, r, q);
    }
    hide CountOk;
    forall j | j in target' ensures IntrCountOk(queue, refusing, finds', ctr', j) {
      if j != i { assert j !in unique && IntrCountOk(queue, refusing, finds, ctr, j); }
    }
  }

  lemma NewDestroyed(unique: Ids, target: Ids, ctr: map<nat, nat>, destroyed: seq<nat>, i: nat, id: nat,
                     ctr': map<nat, nat>)
    requires DestroyedOk(unique, target, ctr, destroyed) && i !in unique && i !in target && ctr'.Keys == ctr.Keys + {i}
    ensures DestroyedOk(unique, target[i := id], ctr', destroyed)
  {}

  lemma FindFates(s: State, i: nat, id: nat, r: nat)
    requires Accounted(s) && i !in s.target && i !in s.fates
    ensures Accounted(FoundOf(s, i, id, r))
  {
    var t := FoundOf(s, i, id, r);
    forall j | j in t.target ensures FateOk(t.unique, t.target, t.queue, t.finds, t.phase, t.fates, t.interrupted, j) {
      if j != i { assert j in s.target; }
    }
    KeepMarks(s, t, i);
    hide FateOk, HasMarked;
  }

  lemma AddFinder(s: State, i: nat, r: nat)
    requires CallsMade(s) && Exclusive(s) && i !in s.finds
    ensures LocksOk(s.unique, s.finds[i := r], s.phase[i := Waiting], s.registrars)
    ensures CallsOk(s.unique, s.list, s.finds[i := r], s.phase[i := Waiting], s.registrars, s.func, s.registered,
            s.called, s.interrupted)
  {
    var finds, phase := s.finds[i := r], s.phase[i := Waiting];
    forall q | q in s.func && q in s.interrupted ensures Notified(finds, phase, s.registrars, s.called, q, s.func[q]) {
      if j :| AboutTo(s.finds, s.phase, j, q, s.func[q]) {
        assert AboutTo(finds, phase, j, q, s.func[q]);
      }
    }
    hide Notified;
  }

  lemma NewWaiting(unique: Ids, target: Ids, list: seq<nat>, queue: seq<nat>, i: nat, id: nat)
    requires WaitingOk(unique, target, list, queue) && i !in target
    ensures WaitingOk(unique, target[i := id], list, queue)
  {}

  // An INTERRUPT like one that waits.

  lemma DuplicateKeeps(s: State, i: nat, id: nat, j: nat)
    requires Inv(s) && Fresh(s, i) && j in s.target && s.target[j] == id
    ensures Inv(DuplicateOf(s, i, id, j))
  {
    hide IdsOk, CountsOk, DestroyedOk, FatesOk, WaitingOk, LocksOk, CallsOk;
    FreshIsNew(s, i);
    NewTarget(s.unique, s.target, s.list, s.queue, s.refusing, s.finds, s.ctr, i, id);
    NewWaiting(s.unique, s.target, s.list, s.queue, i, id);
    DuplicateFates(s, i, id, j);
    DestroyedAtOnce(s.unique, s.target, s.ctr, s.destroyed, i, id);
  }

  lemma NewTarget(unique: Ids, target: Ids, list: seq<nat>, queue: seq<nat>, refusing: set<nat>, finds: map<nat, nat>,
                  ctr: map<nat, nat>, i: nat, id: nat)
    requires IdsOk(unique, target, list, queue, refusing, finds) &&
             CountsOk(unique, target, list, queue, refusing, finds, ctr)
    requires i !in unique && i !in target && i !in ctr
    ensures IdsOk(unique, target[i := id], list, queue, refusing, finds) &&
            CountsOk(unique, target[i := id], list, queue, refusing, finds, ctr)
  {}

  lemma DestroyedAtOnce(unique: Ids, target: Ids, ctr: map<nat, nat>, destroyed: seq<nat>, i: nat, id: nat)
    requires DestroyedOk(unique, target, ctr, destroyed) && i !in unique && i !in target && i !in ctr
    ensures DestroyedOk(unique, target[i := id], ctr, destroyed + [i])
  {}

  lemma DuplicateFates(s: State, i: nat, id: nat, j: nat)
    requires Accounted(s) && Identified(s) && i !in s.target && i !in s.fates && j in s.target && s.target[j] == id
    ensures Accounted(DuplicateOf(s, i, id, j))
  {
    hide HasMarked, IdsOk;
    var t := DuplicateOf(s, i, id, j);
    FoundIsTarget(s);
    Known(s);
    forall l | l in t.target ensures FateOk(t.unique, t.target, t.queue, t.finds, t.phase, t.fates, t.interrupted, l) {
      DuplicateFate(s, i, id, j, l);
    }
    hide FateOk;
    KeepMarks(s, t, i);
  }

  lemma DuplicateFate(s: State, i: nat, id: nat, j: nat, l: nat)
    requires Accounted(s) && i !in s.finds && i !in s.target && i !in s.fates && j in s.target && s.target[j] == id
    requires l == i || l in s.target
    ensures var t := DuplicateOf(s, i, id, j);
            FateOk(t.unique, t.target, t.queue, t.finds, t.phase, t.fates, t.interrupted, l)
  {
    if l != i { assert FateOk(s.unique, s.target, s.queue, s.finds, s.phase, s.fates, s.interrupted, l); }
  }

  // An INTERRUPT that has to wait.

  lemma QueuedKeeps(s: State, i: nat, id: nat)
    requires Inv(s) && Fresh(s, i)
    requires forall r :: r in s.list ==> r in s.unique && s.unique[r] != id
    requires forall j :: j in s.queue ==> j in s.target && s.target[j] != id
    ensures Inv(QueuedOf(s, i, id))
  {
    hide IdsOk, CountsOk, DestroyedOk, FatesOk, WaitingOk, LocksOk, CallsOk;
    FreshIsNew(s, i);
    QueuedIds(s.unique, s.target, s.list, s.queue, s.refusing, s.finds, s.ctr, i, id);
    NewDestroyed(s.unique, s.target, s.ctr, s.destroyed, i, id, s.ctr[i := 1]);
    QueuedWaits(s.unique, s.target, s.list, s.queue, i, id);
    QueuedFates(s, i, id);
  }

  lemma QueuedIds(unique: Ids, target: Ids, list: seq<nat>, queue: seq<nat>, refusing: set<nat>, finds: map<nat, nat>,
                  ctr: map<nat, nat>, i: nat, id: nat)
    requires IdsOk(unique, target, list, queue, refusing, finds) &&
             CountsOk(unique, target, list, queue, refusing, finds, ctr)
    requires i !in unique && i !in target
    ensures IdsOk(unique, target[i := id], list, queue + [i], refusing, finds)
    ensures CountsOk(unique, target[i := id], list, queue + [i], refusing, finds, ctr[i := 1])
  {}

  lemma QueuedWaits(unique: Ids, target: Ids, list: seq<nat>, queue: seq<nat>, i: nat, id: nat)
    requires WaitingOk(unique, target, list, queue) && i !in target
    requires (forall r :: r in list ==> unique[r] != id) && forall j :: j in queue ==> target[j] != id
    ensures WaitingOk(unique, target[i := id], list, queue + [i])
  {}

  lemma QueuedFates(s: State, i: nat, id: nat)
    requires Accounted(s) && Identified(s) && i !in s.target && i !in s.fates
    ensures Accounted(QueuedOf(s, i, id))
  {
    var t := QueuedOf(s, i, id);
    assert i !in s.finds;
    forall l | l in t.target ensures FateOk(t.unique, t.target, t.queue, t.finds, t.phase, t.fates, t.interrupted, l) {
      if l != i { assert l in s.target; }
    }
    KeepMarks(s, t, i);
    hide FateOk, HasMarked, IdsOk;
  }

  // A request arrives.

  /** All but that no INTERRUPT waits for it. */
  ghost predicate InvBut(s: State) {
    Identified(s) && Counted(s) && DestroyedOnce(s) && Accounted(s) && Exclusive(s) && CallsMade(s)
  }

  lemma ArrivalKeeps(s: State, r: nat, id: nat)
    requires Inv(s) && Fresh(s, r)
    ensures InvBut(ArrivalOf(s, r, id)) && r !in s.func
  {
    FreshIsNew(s, r);
    ArrivalCounts(s.unique, s.target, s.list, s.queue, s.refusing, s.finds, s.ctr, r, id);
    ArrivalDestroyed(s.unique, s.target, s.ctr, s.destroyed, r, id);
    ArrivalFates(s, r, id);
    ArrivalCalls(s, r, id);
    hide IdsOk, CountsOk, DestroyedOk, FatesOk, WaitingOk, LocksOk;
  }

  lemma ArrivalCounts(unique: Ids, target: Ids, list: seq<nat>, queue: seq<nat>, refusing: set<nat>,
                      finds: map<nat, nat>, ctr: map<nat, nat>, r: nat, id: nat)
    requires IdsOk(unique, target, list, queue, refusing, finds) &&
             CountsOk(unique, target, list, queue, refusing, finds, ctr)
    requires r !in unique && r !in target && r !in list
    ensures IdsOk(unique[r := id], target, list + [r], queue, refusing, finds)
    ensures CountsOk(unique[r := id], target, list + [r], queue, refusing, finds, ctr[r := 1])
  {}

  lemma ArrivalDestroyed(unique: Ids, target: Ids, ctr: map<nat, nat>, destroyed: seq<nat>, r: nat, id: nat)
    requires DestroyedOk(unique, target, ctr, destroyed) && r !in unique && r !in target
    ensures DestroyedOk(unique[r := id], target, ctr[r := 1], destroyed)
  {}

  lemma ArrivalFates(s: State, r: nat, id: nat)
    requires Accounted(s) && r !in s.unique
    ensures Accounted(ArrivalOf(s, r, id))
  {}

  lemma ArrivalCalls(s: State, r: nat, id: nat)
    requires CallsMade(s) && Exclusive(s) && r !in s.unique
    ensures CallsMade(ArrivalOf(s, r, id)) && Exclusive(ArrivalOf(s, r, id)) && r !in s.func
  {}

  lemma TakeIds(unique: Ids, target: Ids, list: seq<nat>, queue: seq<nat>, refusing: set<nat>, finds: map<nat, nat>,
                k: nat, refusing': set<nat>)
    requires IdsOk(unique, target, list, queue, refusing, finds) && k < |queue|
    requires refusing' <= refusing + {queue[k]}
    ensures queue[k] in target && queue[k] !in unique && IdsOk(unique, target, list, Cut(queue, k), refusing', finds)
  {}

  lemma TakeCounts(unique: Ids, target: Ids, list: seq<nat>, queue: seq<nat>, refusing: set<nat>, finds: map<nat, nat>,
                   ctr: map<nat, nat>, k: nat, dead: bool)
    requires IdsOk(unique, target, list, queue, refusing, finds) &&
             CountsOk(unique, target, list, queue, refusing, finds, ctr) && k < |queue|
    ensures var q := queue[k];
            && q in ctr
            && CountsOk(unique, target, list, Cut(queue, k), if dead then refusing else refusing + {q}, finds,
                        if dead then ctr - {q} else ctr)
  {}

  lemma CutAt(s: seq<nat>, k: nat)
    requires NoDup(s) && k < |s|
    ensures NoDup(Cut(s, k)) && forall y :: y in Cut(s, k) <==> y in s && y != s[k]
  {}

  lemma MarkedKeeps(s: State, k: nat, r: nat)
    requires InvBut(s) && k < |s.queue| && s.queue[k] in s.target && r in s.unique &&
             s.unique[r] == s.target[s.queue[k]] && r !in s.func
    ensures InvBut(MarkedOf(s, k, r))
  {
    var q := s.queue[k];
    TakeIds(s.unique, s.target, s.list, s.queue, s.refusing, s.finds, k, s.refusing);
    TakeCounts(s.unique, s.target, s.list, s.queue, s.refusing, s.finds, s.ctr, k, true);
    DestroyOnce(s.unique, s.target, s.ctr, s.destroyed, q);
    MarkedFates(s, k, r);
    MarkedCalls(s, r);
    hide IdsOk, CountsOk, DestroyedOk, FatesOk, LocksOk, CallsOk;
  }

  lemma MarkedCalls(s: State, r: nat)
    requires CallsMade(s) && r !in s.func
    ensures CallsMade(s.(interrupted := s.interrupted + {r}))
  {}

  lemma MarkedFates(s: State, k: nat, r: nat)
    requires Accounted(s) && Identified(s) && k < |s.queue| && s.queue[k] in s.target
    requires r in s.unique && s.unique[r] == s.target[s.queue[k]]
    ensures Accounted(MarkedOf(s, k, r))
  {
    var t, q := MarkedOf(s, k, r), s.queue[k];
    CutAt(s.queue, k);
    assert q in s.queue && q !in s.finds && q in s.fates && s.fates[q] == Waits && q !in s.phase;
    forall j | j in t.target ensures FateOk(t.unique, t.target, t.queue, t.finds, t.phase, t.fates, t.interrupted, j) {
      assert FateOk(s.unique, s.target, s.queue, s.finds, s.phase, s.fates, s.interrupted, j);
    }
    KeepMarks(s, t, q);
    assert HasMarked(t.unique, t.target, t.fates, q, r);
    hide FateOk, HasMarked, IdsOk;
  }

  lemma RefusedKeeps(s: State)
    requires InvBut(s) && s.queue != []
    ensures InvBut(RefusedOf(s))
  {
    TakeIds(s.unique, s.target, s.list, s.queue, s.refusing, s.finds, 0, s.refusing + {s.queue[0]});
    TakeCounts(s.unique, s.target, s.list, s.queue, s.refusing, s.finds, s.ctr, 0, false);
    RefusedFates(s);
    hide IdsOk, CountsOk, DestroyedOk, FatesOk, LocksOk, CallsOk;
  }

  lemma RefusedFates(s: State)
    requires Accounted(s) && Identified(s) && s.queue != []
    ensures Accounted(RefusedOf(s))
  {
    var t, q := RefusedOf(s), s.queue[0];
    CutAt(s.queue, 0);
    assert q in s.queue && q !in s.finds && q in s.fates && s.fates[q] == Waits && q !in s.phase;
    forall j | j in t.target ensures FateOk(t.unique, t.target, t.queue, t.finds, t.phase, t.fates, t.interrupted, j) {
      assert FateOk(s.unique, s.target, s.queue, s.finds, s.phase, s.fates, s.interrupted, j);
    }
    KeepMarks(s, t, q);
    hide FateOk, HasMarked, IdsOk;
  }

  lemma ArriveKeeps(s: State, r: nat, id: nat)
    requires Inv(s) && Fresh(s, r)
    ensures Inv(ArriveStep(s, r, id))
  {
    ArriveWaits(s, r, id);
    ArrivalKeeps(s, r, id);
    assert forall j :: j in s.queue ==> j in s.target;
    FirstFound(s.queue, s.target, id);
    var t, k := ArrivalOf(s, r, id), Find(s.queue, s.target, id);
    hide Find, Cut, IdsOk, CountsOk, DestroyedOk, FatesOk, LocksOk, CallsOk, WaitingOk;
    if k < |s.queue| {
      MarkedKeeps(t, k, r);
    } else if s.queue != [] {
      RefusedKeeps(t);
    }
  }

  ghost predicate SameBut(s: State, t: State, queue: seq<nat>) {
    && t.unique == s.unique && t.target == s.target && t.list == s.list && t.registrars == s.registrars
    && t.queue == queue && t.answered == s.answered
  }

  lemma MarkedFields(s: State, k: nat, r: nat)
    requires k < |s.queue|
    ensures SameBut(s, MarkedOf(s, k, r), Cut(s.queue, k))
  {
    hide Cut;
  }

  lemma RefusedFields(s: State)
    requires s.queue != []
    ensures SameBut(s, RefusedOf(s), Cut(s.queue, 0))
  {
    hide Cut;
  }

  /** What check_interrupt leaves of the queue. */
  function QueueAfter(s: State, id: nat): seq<nat> {
    var k := Find(s.queue, s.target, id);
    if k < |s.queue| then Cut(s.queue, k) else if s.queue != [] then Cut(s.queue, 0) else s.queue
  }

  lemma ArriveFields(s: State, r: nat, id: nat)
    ensures SameBut(ArrivalOf(s, r, id), ArriveStep(s, r, id), QueueAfter(s, id))
    ensures var t := ArrivalOf(s, r, id);
            t.unique == s.unique[r := id] && t.target == s.target && t.list == s.list + [r] &&
            t.registrars == s.registrars && t.queue == s.queue && t.answered == s.answered
  {
    var t, k := ArrivalOf(s, r, id), Find(s.queue, s.target, id);
    assert t.queue == s.queue && t.target == s.target;
    hide Find, Cut, MarkedOf, RefusedOf, ArrivalOf;
    if k < |s.queue| {
      MarkedFields(t, k, r);
    } else if s.queue != [] {
      RefusedFields(t);
    }
  }

  /** The one INTERRUPT that waits for the arrival does not stay in the queue. */
  lemma ArriveWaits(s: State, r: nat, id: nat)
    requires NoneMissed(s) && NoDup(s.queue) && r !in s.unique
    ensures NoneMissed(ArriveStep(s, r, id))
  {
    hide Find, Cut, NoDup, ArriveStep, ArrivalOf;
    assert forall j :: j in s.queue ==> j in s.target;
    FirstFound(s.queue, s.target, id);
    ArriveFields(s, r, id);
    hide WaitingOk;
    var k := Find(s.queue, s.target, id);
    if k < |s.queue| {
      TakenWaits(s.unique, s.target, s.list, s.queue, r, id, k);
    } else if s.queue != [] {
      LaterWait(s.unique, s.target, s.list, s.queue, r, id);
    } else {
      ArrivalWaits(s.unique, s.target, s.list, s.queue, r, id, s.queue);
    }
  }

  lemma TakenWaits(unique: Ids, target: Ids, list: seq<nat>, queue: seq<nat>, r: nat, id: nat, k: nat)
    requires WaitingOk(unique, target, list, queue) && NoDup(queue) && r !in unique
    requires k < |queue| && queue[k] in target && target[queue[k]] == id
    ensures WaitingOk(unique[r := id], target, list + [r], Cut(queue, k))
  {
    assert forall j :: j in queue ==> j in target;
    hide WaitingOk, Cut, NoDup;
    CutAt(queue, k);
    OnlyOneWaits(unique, target, list, queue, k);
    ArrivalWaits(unique, target, list, queue, r, id, Cut(queue, k));
  }

  lemma LaterWait(unique: Ids, target: Ids, list: seq<nat>, queue: seq<nat>, r: nat, id: nat)
    requires WaitingOk(unique, target, list, queue) && NoDup(queue) && r !in unique && queue != []
    requires forall j :: j in queue ==> j in target && target[j] != id
    ensures WaitingOk(unique[r := id], target, list + [r], Cut(queue, 0))
  {
    hide WaitingOk, Cut, NoDup;
    CutAt(queue, 0);
    ArrivalWaits(unique, target, list, queue, r, id, Cut(queue, 0));
  }

  lemma OnlyOneWaits(unique: Ids, target: Ids, list: seq<nat>, queue: seq<nat>, k: nat)
    requires WaitingOk(unique, target, list, queue) && k < |queue|
    ensures forall j :: j in queue && j != queue[k] ==> target[j] != target[queue[k]]
  {}

  lemma ArrivalWaits(unique: Ids, target: Ids, list: seq<nat>, queue: seq<nat>, r: nat, id: nat, rest: seq<nat>)
    requires WaitingOk(unique, target, list, queue) && r !in unique
    requires rest == queue || exists k :: 0 <= k < |queue| && rest == Cut(queue, k)
    requires forall j :: j in rest ==> j in target && target[j] != id
    ensures WaitingOk(unique[r := id], target, list + [r], rest)
  {}

  // ----- over all runs

  lemma StepKeeps(s: State, e: Event)
    requires Inv(s) && Step(s, e).Some?
    ensures Inv(Step(s, e).value)
  {
    hide Inv, Destroy, Drop, ArriveStep, InterruptStep;
    match e
    case Arrive(r, id) => ArriveKeeps(s, r, id);
    case Interrupt(i, id) => InterruptKeeps(s, i, id);
    case TakeLock(i) => TakeLockKeeps(s, i);
    case Mark(i) => MarkKeeps(s, i);
    case Call(i) => CallKeeps(s, i);
    case Release(i) => ReleaseKeeps(s, i);
    case Leave(i) => LeaveKeeps(s, i);
    case Refuse(i) => RefuseKeeps(s, i);
    case Ask(k, r, cb) => AskKeeps(s, k, r, cb);
    case Enter(k) => EnterKeeps(s, k);
    case Store(k) => StoreKeeps(s, k);
    case Check(k) => CheckKeeps(s, k);
    case Unlock(k) => UnlockKeeps(s, k);
    case Reply(r) => ReplyKeeps(s, r);
  }

  ghost function Run(s: State, es: seq<Event>): Option<State>
    decreases |es|
  {
    if es == [] then Some(s)
    else
      var r := Step(s, es[0]);
      if r == None then None else Run(r.value, es[1..])
  }

  lemma {:induction false} RunKeeps(s: State, es: seq<Event>)
    requires Inv(s) && Run(s, es).Some?
    ensures Inv(Run(s, es).value)
    decreases |es|
  {
    hide Inv, Step;
    if es != [] {
      StepKeeps(s, es[0]);
      RunKeeps(Step(s, es[0]).value, es[1..]);
    }
  }

  // ----- answers

  /** An INTERRUPT that is refused is to be answered, or has been. */
  ghost predicate AnsweredOk(s: State) {
    && (forall i :: i in s.fates && s.fates[i] == Refused ==> i in s.refusing || i in s.answered)
    && (forall i :: i in s.refusing || i in s.answered ==> i in s.fates && s.fates[i] == Refused)
    && s.refusing !! s.answered
  }

  ghost predicate SameAnswers(s: State, t: State) {
    t.fates == s.fates && t.refusing == s.refusing && t.answered == s.answered
  }

  /** Only these fates are decided by a step. */
  lemma ThreadLeaves(s: State, e: Event)
    requires Step(s, e).Some? && !e.Arrive? && !e.Interrupt? && !e.Mark? && !e.Refuse?
    ensures SameAnswers(s, Step(s, e).value)
  {
    hide LockHeld, Less, Cut, IndexIn;
  }

  lemma Undecided(s: State, i: nat)
    requires Accounted(s) && Identified(s)
    ensures At(s, i, Locked) ==> i !in s.fates
    ensures i in s.queue ==> i in s.fates && s.fates[i] == Waits
    ensures i in s.refusing ==> i !in s.finds
    ensures i in s.fates ==> i in s.target
  {
    if At(s, i, Locked) {
      assert i in s.target;
      assert FateOk(s.unique, s.target, s.queue, s.finds, s.phase, s.fates, s.interrupted, i);
    }
  }

  /** The fate of i is decided, which was not refused before. */
  lemma Decided(s: State, t: State, i: nat)
    requires AnsweredOk(s) && t.answered == s.answered && i in t.fates
    requires t.fates.Keys == s.fates.Keys + {i} && forall j :: j in s.fates && j != i ==> t.fates[j] == s.fates[j]
    requires i in s.fates ==> s.fates[i] != Refused
    requires t.refusing == if t.fates[i] == Refused then s.refusing + {i} else s.refusing
    ensures AnsweredOk(t)
  {}

  lemma ArriveAnswers(s: State, r: nat, id: nat)
    requires AnsweredOk(s) && Accounted(s) && Identified(s)
    ensures AnsweredOk(ArriveStep(s, r, id))
  {
    hide IdsOk, FatesOk, Cut, Find, AnsweredOk;
    var k, u, t := Find(s.queue, s.target, id), ArrivalOf(s, r, id), ArriveStep(s, r, id);
    if k < |s.queue| {
      Undecided(s, s.queue[k]);
      Decided(s, t, s.queue[k]);
    } else if s.queue != [] {
      Undecided(s, s.queue[0]);
      Decided(s, t, s.queue[0]);
    } else {
      StillAnswered(s, t);
    }
  }

  lemma StillAnswered(s: State, t: State)
    requires AnsweredOk(s) && SameAnswers(s, t)
    ensures AnsweredOk(t)
  {}

  lemma InterruptAnswers(s: State, i: nat, id: nat)
    requires AnsweredOk(s) && i !in s.fates
    ensures AnsweredOk(InterruptStep(s, i, id))
  {
    hide Find, FoundOf, DuplicateOf, QueuedOf, AnsweredOk;
    var j, k := Find(s.list, s.unique, id), Find(s.queue, s.target, id);
    if j < |s.list| {
      FoundAnswers(s, i, id, s.list[j]);
    } else if k < |s.queue| {
      DuplicateAnswers(s, i, id, s.queue[k]);
    } else {
      QueuedAnswers(s, i, id);
    }
  }

  lemma FoundAnswers(s: State, i: nat, id: nat, r: nat)
    requires AnsweredOk(s)
    ensures AnsweredOk(FoundOf(s, i, id, r))
  {
    hide More, AnsweredOk;
    StillAnswered(s, FoundOf(s, i, id, r));
  }

  lemma DuplicateAnswers(s: State, i: nat, id: nat, j: nat)
    requires AnsweredOk(s) && i !in s.fates
    ensures AnsweredOk(DuplicateOf(s, i, id, j))
  {
    hide AnsweredOk;
    Decided(s, DuplicateOf(s, i, id, j), i);
  }

  lemma QueuedAnswers(s: State, i: nat, id: nat)
    requires AnsweredOk(s) && i !in s.fates
    ensures AnsweredOk(QueuedOf(s, i, id))
  {
    hide AnsweredOk;
    Decided(s, QueuedOf(s, i, id), i);
  }

  lemma StepAnswers(s: State, e: Event)
    requires Inv(s) && AnsweredOk(s) && Step(s, e).Some?
    ensures AnsweredOk(Step(s, e).value)
  {
    hide IdsOk, CountsOk, DestroyedOk, FatesOk, WaitingOk, LocksOk, CallsOk, AnsweredOk, ArriveStep, InterruptStep,
         LockHeld, Less;
    match e
    case Arrive(r, id) => ArriveAnswers(s, r, id);
    case Interrupt(i, id) =>
      Undecided(s, i);
      InterruptAnswers(s, i, id);
    case Mark(i) =>
      Undecided(s, i);
      Decided(s, MarkOf(s, i), i);
    case Refuse(i) => RefuseAnswers(s, i);
    case _ =>
      ThreadLeaves(s, e);
      StillAnswered(s, Step(s, e).value);
  }

  lemma RefuseAnswers(s: State, i: nat)
    requires AnsweredOk(s) && i in s.refusing
    ensures AnsweredOk(RefuseOf(s, i))
  {
    hide Less;
  }

  lemma {:induction false} RunAnswers(s: State, es: seq<Event>)
    requires Inv(s) && AnsweredOk(s) && Run(s, es).Some?
    ensures AnsweredOk(Run(s, es).value)
    decreases |es|
  {
    hide Inv, Step, AnsweredOk;
    if es != [] {
      StepKeeps(s, es[0]);
      StepAnswers(s, es[0]);
      RunAnswers(Step(s, es[0]).value, es[1..]);
    }
  }

  /** In every run, a refused INTERRUPT is still to be answered or has been; it is not destroyed before. */
  lemma RefusedIsAnswered(es: seq<Event>, i: nat)
    requires Run(initial, es).Some?
    ensures var s := Run(initial, es).value;
            i in s.fates && s.fates[i] == Refused ==> (i in s.refusing) != (i in s.answered)
    ensures var s := Run(initial, es).value;
            i in s.fates && s.fates[i] == Refused ==> (i in s.destroyed <==> i in s.answered)
  {
    hide Run, IdsOk, CountsOk, DestroyedOk, FatesOk, WaitingOk, LocksOk, CallsOk;
    InitOk();
    InitAnswers();
    RunKeeps(initial, es);
    RunAnswers(initial, es);
    var s := Run(initial, es).value;
    Undecided(s, i);
    if i in s.fates && s.fates[i] == Refused { AliveIfRefusing(s, i); }
  }

  lemma AliveIfRefusing(s: State, i: nat)
    requires Identified(s) && Counted(s) && DestroyedOnce(s) && Accounted(s) && i in s.target
    requires i in s.fates && s.fates[i] == Refused
    ensures i in s.destroyed <==> i !in s.refusing
  {
    assert FateOk(s.unique, s.target, s.queue, s.finds, s.phase, s.fates, s.interrupted, i);
    assert IntrCountOk(s.queue, s.refusing, s.finds, s.ctr, i);
  }

  /** An answer is a step of its own. */
  lemma AnswerStep(s: State, e: Event)
    requires Step(s, e).Some?
    ensures Step(s, e).value.answered == s.answered + if e.Refuse? then {e.intr} else {}
  {
    hide LockHeld, Less, Cut, IndexIn, ArriveStep, InterruptStep, ArrivalOf;
    match e
    case Arrive(r, id) => ArriveFields(s, r, id);
    case Interrupt(i, id) => InterruptAnswered(s, i, id);
    case Mark(i) =>
    case Refuse(i) =>
    case _ => ThreadLeaves(s, e);
  }

  lemma InterruptAnswered(s: State, i: nat, id: nat)
    ensures InterruptStep(s, i, id).answered == s.answered
  {
    hide Find, FoundOf, DuplicateOf, QueuedOf;
    var j, k := Find(s.list, s.unique, id), Find(s.queue, s.target, id);
    if j < |s.list| {
      FoundFields(s, i, id, s.list[j]);
    } else if k < |s.queue| {
      DuplicateFields(s, i, id, s.queue[k]);
    } else {
      QueuedFields(s, i, id);
    }
  }

  lemma {:induction false} AnsweredByRefuse(s: State, es: seq<Event>, i: nat)
    requires Run(s, es).Some?
    ensures i in Run(s, es).value.answered <==> i in s.answered || Refuse(i) in es
    decreases |es|
  {
    hide Step;
    if es != [] {
      AnswerStep(s, es[0]);
      AnsweredByRefuse(Step(s, es[0]).value, es[1..], i);
    }
  }

  // ----- what steps do, in terms of the lists

  /** An arriving request is marked by the INTERRUPT that waits for it, which is destroyed. */
  lemma ArriveMarks(s: State, r: nat, id: nat, i: nat)
    requires Inv(s) && Fresh(s, r) && i in s.queue && s.target[i] == id
    ensures var t := ArriveStep(s, r, id);
            && t.list == s.list + [r] && t.unique == s.unique[r := id] && t.refusing == s.refusing
            && t.interrupted == s.interrupted + {r} && t.destroyed == s.destroyed + [i]
            && t.fates == s.fates[i := MarkedArrival(r)] && (forall j :: j in t.queue <==> j in s.queue && j != i)
  {
    hide CountsOk, DestroyedOk, FatesOk, LocksOk, CallsOk;
    Known(s);
    FirstFound(s.queue, s.target, id);
    var k := Find(s.queue, s.target, id);
    OnlyOneWaits(s.unique, s.target, s.list, s.queue, k);
    CutAt(s.queue, k);
    hide IdsOk, WaitingOk, Find, Cut;
  }

  /** If none waits for it, the first of the queue, and no other, leaves it and is to be answered. */
  lemma ArriveRefuses(s: State, r: nat, id: nat)
    requires Inv(s) && Fresh(s, r) && forall i :: i in s.queue ==> i in s.target && s.target[i] != id
    ensures var t := ArriveStep(s, r, id);
            && t.list == s.list + [r] && t.unique == s.unique[r := id]
            && t.interrupted == s.interrupted && t.destroyed == s.destroyed && t.answered == s.answered
            && if s.queue == [] then t.queue == [] && t.refusing == s.refusing && t.fates == s.fates
               else && t.queue == s.queue[1..] && t.refusing == s.refusing + {s.queue[0]}
                    && t.fates == s.fates[s.queue[0] := Refused]
  {
    hide Inv, Find;
    FirstFound(s.queue, s.target, id);
  }

  /** An INTERRUPT for a request in flight finds it, one like a waiting one is destroyed, and any other waits. */
  lemma InterruptIs(s: State, i: nat, id: nat)
    requires Inv(s) && Fresh(s, i)
    ensures var t := InterruptStep(s, i, id);
            && t.target == s.target[i := id] && t.list == s.list
            && if exists r :: r in s.list && s.unique[r] == id then
                 && i in t.finds && t.finds[i] in s.list && s.unique[t.finds[i]] == id &&
                    t.phase == s.phase[i := Waiting]
                 && t.queue == s.queue && t.destroyed == s.destroyed
               else if exists j :: j in s.queue && s.target[j] == id then
                 t.finds == s.finds && t.queue == s.queue && t.destroyed == s.destroyed + [i]
               else
                 t.finds == s.finds && t.queue == s.queue + [i] && t.destroyed == s.destroyed
  {
    hide IdsOk, CountsOk, DestroyedOk, FatesOk, LocksOk, CallsOk, WaitingOk, Find, FoundOf, DuplicateOf, QueuedOf;
    Known(s);
    FirstFound(s.list, s.unique, id);
    FirstFound(s.queue, s.target, id);
    var j, k := Find(s.list, s.unique, id), Find(s.queue, s.target, id);
    if j < |s.list| {
      FoundFields(s, i, id, s.list[j]);
    } else if k < |s.queue| {
      DuplicateFields(s, i, id, s.queue[k]);
    } else {
      QueuedFields(s, i, id);
    }
  }

  lemma FoundFields(s: State, i: nat, id: nat, r: nat)
    ensures var t := FoundOf(s, i, id, r);
            && t.target == s.target[i := id] && t.list == s.list && t.queue == s.queue && t.destroyed == s.destroyed
            && t.finds == s.finds[i := r] && t.phase == s.phase[i := Waiting] && t.answered == s.answered
  {
    hide More;
  }

  lemma DuplicateFields(s: State, i: nat, id: nat, j: nat)
    ensures var t := DuplicateOf(s, i, id, j);
            && t.target == s.target[i := id] && t.list == s.list && t.queue == s.queue && t.finds == s.finds
            && t.destroyed == s.destroyed + [i] && t.answered == s.answered
  {}

  lemma QueuedFields(s: State, i: nat, id: nat)
    ensures var t := QueuedOf(s, i, id);
            && t.target == s.target[i := id] && t.list == s.list && t.queue == s.queue + [i] && t.finds == s.finds
            && t.destroyed == s.destroyed && t.answered == s.answered
  {}

  /** A callback is called by these two steps and no other. */
  lemma CallStep(s: State, e: Event)
    requires Step(s, e).Some?
    ensures Step(s, e).value.called ==
            s.called + match e
                       case Call(i) => if s.phase[i].cb == None then {} else {s.phase[i].cb.value}
                       case Check(k) =>
                         var g := s.registrars[k];
                         if g.req in s.interrupted && g.cb != None then {g.cb.value} else {}
                       case _ => {}
  {
    if e.Arrive? { ArrivalLeaves(s, e.req, e.id); }
    if e.Interrupt? { InterruptLeaves(s, e.intr, e.id); }
    hide LockHeld, Less, Cut, IndexIn, ArriveStep, InterruptStep;
  }

  /** The thread of i, if there is one, has called the callback. */
  ghost predicate HasCalled(s: State, i: nat) {
    i in s.target && (i in s.phase ==> s.phase[i] == Called || s.phase[i] == Leaving)
  }

  lemma CalledStays(s: State, e: Event, i: nat)
    requires Step(s, e).Some? && (HasCalled(s, i) || (e == Call(i) && i in s.target))
    ensures HasCalled(Step(s, e).value, i)
  {
    if e.Arrive? {
      ArriveFields(s, e.req, e.id);
      ArrivalLeaves(s, e.req, e.id);
    }
    if e.Interrupt? {
      InterruptTargets(s, e.intr, e.id);
      InterruptLeaves(s, e.intr, e.id);
      if i in s.phase { assert i in s.phase - {e.intr} && (s.phase - {e.intr})[i] == s.phase[i]; }
      var t := InterruptStep(s, e.intr, e.id);
      if i in t.phase { assert i in t.phase - {e.intr} && (t.phase - {e.intr})[i] == t.phase[i]; }
    }
    hide LockHeld, Less, Cut, IndexIn, ArriveStep, InterruptStep, ArrivalOf;
  }

  lemma InterruptTargets(s: State, i: nat, id: nat)
    ensures InterruptStep(s, i, id).target == s.target[i := id]
  {
    hide Find, FoundOf, DuplicateOf, QueuedOf;
    var j, k := Find(s.list, s.unique, id), Find(s.queue, s.target, id);
    if j < |s.list| {
      FoundFields(s, i, id, s.list[j]);
    } else if k < |s.queue| {
      DuplicateFields(s, i, id, s.queue[k]);
    } else {
      QueuedFields(s, i, id);
    }
  }

  lemma {:induction false} CalledBefore(s: State, es: seq<Event>, i: nat)
    requires Run(s, es).Some? && HasCalled(s, i)
    ensures Call(i) !in es
    decreases |es|
  {
    if es != [] {
      CalledStays(s, es[0], i);
      assert es[0] != Call(i);
      CalledBefore(Step(s, es[0]).value, es[1..], i);
    }
    hide Step;
  }

  /** The thread of an INTERRUPT calls once. */
  lemma CallsOnce(es: seq<Event>, j: nat, k: nat, i: nat)
    requires Run(initial, es).Some? && j < k < |es| && es[j] == Call(i)
    ensures es[k] != Call(i)
  {
    var front, rest := es[..j], es[j..];
    assert es == front + rest && rest[0] == Call(i) && rest[1..] == es[j + 1..];
    RunFront(initial, front, rest);
    RunOn(initial, front, rest);
    InitOk();
    RunKeeps(initial, front);
    var s := Run(initial, front).value;
    Unfolded(s);
    FoundIsTarget(s);
    FinderKnown(s, i);
    hide Run, Inv;
    CallAtFront(s, rest, i);
    assert es[k] == rest[1..][k - j - 1];
  }

  lemma FinderKnown(s: State, i: nat)
    requires Inv(s) && i in s.phase
    ensures i in s.target
  {
    hide IdsOk, CountsOk, DestroyedOk, WaitingOk, LocksOk, CallsOk;
    assert i in s.finds;
    FoundIsTarget(s);
  }

  lemma CallAtFront(s: State, es: seq<Event>, i: nat)
    requires es != [] && es[0] == Call(i) && Run(s, es).Some? && i in s.target
    ensures Call(i) !in es[1..]
  {
    CalledStays(s, Call(i), i);
    CalledBefore(Step(s, Call(i)).value, es[1..], i);
  }

  /** Every INTERRUPT that has arrived is accounted for. */
  ghost predicate Explained(s: State, i: nat) {
    // a thread has found its request, and will mark it
    || (At(s, i, Waiting) && s.finds[i] in s.ctr)
    || (At(s, i, Locked) && s.finds[i] in s.ctr)
    // it has marked the request it was for, in flight or on arrival
    || (exists r :: HasMarked(s.unique, s.target, s.fates, i, r) && r in s.interrupted)
    // it waits, and its request is not in flight
    || (i in s.queue && i in s.target && forall r :: r in s.list && r in s.unique ==> s.unique[r] != s.target[i])
    // it was for the same request as an earlier one, or it is answered EAGAIN
    || (i in s.fates && i in s.target && s.fates[i].Duplicate? && s.fates[i].of in s.target &&
        s.target[s.fates[i].of] == s.target[i])
    || (i in s.fates && s.fates[i] == Refused && (i in s.refusing || i in s.answered))
  }

  lemma EveryInterruptExplained(es: seq<Event>, i: nat)
    requires Run(initial, es).Some? && i in Run(initial, es).value.target
    ensures Explained(Run(initial, es).value, i)
  {
    hide Run, Inv, AnsweredOk, Explained;
    InitOk();
    InitAnswers();
    RunKeeps(initial, es);
    RunAnswers(initial, es);
    InvExplains(Run(initial, es).value, i);
  }

  lemma InvExplains(s: State, i: nat)
    requires Inv(s) && AnsweredOk(s) && i in s.target
    ensures Explained(s, i)
  {
    hide IdsOk, CountsOk, DestroyedOk, FatesOk, WaitingOk, LocksOk, CallsOk, AnsweredOk, Explained;
    FateExplains(s, i);
  }

  lemma InitAnswers()
    ensures AnsweredOk(initial)
  {}

  lemma FateExplains(s: State, i: nat)
    requires Identified(s) && Counted(s) && Accounted(s) && NoneMissed(s) && AnsweredOk(s) && i in s.target
    ensures Explained(s, i)
  {
    assert FateOk(s.unique, s.target, s.queue, s.finds, s.phase, s.fates, s.interrupted, i);
    assert IntrCountOk(s.queue, s.refusing, s.finds, s.ctr, i);
    if i in s.finds { FoundIsCounted(s, i); }
    hide CountsOk, NoDup, Finding;
  }

  /** No request is marked but by an INTERRUPT that was for it. */
  lemma OnlyInterrupted(es: seq<Event>, r: nat)
    requires Run(initial, es).Some? && r in Run(initial, es).value.interrupted
    ensures var s := Run(initial, es).value; exists i :: i in s.target && r in s.unique && s.target[i] == s.unique[r]
  {
    var s := Run(initial, es).value;
    InitOk();
    RunKeeps(initial, es);
    var i :| HasMarked(s.unique, s.target, s.fates, i, r);
  }

  /** A list has the request, or a thread is at work with it. */
  ghost predicate InUse(s: State, x: nat) {
    || x in s.list || x in s.queue || x in s.refusing || x in s.finds
    || exists i :: i in s.finds && s.finds[i] == x
  }

  lemma InUseIsAlive(s: State, x: nat)
    requires Identified(s) && Counted(s) && (x in s.unique || x in s.target)
    ensures x in s.ctr <==> InUse(s, x)
  {
    if x in s.unique {
      assert CountOk(s.list, s.finds, s.ctr, x);
      if i :| i in s.finds && s.finds[i] == x { assert i in Finding(s.finds, x); }
    } else {
      assert IntrCountOk(s.queue, s.refusing, s.finds, s.ctr, x);
      assert forall i :: i in s.finds ==> s.finds[i] in s.unique;
    }
  }

  lemma InUseHasArrived(s: State, x: nat)
    requires Identified(s) && InUse(s, x)
    ensures x in s.unique || x in s.target
  {}

  /** No request is destroyed twice; one that is in use has not been destroyed, and any other has. */
  lemma DestroyedExactlyOnce(es: seq<Event>, x: nat)
    requires Run(initial, es).Some?
    requires var s := Run(initial, es).value; x in s.unique || x in s.target
    ensures var s := Run(initial, es).value; NoDup(s.destroyed) && (x !in s.destroyed <==> InUse(s, x))
  {
    InitOk();
    RunKeeps(initial, es);
    InUseIsAlive(Run(initial, es).value, x);
    hide InUse, IdsOk, CountsOk, FatesOk, CallsOk, LocksOk, WaitingOk;
  }

  // A callback that was registered while its request was interrupted is called, whatever becomes of the request.

  /** Request r is interrupted, and its callback cb has been called or is about to be. */
  ghost predicate Told(s: State, r: nat, cb: nat) {
    r in s.interrupted && Notified(s.finds, s.phase, s.registrars, s.called, r, cb)
  }

  lemma FoundIsTarget(s: State)
    requires Identified(s)
    ensures forall i :: i in s.finds ==> i in s.target
  {}

  lemma TellKeeps(s: State, t: State, r: nat, cb: nat)
    requires Told(s, r, cb) && s.interrupted <= t.interrupted && s.called <= t.called
    requires forall i :: AboutTo(s.finds, s.phase, i, r, cb) ==> cb in t.called || AboutTo(t.finds, t.phase, i, r, cb)
    requires forall k :: Ready(s.registrars, k, r, cb) ==> cb in t.called || Ready(t.registrars, k, r, cb)
    ensures Told(t, r, cb)
  {
    if k :| Ready(s.registrars, k, r, cb) {
      assert cb in t.called || Ready(t.registrars, k, r, cb);
    }
    if i :| AboutTo(s.finds, s.phase, i, r, cb) {
      assert cb in t.called || AboutTo(t.finds, t.phase, i, r, cb);
    }
  }

  /** All that has to do with callbacks is the same, but that another request may be marked. */
  ghost predicate SameCalls(s: State, t: State) {
    && t.finds == s.finds && t.phase == s.phase && t.registrars == s.registrars && t.called == s.called
    && s.interrupted <= t.interrupted
  }

  lemma MarkedLeaves(s: State, k: nat, r: nat)
    requires k < |s.queue|
    ensures SameCalls(s, MarkedOf(s, k, r))
  {
    hide Cut;
  }

  lemma RefusedLeaves(s: State)
    requires s.queue != []
    ensures SameCalls(s, RefusedOf(s))
  {
    hide Cut;
  }

  lemma ArrivalLeaves(s: State, r: nat, id: nat)
    ensures SameCalls(s, ArriveStep(s, r, id))
  {
    var k, t := Find(s.queue, s.target, id), ArrivalOf(s, r, id);
    assert SameCalls(s, t) && t.queue == s.queue;
    hide Find, MarkedOf, RefusedOf, ArrivalOf;
    if k < |s.queue| {
      MarkedLeaves(t, k, r);
    } else if s.queue != [] {
      RefusedLeaves(t);
    }
  }

  /** What there is of threads and callbacks stays, and a thread more may have found a request. */
  ghost predicate OneFinderMore(s: State, t: State, i: nat) {
    && t.registrars == s.registrars && t.interrupted == s.interrupted && t.called == s.called
    && t.finds - {i} == s.finds - {i} && t.phase - {i} == s.phase - {i}
  }

  lemma FoundLeaves(s: State, i: nat, id: nat, r: nat)
    ensures OneFinderMore(s, FoundOf(s, i, id, r), i)
  {
    hide More;
  }

  lemma InterruptLeaves(s: State, i: nat, id: nat)
    ensures OneFinderMore(s, InterruptStep(s, i, id), i)
  {
    var j, k := Find(s.list, s.unique, id), Find(s.queue, s.target, id);
    if j < |s.list| { FoundLeaves(s, i, id, s.list[j]); }
    assert forall of :: OneFinderMore(s, DuplicateOf(s, i, id, of), i);
    assert OneFinderMore(s, QueuedOf(s, i, id), i);
    hide OneFinderMore, FoundOf, QueuedOf, DuplicateOf, Find;
  }

  lemma Others(s: State, t: State, i: nat, j: nat)
    requires OneFinderMore(s, t, i) && j != i && j in s.finds && j in s.phase
    ensures j in t.finds && t.finds[j] == s.finds[j] && j in t.phase && t.phase[j] == s.phase[j]
  {
    assert j in s.finds - {i} && j in s.phase - {i};
    assert (t.finds - {i})[j] == s.finds[j] && (t.phase - {i})[j] == s.phase[j];
  }

  lemma FinderStays(s: State, e: Event, i: nat)
    requires Identified(s) && Step(s, e).Some? && i in s.finds && i in s.phase && s.phase[i].Calling?
    ensures var t := Step(s, e).value;
            e == Call(i) || (i in t.finds && i in t.phase && t.finds[i] == s.finds[i] && t.phase[i] == s.phase[i])
  {
    FoundIsTarget(s);
    if e.Arrive? { ArrivalLeaves(s, e.req, e.id); }
    if e.Interrupt? {
      InterruptLeaves(s, e.intr, e.id);
      Others(s, InterruptStep(s, e.intr, e.id), e.intr, i);
    }
    hide IdsOk, ArriveStep, InterruptStep, OneFinderMore, Cut, IndexIn, Less, LockHeld;
  }

  lemma RegistrarStays(s: State, e: Event, k: nat)
    requires Step(s, e).Some? && k in s.registrars
    ensures var t := Step(s, e).value;
            || e == Enter(k) || e == Store(k) || e == Check(k) || e == Unlock(k)
            || (k in t.registrars && t.registrars[k] == s.registrars[k])
  {
    if e.Arrive? { ArrivalLeaves(s, e.req, e.id); }
    if e.Interrupt? { InterruptLeaves(s, e.intr, e.id); }
    hide ArriveStep, InterruptStep, Cut, IndexIn, Less;
  }

  lemma MarksAndCallsStay(s: State, e: Event)
    requires Step(s, e).Some?
    ensures s.interrupted <= Step(s, e).value.interrupted && s.called <= Step(s, e).value.called
  {
    if e.Arrive? { ArrivalLeaves(s, e.req, e.id); }
    if e.Interrupt? { InterruptLeaves(s, e.intr, e.id); }
    hide ArriveStep, InterruptStep, Cut, IndexIn, Less, LockHeld;
  }

  /** Neither a reply nor any other step takes back a call that is due. */
  lemma StaysTold(s: State, e: Event, r: nat, cb: nat)
    requires Identified(s) && Step(s, e).Some? && Told(s, r, cb)
    ensures Told(Step(s, e).value, r, cb)
  {
    var t := Step(s, e).value;
    assert e.Call? && AboutTo(s.finds, s.phase, e.intr, r, cb) ==> cb in t.called;
    forall k | Ready(s.registrars, k, r, cb) ensures cb in t.called || Ready(t.registrars, k, r, cb) {
      RegistrarStays(s, e, k);
    }
    MarksAndCallsStay(s, e);
    hide Step, IdsOk, Notified;
    forall i | AboutTo(s.finds, s.phase, i, r, cb) ensures cb in t.called || AboutTo(t.finds, t.phase, i, r, cb) {
      FinderStays(s, e, i);
    }
    TellKeeps(s, t, r, cb);
  }

  lemma {:induction false} RunStaysTold(s: State, es: seq<Event>, r: nat, cb: nat)
    requires Inv(s) && Run(s, es).Some? && Told(s, r, cb)
    ensures Told(Run(s, es).value, r, cb)
    decreases |es|
  {
    hide Inv, Step, Told;
    if es != [] {
      StepKeeps(s, es[0]);
      Unfolded(s);
      StaysTold(s, es[0], r, cb);
      RunStaysTold(Step(s, es[0]).value, es[1..], r, cb);
    }
  }

  lemma Unfolded(s: State)
    requires Inv(s)
    ensures Identified(s) && Exclusive(s) && CallsMade(s)
  {}

  lemma {:induction false} RunOn(s: State, es: seq<Event>, more: seq<Event>)
    requires Run(s, es).Some?
    ensures Run(s, es + more) == Run(Run(s, es).value, more)
    decreases |es|
  {
    if es == [] {
      assert es + more == more;
    } else {
      assert (es + more)[1..] == es[1..] + more;
      RunOn(Step(s, es[0]).value, es[1..], more);
    }
  }

  /** If at any time a request is interrupted and has a callback, then whenever afterwards no thread has the request's
      lock, that callback has been called: also when the request has been replied to or has another callback by then. */
  lemma InterruptedIsCalled(es: seq<Event>, more: seq<Event>, r: nat)
    requires Run(initial, es).Some? && Run(initial, es + more).Some?
    requires var s := Run(initial, es).value; r in s.func && r in s.interrupted
    requires !LockHeld(Run(initial, es + more).value, r)
    ensures Run(initial, es).value.func[r] in Run(initial, es + more).value.called
  {
    hide Run, Inv, Told, LockHeld;
    InitOk();
    RunKeeps(initial, es);
    RunOn(initial, es, more);
    var s, t := Run(initial, es).value, Run(initial, es + more).value;
    TellsFirst(s, r);
    RunStaysTold(s, more, r, s.func[r]);
    ToldInTheEnd(t, r, s.func[r]);
  }

  lemma TellsFirst(s: State, r: nat)
    requires Inv(s) && r in s.func && r in s.interrupted
    ensures Told(s, r, s.func[r])
  {
    Unfolded(s);
    hide Inv, Notified;
  }

  lemma ToldInTheEnd(t: State, r: nat, cb: nat)
    requires Told(t, r, cb) && !LockHeld(t, r)
    ensures cb in t.called
  {}

  /** The race: a thread has marked request 0 and read its callback 7, and the reply comes before the call. */
  function ReplyBeforeCall(): seq<Event> {
    [Arrive(0, 5), Ask(9, 0, Some(7)), Enter(9), Store(9), Check(9), Unlock(9),
     Interrupt(1, 5), TakeLock(1), Mark(1), Reply(0), Call(1)]
  }

  /** A run spelled out state by state. */
  lemma {:induction false} RunThrough(s: State, es: seq<Event>, states: seq<State>)
    requires |states| == |es| + 1 && states[0] == s
    requires forall i :: 0 <= i < |es| ==> Step(states[i], es[i]) == Some(states[i + 1])
    ensures Run(s, es) == Some(states[|es|])
    decreases |es|
  {
    hide Step;
    if es != [] { RunThrough(states[1], es[1..], states[1..]); }
  }

  /** The state after the first six steps: request 0 is in flight and has the callback. */
  const prepared :=
      State(map[0 := 5], map[], [0], [], map[0 := 1], {}, map[0 := 7], map[], map[], map[], {}, map[], [], map[7 := 0],
          {}, {})

  /** What registering a callback comes to, up to the unlocking, when no other thread is in the way. */
  function RegisterOf(s: State, k: nat, r: nat, cb: nat): State {
    CheckOf(StoreOf(EnterOf(AskOf(s, k, r, Some(cb)), k), k), k)
  }

  lemma RegisterRun(s: State, k: nat, r: nat, cb: nat)
    requires r in s.list && k !in s.registrars && !LockHeld(s, r) && cb !in s.registered
    ensures Run(s, [Ask(k, r, Some(cb)), Enter(k), Store(k), Check(k)]) == Some(RegisterOf(s, k, r, cb))
  {
    var s1 := AskOf(s, k, r, Some(cb));
    var s2 := EnterOf(s1, k);
    var s3 := StoreOf(s2, k);
    AskedIsFree(s, k, r, Some(cb));
    hide LockHeld;
    assert Step(s1, Enter(k)) == Some(s2);
    assert Step(s2, Store(k)) == Some(s3) && Step(s3, Check(k)) == Some(CheckOf(s3, k));
    hide Step, AskOf, EnterOf, StoreOf, CheckOf;
    assert Step(s, Ask(k, r, Some(cb))) == Some(s1) by { Asks(s, k, r, cb); }
    RunThrough(s, [Ask(k, r, Some(cb)), Enter(k), Store(k), Check(k)], [s, s1, s2, s3, RegisterOf(s, k, r, cb)]);
  }

  lemma Asks(s: State, k: nat, r: nat, cb: nat)
    requires r in s.list && k !in s.registrars && cb !in s.registered
    ensures Step(s, Ask(k, r, Some(cb))) == Some(AskOf(s, k, r, Some(cb)))
  {
    hide LockHeld;
  }

  lemma AskedIsFree(s: State, k: nat, r: nat, cb: Option<nat>)
    requires k !in s.registrars && !LockHeld(s, r)
    ensures !LockHeld(AskOf(s, k, r, cb), r)
  {}

  lemma RaceArrives()
    ensures Step(initial, Arrive(0, 5)) == Some(ArrivalOf(initial, 0, 5))
  {}

  lemma RaceRegisters()
    ensures var s := ArrivalOf(initial, 0, 5);
            Run(s, ReplyBeforeCall()[1..5]) == Some(RegisterOf(s, 9, 0, 7)) &&
            Step(RegisterOf(s, 9, 0, 7), Unlock(9)) == Some(prepared)
  {
    var s := ArrivalOf(initial, 0, 5);
    RaceUnlocks();
    assert ReplyBeforeCall()[1..5] == [Ask(9, 0, Some(7)), Enter(9), Store(9), Check(9)];
    assert s.list[0] == 0 && !LockHeld(s, 0);
    hide Run, Step, LockHeld, RegisterOf;
    RegisterRun(s, 9, 0, 7);
  }

  lemma RaceUnlocks()
    ensures Step(RegisterOf(ArrivalOf(initial, 0, 5), 9, 0, 7), Unlock(9)) == Some(prepared)
  {
    assert UnlockOf(RegisterOf(ArrivalOf(initial, 0, 5), 9, 0, 7), 9) == prepared;
  }

  lemma RaceBegins()
    ensures Run(initial, ReplyBeforeCall()) == Run(prepared, ReplyBeforeCall()[6..])
  {
    hide Step, RegisterOf, ArrivalOf;
    var es := ReplyBeforeCall();
    RaceArrives();
    RaceRegisters();
    RunOn(ArrivalOf(initial, 0, 5), es[1..5], es[5..]);
    assert es[1..5] + es[5..] == es[1..] && es[5..][1..] == es[6..];
  }

  /** The state after the next three: a thread has marked the request and read the callback. */
  const marking := State(map[0 := 5], map[1 := 5], [0], [], map[0 := 2, 1 := 1], {0}, map[0 := 7], map[1 := 0],
                         map[1 := Calling(Some(7))], map[], {}, map[1 := MarkedInFlight(0)], [], map[7 := 0], {}, {})

  /** And between these two: the thread has found the request, and has its lock. */
  const found := State(map[0 := 5], map[1 := 5], [0], [], map[0 := 2, 1 := 1], {}, map[0 := 7], map[1 := 0],
                       map[1 := Waiting], map[], {}, map[], [], map[7 := 0], {}, {})

  lemma RaceFinds()
    ensures Step(prepared, Interrupt(1, 5)) == Some(found)
  {
    assert prepared.list[0] == 0 && Find(prepared.list, prepared.unique, 5) == 0;
    assert FoundOf(prepared, 1, 5, 0) == found;
    hide FoundOf;
  }

  lemma RaceLocks()
    ensures Step(found, TakeLock(1)) == Some(TakeLockOf(found, 1)) &&
            Step(TakeLockOf(found, 1), Mark(1)) == Some(marking)
  {
    assert MarkOf(TakeLockOf(found, 1), 1) == marking;
  }

  lemma RaceGoesOn()
    ensures Run(prepared, ReplyBeforeCall()[6..]) == Run(marking, ReplyBeforeCall()[9..])
  {
    var es := ReplyBeforeCall();
    RaceFinds();
    RaceLocks();
    hide Step, TakeLockOf;
    RunThrough(prepared, es[6..9], [prepared, found, TakeLockOf(found, 1), marking]);
    RunOn(prepared, es[6..9], es[9..]);
    assert es[6..9] + es[9..] == es[6..];
  }

  lemma RaceStep()
    ensures 0 in marking.list && Step(marking, Reply(0)) == Some(ReplyOf(marking, 0))
  {
    assert marking.list == [0] && marking.registrars == map[];
  }

  lemma RaceStepToo()
    ensures 0 in marking.list
    ensures var s := ReplyOf(marking, 0); 1 in s.phase && s.phase[1].Calling? && Step(s, Call(1)) == Some(CallOf(s, 1))
    ensures var r := CallOf(ReplyOf(marking, 0), 1); 7 in r.called && 0 !in r.func && 0 in r.ctr
  {
    assert marking.list == [0];
  }

  /** The call of the callback survives the reply: the request leaves the list, but lives on until the call is made. */
  lemma ReplyRaces()
    ensures var r := Run(initial, ReplyBeforeCall());
            r.Some? && 7 in r.value.called && 0 !in r.value.func && 0 in r.value.ctr
  {
    RaceBegins();
    RaceGoesOn();
    RaceStep();
    RaceStepToo();
    hide Step, ReplyOf, CallOf;
    RunThrough(marking, ReplyBeforeCall()[9..], [marking, ReplyOf(marking, 0), CallOf(ReplyOf(marking, 0), 1)]);
  }

  lemma OnlyInterruptedIsCalled(es: seq<Event>, cb: nat)
    requires Run(initial, es).Some? && cb in Run(initial, es).value.called
    ensures var s := Run(initial, es).value; cb in s.registered && s.registered[cb] in s.interrupted
  {
    InitOk();
    RunKeeps(initial, es);
  }

  // ----- no step touches a destroyed request, but that of a thread whose request was replied to meanwhile

  /** The requests whose fields a step reads or writes. */
  ghost function Touched(s: State, e: Event): set<nat> {
    match e
    case Arrive(r, id) => (set x | x in s.queue) + (set x | x in s.list)
    case Interrupt(i, id) => (set x | x in s.queue) + (set x | x in s.list)
    case TakeLock(i) => OfFinding(s, i)
    case Mark(i) => OfFinding(s, i)
    case Call(i) => OfFinding(s, i)
    case Release(i) => OfFinding(s, i)
    case Leave(i) => OfFinding(s, i)
    case Refuse(i) => {i}
    case Ask(k, r, cb) => {r}
    case Enter(k) => OfRegistering(s, k)
    case Store(k) => OfRegistering(s, k)
    case Check(k) => OfRegistering(s, k)
    case Unlock(k) => OfRegistering(s, k)
    case Reply(r) => {r} + (set x | x in s.list)
  }

  ghost function OfFinding(s: State, i: nat): set<nat> {
    if i in s.finds then {i, s.finds[i]} else {}
  }

  ghost function OfRegistering(s: State, k: nat): set<nat> {
    if k in s.registrars then {s.registrars[k].req} else {}
  }

  /** A step of a thread that is in fuse_req_interrupt_func. */
  predicate OfRegistrar(e: Event) {
    e.Enter? || e.Store? || e.Check? || e.Unlock?
  }

  /** No thread that has found request x counts on it. */
  ghost predicate Unfound(s: State, x: nat) {
    forall i :: i in s.finds ==> s.finds[i] != x
  }

  lemma TouchedIsInUse(s: State, e: Event, x: nat)
    requires Exclusive(s) && Identified(s) && Step(s, e).Some? && x in Touched(s, e)
    ensures InUse(s, x) <==> !(OfRegistrar(e) && x !in s.list && Unfound(s, x))
    ensures (x in s.unique || x in s.target) && (OfRegistrar(e) ==> Registering(s, e.thread, x))
  {
    hide NoDup, LockHeld, ArriveStep, InterruptStep, EnterOf, StoreOf, CheckOf, UnlockOf, AskOf, ReplyOf, LeaveOf,
         RefuseOf, CallOf, MarkOf, TakeLockOf, ReleaseOf;
  }

  ghost predicate Registering(s: State, k: nat, r: nat) {
    k in s.registrars && s.registrars[k].req == r
  }

  /** The n-th step replies to request r, for which thread k is registering a callback. */
  ghost predicate RepliesAt(es: seq<Event>, n: nat, k: nat, r: nat) {
    && n < |es| && es[n] == Reply(r)
    && Run(initial, es[..n]).Some? && Registering(Run(initial, es[..n]).value, k, r)
  }

  ghost predicate RepliedMeanwhile(es: seq<Event>, k: nat, r: nat) {
    exists n: nat :: RepliesAt(es, n, k, r)
  }

  /** The last step of a run. */
  lemma RunLast(es: seq<Event>)
    requires es != [] && Run(initial, es).Some?
    ensures var front, e := es[..|es| - 1], es[|es| - 1];
            Run(initial, front).Some? && Step(Run(initial, front).value, e) == Run(initial, es)
  {
    var front, e := es[..|es| - 1], es[|es| - 1];
    assert es == front + [e];
    RunFront(initial, front, [e]);
    RunOn(initial, front, [e]);
    hide Step;
    assert Run(Run(initial, front).value, [e]) == Step(Run(initial, front).value, e);
  }

  lemma {:induction false} RunFront(s: State, es: seq<Event>, more: seq<Event>)
    requires Run(s, es + more).Some?
    ensures Run(s, es).Some?
    decreases |es|
  {
    hide Step;
    if es != [] {
      assert (es + more)[1..] == es[1..] + more;
      RunFront(Step(s, es[0]).value, es[1..], more);
    }
  }

  /** Only an arrival puts a request on the list. */
  ghost predicate SameLists(s: State, t: State) {
    t.unique == s.unique && t.list == s.list && t.registrars == s.registrars
  }

  lemma ArriveLists(s: State, r: nat, id: nat)
    ensures var t := ArriveStep(s, r, id);
            t.unique == s.unique[r := id] && t.list == s.list + [r] && t.registrars == s.registrars
  {
    ArriveFields(s, r, id);
    hide ArriveStep;
  }

  lemma InterruptLists(s: State, i: nat, id: nat)
    ensures SameLists(s, InterruptStep(s, i, id))
  {
    hide Find, More;
  }

  lemma FinderLists(s: State, e: Event)
    requires Step(s, e).Some? && (e.TakeLock? || e.Mark? || e.Call? || e.Release? || e.Leave? || e.Refuse?)
    ensures SameLists(s, Step(s, e).value)
  {
    hide LockHeld, Less;
  }

  lemma RegistrarLists(s: State, e: Event)
    requires Step(s, e).Some? && OfRegistrar(e)
    ensures SameLists(s, Step(s, e).value.(registrars := s.registrars))
    ensures forall k, r :: Registering(Step(s, e).value, k, r) ==> Registering(s, k, r)
  {
    hide LockHeld;
  }

  lemma ReplyOffList(s: State, r: nat)
    requires Identified(s) && r in s.list
    ensures var t := ReplyOf(s, r);
            t.unique == s.unique && t.registrars == s.registrars && (forall x :: x in t.list <==> x in s.list && x != r)
  {
    CutIsWithout(s.list, r);
    hide NoDup, Cut, IndexIn;
  }

  /** What a step does to the list and the registering threads. */
  lemma StepLists(s: State, e: Event)
    requires Identified(s) && Step(s, e).Some?
    ensures var t := Step(s, e).value;
            && s.unique.Keys <= t.unique.Keys
            && (forall r :: r in t.list <==> (r in s.list && e != Reply(r)) || (e.Arrive? && e.req == r))
            && (e.Arrive? ==> e.req !in s.unique)
            && (forall k, r :: Registering(t, k, r) ==> Registering(s, k, r) || (e.Ask? && r in s.list))
  {
    if e.Arrive? { ArriveLists(s, e.req, e.id); }
    if e.Interrupt? { InterruptLists(s, e.intr, e.id); }
    if e.Reply? { ReplyOffList(s, e.req); }
    if OfRegistrar(e) { RegistrarLists(s, e); }
    if e.TakeLock? || e.Mark? || e.Call? || e.Release? || e.Leave? || e.Refuse? { FinderLists(s, e); }
    hide IdsOk, LockHeld, ArriveStep, InterruptStep, EnterOf, StoreOf, CheckOf, UnlockOf, ReplyOf, LeaveOf, RefuseOf,
         CallOf, MarkOf, TakeLockOf, ReleaseOf;
  }

  lemma Arrived(s: State, k: nat, r: nat)
    requires Exclusive(s) && Identified(s) && (Registering(s, k, r) || r in s.list)
    ensures r in s.unique
  {}

  lemma {:induction false} RepliedIsOff(es: seq<Event>, n: nat, k: nat, r: nat)
    requires Run(initial, es).Some? && RepliesAt(es, n, k, r)
    ensures r in Run(initial, es).value.unique && r !in Run(initial, es).value.list
    decreases |es|
  {
    hide Run, Step, IdsOk, LocksOk, CallsOk, Inv;
    var front, e := es[..|es| - 1], es[|es| - 1];
    RunLast(es);
    InitOk();
    RunKeeps(initial, front);
    var s := Run(initial, front).value;
    Unfolded(s);
    if n < |front| {
      assert front[..n] == es[..n];
      RepliedIsOff(front, n, k, r);
    } else {
      Arrived(s, k, r);
    }
    StepLists(s, e);
  }

  lemma NothingRegistered()
    ensures Run(initial, []) == Some(initial) && initial.registrars == map[]
  {}

  /** A thread only begins to register a callback for a request in flight. */
  lemma {:induction false} OffIsReplied(es: seq<Event>, k: nat, r: nat)
    requires Run(initial, es).Some? && Registering(Run(initial, es).value, k, r) && r !in Run(initial, es).value.list
    ensures RepliedMeanwhile(es, k, r)
    decreases |es|
  {
    hide Run, Step, IdsOk, LocksOk, CallsOk;
    NothingRegistered();
    var front, e := es[..|es| - 1], es[|es| - 1];
    RunLast(es);
    InitOk();
    RunKeeps(initial, front);
    var s := Run(initial, front).value;
    Unfolded(s);
    StepLists(s, e);
    if r !in s.list {
      OffIsReplied(front, k, r);
      var n: nat :| RepliesAt(front, n, k, r);
      assert front[..n] == es[..n];
      assert RepliesAt(es, n, k, r);
    } else {
      assert RepliesAt(es, |front|, k, r);
    }
  }

  /** A step of a run touches a destroyed request if and only if it is one of a thread that registers a callback for
      the request, which was replied to meanwhile and which no INTERRUPT counts on. */
  lemma NoUseAfterDestroy(es: seq<Event>, e: Event, x: nat)
    requires Run(initial, es).Some? && Step(Run(initial, es).value, e).Some? && x in Touched(Run(initial, es).value, e)
    ensures var s := Run(initial, es).value;
            && (x in s.destroyed <==> OfRegistrar(e) && RepliedMeanwhile(es, e.thread, x) && Unfound(s, x))
            && (x in s.ctr <==> x !in s.destroyed)
  {
    var s := Run(initial, es).value;
    InitOk();
    RunKeeps(initial, es);
    TouchedIsInUse(s, e, x);
    InUseIsAlive(s, x);
    hide Step, Run, Touched, InUse, IdsOk, CountsOk, FatesOk, CallsOk, LocksOk, WaitingOk;
    if OfRegistrar(e) {
      if n: nat :| RepliesAt(es, n, e.thread, x) { RepliedIsOff(es, n, e.thread, x); }
      if x !in s.list { OffIsReplied(es, e.thread, x); }
    }
  }

  /** Request 0 is interrupted when it arrives, and its callback, called while it is being registered, replies. */
  function ReplyInCallback(): seq<Event> {
    [Interrupt(1, 5), Arrive(0, 5), Ask(9, 0, Some(7)), Enter(9), Store(9), Check(9), Reply(0)]
  }

  /** The state after the first two steps. */
  const markedArrival := State(map[0 := 5], map[1 := 5], [0], [], map[0 := 1], {0}, map[], map[], map[], map[], {},
                               map[1 := MarkedArrival(0)], [1], map[], {}, {})

  lemma LateMarks()
    ensures Step(QueuedOf(initial, 1, 5), Arrive(0, 5)) == Some(markedArrival)
  {
    var s := QueuedOf(initial, 1, 5);
    var t := ArrivalOf(s, 0, 5);
    assert t.list == [0] && s.queue == [1] && Cut([1], 0) == [];
    assert t.ctr - {1} == map[0 := 1] && t.destroyed + [1] == [1];
    assert MarkedOf(t, 0, 0) == markedArrival;
    assert s.queue[0] == 1 && Find(s.queue, s.target, 5) == 0;
  }

  lemma LateArrives()
    ensures Run(initial, ReplyInCallback()[..2]) == Some(markedArrival)
  {
    var s := QueuedOf(initial, 1, 5);
    assert Step(initial, Interrupt(1, 5)) == Some(s) && s.queue == [1];
    LateMarks();
    hide Step;
    RunThrough(initial, ReplyInCallback()[..2], [initial, s, markedArrival]);
  }

  lemma LateReplies()
    ensures var s := RegisterOf(markedArrival, 9, 0, 7);
            && 0 in s.list && Step(s, Reply(0)) == Some(ReplyOf(s, 0))
            && 0 in ReplyOf(s, 0).destroyed && Step(ReplyOf(s, 0), Unlock(9)).Some?
            && Touched(ReplyOf(s, 0), Unlock(9)) == {0} && 7 in ReplyOf(s, 0).called
  {
    hide RegisterOf, Cut, IndexIn;
    LateRegistered();
  }

  lemma LateRegistered()
    ensures var s := RegisterOf(markedArrival, 9, 0, 7);
            && 0 in s.list && s.ctr == map[0 := 1] && s.called == {7}
            && s.registrars == map[9 := Registrar(0, Some(7), Done)]
  {
    assert markedArrival.list[0] == 0;
  }

  /** Then the unlocking behind the callback touches the request, which the reply has destroyed. */
  lemma UnlocksDestroyed()
    ensures var r := Run(initial, ReplyInCallback());
            && r.Some? && Step(r.value, Unlock(9)).Some?
            && 0 in Touched(r.value, Unlock(9)) && 0 in r.value.destroyed && 7 in r.value.called
  {
    hide Step, Run, ReplyOf, RegisterOf, Touched, LockHeld;
    var es, s := ReplyInCallback(), RegisterOf(markedArrival, 9, 0, 7);
    LateRegisters();
    LateArrives();
    LateReplies();
    RunOn(initial, es[..2], es[2..]);
    RunOn(markedArrival, es[2..6], es[6..]);
    assert es[..2] + es[2..] == es && es[2..6] + es[6..] == es[2..] && es[6..] == [Reply(0)];
    RunThrough(s, [Reply(0)], [s, ReplyOf(s, 0)]);
  }

  lemma LateRegisters()
    ensures Run(markedArrival, ReplyInCallback()[2..6]) == Some(RegisterOf(markedArrival, 9, 0, 7))
  {
    assert ReplyInCallback()[2..6] == [Ask(9, 0, Some(7)), Enter(9), Store(9), Check(9)];
    assert markedArrival.list[0] == 0 && !LockHeld(markedArrival, 0);
    hide Run, LockHeld, RegisterOf;
    RegisterRun(markedArrival, 9, 0, 7);
  }

  /** What a filesystem has to see to: if it never replies to a request while it registers a callback for it, in
      particular not from the callback, no step touches a destroyed request. */
  lemma CarefulIsSafe(es: seq<Event>, e: Event, x: nat)
    requires Run(initial, es).Some? && Step(Run(initial, es).value, e).Some? && x in Touched(Run(initial, es).value, e)
    requires forall k, r :: !RepliedMeanwhile(es, k, r)
    ensures x in Run(initial, es).value.ctr && x !in Run(initial, es).value.destroyed
  {
    NoUseAfterDestroy(es, e, x);
  }
}
