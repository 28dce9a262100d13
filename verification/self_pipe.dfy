/** The self-pipe protocol that wakes the loop for signals and async watchers (ev.c:984-1070, 2886-2927), as
    a state machine whose steps are the single reads and writes of its threads. */
module SelfPipe {
  import opened Wrappers

  datatype Channel = Signals | Asyncs

  /** A signal slot, whose mark is ANSIG.gotsig, or an async watcher, whose mark is ev_async.sent. */
  datatype Item = Signal(num: nat) | Async(id: nat)

  function ChannelOf(it: Item): Channel {
    if it.Signal? then Signals else Asyncs
  }

  /** A sender has set its mark: then it tests the flag of its channel, raises it, and writes to the pipe. */
  datatype Phase = Testing | Raising | Writing
  datatype Sender = Sender(item: Item, phase: Phase)

  /** Where pipecb stands: it tests each flag in turn; a raised one it clears and then scans the slots from
      the last to the first. Scan(ch, i) has slots i and up behind it; Hit(ch, i) has seen slot i marked. */
  datatype Pipecb = Idle | Test(ch: Channel) | Clear(ch: Channel) | Scan(ch: Channel, i: nat) | Hit(ch: Channel, i: nat)

  datatype State = State(
    signals: seq<Item>,                // signals[]
    asyncs: seq<Item>,                 // asyncs[]
    marked: set<Item>,                 // gotsig of a slot, sent of a watcher
    raised: set<Channel>,              // the flags gotsig and gotasync
    pipe: nat,                         // bytes in the pipe, or the eventfd counter
    senders: map<nat, Sender>,
    cb: Pipecb,
    fed: seq<Item>)                    // the events fed so far
  {
    function Slots(ch: Channel): seq<Item> {
      if ch.Signals? then signals else asyncs
    }
  }

  datatype Event =
    | Begin(t: nat, item: Item)        // w->sent = 1, or signals[].gotsig = 1
    | TestFlag(t: nat)
    | Raise(t: nat)
    | Write(t: nat, filled: nat)       // a full pipe refuses the byte but is not empty
    | Read(left: nat)                  // one byte of a pipe, all of an eventfd
    | Turn                             // the next access of pipecb
    | Start(id: nat)
    | Stop(id: nat)

  // ----- the steps

  function AfterChannel(ch: Channel): Pipecb {
    if ch.Signals? then Test(Asyncs) else Idle
  }

  function PipecbTurn(s: State): State
  {
    match s.cb
    case Idle => s
    case Test(ch) => s.(cb := if ch in s.raised then Clear(ch) else AfterChannel(ch))
    case Clear(ch) => s.(raised := s.raised - {ch}, cb := Scan(ch, |s.Slots(ch)|))
    case Scan(ch, i) =>
      if i == 0 || i > |s.Slots(ch)| then s.(cb := AfterChannel(ch))
      else if s.Slots(ch)[i - 1] in s.marked then s.(cb := Hit(ch, i - 1))
      else s.(cb := Scan(ch, i - 1))
    case Hit(ch, i) =>
      if i < |s.Slots(ch)| then
        s.(marked := s.marked - {s.Slots(ch)[i]}, fed := s.fed + [s.Slots(ch)[i]], cb := Scan(ch, i))
      else s
  }

  function IndexIn(s: seq<Item>, it: Item): (k: nat)
    ensures k <= |s| && it !in s[..k] && (k < |s| ==> s[k] == it)
  {
    if s == [] || s[0] == it then 0 else 1 + IndexIn(s[1..], it)
  }

  /** ev_async_stop: the last watcher takes the place of the stopped one. */
  function StopAt(s: seq<Item>, k: nat): seq<Item>
    requires k < |s|
  {
    s[k := s[|s| - 1]][..|s| - 1]
  }

  /** One step of one thread; None if it is not that thread's turn. Watchers start and stop between callbacks. */
  function Step(s: State, e: Event): Option<State>
  {
    match e
    case Begin(t, it) =>
      if t in s.senders then None
      else Some(s.(marked := s.marked + {it}, senders := s.senders[t := Sender(it, Testing)]))
    case TestFlag(t) =>
      if t !in s.senders || s.senders[t].phase != Testing then None
      else if ChannelOf(s.senders[t].item) in s.raised then Some(s.(senders := s.senders - {t}))
      else Some(s.(senders := s.senders[t := s.senders[t].(phase := Raising)]))
    case Raise(t) =>
      if t !in s.senders || s.senders[t].phase != Raising then None
      else Some(s.(raised := s.raised + {ChannelOf(s.senders[t].item)},
                   senders := s.senders[t := s.senders[t].(phase := Writing)]))
    case Write(t, filled) =>
      if t !in s.senders || s.senders[t].phase != Writing || filled == 0 || filled < s.pipe then None
      else Some(s.(pipe := filled, senders := s.senders - {t}))
    case Read(left) =>
      if s.cb != Idle || left > s.pipe then None
      else Some(s.(pipe := left, cb := Test(Signals)))
    case Turn =>
      if s.cb == Idle then None else Some(PipecbTurn(s))
    case Start(id) =>
      if s.cb != Idle then None
      else if Async(id) in s.asyncs then Some(s)
      else Some(s.(asyncs := s.asyncs + [Async(id)]))
    case Stop(id) =>
      var k := IndexIn(s.asyncs, Async(id));
      if s.cb != Idle then None
      else if k == |s.asyncs| then Some(s)
      else Some(s.(asyncs := StopAt(s.asyncs, k)))
  }

  // ----- the invariant

  /** The item's sender has yet to test or raise the flag. */
  ghost predicate Coming(s: State, it: Item) {
    exists t :: t in s.senders && s.senders[t].item == it && s.senders[t].phase != Writing
  }

  ghost predicate SomeoneWrites(s: State) {
    exists t :: t in s.senders && s.senders[t].phase == Writing
  }

  /** pipecb has read from the pipe and not yet tested the flag of ch, or not yet acted on it. */
  predicate BeforeFlag(cb: Pipecb, ch: Channel) {
    match cb
    case Idle => false
    case Test(c) => c == ch || c == Signals
    case Clear(c) => c == ch || c == Signals
    case Scan(c, _) => c == Signals && ch == Asyncs
    case Hit(c, _) => c == Signals && ch == Asyncs
  }

  /** A raised flag will be looked at: there is, or will be, something to read, or pipecb is on its way to it. */
  ghost predicate WakeUp(s: State, ch: Channel) {
    s.pipe > 0 || SomeoneWrites(s) || BeforeFlag(s.cb, ch)
  }

  /** The running scan has yet to come by slot k. */
  predicate ScanAhead(cb: Pipecb, ch: Channel, k: nat) {
    match cb
    case Scan(c, i) => c == ch && k < i
    case Hit(c, i) => c == ch && k <= i
    case _ => false
  }

  /** The k-th slot, if marked, is not forgotten. */
  ghost predicate SlotOk(s: State, ch: Channel, k: nat)
    requires k < |s.Slots(ch)|
  {
    var it := s.Slots(ch)[k];
    it in s.marked ==> Coming(s, it) || ch in s.raised || ScanAhead(s.cb, ch, k)
  }

  ghost predicate CbOk(s: State)
  {
    match s.cb
    case Clear(ch) => ch in s.raised
    case Scan(ch, i) => i <= |s.Slots(ch)|
    case Hit(ch, i) => i < |s.Slots(ch)| && s.Slots(ch)[i] in s.marked
    case _ => true
  }

  /** Each table holds items of its own channel, none twice. */
  ghost predicate SlotsOk(s: State) {
    && (forall k :: 0 <= k < |s.signals| ==> ChannelOf(s.signals[k]) == Signals)
    && (forall k :: 0 <= k < |s.asyncs| ==> ChannelOf(s.asyncs[k]) == Asyncs)
    && NoDup(s.signals) && NoDup(s.asyncs)
  }

  ghost predicate FlagOk(s: State, ch: Channel) {
    ch in s.raised ==> WakeUp(s, ch)
  }

  ghost predicate Inv(s: State) {
    && SlotsOk(s) && CbOk(s)
    && (forall ch {:trigger FlagOk(s, ch)} :: FlagOk(s, ch))
    && (forall ch, k: nat {:trigger SlotOk(s, ch, k)} :: k < |s.Slots(ch)| ==> SlotOk(s, ch, k))
  }

  function Init(signalmax: nat): State {
    State(seq(signalmax, i requires 0 <= i => Signal(i)), [], {}, {}, 0, map[], Idle, [])
  }

  lemma InitOk(signalmax: nat)
    ensures Inv(Init(signalmax))
  {}

  // ----- every step keeps it

  /** The steps of senders: a mark is never left without a sender to come or a raised flag. */
  lemma SenderKeeps(s: State, e: Event)
    requires Inv(s) && Step(s, e).Some? && (e.Begin? || e.TestFlag? || e.Raise? || e.Write?)
    ensures Inv(Step(s, e).value)
  {
    var r := Step(s, e).value;
    forall ch ensures FlagOk(r, ch) {
      assert FlagOk(s, ch);
      SenderKeepsWakeUp(s, e, ch);
    }
    forall ch, k: nat | k < |r.Slots(ch)| ensures SlotOk(r, ch, k) {
      assert SlotOk(s, ch, k);
      SenderKeepsSlot(s, e, ch, k);
    }
  }

  lemma SenderKeepsWakeUp(s: State, e: Event, ch: Channel)
    requires Step(s, e).Some? && (e.Begin? || e.TestFlag? || e.Raise? || e.Write?) && FlagOk(s, ch)
    ensures FlagOk(Step(s, e).value, ch)
  {
    var r := Step(s, e).value;
    if ch in s.raised && SomeoneWrites(s) {
      var t :| t in s.senders && s.senders[t].phase == Writing;
      assert (t in r.senders && r.senders[t].phase == Writing) || r.pipe > 0;
    } else if e.Raise? {
      assert e.t in r.senders && r.senders[e.t].phase == Writing;
    }
  }

  lemma SenderKeepsSlot(s: State, e: Event, ch: Channel, k: nat)
    requires SlotsOk(s) && Step(s, e).Some? && (e.Begin? || e.TestFlag? || e.Raise? || e.Write?)
    requires k < |s.Slots(ch)| && SlotOk(s, ch, k)
    ensures SlotOk(Step(s, e).value, ch, k)
  {
    var r, it := Step(s, e).value, s.Slots(ch)[k];
    if e.Begin? && e.item == it {
      assert e.t in r.senders && r.senders[e.t].item == it;
    } else if it in s.marked && Coming(s, it) {
      var t :| t in s.senders && s.senders[t].item == it && s.senders[t].phase != Writing;
      assert (t in r.senders && r.senders[t].item == it && r.senders[t].phase != Writing) || ch in r.raised;
    }
  }

  lemma PipecbKeeps(s: State, e: Event)
    requires Inv(s) && Step(s, e).Some? && (e.Read? || e.Turn?)
    ensures Inv(Step(s, e).value)
  {
    var r := Step(s, e).value;
    assert r.senders == s.senders;
    assert forall it :: Coming(s, it) ==> Coming(r, it);
    assert SomeoneWrites(s) ==> SomeoneWrites(r);
    forall ch ensures FlagOk(r, ch) {
      assert FlagOk(s, ch);
    }
    forall ch, k: nat | k < |r.Slots(ch)| ensures SlotOk(r, ch, k) {
      assert SlotOk(s, ch, k);
      PipecbKeepsSlot(s, e, ch, k);
    }
    hide SlotOk;
  }

  lemma PipecbKeepsSlot(s: State, e: Event, ch: Channel, k: nat)
    requires SlotsOk(s) && CbOk(s) && Step(s, e).Some? && (e.Read? || e.Turn?)
    requires k < |s.Slots(ch)| && SlotOk(s, ch, k)
    ensures SlotOk(Step(s, e).value, ch, k)
  {}

  lemma StopAtIs(s: seq<Item>, k: nat, i: nat)
    requires NoDup(s) && k < |s| && i < |s| - 1
    ensures |StopAt(s, k)| == |s| - 1 && NoDup(StopAt(s, k)) && s[k] !in StopAt(s, k)
    ensures StopAt(s, k)[i] == if i == k then s[|s| - 1] else s[i]
  {}

  /** A mark left from before the watcher was started has its wake-up still to come. */
  ghost predicate StartSafe(s: State, id: nat) {
    Async(id) in s.asyncs || Async(id) !in s.marked || Asyncs in s.raised || Coming(s, Async(id))
  }

  /** Starting a watcher keeps the invariant if and only if a mark it may still carry is not a forgotten one. */
  lemma StartKeeps(s: State, id: nat)
    requires Inv(s) && s.cb == Idle
    ensures Inv(Step(s, Start(id)).value) <==> StartSafe(s, id)
  {
    var r := Step(s, Start(id)).value;
    if Async(id) !in s.asyncs {
      assert r.senders == s.senders;
      assert forall it :: Coming(s, it) <==> Coming(r, it);
      assert SomeoneWrites(s) ==> SomeoneWrites(r);
      forall ch ensures FlagOk(r, ch) { assert FlagOk(s, ch); }
      var n := |s.asyncs|;
      assert r.asyncs[n] == Async(id);
      forall ch, k: nat | k < |r.Slots(ch)| && (ch == Signals || k < n) ensures SlotOk(r, ch, k) {
        assert SlotOk(s, ch, k);
      }
      assert Inv(r) <==> SlotOk(r, Asyncs, n);
    }
  }

  /** What the caller of ev_async_start can see: it is enough that the watcher is not marked, and that is needed when no
      sender is at work and the flag is down. */
  lemma UnmarkedIsSafe(s: State, id: nat)
    ensures Async(id) !in s.marked ==> StartSafe(s, id)
    ensures s.senders == map[] ==>
              (StartSafe(s, id) <==> Async(id) in s.asyncs || Async(id) !in s.marked || Asyncs in s.raised)
  {}

  /** A watcher that is not marked may be started at any time between callbacks. */
  lemma StartUnmarked(s: State, id: nat)
    requires Inv(s) && s.cb == Idle && Async(id) !in s.marked
    ensures Inv(Step(s, Start(id)).value)
  {
    UnmarkedIsSafe(s, id);
    StartKeeps(s, id);
  }

  lemma StopKeeps(s: State, id: nat)
    requires Inv(s) && s.cb == Idle
    ensures Inv(Step(s, Stop(id)).value)
    ensures Async(id) !in Step(s, Stop(id)).value.asyncs
  {
    var r := Step(s, Stop(id)).value;
    var k := IndexIn(s.asyncs, Async(id));
    if k < |s.asyncs| {
      assert forall it :: Coming(s, it) ==> Coming(r, it);
      assert SomeoneWrites(s) ==> SomeoneWrites(r);
      forall ch ensures FlagOk(r, ch) { assert FlagOk(s, ch); }
      forall ch, j: nat | j < |r.Slots(ch)| ensures SlotOk(r, ch, j) {
        if ch == Asyncs { StopAtIs(s.asyncs, k, j); }
        assert SlotOk(s, ch, if ch == Asyncs && j == k then |s.asyncs| - 1 else j);
      }
      forall j | 0 <= j < |r.asyncs| ensures ChannelOf(r.asyncs[j]) == Asyncs { StopAtIs(s.asyncs, k, j); }
      if |r.asyncs| > 0 { StopAtIs(s.asyncs, k, 0); }
    }
  }

  /** What starting and stopping do to the watchers: that one comes or goes, the others stay. */
  lemma StartAndStop(s: State, id: nat, it: Item)
    requires NoDup(s.asyncs) && s.cb == Idle
    ensures it in Step(s, Start(id)).value.asyncs <==> it in s.asyncs || it == Async(id)
    ensures it in Step(s, Stop(id)).value.asyncs <==> it in s.asyncs && it != Async(id)
  {
    var k, n := IndexIn(s.asyncs, Async(id)), |s.asyncs|;
    if k < n {
      var r := StopAt(s.asyncs, k);
      forall i | 0 <= i < n - 1 ensures r[i] == if i == k then s.asyncs[n - 1] else s.asyncs[i] {
        StopAtIs(s.asyncs, k, i);
      }
      if it in s.asyncs && it != Async(id) {
        var i :| 0 <= i < n && s.asyncs[i] == it;
        assert r[if i == n - 1 then k else i] == it;
      }
    }
  }

  // ----- whole runs

  function Run(s: State, es: seq<Event>): Option<State>
    decreases |es|
  {
    if es == [] then Some(s)
    else
      var r := Step(s, es[0]);
      if r == None then None else Run(r.value, es[1..])
  }

  /** Every watcher started during the run carries no forgotten mark. */
  ghost predicate StartsSafely(s: State, es: seq<Event>)
    decreases |es|
  {
    es != [] && Step(s, es[0]).Some? ==>
      (es[0].Start? ==> StartSafe(s, es[0].id)) && StartsSafely(Step(s, es[0]).value, es[1..])
  }

  lemma StepKeeps(s: State, e: Event)
    requires Inv(s) && Step(s, e).Some? && (e.Start? ==> StartSafe(s, e.id))
    ensures Inv(Step(s, e).value)
  {
    match e
    case Start(id) => StartKeeps(s, id);
    case Stop(id) => StopKeeps(s, id);
    case Read(_) => PipecbKeeps(s, e);
    case Turn => PipecbKeeps(s, e);
    case _ => SenderKeeps(s, e);
  }

  lemma {:induction false} RunKeeps(s: State, es: seq<Event>)
    requires Inv(s) && Run(s, es).Some? && StartsSafely(s, es)
    ensures Inv(Run(s, es).value)
    decreases |es|
  {
    if es != [] {
      StepKeeps(s, es[0]);
      RunKeeps(Step(s, es[0]).value, es[1..]);
    }
  }

  /** No wake-up is lost in any interleaving: a marked slot has its sender still to raise the flag, or its flag
      raised with a wake-up outstanding, or the scan still to come by. */
  lemma NoLostWakeUp(signalmax: nat, es: seq<Event>, ch: Channel, k: nat)
    requires StartsSafely(Init(signalmax), es) && Run(Init(signalmax), es).Some?
    requires var r := Run(Init(signalmax), es).value; k < |r.Slots(ch)| && r.Slots(ch)[k] in r.marked
    ensures var r := Run(Init(signalmax), es).value;
            Coming(r, r.Slots(ch)[k]) || (ch in r.raised && WakeUp(r, ch)) || ScanAhead(r.cb, ch, k)
  {
    InitOk(signalmax);
    RunKeeps(Init(signalmax), es);
    var r := Run(Init(signalmax), es).value;
    assert SlotOk(r, ch, k) && FlagOk(r, ch);
  }

  /** The loop may sleep: with no sender at work, no callback running and the pipe empty, nothing is marked. */
  lemma SleepIsSafe(s: State, ch: Channel, k: nat)
    requires Inv(s) && s.senders == map[] && s.cb == Idle && s.pipe == 0 && k < |s.Slots(ch)|
    ensures s.Slots(ch)[k] !in s.marked
  {
    assert SlotOk(s, ch, k) && FlagOk(s, ch);
  }

  /** Only pipecb takes a mark away, and it feeds the item then. */
  lemma MarkIsFed(s: State, e: Event, it: Item)
    requires Step(s, e).Some? && it in s.marked
    ensures s.fed <= Step(s, e).value.fed
    ensures it in Step(s, e).value.marked || it in Step(s, e).value.fed[|s.fed|..]
  {}

  lemma {:induction false} MarksAreFed(s: State, es: seq<Event>, it: Item)
    requires Run(s, es).Some? && it in s.marked
    ensures s.fed <= Run(s, es).value.fed
    ensures it in Run(s, es).value.marked || it in Run(s, es).value.fed[|s.fed|..]
    decreases |es|
  {
    hide Step;
    if es != [] {
      var t := Step(s, es[0]).value;
      MarkIsFed(s, es[0], it);
      FedGrows(t, es[1..]);
      if it in t.marked {
        MarksAreFed(t, es[1..], it);
      } else {
        var k :| |s.fed| <= k < |t.fed| && t.fed[k] == it;
        assert Run(s, es).value.fed[k] == it;
      }
    }
  }

  lemma {:induction false} FedGrows(s: State, es: seq<Event>)
    requires Run(s, es).Some?
    ensures s.fed <= Run(s, es).value.fed
    decreases |es|
  {
    if es != [] { FedGrows(Step(s, es[0]).value, es[1..]); }
  }

  /** Whatever is sent is fed: when the loop could sleep again, each signal or watcher that was sent to since, and whose
      slot there is, has been fed since. */
  lemma SendDelivers(s: State, t: nat, it: Item, es: seq<Event>, k: nat)
    requires Inv(s) && Run(s, [Begin(t, it)] + es).Some? && StartsSafely(s, [Begin(t, it)] + es)
    requires var r := Run(s, [Begin(t, it)] + es).value;
             && r.senders == map[] && r.cb == Idle && r.pipe == 0
             && k < |r.Slots(ChannelOf(it))| && r.Slots(ChannelOf(it))[k] == it
    ensures var r := Run(s, [Begin(t, it)] + es).value; s.fed <= r.fed && it in r.fed[|s.fed|..]
  {
    var all := [Begin(t, it)] + es;
    assert all[1..] == es && all[0] == Begin(t, it);
    RunKeeps(s, all);
    SleepIsSafe(Run(s, all).value, ChannelOf(it), k);
    var begun := Step(s, Begin(t, it)).value;
    assert it in begun.marked && begun.fed == s.fed;
    MarksAreFed(begun, es, it);
  }

  /** And only what was marked. */
  lemma OnlyMarkedIsFed(s: State, e: Event)
    requires CbOk(s) && Step(s, e).Some?
    ensures var r := Step(s, e).value; r.fed == s.fed || exists it :: it in s.marked && r.fed == s.fed + [it]
  {
    if e.Turn? && s.cb.Hit? { assert s.Slots(s.cb.ch)[s.cb.i] in s.marked; }
  }

  /** The turns pipecb has left. */
  function TurnsLeft(s: State): nat {
    var m, n := |s.signals|, |s.asyncs|;
    match s.cb
    case Idle => 0
    case Test(ch) => if ch.Signals? then 2 * n + 4 + 2 * m + 3 else 2 * n + 3
    case Clear(ch) => if ch.Signals? then 2 * n + 4 + 2 * m + 2 else 2 * n + 2
    case Scan(ch, i) => (if ch.Signals? then 2 * n + 4 else 0) + 2 * i + 1
    case Hit(ch, i) => (if ch.Signals? then 2 * n + 4 else 0) + 2 * i + 2
  }

  /** pipecb run to its end without interference. */
  function Finish(s: State): State
    requires Inv(s)
    decreases TurnsLeft(s)
  {
    if s.cb == Idle then s
    else
      assert Step(s, Turn).Some?;
      PipecbKeeps(s, Turn);
      assert CbOk(s);
      Finish(PipecbTurn(s))
  }

  /** Flags that pipecb has passed are down, when no sender can raise them again. */
  ghost predicate PassedDown(s: State) {
    s.senders == map[] && forall ch :: ch in s.raised ==> BeforeFlag(s.cb, ch)
  }

  /** From s to r, marks only go, and those that went were fed. */
  ghost predicate Fed(s: State, r: State) {
    && r.pipe == s.pipe && r.signals == s.signals && r.asyncs == s.asyncs
    && s.fed <= r.fed && r.marked <= s.marked
    && forall it :: it in s.marked && it !in r.marked ==> it in r.fed[|s.fed|..]
  }

  lemma TurnFeeds(s: State)
    requires Inv(s) && PassedDown(s) && s.cb != Idle
    ensures Inv(PipecbTurn(s)) && PassedDown(PipecbTurn(s)) && Fed(s, PipecbTurn(s))
    ensures TurnsLeft(PipecbTurn(s)) < TurnsLeft(s)
  {
    assert Step(s, Turn).Some?;
    PipecbKeeps(s, Turn);
  }

  lemma FedAgain(s: State, t: State, r: State)
    requires Fed(s, t) && Fed(t, r)
    ensures Fed(s, r)
  {}

  lemma {:induction false} FinishFeeds(s: State)
    requires Inv(s) && PassedDown(s)
    ensures Inv(Finish(s)) && PassedDown(Finish(s)) && Fed(s, Finish(s)) && Finish(s).cb == Idle
    decreases TurnsLeft(s)
  {
    if s.cb != Idle {
      TurnFeeds(s);
      FinishFeeds(PipecbTurn(s));
      FedAgain(s, PipecbTurn(s), Finish(s));
    }
  }

  /** One callback delivers everything: run without interference after its read, it feeds every marked slot,
      and leaves no slot marked and no flag raised. */
  lemma ReadDelivers(s: State, left: nat, ch: Channel, k: nat)
    requires Inv(s) && s.senders == map[] && s.cb == Idle && left <= s.pipe && k < |s.Slots(ch)|
    ensures Inv(Step(s, Read(left)).value)
    ensures var r := Finish(Step(s, Read(left)).value);
            && r.cb == Idle && r.raised == {} && r.pipe == left
            && s.Slots(ch)[k] !in r.marked
            && s.fed <= r.fed
            && (s.Slots(ch)[k] in s.marked ==> s.Slots(ch)[k] in r.fed[|s.fed|..])
  {
    var t := Step(s, Read(left)).value;
    PipecbKeeps(s, Read(left));
    FinishFeeds(t);
    var r := Finish(t);
    assert r.Slots(ch) == s.Slots(ch);
    assert SlotOk(r, ch, k);
  }

  // ----- where the code falls short

  /** ev_async_start keeps a mark set while the watcher was inactive. The run: async 1 is sent to while only
      async 0 is active, the wake-up is consumed, and then async 1 is started. It is marked, and nothing is
      left to wake the loop for it. */
  function StaleRun(): seq<Event> {
    [Start(0), Begin(0, Async(1)), TestFlag(0), Raise(0), Write(0, 1), Read(0)] +
    [Turn, Turn, Turn, Turn, Turn, Start(1)]
  }

  const sentWhileInactive := State([], [Async(0)], {Async(1)}, {Asyncs}, 1, map[], Idle, [])
  const consumed := State([], [Async(0)], {Async(1)}, {}, 0, map[], Idle, [])

  lemma StaleSend()
    ensures Run(Init(0), StaleRun()) == Run(sentWhileInactive, StaleRun()[5..])
  {
    var es := StaleRun();
    var s1 := Step(Init(0), Start(0)).value;
    var s2 := Step(s1, Begin(0, Async(1))).value;
    var s3 := Step(s2, TestFlag(0)).value;
    var s4 := Step(s3, Raise(0)).value;
    var s5 := Step(s4, Write(0, 1)).value;
    assert s5.asyncs == [Async(0)] && s5.marked == {Async(1)} && s5.raised == {Asyncs};
    assert s5.senders == map[];
    assert Step(Init(0), es[0]) == Some(s1) && Step(s1, es[1]) == Some(s2) && Step(s2, es[2]) == Some(s3);
    assert Step(s3, es[3]) == Some(s4) && Step(s4, es[4]) == Some(s5) && s5 == sentWhileInactive;
    hide Step, StaleRun;
    RunOn(Init(0), es, 5, s5, [Init(0), s1, s2, s3, s4, s5]);
  }

  lemma StaleRead()
    ensures Run(sentWhileInactive, StaleRun()[5..]) == Run(consumed, [Start(1)])
  {
    var es := StaleRun()[5..];
    var s1 := Step(sentWhileInactive, Read(0)).value;
    var s2 := PipecbTurn(s1);
    var s3 := PipecbTurn(s2);
    var s4 := PipecbTurn(s3);
    var s5 := PipecbTurn(s4);
    var s6 := PipecbTurn(s5);
    assert s6.raised == {};
    RunOn(sentWhileInactive, es, 6, s6, [sentWhileInactive, s1, s2, s3, s4, s5, s6]);
    assert es[6..] == [Start(1)];
  }

  lemma StaleSendIsForgotten()
    ensures var r := Run(Init(0), StaleRun());
            r.Some? && r.value.asyncs == [Async(0), Async(1)] && Async(1) in r.value.marked &&
            r.value.pipe == 0 && r.value.raised == {} && r.value.senders == map[] && r.value.cb == Idle
  {
    StaleSend();
    StaleRead();
    var r := Step(consumed, Start(1)).value;
    RunOn(consumed, [Start(1)], 1, r, [consumed, r]);
  }

  /** A run spelled out state by state. */
  lemma {:induction false} RunOn(s: State, es: seq<Event>, n: nat, r: State, states: seq<State>)
    requires n <= |es| && |states| == n + 1 && states[0] == s && states[n] == r
    requires forall i :: 0 <= i < n ==> Step(states[i], es[i]) == Some(states[i + 1])
    ensures Run(s, es) == Run(r, es[n..])
    decreases n
  {
    if n > 0 {
      RunOn(states[1], es[1..], n - 1, r, states[1..]);
      assert es[1..][n - 1..] == es[n..];
    } else {
      assert es[0..] == es;
    }
  }
}
