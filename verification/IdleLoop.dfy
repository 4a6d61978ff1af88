/**
 The idle loop of src/main.rs interleaved with the IRQ1 handler of src/interrupts.rs, as
 a transition system over the interrupt flag, the two locks both contexts use, the
 scancode queue, and the decoder and line editor that consume it.
 */
module IdleLoop {
  import opened Common
  import opened Keyboard
  import opened LineEditor
  import opened ScancodeQueue

  datatype Lock = QueueLock | PicsLock

  /** Where the main flow stands. */
  datatype MainPc =
    | InitPics(sections: nat)     // interrupts::init: about to take PICS this many more times
    | InitHolding(sections: nat)  // interrupts::init: inside one of those sections
    | LoopTop                     // main.rs:26, before the flag is saved and cleared
    | AskNext                     // main.rs:27, about to lock the queue
    | Popping                     // inside next_scancode, holding the queue
    | Handling(scancode: Byte)    // main.rs:28-29, translating and feeding
    | Drained                     // the queue was found empty, flag not yet restored
    | BeforeHlt                   // main.rs:38, about to run sti; hlt
    | Asleep                      // halted until the next interrupt
    | Stopped                     // feed did not return: the CPU is halted for good

  /** Where the IRQ1 handler stands; `Idle` when it is not running. */
  datatype HandlerPc =
    | Idle
    | Entered(scancode: Byte)
    | Pushing(scancode: Byte)
    | Signalling
    | Notifying
    | Returning

  /** The consumer's own state. */
  datatype Core = Core(shift: Shift, editor: Editor)

  const Start := Core(Released, Fresh)

  /**
   `arrived` holds the scancodes delivered since the last drain pass found the queue
   empty, `drains` counts those passes, and `widest` is the greatest number of scancodes
   that arrived between two of them; none of the three influences a step.
   */
  datatype State = State(
    main: MainPc, handler: HandlerPc, flag: bool, saved: bool, held: set<Lock>,
    hist: History, core: Core, arrived: seq<Byte>, drains: nat, widest: nat)

  const Boot := State(InitPics(2), Idle, false, false, {}, NoHistory, Start, [], 0, 0)

  datatype Action = MainStep | HandlerStep | Irq(scancode: Byte)

  // ----------------------------------------------------------------- consuming

  function Consume(c: Core, scancode: Byte): Core {
    var (shift, byte) := TranslateFrom(c.shift, scancode);
    Core(shift, if byte.Some? then Feed(c.editor, byte.value) else c.editor)
  }

  function ConsumeAll(c: Core, codes: seq<Byte>): Core
    decreases codes
  {
    if codes == [] then c else ConsumeAll(Consume(c, codes[0]), codes[1..])
  }

  lemma {:induction false} ConsumeSnoc(c: Core, codes: seq<Byte>, b: Byte)
    ensures ConsumeAll(c, codes + [b]) == Consume(ConsumeAll(c, codes), b)
    decreases codes
  {
    if codes == [] {
      assert codes + [b] == [b];
      assert ConsumeAll(Consume(c, b), [b][1..]) == Consume(c, b);
    } else {
      assert (codes + [b])[1..] == codes[1..] + [b];
      ConsumeSnoc(Consume(c, codes[0]), codes[1..], b);
    }
  }

  /** Decoding and feeding scancode by scancode is decoding everything and feeding the result. */
  lemma {:induction false} ConsumeIsDecodeThenFeed(c: Core, codes: seq<Byte>)
    ensures ConsumeAll(c, codes)
         == Core(ShiftAfter(c.shift, codes), FeedAll(c.editor, Decode(c.shift, codes)))
    decreases codes
  {
    if codes != [] {
      var (shift, r) := TranslateFrom(c.shift, codes[0]);
      ConsumeIsDecodeThenFeed(Consume(c, codes[0]), codes[1..]);
      FeedConcat(c.editor, Emitted(r), Decode(shift, codes[1..]));
      if r.Some? {
        assert [r.value][1..] == [];
        assert FeedAll(c.editor, [r.value]) == Feed(c.editor, r.value);
      }
    }
  }

  // --------------------------------------------------------------- transitions

  /** Taking a lock succeeds only when it is free; otherwise the context spins where it is. */
  function Acquire(s: State, lock: Lock, next: State): Option<State> {
    if lock in s.held then None else Some(next.(held := s.held + {lock}))
  }

  function MainNext(s: State): Option<State> {
    match s.main
    case InitPics(n) =>
      if n == 0 then Some(s.(main := LoopTop))
      else Acquire(s, PicsLock, s.(main := InitHolding(n - 1)))
    case InitHolding(n) => Some(s.(main := InitPics(n), held := s.held - {PicsLock}))
    case LoopTop => Some(s.(main := AskNext, saved := s.flag, flag := false))
    case AskNext => Acquire(s, QueueLock, s.(main := Popping))
    case Popping =>
      var released := s.(held := s.held - {QueueLock});
      if s.hist.queue == [] then
        Some(released.(main := Drained, arrived := [], drains := s.drains + 1))
      else
        Some(released.(main := Handling(s.hist.queue[0]), hist := Happen(s.hist, Pop)))
    case Handling(scancode) =>
      var core := Consume(s.core, scancode);
      Some(s.(core := core, main := if core.editor.halted then Stopped else AskNext))
    case Drained => Some(s.(main := BeforeHlt, flag := s.saved))
    case BeforeHlt => Some(s.(main := Asleep, flag := true))
    case Asleep => None
    case Stopped => None
  }

  function HandlerNext(s: State): Option<State> {
    match s.handler
    case Idle => None
    case Entered(scancode) => Acquire(s, QueueLock, s.(handler := Pushing(scancode)))
    case Pushing(scancode) =>
      Some(s.(handler := Signalling, held := s.held - {QueueLock},
              hist := Happen(s.hist, Push(scancode)), arrived := s.arrived + [scancode],
              widest := if |s.arrived| < s.widest then s.widest else |s.arrived| + 1))
    case Signalling => Acquire(s, PicsLock, s.(handler := Notifying))
    case Notifying => Some(s.(handler := Returning, held := s.held - {PicsLock}))
    case Returning => Some(s.(handler := Idle, flag := true))
  }

  /** While the handler runs, the main flow does not; an interrupt wakes a halted CPU. */
  function Step(s: State, a: Action): Option<State> {
    match a
    case MainStep => if s.handler == Idle then MainNext(s) else None
    case HandlerStep => HandlerNext(s)
    case Irq(scancode) =>
      if s.flag then
        Some(s.(flag := false, handler := Entered(scancode), main := if s.main == Asleep then LoopTop else s.main))
      else None
  }

  function Run(s: State, actions: seq<Action>): Option<State>
    decreases actions
  {
    if actions == [] then Some(s)
    else
      match Step(s, actions[0])
      case None => None
      case Some(t) => Run(t, actions[1..])
  }

  /** The states that some interleaving reaches. */
  ghost predicate Reachable(s: State) {
    exists actions :: Run(Boot, actions) == Some(s)
  }

  // ----------------------------------------------------------------- invariant

  function MainLocks(pc: MainPc): set<Lock> {
    match pc
    case InitHolding(_) => {PicsLock}
    case Popping => {QueueLock}
    case _ => {}
  }

  function HandlerLocks(pc: HandlerPc): set<Lock> {
    match pc
    case Pushing(_) => {QueueLock}
    case Notifying => {PicsLock}
    case _ => {}
  }

  /** Interrupts are on only where the main flow holds no lock. */
  ghost predicate LocksInOrder(s: State) {
    && s.held == MainLocks(s.main) + HandlerLocks(s.handler)
    && (s.flag ==> s.handler == Idle && (s.main == LoopTop || s.main == BeforeHlt || s.main == Asleep))
    && (s.handler != Idle ==> s.main == LoopTop || s.main == BeforeHlt)
    && (s.main == Asleep ==> s.flag)
  }

  /** Inside a drain pass. */
  ghost predicate Draining(s: State) {
    s.main == AskNext || s.main == Popping || s.main.Handling?
  }

  /** Between drain passes the queue is what arrived since the last one, up to its capacity. */
  ghost predicate QueueInOrder(s: State) {
    && Accounted(s.hist)
    && (!Draining(s) && s.main != Stopped ==> s.hist.queue == LastN(CAPACITY, s.arrived))
  }

  /** Until the first hlt no interrupt can have been delivered. */
  ghost predicate FirstPass(s: State) {
    && (s.drains == 0 ==> !s.flag && !s.saved && s.handler == Idle && s.hist == NoHistory && s.arrived == []
                          && s.main != Drained && s.main != BeforeHlt && s.main != Asleep)
    && (s.drains == 1 && s.main == Drained ==> !s.saved && s.arrived == [])
    && (s.drains == 1 && s.main == BeforeHlt ==> !s.flag && s.handler == Idle && s.arrived == [])
    && (s.drains == 1 && s.main == Asleep ==> s.arrived == [])
  }

  /** The consumer's state is determined by the scancodes taken from the queue. */
  ghost predicate CoreInOrder(s: State)
    requires Accounted(s.hist)
  {
    var taken := Consumed(s.hist);
    && (s.main.Handling? ==>
          taken != [] && Last(taken) == s.main.scancode && s.core == ConsumeAll(Start, Front(taken)))
    && (!s.main.Handling? ==> s.core == ConsumeAll(Start, taken))
    && (s.core.editor.halted <==> s.main == Stopped)
  }

  /** A scancode has been dropped exactly if more than 16 arrived between two drain passes. */
  ghost predicate LossInOrder(s: State)
    requires Accounted(s.hist)
  {
    Dropped(s.hist) == [] <==> s.widest <= CAPACITY
  }

  ghost predicate Inv(s: State) {
    LocksInOrder(s) && QueueInOrder(s) && FirstPass(s) && CoreInOrder(s) && LossInOrder(s)
  }

  lemma PushExtendsArrived(queue: seq<Byte>, arrived: seq<Byte>, b: Byte)
    requires queue == LastN(CAPACITY, arrived)
    ensures Pushed(queue, b) == LastN(CAPACITY, arrived + [b])
  {
  }

  lemma MainKeepsControl(s: State)
    requires LocksInOrder(s) && FirstPass(s) && s.handler == Idle && MainNext(s).Some?
    ensures LocksInOrder(MainNext(s).value) && FirstPass(MainNext(s).value)
  {
  }

  lemma MainKeepsQueue(s: State)
    requires QueueInOrder(s) && MainNext(s).Some?
    ensures QueueInOrder(MainNext(s).value)
  {
    if s.main == Popping {
      HappenKeepsAccount(s.hist, Pop);
    }
  }

  lemma PopKeepsCore(s: State)
    requires Accounted(s.hist) && CoreInOrder(s) && s.main == Popping && s.hist.queue != []
    ensures Accounted(MainNext(s).value.hist) && CoreInOrder(MainNext(s).value)
  {
    OnlyTheOldestLeaves(s.hist, Pop);
    assert Front(Consumed(MainNext(s).value.hist)) == Consumed(s.hist);
  }

  lemma HandleKeepsCore(s: State)
    requires Accounted(s.hist) && CoreInOrder(s) && s.main.Handling?
    ensures Accounted(MainNext(s).value.hist) && CoreInOrder(MainNext(s).value)
  {
    hide Consume, ConsumeAll, Consumed;
    var taken := Consumed(s.hist);
    assert taken == Front(taken) + [s.main.scancode];
    ConsumeSnoc(Start, Front(taken), s.main.scancode);
  }

  lemma MainKeepsCore(s: State)
    requires Accounted(s.hist) && CoreInOrder(s) && MainNext(s).Some?
    ensures Accounted(MainNext(s).value.hist) && CoreInOrder(MainNext(s).value)
  {
    if s.main == Popping && s.hist.queue != [] {
      PopKeepsCore(s);
    } else if s.main.Handling? {
      HandleKeepsCore(s);
    } else {
      hide Consumed, ConsumeAll;
      assert MainNext(s).value.hist == s.hist;
    }
  }

  lemma MainKeepsLoss(s: State)
    requires Accounted(s.hist) && LossInOrder(s) && MainNext(s).Some?
    ensures Accounted(MainNext(s).value.hist) && LossInOrder(MainNext(s).value)
  {
    if s.main == Popping && s.hist.queue != [] {
      OnlyTheOldestLeaves(s.hist, Pop);
      assert Dropped(MainNext(s).value.hist) == Dropped(s.hist);
    } else {
      assert MainNext(s).value.hist == s.hist;
    }
  }

  lemma HandlerKeepsLoss(s: State)
    requires LocksInOrder(s) && QueueInOrder(s) && LossInOrder(s) && HandlerNext(s).Some?
    ensures Accounted(HandlerNext(s).value.hist) && LossInOrder(HandlerNext(s).value)
  {
    if s.handler.Pushing? {
      OnlyTheOldestLeaves(s.hist, Push(s.handler.scancode));
      assert |s.hist.queue| == CAPACITY <==> |s.arrived| >= CAPACITY;
    } else {
      assert HandlerNext(s).value.hist == s.hist;
    }
  }

  lemma HandlerKeepsControl(s: State)
    requires LocksInOrder(s) && FirstPass(s) && HandlerNext(s).Some?
    ensures LocksInOrder(HandlerNext(s).value) && FirstPass(HandlerNext(s).value)
  {
  }

  lemma HandlerKeepsData(s: State)
    requires QueueInOrder(s) && CoreInOrder(s) && HandlerNext(s).Some?
    ensures QueueInOrder(HandlerNext(s).value) && CoreInOrder(HandlerNext(s).value)
  {
    var t := HandlerNext(s).value;
    if s.handler.Pushing? {
      OnlyTheOldestLeaves(s.hist, Push(s.handler.scancode));
      assert Consumed(t.hist) == Consumed(s.hist);
      if !Draining(s) && s.main != Stopped {
        PushExtendsArrived(s.hist.queue, s.arrived, s.handler.scancode);
      }
    } else {
      assert t.hist == s.hist;
    }
  }

  lemma StepKeepsInv(s: State, a: Action)
    requires Inv(s) && Step(s, a).Some?
    ensures Inv(Step(s, a).value)
  {
    match a {
      case MainStep =>
        MainKeepsControl(s);
        MainKeepsQueue(s);
        MainKeepsCore(s);
        MainKeepsLoss(s);
      case HandlerStep =>
        HandlerKeepsControl(s);
        HandlerKeepsData(s);
        HandlerKeepsLoss(s);
      case Irq(scancode) =>
    }
  }

  lemma {:induction false} RunKeepsInv(s: State, actions: seq<Action>)
    requires Inv(s) && Run(s, actions).Some?
    ensures Inv(Run(s, actions).value)
    decreases actions
  {
    if actions != [] {
      StepKeepsInv(s, actions[0]);
      RunKeepsInv(Step(s, actions[0]).value, actions[1..]);
    }
  }

  lemma ReachableInv(s: State)
    requires Reachable(s)
    ensures Inv(s)
  {
    var actions :| Run(Boot, actions) == Some(s);
    RunKeepsInv(Boot, actions);
  }

  // ------------------------------------------------------------------ theorems

  /** The lock the running context is about to take, if any. */
  function Wanted(s: State): Option<Lock> {
    if s.handler != Idle then
      (match s.handler
       case Entered(_) => Some(QueueLock)
       case Signalling => Some(PicsLock)
       case _ => None)
    else
      (match s.main
       case InitPics(n) => if n > 0 then Some(PicsLock) else None
       case AskNext => Some(QueueLock)
       case _ => None)
  }

  /**
   In every interleaving, no context ever tries to take a held lock, no lock is held
   while interrupts are on, and the only states with no step of their own are the sleep
   that the next interrupt ends and the final halt after a command that does not return.
   */
  lemma NoContention(s: State)
    requires Reachable(s)
    ensures Wanted(s).Some? ==> Wanted(s).value !in s.held
    ensures s.flag ==> s.held == {}
    ensures Step(s, MainStep).Some? || Step(s, HandlerStep).Some? || s.main == Asleep || s.main == Stopped
    ensures s.main == Asleep ==> forall b :: Step(s, Irq(b)).Some?
    ensures s.main == Stopped <==> s.core.editor.halted
  {
    ReachableInv(s);
  }

  /**
   Whenever the CPU sleeps, the queue is exactly the last 16 of the scancodes that
   arrived since the drain pass ended; so a key is pending if and only if one arrived in
   the window between the restored flag and the hlt.  Before the first hlt none can.
   */
  lemma QueueWhileAsleep(s: State)
    requires Reachable(s) && (s.main == BeforeHlt || s.main == Asleep)
    ensures s.hist.queue == LastN(CAPACITY, s.arrived)
    ensures s.hist.queue == [] <==> s.arrived == []
    ensures s.drains >= 1
    ensures s.drains == 1 ==> s.hist.queue == []
    ensures s.drains == 1 && s.main == BeforeHlt ==> !s.flag
  {
    ReachableInv(s);
  }

  /** What the main flow has executed is a function of the scancodes it has taken, and of nothing else. */
  lemma ExecutedLinesFromScancodes(s: State)
    requires Reachable(s)
    ensures Accounted(s.hist)
    ensures !s.main.Handling? ==> s.core == ConsumeAll(Start, Consumed(s.hist))
    ensures !s.main.Handling? ==>
              s.core.editor.executed == UpToHalt(Submitted(Decode(Released, Consumed(s.hist))))
  {
    ReachableInv(s);
    if !s.main.Handling? {
      ConsumeIsDecodeThenFeed(Start, Consumed(s.hist));
      EditorClosedForm(Decode(Released, Consumed(s.hist)));
    }
  }

  /** Two runs that take the same scancodes, in whatever batches, execute the same lines. */
  lemma BatchingDoesNotMatter(s: State, t: State)
    requires Reachable(s) && Reachable(t) && !s.main.Handling? && !t.main.Handling?
    requires |s.hist.fates| <= |s.hist.produced| && |t.hist.fates| <= |t.hist.produced|
    requires Consumed(s.hist) == Consumed(t.hist)
    ensures s.core == t.core
  {
    ReachableInv(s);
    ReachableInv(t);
  }

  /**
   No scancode is lost if and only if at most 16 arrive between any two drain passes; then
   what has been consumed is what was produced, less what is queued, and with the queue
   empty the state of decoder and editor is a function of the scancodes produced.
   */
  lemma NoLossWhileWindowsFit(s: State)
    requires Reachable(s)
    ensures Accounted(s.hist)
    ensures Dropped(s.hist) == [] <==> s.widest <= 16
    ensures s.widest <= 16 ==> Consumed(s.hist) + s.hist.queue == s.hist.produced
    ensures s.widest <= 16 && s.hist.queue == [] && !s.main.Handling? ==>
              && s.core == ConsumeAll(Start, s.hist.produced)
              && s.core.editor.executed == UpToHalt(Submitted(Decode(Released, s.hist.produced)))
  {
    ReachableInv(s);
    if s.widest <= CAPACITY {
      var n := |s.hist.fates|;
      NoneDropped(s.hist.produced[..n], s.hist.fates);
      assert s.hist.produced[..n] + s.hist.produced[n..] == s.hist.produced;
      if s.hist.queue == [] && !s.main.Handling? {
        assert Consumed(s.hist) == s.hist.produced;
        ExecutedLinesFromScancodes(s);
      }
    }
  }

  // ------------------------------------------- what a step does to the data

  /** The queue changes, and a pass finds it empty, only under its lock, which that very step releases. */
  lemma QueueIsGuarded(s: State, a: Action)
    requires Reachable(s) && Step(s, a).Some?
    ensures var t := Step(s, a).value;
            t.hist != s.hist || t.drains != s.drains ==>
              && QueueLock in s.held && QueueLock !in t.held
              && (a == MainStep || a == HandlerStep)
  {
    ReachableInv(s);
  }

  /** Scancodes taken from the keyboard port and not queued yet. */
  function InFlight(pc: HandlerPc): seq<Byte> {
    if pc.Entered? || pc.Pushing? then [pc.scancode] else []
  }

  /** The scancodes of the interrupts in a run. */
  function Struck(actions: seq<Action>): seq<Byte>
    decreases actions
  {
    if actions == [] then []
    else (if actions[0].Irq? then [actions[0].scancode] else []) + Struck(actions[1..])
  }

  /** In every run each interrupt produces its scancode exactly once, in the order of the interrupts. */
  lemma {:induction false} EveryInterruptIsQueued(s: State, actions: seq<Action>)
    requires Inv(s) && Run(s, actions).Some?
    ensures var t := Run(s, actions).value;
            t.hist.produced + InFlight(t.handler) == s.hist.produced + InFlight(s.handler) + Struck(actions)
    decreases actions
  {
    hide Step, Inv;
    if actions != [] {
      var a := actions[0];
      var t := Step(s, a).value;
      StepKeepsInv(s, a);
      EveryInterruptIsQueued(t, actions[1..]);
      assert t.hist.produced + InFlight(t.handler)
          == s.hist.produced + InFlight(s.handler) + (if a.Irq? then [a.scancode] else []) by {
        StepProduces(s, a);
      }
    }
  }

  lemma StepProduces(s: State, a: Action)
    requires Inv(s) && Step(s, a).Some?
    ensures var t := Step(s, a).value;
            t.hist.produced + InFlight(t.handler)
            == s.hist.produced + InFlight(s.handler) + (if a.Irq? then [a.scancode] else [])
  {
    hide CoreInOrder, QueueInOrder, FirstPass, LossInOrder, Consume;
  }

  /**
   How the windows between drain passes are counted: a pass ends when the main flow finds
   the queue empty, and starts a new window; until then a window holds what has been
   produced in it, and `widest` is the size of the largest so far.
   */
  lemma WindowStep(s: State, a: Action)
    requires Reachable(s) && Step(s, a).Some?
    ensures var t := Step(s, a).value;
            && (t.drains != s.drains <==> a == MainStep && s.main == Popping && s.hist.queue == [])
            && (t.drains != s.drains ==> t.drains == s.drains + 1 && t.arrived == [] && t.hist == s.hist)
            && (t.drains == s.drains ==>
                  exists d :: t.hist.produced == s.hist.produced + d && t.arrived == s.arrived + d)
            && t.widest == Max(s.widest, |t.arrived|)
    ensures |s.arrived| <= s.widest
  {
    ReachableInv(s);
    WidestBounds(s);
    hide Reachable, CoreInOrder, QueueInOrder, FirstPass, LossInOrder, Consume;
    var t := Step(s, a).value;
    if t.drains == s.drains {
      var d := if a == HandlerStep && s.handler.Pushing? then [s.handler.scancode] else [];
      assert t.hist.produced == s.hist.produced + d && t.arrived == s.arrived + d;
    }
  }

  function Max(a: nat, b: nat): nat {
    if a < b then b else a
  }

  lemma WidestBounds(s: State)
    requires Reachable(s)
    ensures |s.arrived| <= s.widest
  {
    var actions :| Run(Boot, actions) == Some(s);
    RunBoundsWidest(Boot, actions);
  }

  lemma {:induction false} RunBoundsWidest(s: State, actions: seq<Action>)
    requires |s.arrived| <= s.widest && Run(s, actions).Some?
    ensures |Run(s, actions).value.arrived| <= Run(s, actions).value.widest
    decreases actions
  {
    if actions != [] {
      RunBoundsWidest(Step(s, actions[0]).value, actions[1..]);
    }
  }

  /** An interrupt that strikes takes two steps of its handler to queue its scancode, under the lock of the queue. */
  lemma InterruptIsQueued(s: State, b: Byte)
    requires Reachable(s) && s.flag
    ensures var holding := Run(s, [Irq(b), HandlerStep]);
            holding.Some? && holding.value.held == {QueueLock} && holding.value.hist == s.hist
    ensures var queued := Run(s, [Irq(b), HandlerStep, HandlerStep]);
            && queued.Some? && queued.value.held == {} && !queued.value.flag
            && queued.value.handler == Signalling && queued.value.hist == Happen(s.hist, Push(b))
            && queued.value.main == if s.main == Asleep then LoopTop else s.main
  {
    ReachableInv(s);
    hide CoreInOrder, QueueInOrder, FirstPass, LossInOrder, MainNext, Happen, Run;
    RunTwo(s, Irq(b), HandlerStep);
    RunThree(s, Irq(b), HandlerStep, HandlerStep);
  }

  /** Then the PIC is notified under its own lock, and three steps later interrupts are on again. */
  lemma InterruptIsSignalled(s: State)
    requires Reachable(s) && s.handler == Signalling
    ensures var notifying := Run(s, [HandlerStep]);
            notifying.Some? && notifying.value.held == {PicsLock}
    ensures Run(s, [HandlerStep, HandlerStep, HandlerStep]) == Some(s.(handler := Idle, flag := true))
    ensures s.held == {}
  {
    ReachableInv(s);
    hide CoreInOrder, QueueInOrder, FirstPass, LossInOrder, MainNext, Run;
    RunOne(s, HandlerStep);
    RunThree(s, HandlerStep, HandlerStep, HandlerStep);
    assert s.held + {PicsLock} - {PicsLock} == s.held;
  }

  lemma RunOne(s: State, a: Action)
    ensures Run(s, [a]) == Step(s, a)
  {
    hide Step;
    assert [a][1..] == [];
  }

  lemma RunTwo(s: State, a: Action, b: Action)
    requires Step(s, a).Some?
    ensures Run(s, [a, b]) == Step(Step(s, a).value, b)
  {
    hide Step;
    assert [a, b][1..] == [b];
    RunOne(Step(s, a).value, b);
  }

  lemma RunThree(s: State, a: Action, b: Action, c: Action)
    requires Step(s, a).Some? && Step(Step(s, a).value, b).Some?
    ensures Run(s, [a, b, c]) == Step(Step(Step(s, a).value, b).value, c)
  {
    hide Step;
    assert [a, b, c][1..] == [b, c];
    RunTwo(Step(s, a).value, b, c);
  }

  /** While the handler runs it runs alone. */
  lemma HandlerIsAlone(s: State, b: Byte)
    requires Reachable(s) && s.handler != Idle
    ensures Step(s, HandlerStep).Some?
    ensures Step(s, MainStep) == None && Step(s, Irq(b)) == None
  {
    ReachableInv(s);
  }

  // -------------------------------------------------------------- drain passes

  function RunMain(s: State, steps: nat): Option<State>
    decreases steps
  {
    if steps == 0 then Some(s)
    else
      match Step(s, MainStep)
      case None => None
      case Some(t) => RunMain(t, steps - 1)
  }

  /** In a drain pass the main flow is alone: it has a step, and neither the handler nor an interrupt has. */
  lemma DrainIsAlone(s: State)
    requires Inv(s) && Draining(s)
    ensures Step(s, MainStep).Some?
    ensures Step(s, HandlerStep) == None && forall b :: Step(s, Irq(b)) == None
  {
  }

  lemma {:induction false} RunMainSum(s: State, m: nat, n: nat)
    requires RunMain(s, m).Some?
    ensures RunMain(s, m + n) == RunMain(RunMain(s, m).value, n)
    decreases m
  {
    if m > 0 {
      RunMainSum(Step(s, MainStep).value, m - 1, n);
    }
  }

  /** The drain loop finds the queue empty. */
  lemma DrainEnds(s: State)
    requires Inv(s) && s.main == AskNext && s.hist.queue == []
    ensures RunMain(s, 2) == Some(s.(main := Drained, arrived := [], drains := s.drains + 1))
  {
    var s1 := Step(s, MainStep).value;
    var s2 := Step(s1, MainStep).value;
    assert s2.held == s.held;
    assert RunMain(s2, 0) == Some(s2);
    assert RunMain(s1, 1) == RunMain(s2, 0);
  }

  /** One round of the drain loop takes the oldest scancode and handles it. */
  lemma DrainRound(s: State)
    requires Inv(s) && s.main == AskNext && s.hist.queue != []
    ensures var core := Consume(s.core, s.hist.queue[0]);
            RunMain(s, 3) == Some(s.(core := core, hist := Happen(s.hist, Pop),
                                     main := if core.editor.halted then Stopped else AskNext))
  {
    var s1 := Step(s, MainStep).value;
    var s2 := Step(s1, MainStep).value;
    assert s2.held == s.held;
    var s3 := Step(s2, MainStep).value;
    assert RunMain(s3, 0) == Some(s3);
    assert RunMain(s2, 1) == RunMain(s3, 0);
    assert RunMain(s1, 2) == RunMain(s2, 1);
  }

  lemma {:induction false} MainRunKeepsInv(s: State, steps: nat)
    requires Inv(s) && RunMain(s, steps).Some?
    ensures Inv(RunMain(s, steps).value)
    decreases steps
  {
    if steps > 0 {
      StepKeepsInv(s, MainStep);
      MainRunKeepsInv(Step(s, MainStep).value, steps - 1);
    }
  }

  /** Once halted, the editor stays halted. */
  lemma {:induction false} HaltIsFinal(c: Core, codes: seq<Byte>)
    requires c.editor.halted
    ensures ConsumeAll(c, codes).editor == c.editor
    decreases codes
  {
    if codes != [] {
      HaltIsFinal(Consume(c, codes[0]), codes[1..]);
    }
  }

  /**
   A drain pass terminates, with the queue length as measure.  It ends with the queue
   empty and every queued scancode consumed in order, unless one of them completes a
   command that does not return, and exactly then it stops for good.
   */
  lemma {:induction false} DrainCompletes(s: State) returns (steps: nat)
    requires Inv(s) && s.main == AskNext
    ensures RunMain(s, steps).Some?
    ensures var t, core := RunMain(s, steps).value, ConsumeAll(s.core, s.hist.queue);
            && Inv(t)
            && t.main == (if core.editor.halted then Stopped else Drained)
            && (t.main == Drained ==>
                  && t.hist.queue == [] && t.arrived == [] && t.core == core
                  && t.saved == s.saved && t.handler == Idle)
    decreases |s.hist.queue|
  {
    hide Consume, Step, MainNext, FirstPass;
    if s.hist.queue == [] {
      DrainEnds(s);
      steps := 2;
    } else {
      DrainRound(s);
      MainRunKeepsInv(s, 3);
      var r := RunMain(s, 3).value;
      if r.main == Stopped {
        HaltIsFinal(r.core, s.hist.queue[1..]);
        steps := 3;
      } else {
        var n := DrainCompletes(r);
        RunMainSum(s, 3, n);
        steps := 3 + n;
      }
    }
    MainRunKeepsInv(s, steps);
  }

  // -------------------------------------------------- sleeping on a pending key

  lemma {:induction false} RunConcat(s: State, a: seq<Action>, b: seq<Action>)
    requires Run(s, a).Some?
    ensures Run(s, a + b) == Run(Run(s, a).value, b)
    decreases a
  {
    if a == [] {
      assert a + b == b;
    } else {
      assert (a + b)[1..] == a[1..] + b;
      RunConcat(Step(s, a[0]).value, a[1..], b);
    }
  }

  lemma ReachOneMore(s: State, a: Action)
    requires Reachable(s) && Step(s, a).Some?
    ensures Reachable(Step(s, a).value)
  {
    var actions :| Run(Boot, actions) == Some(s);
    RunConcat(Boot, actions, [a]);
    var t := Step(s, a).value;
    assert Run(t, [a][1..]) == Some(t);
    assert Run(Boot, actions + [a]) == Some(t);
  }

  /** The interrupt strikes and its scancode is queued. */
  lemma QueueFromIrq(s: State, b: Byte) returns (t: State)
    requires Reachable(s) && s.flag
    ensures Reachable(t)
    ensures t == s.(main := if s.main == Asleep then LoopTop else s.main, handler := Signalling, flag := false,
                    hist := Happen(s.hist, Push(b)), arrived := s.arrived + [b],
                    widest := if |s.arrived| < s.widest then s.widest else |s.arrived| + 1)
  {
    ReachableInv(s);
    hide Happen, Reachable, MainNext, CoreInOrder, QueueInOrder, FirstPass, LossInOrder;
    var t0 := Step(s, Irq(b)).value;
    ReachOneMore(s, Irq(b));
    var t1 := Step(t0, HandlerStep).value;
    ReachOneMore(t0, HandlerStep);
    t := Step(t1, HandlerStep).value;
    ReachOneMore(t1, HandlerStep);
    assert t.held == s.held;
  }

  /** The end of the interrupt is signalled and the handler returns. */
  lemma ReturnFromIrq(s: State) returns (t: State)
    requires Reachable(s) && s.handler == Signalling && s.held == {}
    ensures Reachable(t) && t == s.(handler := Idle, flag := true)
  {
    hide Reachable, MainNext;
    var t1 := Step(s, HandlerStep).value;
    ReachOneMore(s, HandlerStep);
    var t2 := Step(t1, HandlerStep).value;
    ReachOneMore(t1, HandlerStep);
    t := Step(t2, HandlerStep).value;
    ReachOneMore(t2, HandlerStep);
    assert t.held == s.held;
  }

  /** One interrupt delivered and served, from any state with interrupts on. */
  lemma ServeIrq(s: State, b: Byte) returns (t: State)
    requires Reachable(s) && s.flag
    ensures Reachable(t)
    ensures t == s.(main := if s.main == Asleep then LoopTop else s.main,
                    hist := Happen(s.hist, Push(b)), arrived := s.arrived + [b],
                    widest := if |s.arrived| < s.widest then s.widest else |s.arrived| + 1)
  {
    ReachableInv(s);
    hide Happen, Reachable, CoreInOrder, QueueInOrder, FirstPass, LossInOrder;
    var queued := QueueFromIrq(s, b);
    t := ReturnFromIrq(queued);
  }

  lemma {:induction false} ReachByMain(s: State, steps: nat)
    requires Reachable(s) && RunMain(s, steps).Some?
    ensures Reachable(RunMain(s, steps).value)
    decreases steps
  {
    if steps > 0 {
      ReachOneMore(s, MainStep);
      ReachByMain(Step(s, MainStep).value, steps - 1);
    }
  }

  lemma ReachFirstLoopTop() returns (s: State)
    ensures Reachable(s) && s == Boot.(main := LoopTop)
  {
    assert Run(Boot, []) == Some(Boot);
    var s1 := Step(Boot, MainStep).value;
    ReachOneMore(Boot, MainStep);
    var s2 := Step(s1, MainStep).value;
    ReachOneMore(s1, MainStep);
    var s3 := Step(s2, MainStep).value;
    ReachOneMore(s2, MainStep);
    var s4 := Step(s3, MainStep).value;
    ReachOneMore(s3, MainStep);
    s := Step(s4, MainStep).value;
    ReachOneMore(s4, MainStep);
    assert s.held == {};
  }

  /** From the top of the loop, a drain pass and the restored flag lead to main.rs:38. */
  lemma ReachBeforeHlt(s: State) returns (t: State)
    requires Reachable(s) && s.main == LoopTop && s.handler == Idle
    requires !ConsumeAll(s.core, s.hist.queue).editor.halted
    ensures Reachable(t) && t.main == BeforeHlt && t.handler == Idle
    ensures t.flag == s.flag && t.hist.queue == [] && t.core == ConsumeAll(s.core, s.hist.queue)
  {
    ReachableInv(s);
    var s1 := Step(s, MainStep).value;
    ReachOneMore(s, MainStep);
    ReachableInv(s1);
    var n := DrainCompletes(s1);
    ReachByMain(s1, n);
    var s2 := RunMain(s1, n).value;
    ReachOneMore(s2, MainStep);
    t := Step(s2, MainStep).value;
  }

  /**
   The comment in main.rs that no key is left waiting by the sleep does not hold: some
   run sleeps with a key in the queue, delivered after the flag was restored.
   */
  lemma SomeRunSleepsOnAPendingKey(b: Byte) returns (s: State)
    ensures Reachable(s) && s.main == Asleep && s.hist.queue == [b]
  {
    var top := ReachFirstLoopTop();
    // first pass: nothing to drain; a break code, which emits nothing, ends the sleep
    var before := ReachBeforeHlt(top);
    ReachOneMore(before, MainStep);
    var woken := ServeIrq(Step(before, MainStep).value, 0x80);
    // second pass: interrupts are on again between the drain and the hlt
    assert woken.hist.queue == [0x80];
    assert woken.hist.queue[1..] == [];
    assert Consume(woken.core, 0x80).editor == woken.core.editor;
    var again := ReachBeforeHlt(woken);
    var late := ServeIrq(again, b);
    ReachOneMore(late, MainStep);
    s := Step(late, MainStep).value;
  }

  // ------------------------------------------------------------- typing slowly

  /** Asleep with nothing pending. */
  ghost predicate Resting(s: State) {
    Reachable(s) && s.main == Asleep && s.handler == Idle && s.hist.queue == []
  }

  /** The first sleep is reached with nothing consumed. */
  lemma FirstRest() returns (s: State)
    ensures Resting(s) && s.core == Start
  {
    var top := ReachFirstLoopTop();
    var before := ReachBeforeHlt(top);
    ReachOneMore(before, MainStep);
    s := Step(before, MainStep).value;
  }

  /** One key, pressed while the CPU sleeps, is consumed and the CPU sleeps again. */
  lemma PressWhileAsleep(s: State, b: Byte) returns (t: State)
    requires Resting(s) && !Consume(s.core, b).editor.halted
    ensures Resting(t) && t.core == Consume(s.core, b)
  {
    ReachableInv(s);
    var woken := ServeIrq(s, b);
    assert woken.hist.queue == [b];
    assert [b][1..] == [];
    assert ConsumeAll(s.core, [b]) == Consume(s.core, b);
    var before := ReachBeforeHlt(woken);
    ReachOneMore(before, MainStep);
    t := Step(before, MainStep).value;
  }

  /** Any scancodes that complete no command without return can be typed into the running kernel. */
  lemma {:induction false} TypeWhileAsleep(s: State, codes: seq<Byte>) returns (t: State)
    requires Resting(s) && !ConsumeAll(s.core, codes).editor.halted
    ensures Resting(t) && t.core == ConsumeAll(s.core, codes)
    decreases codes
  {
    if codes == [] {
      t := s;
    } else {
      if Consume(s.core, codes[0]).editor.halted {
        HaltIsFinal(Consume(s.core, codes[0]), codes[1..]);
      }
      var u := PressWhileAsleep(s, codes[0]);
      t := TypeWhileAsleep(u, codes[1..]);
    }
  }
}
