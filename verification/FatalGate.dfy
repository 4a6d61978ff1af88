/**
 The gate that panics and fatal exceptions pass before they write on the screen
 (src/panic.rs, `fatal_exception` in src/interrupts.rs).  A fatal event can strike at any
 moment, also inside the handling of another; none ever returns.
 */
module FatalGate {
  import opened Common
  import opened Terminal

  datatype Kind = PanicEvent | ExceptionEvent

  /** Where one activation of `handle` or `fatal_exception` stands. */
  datatype Stage =
    | AtGate(kind: Kind)    // about to swap the flag
    | Reporting             // passed the gate, writing to the serial line
    | AtWriter              // about to lock WRITER
    | Writing               // holds WRITER
    | TurnedAway(kind: Kind) // the flag was already set
    | Halting               // in halt_loop

  /**
   `stack` holds the activations, the running one last; the others never run again.
   `swaps` and `locks` record which activations have swapped the flag and locked WRITER.
   */
  datatype State = State(panicking: bool, stack: seq<Stage>, swaps: seq<nat>, locks: seq<nat>)

  const Calm := State(false, [], [], [])

  datatype Action = Strike(kind: Kind) | Advance

  function Moved(s: State, stage: Stage): State
    requires s.stack != []
  {
    s.(stack := Front(s.stack) + [stage])
  }

  /** `None` when the running activation has halted for good. */
  function Step(s: State, a: Action): Option<State> {
    match a
    case Strike(kind) => Some(s.(stack := s.stack + [AtGate(kind)]))
    case Advance =>
      if s.stack == [] then None
      else
        var me := |s.stack| - 1;
        match Last(s.stack)
        case AtGate(kind) =>
          var next := if s.panicking then TurnedAway(kind) else Reporting;
          Some(Moved(s, next).(panicking := true, swaps := s.swaps + [me]))
        case Reporting => Some(Moved(s, AtWriter))
        case AtWriter => Some(Moved(s, Writing).(locks := s.locks + [me]))
        case Writing => Some(Moved(s, Halting))
        case TurnedAway(_) => Some(Moved(s, Halting))
        case Halting => None
  }

  function Run(s: State, actions: seq<Action>): Option<State>
    decreases actions
  {
    if actions == [] then Some(s)
    else
      match Step(s, actions[0])
      case None => None
      case Some(t) => Run(t, actions[1..])
  }

  predicate PastGate(stage: Stage) {
    stage == Reporting || stage == AtWriter || stage == Writing
  }

  /** The first to swap is the only one past the gate, and the only one that can have locked WRITER. */
  ghost predicate Inv(s: State) {
    && (s.panicking <==> s.swaps != [])
    && (s.swaps != [] ==> s.swaps[0] < |s.stack| && !s.stack[s.swaps[0]].AtGate?)
    && (forall i :: 0 <= i < |s.stack| && PastGate(s.stack[i]) ==> s.swaps != [] && i == s.swaps[0])
    && |s.locks| <= 1
    && (s.swaps != [] ==> !s.stack[s.swaps[0]].TurnedAway?)
    && (s.locks != [] <==> s.swaps != [] && (s.stack[s.swaps[0]] == Writing || s.stack[s.swaps[0]] == Halting))
    && (s.locks != [] ==> s.locks[0] == s.swaps[0])
  }

  lemma StepKeepsInv(s: State, a: Action)
    requires Inv(s) && Step(s, a).Some?
    ensures Inv(Step(s, a).value)
    ensures s.panicking ==> Step(s, a).value.panicking
    ensures s.swaps <= Step(s, a).value.swaps
  {
  }

  /** The winner is no longer the running activation. */
  ghost predicate WinnerBuried(s: State) {
    s.swaps != [] && s.swaps[0] < |s.stack| - 1
  }

  lemma BuriedStaysBuried(s: State, a: Action)
    requires Inv(s) && Step(s, a).Some? && WinnerBuried(s)
    ensures WinnerBuried(Step(s, a).value) && Step(s, a).value.locks == s.locks
  {
    assert s.stack != [];
    assert !PastGate(Last(s.stack));
  }

  lemma {:induction false} RunKeepsInv(s: State, actions: seq<Action>)
    requires Inv(s) && Run(s, actions).Some?
    ensures var t := Run(s, actions).value;
            && Inv(t)
            && (s.panicking ==> t.panicking)
            && s.swaps <= t.swaps
            && (WinnerBuried(s) ==> t.locks == s.locks)
    decreases actions
  {
    if actions != [] {
      StepKeepsInv(s, actions[0]);
      if WinnerBuried(s) {
        BuriedStaysBuried(s, actions[0]);
      }
      RunKeepsInv(Step(s, actions[0]).value, actions[1..]);
    }
  }

  /**
   However panics and fatal exceptions nest: WRITER is locked at most once, and only by
   the first activation to swap the flag, so every later one halts without touching the
   screen; the flag, once set, stays set; and once another event has struck above the
   winner the screen is left as it is for good.
   */
  lemma AtMostOneReachesTheScreen(before: seq<Action>, after: seq<Action>)
    requires Run(Calm, before).Some? && Run(Run(Calm, before).value, after).Some?
    ensures var s := Run(Calm, before).value;
            var t := Run(s, after).value;
            && |t.locks| <= 1
            && (t.locks != [] ==> t.swaps != [] && t.locks[0] == t.swaps[0])
            && (forall i, j :: 0 <= i < j < |t.stack| ==> !(PastGate(t.stack[i]) && PastGate(t.stack[j])))
            && (s.panicking ==> t.panicking)
            && s.swaps <= t.swaps
            && (WinnerBuried(s) ==> t.locks == s.locks)
  {
    RunKeepsInv(Calm, before);
    RunKeepsInv(Run(Calm, before).value, after);
  }

  ghost predicate Reachable(s: State) {
    exists actions :: Run(Calm, actions) == Some(s)
  }

  lemma ReachableInv(s: State)
    requires Reachable(s)
    ensures Inv(s)
  {
    var actions :| Run(Calm, actions) == Some(s);
    RunKeepsInv(Calm, actions);
  }

  /**
   The first activation to swap the flag is let through: it is never turned away, and once
   it writes or has halted it is the one that locked WRITER.
   */
  lemma FirstIsLetThrough(s: State)
    requires Reachable(s) && s.swaps != []
    ensures s.swaps[0] < |s.stack|
    ensures var stage := s.stack[s.swaps[0]];
            && !stage.AtGate? && !stage.TurnedAway?
            && (stage == Writing || stage == Halting ==> s.locks == [s.swaps[0]])
  {
    ReachableInv(s);
  }

  /** An activation that runs undisturbed: so many steps of the running one. */
  function Advances(n: nat): seq<Action> {
    seq(n, _ => Advance)
  }

  lemma {:induction false} AdvanceMore(s: State, n: nat)
    requires Step(s, Advance).Some?
    ensures Run(s, Advances(n + 1)) == Run(Step(s, Advance).value, Advances(n))
  {
    assert Advances(n + 1)[1..] == Advances(n);
  }

  /**
   From any reachable state in which the running activation may still lock WRITER (it is
   the winner, or stands at the gate with the flag down), at most three undisturbed steps
   make it lock WRITER, the only one to do so.
   */
  lemma WinnerGetsThrough(s: State) returns (n: nat)
    requires Reachable(s) && s.stack != []
    requires if s.panicking then s.swaps != [] && s.swaps[0] == |s.stack| - 1 && s.locks == []
             else Last(s.stack).AtGate?
    ensures n <= 3 && Run(s, Advances(n)).Some?
    ensures Run(s, Advances(n)).value.locks == [|s.stack| - 1]
    ensures Run(s, Advances(n)).value.stack == Front(s.stack) + [Writing]
  {
    ReachableInv(s);
    n := if Last(s.stack).AtGate? then 3 else if Last(s.stack) == Reporting then 2 else 1;
    var t := s;
    var left := n;
    while left > 0
      invariant 0 <= left <= 3 && t.stack != []
      invariant Run(s, Advances(n)) == Run(t, Advances(left))
      invariant Front(t.stack) == Front(s.stack) && |t.stack| == |s.stack|
      invariant left > 0 ==> t.locks == []
      invariant left == 3 ==> Last(t.stack).AtGate? && !t.panicking
      invariant left == 2 ==> Last(t.stack) == Reporting
      invariant left == 1 ==> Last(t.stack) == AtWriter
      invariant left == 0 ==> Last(t.stack) == Writing && t.locks == [|s.stack| - 1]
    {
      AdvanceMore(t, left - 1);
      t := Step(t, Advance).value;
      left := left - 1;
    }
    assert Advances(0) == [];
    assert t.stack == Front(t.stack) + [Last(t.stack)];
  }

  /** Everybody else is turned away at the gate and halts without a lock. */
  lemma LatecomerIsTurnedAway(s: State)
    requires Reachable(s) && s.panicking && s.stack != [] && Last(s.stack).AtGate?
    ensures Run(s, Advances(2)).Some?
    ensures var t := Run(s, Advances(2)).value;
            t.stack == Front(s.stack) + [Halting] && t.locks == s.locks && Step(t, Advance) == None
  {
    AdvanceMore(s, 1);
    var t := Step(s, Advance).value;
    AdvanceMore(t, 0);
    assert Advances(0) == [];
    assert Front(t.stack) == Front(s.stack);
  }

  /** The static `PANICKING`. */
  class Gate {
    var panicking: bool

    constructor ()
      ensures !panicking
    {
      panicking := false;
    }

    /** An atomic swap: tells whether a fatal event was already being handled, and marks that one is. */
    method EnterFatalHandler() returns (already: bool)
      modifies this
      ensures already == old(panicking) && panicking
    {
      already := panicking;
      panicking := true;
    }

    /**
     One activation of `handle` or `fatal_exception`, up to its halt: the report reaches the
     screen if and only if no fatal event came before.
     */
    method Activate(writer: Writer, report: seq<Byte>) returns (wrote: bool)
      requires writer.Valid()
      modifies this, writer, writer.cells
      ensures panicking && writer.Valid() && wrote == !old(panicking)
      ensures writer.screen
           == if wrote then PutString(old(writer.screen), report, writer.color) else old(writer.screen)
    {
      var already := EnterFatalHandler();
      wrote := !already;
      if wrote {
        writer.WriteString(report);
      }
    }

    /** Of any number of activations, one above the other, only the first shows on the screen. */
    method ActivateAll(writer: Writer, reports: seq<seq<Byte>>)
      requires writer.Valid()
      modifies this, writer, writer.cells
      ensures writer.Valid()
      ensures writer.screen
           == if old(panicking) || reports == [] then old(writer.screen)
              else PutString(old(writer.screen), reports[0], writer.color)
    {
      for i := 0 to |reports|
        invariant writer.Valid() && (panicking <==> old(panicking) || i > 0)
        invariant writer.screen
               == if old(panicking) || i == 0 then old(writer.screen)
                  else PutString(old(writer.screen), reports[0], writer.color)
      {
        var _ := Activate(writer, reports[i]);
      }
    }
  }
}
