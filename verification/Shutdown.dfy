/** Stage-1 graceful stop (`stage1-shutdown.ts`): signals, one deadline and the outcome of `stop()` race to
    end the process. */
module Shutdown {
  import opened Text

  datatype Event = Signal | Deadline | Fulfilled | Rejected

  /** `armed`: the deadline timer is set and not cleared. `pending`: `stop()` was called and has not settled. */
  datatype State = State(stopping: bool, exited: bool, armed: bool, pending: bool, exits: seq<int>)

  const INITIAL := State(false, false, false, false, [])

  function ExitOnce(s: State, code: int): State {
    if s.exited then s else s.(exited := true, armed := false, exits := s.exits + [code])
  }

  /** A timer that is not armed does not fire and a promise settles once; such events change nothing. */
  function Step(s: State, e: Event): State {
    match e
    case Signal => if s.stopping then s else State(true, false, true, true, s.exits)
    case Deadline => if s.armed then ExitOnce(s.(armed := false), 1) else s
    case Fulfilled => if s.pending then ExitOnce(s.(pending := false), 0) else s
    case Rejected => if s.pending then ExitOnce(s.(pending := false), 1) else s
  }

  function Run(events: seq<Event>): State
    decreases |events|
  {
    if events == [] then INITIAL else Step(Run(events[..|events| - 1]), events[|events| - 1])
  }

  // ----- reference: who decides -----

  /** The first signal. */
  function FirstSignal(events: seq<Event>): (i: nat)
    ensures i <= |events|
    ensures i < |events| ==> events[i] == Signal
    ensures forall j :: 0 <= j < i ==> events[j] != Signal
  {
    if events == [] || events[0] == Signal then 0 else 1 + FirstSignal(events[1..])
  }

  /** The first event other than a signal. */
  function FirstOther(events: seq<Event>): (i: nat)
    ensures i <= |events|
    ensures i < |events| ==> events[i] != Signal
    ensures forall j :: 0 <= j < i ==> events[j] == Signal
  {
    if events == [] || events[0] != Signal then 0 else 1 + FirstOther(events[1..])
  }

  /** After the first signal, the first deadline or settlement decides: 0 for fulfilment, 1 otherwise. */
  function Verdict(events: seq<Event>): Option<int> {
    var rest := events[FirstSignal(events)..];
    var i := FirstOther(rest);
    if i == |rest| then None else Some(if rest[i] == Fulfilled then 0 else 1)
  }

  lemma {:induction false} FirstSignalAppend(events: seq<Event>, e: Event)
    ensures FirstSignal(events + [e]) ==
      if FirstSignal(events) < |events| then FirstSignal(events) else if e == Signal then |events| else |events| + 1
  {
    if events == [] {
      assert events + [e] == [e];
      assert [e][1..] == [];
    } else if events[0] != Signal {
      FirstSignalAppend(events[1..], e);
      assert (events + [e])[1..] == events[1..] + [e];
    }
  }

  lemma {:induction false} FirstOtherAppend(events: seq<Event>, e: Event)
    ensures FirstOther(events + [e]) ==
      if FirstOther(events) < |events| then FirstOther(events) else if e != Signal then |events| else |events| + 1
  {
    if events == [] {
      assert events + [e] == [e];
      assert [e][1..] == [];
    } else if events[0] == Signal {
      FirstOtherAppend(events[1..], e);
      assert (events + [e])[1..] == events[1..] + [e];
    }
  }

  predicate Signalled(events: seq<Event>) {
    Signal in events
  }

  lemma VerdictAppend(events: seq<Event>, e: Event)
    ensures Verdict(events + [e]) ==
      if Verdict(events).Some? then Verdict(events)
      else if !Signalled(events) || e == Signal then None
      else Some(if e == Fulfilled then 0 else 1)
  {
    var i := FirstSignal(events);
    FirstSignalAppend(events, e);
    if i < |events| {
      var rest := events[i..];
      assert (events + [e])[i..] == rest + [e];
      FirstOtherAppend(rest, e);
    } else {
      var rest := (events + [e])[FirstSignal(events + [e])..];
      assert rest == if e == Signal then [Signal] else [];
      assert FirstOther([Signal]) == 1 by { assert [Signal][1..] == []; }
    }
  }

  /** What the state is, given whether a signal came and what the verdict is so far. */
  ghost predicate Reflects(s: State, signalled: bool, verdict: Option<int>) {
    && s.exits == (if verdict.Some? then [verdict.value] else [])
    && s.stopping == signalled && s.exited == verdict.Some?
    && s.armed == (signalled && verdict.None?)
    && (verdict.None? ==> s.pending == signalled)
    && (verdict.Some? ==> signalled)
  }

  lemma StepReflects(s: State, signalled: bool, verdict: Option<int>, e: Event)
    requires Reflects(s, signalled, verdict)
    ensures Reflects(Step(s, e), signalled || e == Signal,
      if verdict.Some? then verdict
      else if !signalled || e == Signal then None
      else Some(if e == Fulfilled then 0 else 1))
  {
  }

  /** For every schedule: `exit` is called at most once; it has been called exactly when, after the first signal,
      the deadline passed or `stop()` settled; and its code is 0 exactly when fulfilment came first. */
  lemma {:induction false} SingleExit(events: seq<Event>)
    ensures Run(events).exits == if Verdict(events).Some? then [Verdict(events).value] else []
    ensures Reflects(Run(events), Signalled(events), Verdict(events))
    decreases |events|
  {
    if events == [] {
      assert Verdict(events).None?;
    } else {
      hide Verdict, Step;
      var n := |events| - 1;
      SingleExit(events[..n]);
      VerdictAppend(events[..n], events[n]);
      StepReflects(Run(events[..n]), Signalled(events[..n]), Verdict(events[..n]), events[n]);
      assert events == events[..n] + [events[n]];
    }
  }

  // ----- the closure -----

  /** The closure of `installStage1GracefulStop`, with the calls of `exit` recorded. `history` is what happened to
      it so far. */
  class GracefulStop {
    var stopping: bool
    var exited: bool
    var armed: bool
    var pending: bool
    var exits: seq<int>
    ghost var history: seq<Event>

    function View(): State
      reads this
    {
      State(stopping, exited, armed, pending, exits)
    }

    /** The fields are what the history makes of them. */
    ghost predicate Valid()
      reads this
    {
      View() == Run(history)
    }

    constructor ()
      ensures Valid() && history == [] && exits == []
    {
      stopping, exited, armed, pending, exits := false, false, false, false, [];
      history := [];
    }

    /** Every call but the first is without effect. */
    method ExitWith(code: int)
      modifies this
      ensures View() == ExitOnce(old(View()), code) && history == old(history)
    {
      if exited {
        return;
      }
      exited := true;
      armed := false;
      exits := exits + [code];
    }

    /** No signal ends the process by itself, and the deadline runs exactly while the race is undecided. */
    method HandleSignal()
      requires Valid()
      modifies this
      ensures Valid() && history == old(history) + [Signal]
      ensures exits == old(exits) && stopping && armed == Verdict(old(history)).None?
    {
      SingleExit(history);
      SingleExit(history + [Signal]);
      VerdictAppend(history, Signal);
      assert (history + [Signal])[..|history|] == history;
      history := history + [Signal];
      if stopping {
        return;
      }
      stopping := true;
      exited := false;
      armed := true;
      pending := true;
    }

    /** After any event `exit` has been called at most once, with the verdict of the whole history. */
    method Happen(e: Event)
      requires Valid()
      modifies this
      ensures Valid() && history == old(history) + [e]
      ensures exits == (if Verdict(history).Some? then [Verdict(history).value] else [])
      ensures stopping == Signalled(history) && armed == (stopping && exits == [])
    {
      SingleExit(history + [e]);
      assert (history + [e])[..|history|] == history;
      if e == Signal {
        HandleSignal();
        return;
      }
      history := history + [e];
      match e
      case Deadline =>
        if armed {
          armed := false;
          ExitWith(1);
        }
      case Fulfilled =>
        if pending {
          pending := false;
          ExitWith(0);
        }
      case Rejected =>
        if pending {
          pending := false;
          ExitWith(1);
        }
    }
  }

  /** A fresh closure driven through any schedule of signals, deadline and settlements. */
  method Race(events: seq<Event>) returns (exits: seq<int>)
    ensures exits == if Verdict(events).Some? then [Verdict(events).value] else []
  {
    var stop := new GracefulStop();
    var i := 0;
    while i < |events|
      invariant 0 <= i <= |events|
      invariant fresh(stop) && stop.Valid() && stop.history == events[..i]
    {
      hide Verdict, Run;
      stop.Happen(events[i]);
      i := i + 1;
    }
    assert events[..i] == events;
    SingleExit(events);
    exits := stop.exits;
  }
}
