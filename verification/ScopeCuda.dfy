/**
 The pending CUDA pairs beside the scope machine: the spans they wait for are held there, so the emissions of
 a drain, which carry no guard of their own, are always owed.
 */
module ScopeCuda {
  import opened Common
  import M = ScopeMachine
  import R = ScopeRuns
  import opened CudaTiming

  /** The spans are distinct and finalized, and none has been emitted. */
  ghost predicate AllHeld<B>(spans: seq<Span>, y: M.Sys<B, Span>) {
    NoDup(spans) && forall s | s in spans :: s in y.info && M.Is(y, s, M.Held)
  }

  function Emissions<B>(spans: seq<Span>): seq<M.Step<B, Span>> {
    if spans == [] then [] else [M.EmitHeld(spans[0])] + Emissions(spans[1..])
  }

  /** No step but its emission moves a held span. */
  lemma OtherKeepsHeld<B>(y: M.Sys<B, Span>, step: M.Step<B, Span>, s: Span)
    requires M.Inv(y) && M.Enabled(y, step) && s in y.info && M.Is(y, s, M.Held) && step != M.EmitHeld(s)
    ensures s in M.Next(y, step).info && M.Is(M.Next(y, step), s, M.Held)
  {
    hide M.Stacks, M.Placed, M.Found, M.Registered, M.Counted, M.Next, M.Enabled;
    M.InvNext(y, step);
    R.NextMoves(y, step, s);
    R.LedgerKeys(M.Next(y, step));
  }

  lemma OthersKeepHeld<B>(y: M.Sys<B, Span>, step: M.Step<B, Span>, spans: seq<Span>)
    requires M.Inv(y) && M.Enabled(y, step) && AllHeld(spans, y)
    requires step.EmitHeld? ==> step.s !in spans
    ensures AllHeld(spans, M.Next(y, step))
  {
    hide M.Inv, M.Next, M.Enabled;
    forall s | s in spans ensures s in M.Next(y, step).info && M.Is(M.Next(y, step), s, M.Held) {
      OtherKeepsHeld(y, step, s);
    }
  }

  lemma StoppedIsHeld<B>(y: M.Sys<B, Span>, tid: int, b: B, s: Span)
    requires M.Inv(y) && b in y.states && s in y.info && s !in y.ended
    ensures !M.Is(y, s, M.Held)
    ensures s in M.FinalizeDeferred(y, tid, b, s).info && M.Is(M.FinalizeDeferred(y, tid, b, s), s, M.Held)
  {
    M.InvFacts(y, s);
    hide M.Inv;
  }

  lemma HeldSnoc<B>(y: M.Sys<B, Span>, s: Span, spans: seq<Span>)
    requires AllHeld(spans, y) && s !in spans && s in y.info && M.Is(y, s, M.Held)
    ensures AllHeld(spans + [s], y)
  {
  }

  /** A running span whose clock is stopped joins them. */
  lemma FinalizedIsHeld<B>(y: M.Sys<B, Span>, tid: int, b: B, s: Span, spans: seq<Span>)
    requires M.Inv(y) && AllHeld(spans, y) && b in y.states && s in y.info && s !in y.ended
    ensures s !in spans && AllHeld(spans + [s], M.FinalizeDeferred(y, tid, b, s))
  {
    hide M.Inv, M.FinalizeDeferred;
    StoppedIsHeld(y, tid, b, s);
    OthersKeepHeld(y, M.StopClock(tid, b, s), spans);
    HeldSnoc(M.FinalizeDeferred(y, tid, b, s), s, spans);
  }

  /** Held spans can be emitted in any number, one after the other, and the rest stay held. */
  lemma {:induction false} HeldCanBeEmitted<B>(y: M.Sys<B, Span>, spans: seq<Span>, kept: seq<Span>)
    returns (y': M.Sys<B, Span>)
    requires M.Inv(y) && AllHeld(spans, y) && AllHeld(kept, y) && forall s | s in spans :: s !in kept
    ensures M.Inv(y') && M.Leads(y, Emissions(spans), y') && AllHeld(kept, y')
    decreases |spans|
  {
    hide M.Inv;
    if spans == [] {
      y' := y;
    } else {
      var s, rest := spans[0], spans[1..];
      assert s in spans && AllHeld(rest, y);
      assert forall x | x in rest :: x in spans && x != s;
      M.InvNext(y, M.EmitHeld(s));
      OthersKeepHeld(y, M.EmitHeld(s), rest);
      OthersKeepHeld(y, M.EmitHeld(s), kept);
      hide M.Next, M.Enabled;
      y' := HeldCanBeEmitted(M.Next(y, M.EmitHeld(s)), rest, kept);
    }
  }

  // ---------------------------------------------------------------------------------------------
  // The two machines together
  // ---------------------------------------------------------------------------------------------

  /** Any scope step but an emission, a deferred close, or a drain of the pending pairs. */
  datatype Act<B> =
    | Other(step: M.Step<B, Span>)
    | Defer(tid: int, b: B, pair: Pair)
    | Collect(force: bool, probe: Event -> Probe)

  /** Only a running span is deferred; of a drain nothing is asked. */
  ghost predicate Can<B>(y: M.Sys<B, Span>, act: Act<B>) {
    match act
    case Other(step) => M.Enabled(y, step) && !step.EmitHeld?
    case Defer(_, b, pair) => b in y.states && pair.span in y.info && pair.span !in y.ended
    case Collect(_, _) => true
  }

  /** The pairs waiting after the act. */
  function After<B>(y: M.Sys<B, Span>, items: seq<Pair>, act: Act<B>): seq<Pair> {
    match act
    case Other(_) => items
    case Defer(_, _, pair) => items + [pair]
    case Collect(force, probe) => Kept(items, y.ended, force, probe)
  }

  /** What the act does to the scope machine. */
  function StepsOf<B>(y: M.Sys<B, Span>, items: seq<Pair>, act: Act<B>): seq<M.Step<B, Span>> {
    match act
    case Other(step) => [step]
    case Defer(tid, b, pair) => [M.StopClock(tid, b, pair.span)]
    case Collect(force, probe) => Emissions(Released(items, y.ended, force, probe))
  }

  lemma OneStep<B>(y: M.Sys<B, Span>, step: M.Step<B, Span>)
    requires M.Inv(y) && M.Enabled(y, step)
    ensures M.Inv(M.Next(y, step)) && M.Leads(y, [step], M.Next(y, step))
  {
    hide M.Stacks, M.Placed, M.Found, M.Registered, M.Counted;
    R.StartsHere(y);
    R.LeadsOn(y, [], y, step);
    M.InvNext(y, step);
    assert [] + [step] == [step];
  }

  /** Every act is a run of the scope machine, its emissions enabled, and leaves just held spans pending. */
  lemma ActIsARun<B>(y: M.Sys<B, Span>, items: seq<Pair>, act: Act<B>) returns (y': M.Sys<B, Span>)
    requires M.Inv(y) && AllHeld(SpansOf(items), y) && Can(y, act)
    ensures M.Inv(y') && M.Leads(y, StepsOf(y, items, act), y') && AllHeld(SpansOf(After(y, items, act)), y')
  {
    hide M.Inv, M.Leads, M.FinalizeDeferred, Kept, Released, SpansOf;
    match act
    case Other(step) =>
      OneStep(y, step);
      OthersKeepHeld(y, step, SpansOf(items));
      y' := M.Next(y, step);
    case Defer(tid, b, pair) =>
      OneStep(y, M.StopClock(tid, b, pair.span));
      FinalizedIsHeld(y, tid, b, pair.span, SpansOf(items));
      CudaPending.SpansSnoc(items, pair);
      y' := M.Next(y, M.StopClock(tid, b, pair.span));
    case Collect(force, probe) =>
      y' := CollectIsARun(y, items, force, probe);
  }

  lemma CollectIsARun<B>(y: M.Sys<B, Span>, items: seq<Pair>, force: bool, probe: Event -> Probe)
    returns (y': M.Sys<B, Span>)
    requires M.Inv(y) && AllHeld(SpansOf(items), y)
    ensures M.Inv(y') && M.Leads(y, Emissions(Released(items, y.ended, force, probe)), y')
    ensures AllHeld(SpansOf(Kept(items, y.ended, force, probe)), y')
  {
    hide M.Inv, M.Leads, Kept, Released, SpansOf, Emissions;
    DrainSplits(items, y.ended, force, probe);
    y' := HeldCanBeEmitted(y, Released(items, y.ended, force, probe), SpansOf(Kept(items, y.ended, force, probe)));
  }

  /** A joint run: each act possible when its turn comes. */
  ghost predicate Joint<B(!new)>(y: M.Sys<B, Span>, items: seq<Pair>, acts: seq<Act<B>>,
                                  y': M.Sys<B, Span>, items': seq<Pair>)
    decreases |acts|
  {
    if acts == [] then y == y' && items == items'
    else (
      && Can(y, acts[0])
      && exists z ::
          M.Leads(y, StepsOf(y, items, acts[0]), z) && Joint(z, After(y, items, acts[0]), acts[1..], y', items'))
  }

  /** Over every joint run: it is a run of the scope machine and the pending spans are held. */
  lemma {:induction false} JointIsARun<B(!new)>(y: M.Sys<B, Span>, items: seq<Pair>, acts: seq<Act<B>>,
                                                y': M.Sys<B, Span>, items': seq<Pair>)
    returns (steps: seq<M.Step<B, Span>>)
    requires M.Inv(y) && AllHeld(SpansOf(items), y) && Joint(y, items, acts, y', items')
    ensures M.Leads(y, steps, y') && AllHeld(SpansOf(items'), y')
    decreases |acts|
  {
    hide M.Inv, M.Leads, SpansOf, AllHeld;
    if acts == [] {
      R.StartsHere(y);
      steps := [];
    } else {
      var z :| M.Leads(y, StepsOf(y, items, acts[0]), z) && Joint(z, After(y, items, acts[0]), acts[1..], y', items');
      var x := ActIsARun(y, items, acts[0]);
      LeadsToOne(y, StepsOf(y, items, acts[0]), x, z);
      var rest := JointIsARun(z, After(y, items, acts[0]), acts[1..], y', items');
      R.LeadsJoin(y, StepsOf(y, items, acts[0]), z, rest, y');
      steps := StepsOf(y, items, acts[0]) + rest;
    }
  }

  lemma {:induction false} LeadsToOne<B>(y: M.Sys<B, Span>, steps: seq<M.Step<B, Span>>, x: M.Sys<B, Span>,
                                      z: M.Sys<B, Span>)
    requires M.Leads(y, steps, x) && M.Leads(y, steps, z)
    ensures x == z
    decreases |steps|
  {
    hide M.Inv;
    if steps != [] { LeadsToOne(M.Next(y, steps[0]), steps[1..], x, z); }
  }
}
