/**
 What whole runs of the scope machine guarantee beyond conservation: which spans the drainer can still reach,
 that nothing on a registered thread is lost, and what the process-wide drop counter misses. Where a promise
 fails, a run from the empty stack shows it.
 */
module ScopeRuns {
  import opened Common
  import opened ScopeMachine

  // ---------------------------------------------------------------------------------------------
  // Runs
  // ---------------------------------------------------------------------------------------------

  /** Each step is enabled when its turn comes; nothing is asked of a state that breaks the invariant. */
  ghost predicate EnabledInTurn<B, S>(y: Sys<B, S>, steps: seq<Step<B, S>>)
    decreases |steps|
  {
    steps == [] || (Inv(y) ==> Enabled(y, steps[0]) && EnabledInTurn(Next(y, steps[0]), steps[1..]))
  }

  /** Every list of steps enabled in turn leads somewhere: the invariant never stands in a run's way. */
  lemma {:induction false} LeadsSomewhere<B, S>(y: Sys<B, S>, steps: seq<Step<B, S>>) returns (y': Sys<B, S>)
    requires Inv(y) && EnabledInTurn(y, steps)
    ensures Leads(y, steps, y')
    decreases |steps|
  {
    hide Inv;
    if steps == [] {
      y' := y;
    } else {
      InvNext(y, steps[0]);
      y' := LeadsSomewhere(Next(y, steps[0]), steps[1..]);
    }
  }

  /** One more enabled step prolongs a run. */
  lemma {:induction false} LeadsOn<B, S>(y: Sys<B, S>, steps: seq<Step<B, S>>, y': Sys<B, S>, step: Step<B, S>)
    requires Inv(y) && Leads(y, steps, y') && Enabled(y', step)
    ensures Inv(y') && Leads(y, steps + [step], Next(y', step))
    decreases |steps|
  {
    hide Inv;
    LeadsInv(y, steps, y');
    if steps == [] {
      assert [step][1..] == [];
    } else {
      InvNext(y, steps[0]);
      LeadsOn(Next(y, steps[0]), steps[1..], y', step);
      assert (steps + [step])[1..] == steps[1..] + [step];
    }
  }

  /** Runs compose. */
  lemma {:induction false} LeadsJoin<B, S>(y: Sys<B, S>, s1: seq<Step<B, S>>, z: Sys<B, S>, s2: seq<Step<B, S>>,
                                           y': Sys<B, S>)
    requires Leads(y, s1, z) && Leads(z, s2, y')
    ensures Leads(y, s1 + s2, y')
    decreases |s1|
  {
    hide Inv;
    if s1 == [] {
      assert s1 + s2 == s2;
    } else {
      LeadsJoin(Next(y, s1[0]), s1[1..], z, s2, y');
      assert (s1 + s2)[1..] == s1[1..] + s2;
    }
  }

  // ---------------------------------------------------------------------------------------------
  // What the drainer can reach
  // ---------------------------------------------------------------------------------------------

  /**
   No state has two entries; a state unregistered when a span was pushed on it stays so; a span waiting away
   from home waits with its owner's thread.
   */
  ghost predicate Reach<B, S>(y: Sys<B, S>) {
    && (forall j, k | j in y.registry && k in y.registry && j != k :: y.registry[j] != y.registry[k])
    && (forall s | s in y.info && !y.info[s].tracked :: y.info[s].home !in y.registry.Values)
    && (forall s | s in y.info && s in y.at && y.at[s].InDeque? && y.at[s].of != y.info[s].home ::
          Thread(y.info[s].owner) in y.registry && y.registry[Thread(y.info[s].owner)] == y.at[s].of)
  }

  lemma ReachEnroll<B, S>(y: Sys<B, S>, key: Key, tid: int, b: B)
    requires Reach(y) && Stacks(y) && Registered(y) && key !in y.registry && b !in y.states
    ensures Reach(Enroll(y, key, tid, b))
  {
    ValuesAdd(y.registry, key, b);
  }

  lemma ValuesAdd<B>(registry: map<Key, B>, key: Key, b: B)
    requires key !in registry
    ensures registry[key := b].Values == registry.Values + {b}
  {
    var r := registry[key := b];
    assert r[key] == b;
    forall x | x in registry.Values ensures x in r.Values {
      var k :| k in registry && registry[k] == x;
      assert r[k] == x;
    }
  }

  lemma ValuesRemove<B>(registry: map<Key, B>, key: Key)
    requires key in registry
    requires forall j, k | j in registry && k in registry && j != k :: registry[j] != registry[k]
    ensures (registry - {key}).Values == registry.Values - {registry[key]}
  {
    var r := registry - {key};
    forall x | x in registry.Values && x != registry[key] ensures x in r.Values {
      var k :| k in registry && registry[k] == x;
      assert k in r && r[k] == x;
    }
  }

  lemma ReachForget<B, S>(y: Sys<B, S>, id: string)
    requires Reach(y) && Found(y)
    ensures Reach(Forget(y, id))
  {
    var key := Request(id);
    if key in y.registry { ValuesRemove(y.registry, key); }
  }

  lemma ReachPush<B, S>(y: Sys<B, S>, b: B, s: S)
    requires Reach(y) && b in y.states && s !in y.info
    ensures Reach(Push(y, b, s))
  {
  }

  lemma ReachAppend<B, S>(y: Sys<B, S>, b: B, s: S)
    requires Reach(y) && b in y.states
    requires s in y.info && y.info[s].home != b ==>
      Thread(y.info[s].owner) in y.registry && y.registry[Thread(y.info[s].owner)] == b
    ensures Reach(Append(y, b, s))
  {
  }

  /** Reach speaks of the registry, the fixed facts and the ledger only. */
  lemma ReachFrame<B, S>(y: Sys<B, S>, y': Sys<B, S>)
    requires Reach(y) && y'.registry == y.registry && y'.info == y.info && y'.at == y.at
    ensures Reach(y')
  {
  }

  lemma ReachFinish<B, S>(y: Sys<B, S>, b: B, s: S, stack: seq<S>)
    requires Inv(y) && Reach(y) && b in y.states && s in y.states[b].stack
    ensures b in Finish(y, b, s).states && Reach(SetStack(Finish(y, b, s), b, stack))
  {
    hide Stacks, Placed, Found, Registered, Counted;
    StackFacts(y, b);
    ReachFrame(y, Stop(y, s));
    ReachAppend(Stop(y, s), b, s);
    hide Reach, Append;
    ReachFrame(Finish(y, b, s), SetStack(Finish(y, b, s), b, stack));
  }

  lemma ReachEmit<B, S>(y: Sys<B, S>, s: S)
    requires Reach(y) && s in y.info && forall k | k in y.registry :: y.registry[k] in y.states
    ensures Reach(EmitByOwner(y, s))
  {
    var key := Thread(y.info[s].owner);
    if key in y.registry {
      assert y.registry[key] in y.registry.Values;
      ReachAppend(y, y.registry[key], s);
    }
  }

  lemma ReachClose<B, S>(y: Sys<B, S>, s: S)
    requires Inv(y) && Reach(y) && s in y.info
    ensures CloseScope.requires(y, s) && Reach(CloseScope(y, s))
  {
    hide Stacks, Placed, Found, Registered, Counted;
    RegistryFacts(y);
    if s !in y.ended {
      ReachFrame(y, Stop(y, s));
      ReachEmit(Stop(y, s), s);
    }
  }

  lemma ReachHold<B, S>(y: Sys<B, S>, tid: int, b: B, s: S)
    requires Reach(y) && b in y.states && s in y.info
    ensures Reach(FinalizeDeferred(y, tid, b, s))
  {
  }

  lemma ReachNext<B, S>(y: Sys<B, S>, step: Step<B, S>)
    requires Inv(y) && Reach(y) && Enabled(y, step)
    ensures Reach(Next(y, step))
  {
    hide Stacks, Placed, Found, Registered, Counted, Reach;
    RegistryFacts(y);
    match step
    case Touch(tid, b) => ReachEnroll(y, Thread(tid), tid, b);
    case EnterRequest(id, tid, b) => ReachEnroll(y, Request(id), tid, b);
    case LeaveRequest(id) => ReachForget(y, id);
    case PushOn(b, s) => ReachPush(y, b, s);
    case PopOn(b) =>
      var q := y.states[b].stack;
      if q != [] { ReachFinish(y, b, q[|q| - 1], q[..|q| - 1]); }
    case CloseOutOfBand(s) => ReachClose(y, s);
    case CloseInPlace(_, b, s) =>
      ReachClose(y, s);
      if s in y.states[b].stack { ReachFinish(y, b, s, RemoveFirst(y.states[b].stack, s)); }
    case StopClock(tid, b, s) => ReachHold(y, tid, b, s);
    case EmitHeld(s) => ReachEmit(y, s);
    case DrainOne(b) => ReachPopLeft(y, b);
  }

  lemma ReachPopLeft<B, S>(y: Sys<B, S>, b: B)
    requires Reach(y) && b in y.states
    ensures Reach(PopLeft(y, b))
  {
  }

  lemma {:induction false} LeadsReach<B, S>(y: Sys<B, S>, steps: seq<Step<B, S>>, y': Sys<B, S>)
    requires Inv(y) && Reach(y) && Leads(y, steps, y')
    ensures Inv(y') && Reach(y')
    decreases |steps|
  {
    hide Stacks, Placed, Found, Registered, Counted, Reach;
    if steps != [] {
      InvNext(y, steps[0]);
      ReachNext(y, steps[0]);
      LeadsReach(Next(y, steps[0]), steps[1..], y');
    }
  }

  lemma EmptyReach<B, S>()
    ensures Reach(Empty<B, S>())
  {
  }

  /**
   Over every run: a closed span waits where no drain looks exactly when it waits at home and its state was
   not registered when it was pushed.
   */
  lemma StrandedExactlyWhen<B, S>(steps: seq<Step<B, S>>, y: Sys<B, S>, b: B, s: S)
    requires Leads(Empty(), steps, y) && b in y.states && s in y.states[b].closed
    ensures s in y.info
    ensures b !in y.registry.Values <==> !y.info[s].tracked && y.info[s].home == b
  {
    hide Stacks, Placed, Found, Registered, Counted, Reach;
    InvEmpty<B, S>();
    EmptyReach<B, S>();
    LeadsReach(Empty(), steps, y);
    Stranded(y, b, s);
  }

  lemma Stranded<B, S>(y: Sys<B, S>, b: B, s: S)
    requires Placed(y) && Registered(y) && Reach(y) && b in y.states && s in y.states[b].closed
    ensures s in y.info
    ensures b !in y.registry.Values <==> !y.info[s].tracked && y.info[s].home == b
  {
    assert y.at[s] == InDeque(b);
  }

  type Numbers = Sys<nat, nat>

  /** The state after thread 7 has entered request "r" and nothing else has happened. */
  lemma Entered() returns (y: Numbers)
    ensures Inv(y) && Leads(Empty(), [EnterRequest("r", 7, 0)], y) && y == Enter(Empty(), "r", 7, 0)
  {
    InvEmpty<nat, nat>();
    var y0: Numbers := Empty();
    y := Enter(y0, "r", 7, 0);
    InvNext(y0, EnterRequest("r", 7, 0));
    var steps: seq<Step<nat, nat>> := [EnterRequest("r", 7, 0)];
    assert steps[1..] == [] && steps[0] == EnterRequest("r", 7, 0);
  }

  /** Entered, pruned by a drain, pushed, popped: the span waits in a state that no drain enumerates. */
  lemma StrandingHappens() returns (y: Numbers)
    ensures Leads(Empty(), [EnterRequest("r", 7, 0), LeaveRequest("r"), PushOn(0, 1), PopOn(0)], y)
    ensures 0 in y.states && y.states[0].closed == [1] && 0 !in y.registry.Values
  {
    hide Stacks, Placed, Found, Registered, Counted, Leads;
    InvEmpty<nat, nat>();
    var y1 := Entered();
    var steps: seq<Step<nat, nat>> := [EnterRequest("r", 7, 0)];
    LeadsOn(Empty(), steps, y1, LeaveRequest("r"));
    LeadsOn(Empty(), steps + [LeaveRequest("r")], Forget(y1, "r"), PushOn(0, 1));
    LeadsOn(Empty(), steps + [LeaveRequest("r")] + [PushOn(0, 1)], Push(Forget(y1, "r"), 0, 1), PopOn(0));
    PruningStrandsLaterSpans(y1, "r", 0, 1);
    y := Pop(Push(Forget(y1, "r"), 0, 1), 0);
    assert steps + [LeaveRequest("r")] + [PushOn(0, 1)] + [PopOn(0)]
        == [EnterRequest("r", 7, 0), LeaveRequest("r"), PushOn(0, 1), PopOn(0)];
  }

  // ---------------------------------------------------------------------------------------------
  // Two requests under one key
  // ---------------------------------------------------------------------------------------------

  /**
   Entering a request under a key in use replaces the entry. That is harmless exactly when nothing waits in the
   replaced state and nothing on its stack still runs.
   */
  lemma OverwritingIsSafeExactlyWhen<B, S>(y: Sys<B, S>, id: string, tid: int, b: B)
    requires Inv(y) && Reach(y) && Request(id) in y.registry && b !in y.states
    ensures y.registry[Request(id)] in y.states
    ensures var was := y.states[y.registry[Request(id)]];
      Inv(Enter(y, id, tid, b)) <==> was.closed == [] && forall s | s in was.stack :: s in y.ended
  {
    hide Stacks, Placed, Found, Registered, Counted, Reach;
    RegistryFacts(y);
    StacksEnroll(y, Request(id), tid, b);
    PlacedEnroll(y, Request(id), tid, b);
    CountedEnroll(y, Request(id), tid, b);
    var r := y.registry[Request(id)];
    if y.states[r].closed == [] && forall s | s in y.states[r].stack :: s in y.ended {
      OverwriteSafe(y, id, tid, b);
    } else if y.states[r].closed != [] {
      OverwriteStrands(y, id, tid, b, y.states[r].closed[0]);
    } else {
      var s :| s in y.states[r].stack && s !in y.ended;
      OverwriteStrands(y, id, tid, b, s);
    }
  }

  lemma ValuesReplace<B, S>(y: Sys<B, S>, key: Key, b: B)
    requires Reach(y) && key in y.registry && b !in y.registry.Values
    ensures y.registry[key := b].Values == y.registry.Values - {y.registry[key]} + {b}
  {
    ValuesRemove(y.registry, key);
    ValuesAdd(y.registry - {key}, key, b);
    assert (y.registry - {key})[key := b] == y.registry[key := b];
  }

  lemma OverwriteSafe<B, S>(y: Sys<B, S>, id: string, tid: int, b: B)
    requires Stacks(y) && Placed(y) && Found(y) && Registered(y) && Reach(y)
    requires Request(id) in y.registry && b !in y.states
    requires var q := y.states[y.registry[Request(id)]]; q.closed == [] && forall s | s in q.stack :: s in y.ended
    ensures Registered(Enter(y, id, tid, b))
  {
    var y', r := Enter(y, id, tid, b), y.registry[Request(id)];
    ValuesReplace(y, Request(id), b);
    forall s | s in y.info && s in y.at && y.info[s].tracked && y.at[s].Open?
      ensures y.info[s].home in y'.registry.Values {
      assert s in y.states[y.info[s].home].stack;
    }
    forall s | s in y.info && s in y.at && y.info[s].tracked && y.at[s].InDeque?
      ensures y.at[s].of in y'.registry.Values {
      assert s in y.states[y.at[s].of].closed;
    }
  }

  lemma OverwriteStrands<B, S>(y: Sys<B, S>, id: string, tid: int, b: B, s: S)
    requires Stacks(y) && Placed(y) && Registered(y) && Reach(y)
    requires Request(id) in y.registry && b !in y.states
    requires var q := y.states[y.registry[Request(id)]]; s in q.closed || (s in q.stack && s !in y.ended)
    ensures !Registered(Enter(y, id, tid, b))
  {
    var r := y.registry[Request(id)];
    ValuesReplace(y, Request(id), b);
    assert s in y.info && y.info[s].home == r && y.info[s].tracked by {
      if s in y.states[r].closed { assert y.at[s] == InDeque(r); }
    }
  }

  // ---------------------------------------------------------------------------------------------
  // Nothing on a registered thread is lost
  // ---------------------------------------------------------------------------------------------

  /** Thread entries are never removed and a span's fixed facts never rewritten. */
  lemma RegisteredStays<B, S>(y: Sys<B, S>, step: Step<B, S>, s: S)
    requires Inv(y) && Enabled(y, step) && s in y.info && Thread(y.info[s].owner) in y.registry
    ensures var y' := Next(y, step); s in y'.info && y'.info[s] == y.info[s] && Thread(y.info[s].owner) in y'.registry
  {
    hide Stacks, Placed, Found, Registered, Counted;
  }

  /**
   From the moment the owner's thread id is registered a span that is not lost is never lost, whichever state
   it was pushed on, over every interleaving.
   */
  lemma {:induction false} NeverLostOnceRegistered<B, S>(y: Sys<B, S>, steps: seq<Step<B, S>>, y': Sys<B, S>, s: S)
    requires Inv(y) && Leads(y, steps, y')
    requires s in y.info && Thread(y.info[s].owner) in y.registry && !Is(y, s, Lost)
    ensures s in y'.info && !Is(y', s, Lost)
    decreases |steps|
  {
    hide Stacks, Placed, Found, Registered, Counted;
    if steps != [] {
      var next := Next(y, steps[0]);
      InvNext(y, steps[0]);
      LostExactlyWhen(y, steps[0], s);
      RegisteredStays(y, steps[0], s);
      hide Next, Is;
      NeverLostOnceRegistered(next, steps[1..], y', s);
    }
  }

  /** So over every run it is in exactly one of the five places the SDK accounts for. */
  lemma RegisteredSpanIsAccountedFor<B, S>(before: seq<Step<B, S>>, y: Sys<B, S>,
    after: seq<Step<B, S>>, y': Sys<B, S>, s: S)
    requires Leads(Empty(), before, y) && Leads(y, after, y')
    requires s in y.info && Thread(y.info[s].owner) in y.registry && !Is(y, s, Lost)
    ensures s in y'.info
    ensures One(IsOpen(y', s)) + One(Is(y', s, Held)) + One(InSomeDeque(y', s))
            + One(s in y'.drained) + One(s in y'.evicted) == 1
  {
    hide Stacks, Placed, Found, Registered, Counted;
    InvEmpty<B, S>();
    LeadsInv(Empty(), before, y);
    NeverLostOnceRegistered(y, after, y', s);
    LeadsInv(y, after, y');
    InvConserved(y');
  }

  /** A span of a request on a thread without a state of its own, closed out of band, is lost. */
  lemma LossHappens() returns (y: Numbers)
    ensures Leads(Empty(), [EnterRequest("r", 7, 0), PushOn(0, 1), CloseOutOfBand(1)], y) && Is(y, 1, Lost)
  {
    hide Stacks, Placed, Found, Registered, Counted, Leads;
    InvEmpty<nat, nat>();
    var y1 := Entered();
    var steps: seq<Step<nat, nat>> := [EnterRequest("r", 7, 0)];
    LeadsOn(Empty(), steps, y1, PushOn(0, 1));
    var y2 := Push(y1, 0, 1);
    LeadsOn(Empty(), steps + [PushOn(0, 1)], y2, CloseOutOfBand(1));
    LostExactlyWhen(y2, CloseOutOfBand(1), 1);
    InfoFacts(y1);
    assert 1 !in y2.ended && y2.info[1].owner == 7 && Thread(7) !in y2.registry;
    y := Next(y2, CloseOutOfBand(1));
    assert steps + [PushOn(0, 1)] + [CloseOutOfBand(1)] == [EnterRequest("r", 7, 0), PushOn(0, 1), CloseOutOfBand(1)];
  }

  // ---------------------------------------------------------------------------------------------
  // How spans move
  // ---------------------------------------------------------------------------------------------

  /** From a deque a span goes out by draining or eviction only; what is out stays out; held ones wait. */
  ghost predicate Moves<B, S>(before: Place<B>, after: Place<B>, emitted: bool) {
    match before
    case Open => true
    case Held => emitted || after == Held
    case InDeque(b) => after == InDeque(b) || after == Drained || after == Evicted
    case _ => after == before
  }

  lemma AppendMoves<B, S>(y: Sys<B, S>, b: B, x: S, s: S)
    requires Placed(y) && b in y.states && s in y.at && x in y.at && y.at[x] in {Open, Held}
    ensures s in Append(y, b, x).at
    ensures s != x ==> Moves<B, S>(y.at[s], Append(y, b, x).at[s], false)
  {
    if Full(y, b) { assert y.states[b].closed[0] in y.states[b].closed; }
  }

  lemma FinishMoves<B, S>(y: Sys<B, S>, b: B, x: S, s: S)
    requires Placed(y) && b in y.states && s in y.at && x in y.info
    ensures s in Finish(y, b, x).at && Moves<B, S>(y.at[s], Finish(y, b, x).at[s], false)
  {
    if x !in y.ended {
      assert y.at[x] == Open;
      StopMoves(y, x);
      StoppedAppendMoves(y, b, x, s);
    }
  }

  /** Stopping the clock moves nothing by itself. */
  lemma StopMoves<B, S>(y: Sys<B, S>, x: S)
    ensures Stop(y, x).at == y.at && Stop(y, x).states == y.states
  {
  }

  lemma StoppedAppendMoves<B, S>(y: Sys<B, S>, b: B, x: S, s: S)
    requires Placed(y) && b in y.states && s in y.at && x in y.at && y.at[x] in {Open, Held}
    ensures s in Append(Stop(y, x), b, x).at
    ensures s != x ==> Moves<B, S>(y.at[s], Append(Stop(y, x), b, x).at[s], false)
  {
    AppendMoves(y, b, x, s);
    assert Append(Stop(y, x), b, x).at == Append(y, b, x).at;
  }

  lemma EmitMoves<B, S>(y: Sys<B, S>, x: S, s: S)
    requires Inv(y) && s in y.at && x in y.info && x in y.at && y.at[x] in {Open, Held}
    ensures EmitByOwner.requires(Stop(y, x), x) && s in EmitByOwner(Stop(y, x), x).at
    ensures s != x ==> Moves<B, S>(y.at[s], EmitByOwner(Stop(y, x), x).at[s], false)
  {
    hide Stacks, Found, Counted;
    RegistryFacts(y);
    var key := Thread(y.info[x].owner);
    if key in y.registry { StoppedAppendMoves(y, y.registry[key], x, s); }
  }

  lemma CloseMoves<B, S>(y: Sys<B, S>, x: S, s: S)
    requires Inv(y) && s in y.at && x in y.info
    ensures CloseScope.requires(y, x) && s in CloseScope(y, x).at
    ensures Moves<B, S>(y.at[s], CloseScope(y, x).at[s], false)
  {
    hide Stacks, Placed, Found, Registered, Counted;
    RegistryFacts(y);
    InvFacts(y, x);
    if x !in y.ended { EmitMoves(y, x, s); }
  }

  lemma PopLeftMoves<B, S>(y: Sys<B, S>, b: B, s: S)
    requires Placed(y) && b in y.states && s in y.at
    ensures s in PopLeft(y, b).at && Moves<B, S>(y.at[s], PopLeft(y, b).at[s], false)
  {
    if y.states[b].closed != [] { assert y.states[b].closed[0] in y.states[b].closed; }
  }

  lemma HeldNotStopped<B, S>(y: Sys<B, S>, tid: int, b: B, x: S, s: S)
    requires Placed(y) && b in y.states && s in y.at && x in y.info
    ensures s in FinalizeDeferred(y, tid, b, x).at
    ensures Moves<B, S>(y.at[s], FinalizeDeferred(y, tid, b, x).at[s], false)
  {
  }

  lemma NextMoves<B, S>(y: Sys<B, S>, step: Step<B, S>, s: S)
    requires Inv(y) && Enabled(y, step) && s in y.info
    ensures s in y.at && s in Next(y, step).at
    ensures Moves<B, S>(y.at[s], Next(y, step).at[s], step == EmitHeld(s))
  {
    hide Stacks, Placed, Found, Registered, Counted;
    InvFacts(y, s);
    RegistryFacts(y);
    match step
    case Touch(_, _) =>
    case EnterRequest(_, _, _) =>
    case LeaveRequest(_) =>
    case PushOn(_, _) =>
    case PopOn(b) =>
      StackFacts(y, b);
      var q := y.states[b].stack;
      if q != [] { FinishMoves(y, b, q[|q| - 1], s); }
    case CloseOutOfBand(x) => CloseMoves(y, x, s);
    case CloseInPlace(_, b, x) =>
      CloseMoves(y, x, s);
      FinishMoves(y, b, x, s);
    case StopClock(tid, b, x) => HeldNotStopped(y, tid, b, x, s);
    case EmitHeld(x) =>
      InvFacts(y, x);
      assert Stop(y, x) == y by { assert y.ended + {x} == y.ended; }
      EmitMoves(y, x, s);
    case DrainOne(b) => PopLeftMoves(y, b, s);
  }

  /** A span in a deque stays in it until drained or evicted, and for good after that. */
  lemma {:induction false} DequeMoves<B, S>(y: Sys<B, S>, steps: seq<Step<B, S>>, y': Sys<B, S>, s: S, b: B)
    requires Inv(y) && Leads(y, steps, y') && s in y.info && s in y.at && y.at[s] in {InDeque(b), Drained, Evicted}
    ensures s in y'.info && s in y'.at && y'.at[s] in {InDeque(b), Drained, Evicted}
    ensures y.at[s] != InDeque(b) ==> y'.at[s] == y.at[s]
    decreases |steps|
  {
    hide Stacks, Placed, Found, Registered, Counted;
    if steps != [] {
      var next := Next(y, steps[0]);
      NextMoves(y, steps[0], s);
      InvNext(y, steps[0]);
      LedgerKeys(next);
      hide Next;
      DequeMoves(next, steps[1..], y', s, b);
    }
  }

  lemma LedgerKeys<B, S>(y: Sys<B, S>)
    requires Inv(y)
    ensures y.at.Keys == y.info.Keys
  {
  }

  /**
   The drain, interleaved with anything: whatever waited in a deque when it started is drained or evicted once
   the drain has found that deque empty, however many spans are pushed, closed and appended meanwhile.
   */
  lemma DrainLeavesNothingBehind<B, S>(y: Sys<B, S>, s1: seq<Step<B, S>>, z: Sys<B, S>, s2: seq<Step<B, S>>,
                                       y': Sys<B, S>, b: B, s: S)
    requires Inv(y) && Leads(y, s1, z) && Leads(z, s2, y')
    requires b in y.states && s in y.states[b].closed && b in z.states && z.states[b].closed == []
    ensures s in y'.drained || s in y'.evicted
  {
    hide Stacks, Placed, Found, Registered, Counted;
    WaitingIsInDeque(y, b, s);
    DequeMoves(y, s1, z, s, b);
    LeadsInv(y, s1, z);
    EmptyDequeHolds(z, b, s);
    DequeMoves(z, s2, y', s, b);
    LeadsInv(z, s2, y');
    InvIsOnePlace(y', s);
  }

  lemma WaitingIsInDeque<B, S>(y: Sys<B, S>, b: B, s: S)
    requires Inv(y) && b in y.states && s in y.states[b].closed
    ensures s in y.info && s in y.at && y.at[s] == InDeque(b)
  {
  }

  lemma EmptyDequeHolds<B, S>(y: Sys<B, S>, b: B, s: S)
    requires Inv(y) && b in y.states && y.states[b].closed == [] && s in y.at
    ensures y.at[s] != InDeque(b)
  {
  }

  // ---------------------------------------------------------------------------------------------
  // Off the stack
  // ---------------------------------------------------------------------------------------------

  /** The span is cut out of the stack; everything else keeps its order. */
  ghost predicate CutFrom<S>(before: seq<S>, after: seq<S>, s: S) {
    exists k | 0 <= k < |before| :: before[k] == s && after == before[..k] + before[k + 1..]
  }

  lemma CutIsGone<S>(before: seq<S>, s: S)
    requires NoDup(before) && s in before
    ensures CutFrom(before, RemoveFirst(before, s), s) && s !in RemoveFirst(before, s)
  {
    var k := RemoveFirstSplits(before, s);
  }

  /** The owner's deferred close takes the span off the stack at once and leaves every deque alone. */
  lemma StopClockCuts<B, S>(y: Sys<B, S>, tid: int, b: B, s: S)
    requires Inv(y) && Enabled(y, StopClock(tid, b, s)) && tid == y.info[s].owner
    ensures var y' := Next(y, StopClock(tid, b, s));
      && s in y'.ended && y'.states.Keys == y.states.Keys && s !in y'.states[b].stack
      && (if s in y.states[b].stack then CutFrom(y.states[b].stack, y'.states[b].stack, s)
          else y'.states[b].stack == y.states[b].stack)
      && (forall c | c in y.states :: y'.states[c].closed == y.states[c].closed)
      && (forall c | c in y.states && c != b :: y'.states[c].stack == y.states[c].stack)
  {
    hide Stacks, Placed, Found, Registered, Counted;
    StackIsDistinct(y, b);
    if s in y.states[b].stack { CutIsGone(y.states[b].stack, s); }
  }

  /** So the next push on that state does not nest under the span that has ended. */
  lemma StoppedIsNoParent<B, S>(y: Sys<B, S>, tid: int, b: B, s: S, next: S)
    requires Inv(y) && Enabled(y, StopClock(tid, b, s)) && tid == y.info[s].owner && next !in y.info
    ensures var y' := Next(y, StopClock(tid, b, s));
      && b in y'.states && (|y'.states[b].stack| < 64 ==>
        next in Push(y', b, next).info && Push(y', b, next).info[next].parent != Some(s))
  {
    hide Stacks, Placed, Found, Registered, Counted, Next;
    StopClockCuts(y, tid, b, s);
  }

  /** A new span nests under the innermost one on its state, whatever else is open. */
  lemma PushNestsUnderTop<B, S>(y: Sys<B, S>, b: B, s: S)
    requires b in y.states && s !in y.info && |y.states[b].stack| < 64
    ensures var y', q := Push(y, b, s), y.states[b].stack;
      && s in y'.info && y'.states[b].stack == q + [s]
      && (q == [] ==> y'.info[s].parent == None)
      && (forall outer, top | q == outer + [top] :: y'.info[s].parent == Some(top))
  {
  }

  // ---------------------------------------------------------------------------------------------
  // Parent chains
  // ---------------------------------------------------------------------------------------------

  /** Thread 7 has span n - 1 alone on its stack, and each of the spans 1 to n - 1 has the one before as parent. */
  ghost predicate ChainOf(y: Numbers, n: nat) {
    && n > 0 && 0 in y.states && y.states[0].stack == [n - 1] && y.states[0].tid == 7
    && (forall i: nat :: i in y.info <==> i < n)
    && y.info[n - 1].owner == 7
    && forall i: nat | 0 < i < n :: y.info[i].parent == Some(i - 1)
  }

  lemma ChainGrows(y: Numbers, s: nat)
    requires Inv(y) && ChainOf(y, s) && CloseAndRemove.requires(Push(y, 0, s), 7, 0, s - 1)
    ensures ChainOf(CloseAndRemove(Push(y, 0, s), 7, 0, s - 1), s + 1)
  {
    hide Stacks, Placed, Found, Registered, Counted;
    var z := Push(y, 0, s);
    var last: nat := s - 1;
    assert z.states[0].stack == [last, s];
    assert RemoveFirst([last, s], last) == [s] by { assert [last, s][1..] == [s]; }
  }

  lemma StartsHere<B, S>(y: Sys<B, S>)
    ensures Leads(y, [], y)
  {
  }

  /** Pushing and closing the span below, in turn, builds a parent chain of any length on a stack of two. */
  lemma {:induction false} ChainsGrowWithoutBound(n: nat) returns (steps: seq<Step<nat, nat>>, y: Numbers)
    requires n > 0
    ensures Inv(y) && Leads(Empty(), steps, y) && ChainOf(y, n)
  {
    hide Stacks, Placed, Found, Registered, Counted, Leads;
    InvEmpty<nat, nat>();
    var y0: Numbers := Empty();
    if n == 1 {
      StartsHere(y0);
      LeadsOn(y0, [], y0, Touch(7, 0));
      var y1 := Register(y0, 7, 0);
      InvNext(y0, Touch(7, 0));
      LeadsOn(y0, [] + [Touch(7, 0)], y1, PushOn(0, 0));
      InvNext(y1, PushOn(0, 0));
      steps, y := [] + [Touch(7, 0)] + [PushOn(0, 0)], Push(y1, 0, 0);
    } else {
      var before, x := ChainsGrowWithoutBound(n - 1);
      var s: nat, last: nat := n - 1, n - 2;
      LeadsOn(y0, before, x, PushOn(0, s));
      InvNext(x, PushOn(0, s));
      var z := Push(x, 0, s);
      RegistryFacts(z);
      LeadsOn(y0, before + [PushOn(0, s)], z, CloseInPlace(7, 0, last));
      InvNext(z, CloseInPlace(7, 0, last));
      ChainGrows(x, s);
      steps, y := before + [PushOn(0, s)] + [CloseInPlace(7, 0, last)], CloseAndRemove(z, 7, 0, last);
    }
  }
}
