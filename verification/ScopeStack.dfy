/**
 The scope stack as the objects that run: spans, per-thread states and the registry are updated in place,
 and every method is proved to take the step of the transition system in ScopeMachine.
 */
module Scopes {
  import opened Common
  import M = ScopeMachine
  import R = ScopeRuns

  class Scope {
    const parent: Option<Scope>
    const threadId: int
    const startNs: int
    var endNs: Option<int>

    constructor (parent: Option<Scope>, threadId: int, startNs: int)
      ensures this.parent == parent && this.threadId == threadId && this.startNs == startNs && endNs == None
    {
      this.parent := parent;
      this.threadId := threadId;
      this.startNs := startNs;
      endNs := None;
    }
  }

  class ScopeState {
    var stack: seq<Scope>
    var closed: seq<Scope>
    var dropCount: nat
    const threadId: int

    constructor (threadId: int)
      ensures stack == [] && closed == [] && dropCount == 0 && this.threadId == threadId
    {
      stack, closed, dropCount := [], [], 0;
      this.threadId := threadId;
    }

    /** The innermost open span. */
    function Top(): Scope
      requires stack != []
      reads this
    {
      stack[|stack| - 1]
    }

    /** deque.append with maxlen: the oldest entry falls out of a full deque and is counted. */
    method AppendClosed(s: Scope)
      modifies this
      ensures stack == old(stack)
      ensures if |old(closed)| == M.CLOSED_BUFFER_CAP
              then closed == old(closed)[1..] + [s] && dropCount == old(dropCount) + 1
              else closed == old(closed) + [s] && dropCount == old(dropCount)
    {
      if |closed| == M.CLOSED_BUFFER_CAP {
        dropCount := dropCount + 1;
        closed := closed[1..];
      }
      closed := closed + [s];
    }
  }

  /** `s` went into a bounded deque: a full one let its oldest entry go. */
  ghost predicate Appended(before: seq<Scope>, after: seq<Scope>, s: Scope) {
    after == (if |before| == 100_000 then before[1..] else before) + [s]
  }

  /** The first occurrence of `s` is cut out; everything else keeps its order. */
  ghost predicate CutOut(before: seq<Scope>, after: seq<Scope>, s: Scope) {
    exists k | 0 <= k < |before| :: before[k] == s && s !in before[..k] && after == before[..k] + before[k + 1..]
  }

  lemma RemoveFirstCuts(q: seq<Scope>, s: Scope)
    requires s in q
    ensures CutOut(q, RemoveFirst(q, s), s)
  {
    var k := RemoveFirstSplits(q, s);
  }

  /** On a stack without repetitions the span is gone for good. */
  lemma CutIsGone(q: seq<Scope>, r: seq<Scope>, s: Scope)
    requires NoDup(q) && CutOut(q, r, s)
    ensures s !in r && forall x | x in q && x != s :: x in r
  {
    var k :| 0 <= k < |q| && q[k] == s && r == q[..k] + q[k + 1..];
  }

  class ScopeStack {
    var states: map<M.Key, ScopeState>
    /** The history: every state object and span so far, and the abstract state the fields stand for. */
    ghost var sys: M.Sys<ScopeState, Scope>

    ghost predicate Mirrors(y: M.Sys<ScopeState, Scope>)
      reads this, y.states.Keys, y.info.Keys
    {
      && y.registry == states
      && (forall b | b in y.states :: y.states[b] == M.Buffers(b.stack, b.closed, b.dropCount, b.threadId))
      && (forall s | s in y.info ::
            && (s.endNs.Some? <==> s in y.ended)
            && s.threadId == y.info[s].owner
            && s.parent == y.info[s].parent)
    }

    ghost predicate Valid()
      reads this, sys.states.Keys, sys.info.Keys
    {
      M.Inv(sys) && Mirrors(sys)
    }

    constructor ()
      ensures Valid() && sys == M.Empty()
    {
      states := map[];
      sys := M.Empty();
      new;
      M.InvEmpty<ScopeState, Scope>();
    }

    /** The active state: the context's own, else the thread's, created and registered on first touch. */
    method GetState(tid: int, ctx: Option<ScopeState>) returns (state: ScopeState)
      requires Valid() && (ctx.Some? ==> ctx.value in sys.states)
      modifies this
      ensures Valid() && state in sys.states
      ensures ctx.Some? ==> state == ctx.value && sys == old(sys)
      ensures ctx.None? && M.Thread(tid) in old(states) ==> state == old(states)[M.Thread(tid)] && sys == old(sys)
      ensures ctx.None? && M.Thread(tid) !in old(states) ==> fresh(state) && sys == M.Register(old(sys), tid, state)
      ensures ctx.None? && M.Thread(tid) !in old(states) ==>
        && states == old(states)[M.Thread(tid) := state] && state.threadId == tid
        && state.stack == [] && state.closed == []
    {
      hide M.Stacks, M.Placed, M.Found, M.Registered, M.Counted;
      if ctx.Some? {
        M.RegistryFacts(sys);
        return ctx.value;
      }
      if M.Thread(tid) in states {
        M.RegistryFacts(sys);
        return states[M.Thread(tid)];
      }
      state := new ScopeState(tid);
      states := states[M.Thread(tid) := state];
      M.InvEnroll(sys, M.Thread(tid), tid, state);
      sys := M.Register(sys, tid, state);
    }

    /** Entering a request context registers a fresh state under the request's own key, in use or not. */
    method EnterRequest(id: string, tid: int) returns (state: ScopeState)
      requires Valid()
      modifies this
      ensures fresh(state) && Mirrors(sys) && sys == M.Enter(old(sys), id, tid, state)
      ensures M.Request(id) !in old(states) ==> Valid()
      ensures states == old(states)[M.Request(id) := state]
      ensures state.threadId == tid && state.stack == [] && state.closed == []
    {
      hide M.Stacks, M.Placed, M.Found, M.Registered, M.Counted;
      state := new ScopeState(tid);
      if M.Request(id) !in states { M.InvEnroll(sys, M.Request(id), tid, state); }
      states := states[M.Request(id) := state];
      sys := M.Enter(sys, id, tid, state);
    }

    /** Leaving a request context, and the pruning after a drain: only an idle entry goes. */
    method Forget(id: string)
      requires Valid()
      modifies this
      ensures Valid() && sys == M.Forget(old(sys), id)
      ensures var key := M.Request(id);
        states == if key in old(states) && old(states[key].stack) == [] && old(states[key].closed) == []
          then old(states) - {key} else old(states)
    {
      hide M.Stacks, M.Placed, M.Found, M.Registered, M.Counted;
      var key := M.Request(id);
      M.RegistryFacts(sys);
      if key in states && states[key].stack == [] && states[key].closed == [] {
        states := states - {key};
      }
      M.InvForget(sys, id);
      sys := M.Forget(sys, id);
    }

    method Push(state: ScopeState, now: int) returns (span: Option<Scope>)
      requires Valid() && state in sys.states
      modifies this, state
      ensures Valid()
      ensures span.Some? <==> |old(state.stack)| < 64
      ensures span.None? ==> sys == M.Refuse(old(sys), state) && state.dropCount == old(state.dropCount) + 1
      ensures span.None? ==> state.stack == old(state.stack)
      ensures span.Some? ==> fresh(span.value) && Opened(span.value, old(state.stack), state.threadId, now)
      ensures span.Some? ==> state.stack == old(state.stack) + [span.value] && state.dropCount == old(state.dropCount)
      ensures state.closed == old(state.closed) && states == old(states)
      ensures span.Some? ==> sys == M.Push(old(sys), state, span.value)
    {
      hide M.Stacks, M.Placed, M.Found, M.Registered, M.Counted;
      if |state.stack| >= M.MAX_DEPTH {
        RefusePush(state);
        return None;
      }
      var s := OpenSpan(state, now);
      span := Some(s);
    }

    /** A new running span under the innermost one. */
    static ghost predicate Opened(s: Scope, stack: seq<Scope>, tid: int, now: int)
      reads s
    {
      && s.parent == (if stack == [] then None else Some(stack[|stack| - 1]))
      && s.threadId == tid && s.startNs == now && s.endNs == None
    }

    method RefusePush(state: ScopeState)
      requires Valid() && state in sys.states && |state.stack| >= M.MAX_DEPTH
      modifies this, state
      ensures Valid() && sys == M.Refuse(old(sys), state)
      ensures state.dropCount == old(state.dropCount) + 1 && state.stack == old(state.stack)
      ensures state.closed == old(state.closed) && states == old(states)
    {
      hide M.Stacks, M.Placed, M.Found, M.Registered, M.Counted;
      state.dropCount := state.dropCount + 1;
      M.InvRefuse(sys, state);
      sys := M.Refuse(sys, state);
    }

    method OpenSpan(state: ScopeState, now: int) returns (s: Scope)
      requires Valid() && state in sys.states && |state.stack| < M.MAX_DEPTH
      modifies this, state
      ensures Valid() && fresh(s) && sys == M.Push(old(sys), state, s)
      ensures Opened(s, old(state.stack), state.threadId, now) && state.stack == old(state.stack) + [s]
      ensures state.closed == old(state.closed) && state.dropCount == old(state.dropCount) && states == old(states)
    {
      hide M.Stacks, M.Placed, M.Found, M.Registered, M.Counted;
      var parent := if state.stack == [] then None else Some(state.stack[|state.stack| - 1]);
      s := new Scope(parent, state.threadId, now);
      M.InfoFacts(sys);
      M.InvPush(sys, state, s);
      Link(state, s);
    }

    method Link(state: ScopeState, s: Scope)
      requires Mirrors(sys) && state in sys.states && s !in sys.info && s !in sys.ended
      requires s.endNs == None && s.threadId == state.threadId
      requires s.parent == if state.stack == [] then None else Some(state.stack[|state.stack| - 1])
      modifies this, state
      ensures Mirrors(sys) && sys == M.Begin(old(sys), state, s)
      ensures state.stack == old(state.stack) + [s] && state.closed == old(state.closed)
      ensures state.dropCount == old(state.dropCount) && states == old(states)
    {
      state.stack := state.stack + [s];
      sys := M.Begin(sys, state, s);
    }

    method Append(state: ScopeState, s: Scope)
      requires Mirrors(sys) && state in sys.states
      modifies this, state
      ensures states == old(states) && Mirrors(sys) && sys == M.Append(old(sys), state, s)
      ensures Appended(old(state.closed), state.closed, s) && state.stack == old(state.stack)
    {
      state.AppendClosed(s);
      sys := M.Append(sys, state, s);
    }

    /** Setting the end time is what ends a span. */
    method Stop(s: Scope, now: int)
      requires Mirrors(sys) && s in sys.info
      modifies this, s
      ensures states == old(states) && Mirrors(sys) && s.endNs == Some(now) && sys == M.Stop(old(sys), s)
    {
      s.endNs := Some(now);
      sys := M.Stop(sys, s);
    }

    /** End a span, unless it ended before, and put it in the deque of `state`. */
    method Finish(state: ScopeState, s: Scope, now: int)
      requires Mirrors(sys) && state in sys.states && s in sys.info
      modifies this, state, s
      ensures Mirrors(sys) && sys == M.Finish(old(sys), state, s)
      ensures states == old(states) && state.stack == old(state.stack)
      ensures Closed(old(s.endNs), old(state.closed), state.closed, s)
      ensures Ended(old(s.endNs), s.endNs, now)
    {
      if s.endNs.None? {
        Stop(s, now);
        Append(state, s);
      }
    }

    method SetStack(state: ScopeState, q: seq<Scope>)
      requires Mirrors(sys) && state in sys.states
      modifies this, state
      ensures Mirrors(sys) && sys == M.SetStack(old(sys), state, q)
      ensures states == old(states) && state.stack == q && state.closed == old(state.closed)
    {
      state.stack := q;
      sys := M.SetStack(sys, state, q);
    }

    method Pop(state: ScopeState, now: int) returns (popped: Option<Scope>)
      requires Valid() && state in sys.states
      modifies this, state, if state.stack == [] then {} else {state.Top()}
      ensures Valid() && sys == M.Pop(old(sys), state)
      ensures popped == if old(state.stack) == [] then None else Some(old(state.Top()))
      ensures old(state.stack) == [] ==> state.stack == [] && state.closed == old(state.closed)
      ensures old(state.stack) != [] ==> Popped(old(state.stack), state.stack, old(state.Top()))
      ensures old(state.stack) != [] ==> Ended(old(state.Top().endNs), old(state.Top()).endNs, now)
      ensures old(state.stack) != [] ==>
        Closed(old(state.Top().endNs), old(state.closed), state.closed, old(state.Top()))
    {
      hide M.Stacks, M.Placed, M.Found, M.Registered, M.Counted, Mirrors, Ended, Closed;
      StateMirrored(state);
      if state.stack == [] {
        return None;
      }
      popped := Some(state.Top());
      TakeTop(state, now);
    }

    /** The last of `before` came off. */
    static ghost predicate Popped(before: seq<Scope>, after: seq<Scope>, s: Scope) {
      before == after + [s]
    }

    lemma StateMirrored(state: ScopeState)
      requires Mirrors(sys) && state in sys.states
      ensures sys.states[state] == M.Buffers(state.stack, state.closed, state.dropCount, state.threadId)
    {
    }

    lemma SpanMirrored(s: Scope)
      requires Mirrors(sys) && s in sys.info
      ensures s.threadId == sys.info[s].owner && s.parent == sys.info[s].parent && (s.endNs.Some? <==> s in sys.ended)
    {
    }

    /** An end time is set once. */
    static ghost predicate Ended(before: Option<int>, after: Option<int>, now: int) {
      after == if before.Some? then before else Some(now)
    }

    /** A span that had not ended goes into the deque; one that had is there or past it already. */
    static ghost predicate Closed(endNs: Option<int>, before: seq<Scope>, after: seq<Scope>, s: Scope) {
      if endNs.Some? then after == before else Appended(before, after, s)
    }

    method TakeTop(state: ScopeState, now: int)
      requires Valid() && state in sys.states && state.stack != []
      modifies this, state, state.Top()
      ensures Valid() && sys == M.Pop(old(sys), state)
      ensures Popped(old(state.stack), state.stack, old(state.Top()))
      ensures Ended(old(state.Top().endNs), old(state.Top()).endNs, now)
      ensures Closed(old(state.Top().endNs), old(state.closed), state.closed, old(state.Top()))
    {
      hide M.Stacks, M.Placed, M.Found, M.Registered, M.Counted, Ended, Closed, Mirrors, Appended;
      StateMirrored(state);
      ghost var y := sys;
      var s, q := state.Top(), state.stack[..|state.stack| - 1];
      M.InvPop(sys, state);
      M.StackFacts(sys, state);
      SetStack(state, q);
      Finish(state, s, now);
      M.FinishCommutes(y, state, q, s);
    }

    /** Close a span from any thread: the stack is left alone, the owner's deque is looked up by thread id. */
    method CloseScope(s: Scope, now: int)
      requires Valid() && s in sys.info
      modifies this, s, states.Values
      ensures Valid() && M.CloseScope.requires(old(sys), s) && sys == M.CloseScope(old(sys), s)
      ensures Ended(old(s.endNs), s.endNs, now)
      ensures states == old(states) && forall b | b in states.Values :: b.stack == old(b.stack)
      ensures forall b | b in states.Values ::
        if M.Thread(s.threadId) in states && b == states[M.Thread(s.threadId)]
        then Closed(old(s.endNs), old(b.closed), b.closed, s) else b.closed == old(b.closed)
    {
      hide M.Stacks, M.Placed, M.Found, M.Registered, M.Counted;
      M.RegistryFacts(sys);
      M.InvCloseScope(sys, s);
      if s.endNs.None? {
        Stop(s, now);
        Emit(s);
      }
    }

    method Emit(s: Scope)
      requires Mirrors(sys) && s in sys.info && M.EmitByOwner.requires(sys, s)
      modifies this, states.Values
      ensures M.EmitByOwner.requires(old(sys), s)
      ensures Mirrors(sys) && sys == M.EmitByOwner(old(sys), s)
      ensures states == old(states) && forall b | b in states.Values :: b.stack == old(b.stack)
      ensures forall b | b in states.Values ::
        if M.Thread(s.threadId) in states && b == states[M.Thread(s.threadId)]
        then Appended(old(b.closed), b.closed, s) else b.closed == old(b.closed)
    {
      var key := M.Thread(s.threadId);
      if key in states {
        Append(states[key], s);
      } else {
        sys := M.EmitByOwner(sys, s);
      }
    }

    /** Close a span and take it off its owner's stack wherever it sits; other threads may only close it. */
    method CloseAndRemove(tid: int, state: ScopeState, s: Scope, now: int)
      requires Valid() && state in sys.states && s in sys.info
      modifies this, state, s, states.Values
      ensures Valid() && M.CloseAndRemove.requires(old(sys), tid, state, s)
      ensures sys == M.CloseAndRemove(old(sys), tid, state, s)
      ensures states == old(states) && Ended(old(s.endNs), s.endNs, now)
      ensures forall b | b in states.Values && b != state :: b.stack == old(b.stack)
      ensures if tid == s.threadId && s in old(state.stack)
        then CutOut(old(state.stack), state.stack, s) && s !in state.stack else state.stack == old(state.stack)
      ensures tid == s.threadId && s in old(state.stack) ==>
        Closed(old(s.endNs), old(state.closed), state.closed, s)
        && forall b | b in states.Values && b != state :: b.closed == old(b.closed)
      ensures tid != s.threadId || s !in old(state.stack) ==>
        forall b | b in states.Values ::
          if M.Thread(s.threadId) in states && b == states[M.Thread(s.threadId)]
          then Closed(old(s.endNs), old(b.closed), b.closed, s) else b.closed == old(b.closed)
    {
      hide M.Stacks, M.Placed, M.Found, M.Registered, M.Counted, Mirrors, Ended, Closed, CutOut;
      M.RegistryFacts(sys);
      StateMirrored(state);
      SpanMirrored(s);
      if tid != s.threadId || s !in state.stack {
        CloseScope(s, now);
        return;
      }
      RemoveInPlace(state, s, now);
    }

    method RemoveInPlace(state: ScopeState, s: Scope, now: int)
      requires Valid() && state in sys.states && s in sys.info && s in state.stack
      modifies this, state, s
      ensures Valid() && M.CloseAndRemove.requires(old(sys), s.threadId, state, s)
      ensures sys == M.CloseAndRemove(old(sys), s.threadId, state, s)
      ensures states == old(states) && Ended(old(s.endNs), s.endNs, now)
      ensures CutOut(old(state.stack), state.stack, s) && s !in state.stack
      ensures Closed(old(s.endNs), old(state.closed), state.closed, s)
    {
      hide M.Stacks, M.Placed, M.Found, M.Registered, M.Counted, CutOut;
      M.RegistryFacts(sys);
      M.InvCloseAndRemove(sys, s.threadId, state, s);
      ghost var y := sys;
      var q := RemoveFirst(state.stack, s);
      RemoveFirstCuts(state.stack, s);
      M.StackIsDistinct(sys, state);
      CutIsGone(state.stack, q, s);
      SetStack(state, q);
      Finish(state, s, now);
      M.FinishCommutes(y, state, q, s);
    }

    /** Stop a span's clock and take it off the stack, without emitting it yet. */
    method FinalizeDeferred(tid: int, state: ScopeState, s: Scope, now: int)
      requires Valid() && state in sys.states && s in sys.info
      modifies this, state, s
      ensures Valid() && sys == M.FinalizeDeferred(old(sys), tid, state, s)
      ensures states == old(states) && state.closed == old(state.closed)
      ensures if tid == s.threadId && s in old(state.stack)
        then CutOut(old(state.stack), state.stack, s) && s !in state.stack else state.stack == old(state.stack)
      ensures Ended(old(s.endNs), s.endNs, now)
    {
      hide M.Stacks, M.Placed, M.Found, M.Registered, M.Counted;
      M.InvFinalizeDeferred(sys, tid, state, s);
      ghost var y := sys;
      if tid == s.threadId && s in state.stack {
        var q := RemoveFirst(state.stack, s);
        RemoveFirstCuts(state.stack, s);
        M.StackIsDistinct(sys, state);
        CutIsGone(state.stack, q, s);
        SetStack(state, q);
        M.HoldCommutes(y, state, q, s);
      }
      Hold(s, now);
    }

    method Hold(s: Scope, now: int)
      requires Mirrors(sys) && s in sys.info
      modifies this, s
      ensures Mirrors(sys) && sys == M.Hold(old(sys), s) && states == old(states)
      ensures Ended(old(s.endNs), s.endNs, now)
    {
      if s.endNs.None? {
        Stop(s, now);
        sys := sys.(at := sys.at[s := M.Held]);
      }
    }

    /** The emission owed after FinalizeDeferred. There is no guard: any span is emitted, a held one safely. */
    method EmitClosed(s: Scope)
      requires Valid() && s in sys.info
      modifies this, states.Values
      ensures Mirrors(sys) && M.EmitByOwner.requires(old(sys), s) && sys == M.EmitByOwner(old(sys), s)
      ensures M.Is(old(sys), s, M.Held) ==> Valid()
      ensures states == old(states) && forall b | b in states.Values :: b.stack == old(b.stack)
      ensures forall b | b in states.Values ::
        if M.Thread(s.threadId) in states && b == states[M.Thread(s.threadId)]
        then Appended(old(b.closed), b.closed, s) else b.closed == old(b.closed)
    {
      hide M.Stacks, M.Placed, M.Found, M.Registered, M.Counted;
      M.RegistryFacts(sys);
      if M.Is(sys, s, M.Held) { M.InvNext(sys, M.EmitHeld(s)); }
      Emit(s);
    }

    /** One popleft of the drain. */
    method PopLeft(state: ScopeState) returns (s: Option<Scope>)
      requires Valid() && state in sys.states
      modifies this, state
      ensures Valid() && states == old(states) && sys == M.PopLeft(old(sys), state)
      ensures s == if old(state.closed) == [] then None else Some(old(state.closed)[0])
      ensures s.Some? ==> state.closed == old(state.closed)[1..] && sys.drained == old(sys).drained + [s.value]
      ensures state.stack == old(state.stack)
      ensures SameBut(old(sys), sys, state)
    {
      hide M.Stacks, M.Placed, M.Found, M.Registered, M.Counted;
      M.InvPopLeft(sys, state);
      if state.closed == [] {
        return None;
      }
      s := Some(state.closed[0]);
      state.closed := state.closed[1..];
      sys := M.PopLeft(sys, state);
    }

    /** Pop a whole deque from the left. */
    method DrainState(state: ScopeState) returns (out: seq<Scope>, ghost steps: seq<M.Step<ScopeState, Scope>>)
      requires Valid() && state in sys.states
      modifies this, state
      ensures Valid() && states == old(states)
      ensures DrainRun(old(sys), steps, sys)
      ensures out == old(state.closed) && state.closed == [] && state.stack == old(state.stack)
      ensures sys.drained == old(sys).drained + out
      ensures SameBut(old(sys), sys, state)
    {
      hide Valid, Mirrors, M.PopLeft, SameBut, DrainRun;
      out, steps := [], [];
      SameButReflexive(sys, state);
      Starts();
      while state.closed != []
        invariant Valid() && states == old(states)
        invariant state in sys.states
        invariant out + state.closed == old(state.closed) && state.stack == old(state.stack)
        invariant sys.drained == old(sys).drained + out
        invariant SameBut(old(sys), sys, state)
        invariant DrainRun(old(sys), steps, sys)
        decreases |state.closed|
      {
        ghost var y := sys;
        Goes(old(sys), steps, M.DrainOne(state), M.PopLeft(sys, state));
        steps := steps + [M.DrainOne(state)];
        var s := PopLeft(state);
        SameButTransitive(old(sys), y, sys, state);
        out := out + [s.value];
      }
    }

    /** A run of what a drain does: single removals, and pruning of idle request entries. */
    static ghost predicate DrainRun(y: M.Sys<ScopeState, Scope>, steps: seq<M.Step<ScopeState, Scope>>,
                                    y': M.Sys<ScopeState, Scope>) {
      M.Inv(y) && M.Leads(y, steps, y') && forall step | step in steps :: step.DrainOne? || step.LeaveRequest?
    }

    lemma Starts()
      requires Valid()
      ensures DrainRun(sys, [], sys)
    {
      hide M.Inv, Mirrors;
      R.StartsHere(sys);
    }

    /** The run so far goes on with a removal or a pruning. */
    lemma Goes(y: M.Sys<ScopeState, Scope>, steps: seq<M.Step<ScopeState, Scope>>, step: M.Step<ScopeState, Scope>,
               y': M.Sys<ScopeState, Scope>)
      requires Valid() && DrainRun(y, steps, sys)
      requires match step
        case DrainOne(b) => b in sys.states && y' == M.PopLeft(sys, b)
        case LeaveRequest(id) => y' == M.Forget(sys, id)
        case _ => false
      ensures DrainRun(y, steps + [step], y')
    {
      hide M.Inv, M.Leads, Mirrors;
      R.LeadsOn(y, steps, sys, step);
    }

    static lemma Joins(y: M.Sys<ScopeState, Scope>, s1: seq<M.Step<ScopeState, Scope>>, z: M.Sys<ScopeState, Scope>,
                       s2: seq<M.Step<ScopeState, Scope>>, y': M.Sys<ScopeState, Scope>)
      requires DrainRun(y, s1, z) && DrainRun(z, s2, y')
      ensures DrainRun(y, s1 + s2, y')
    {
      hide M.Inv, M.Leads;
      R.LeadsJoin(y, s1, z, s2, y');
    }

    /** Draining `state` changes no stack, no other deque, and neither ends, evicts nor forgets anything. */
    static ghost predicate SameBut(y: M.Sys<ScopeState, Scope>, y': M.Sys<ScopeState, Scope>, state: ScopeState) {
      && OnlyDrained(y, y')
      && (forall b | b in y.states && b != state :: y'.states[b] == y.states[b])
    }

    static ghost predicate OnlyDrained(y: M.Sys<ScopeState, Scope>, y': M.Sys<ScopeState, Scope>) {
      && y'.registry == y.registry && y'.info == y.info && y'.ended == y.ended && y'.evicted == y.evicted
      && y'.states.Keys == y.states.Keys
      && (forall b | b in y.states :: y'.states[b].stack == y.states[b].stack)
    }

    static lemma OnlyDrainedReflexive(y: M.Sys<ScopeState, Scope>)
      ensures OnlyDrained(y, y)
    {
    }

    static lemma OnlyDrainedTransitive(y: M.Sys<ScopeState, Scope>, z: M.Sys<ScopeState, Scope>,
                                       w: M.Sys<ScopeState, Scope>, state: ScopeState)
      requires OnlyDrained(y, z) && SameBut(z, w, state)
      ensures OnlyDrained(y, w)
      ensures w.states.Keys == z.states.Keys
      ensures forall b | b in z.states && b != state :: w.states[b].closed == z.states[b].closed
    {
    }

    static lemma SameButReflexive(y: M.Sys<ScopeState, Scope>, state: ScopeState)
      ensures SameBut(y, y, state)
    {
    }

    static lemma SameButTransitive(y: M.Sys<ScopeState, Scope>, z: M.Sys<ScopeState, Scope>,
                                   w: M.Sys<ScopeState, Scope>, state: ScopeState)
      requires SameBut(y, z, state) && SameBut(z, w, state)
      ensures SameBut(y, w, state)
      ensures w.states.Keys == y.states.Keys
    {
    }

    /**
     The drain, run without interleaving: every registered deque ends up empty, the spans come out as one
     list, and only idle request entries are pruned. All it does is a run of DrainOne and LeaveRequest steps,
     which other threads' steps may interleave.
     */
    method DrainClosedAll() returns (out: seq<Scope>, ghost steps: seq<M.Step<ScopeState, Scope>>)
      requires Valid()
      modifies this, states.Values
      ensures Valid() && sys.drained == old(sys).drained + out
      ensures DrainRun(old(sys), steps, sys)
      ensures forall k | k in states :: states[k].closed == []
      ensures forall k | k in states :: k in old(states) && states[k] == old(states)[k]
      ensures forall k | k in old(states) :: k !in states <==> k.Request? && old(Open())[k] == []
      ensures FromDeques(old(Deques()), out)
      ensures forall k | k in old(Deques()) :: forall s | s in old(Deques())[k] :: s in out
      ensures sys.info == old(sys).info && sys.ended == old(sys).ended && sys.evicted == old(sys).evicted
    {
      hide M.Forget, DrainRun, Progress, FromDeques, OnlyDrained, Valid, Mirrors;
      StatesKnown();
      ghost var before, stacks := Deques(), Open();
      var all, first := DrainEach();
      ProgressEnds(before, Deques(), all);
      OnlyDrainedKeeps(old(sys), sys);
      assert forall k | k in states :: Deques()[k] == states[k].closed;
      assert forall k | k in states :: Open()[k] == states[k].stack;
      ghost var z := sys;
      ghost var second := Prune();
      Joins(old(sys), first, z, second, sys);
      out, steps := all, first + second;
    }

    static lemma OnlyDrainedKeeps(y: M.Sys<ScopeState, Scope>, z: M.Sys<ScopeState, Scope>)
      requires OnlyDrained(y, z)
      ensures z.info == y.info && z.ended == y.ended && z.evicted == y.evicted
    {
    }

    lemma StatesKnown()
      requires Valid()
      ensures forall k | k in states :: states[k] in sys.states
    {
      M.RegistryFacts(sys);
    }

    /** What waits in each registered deque. */
    ghost function Deques(): map<M.Key, seq<Scope>>
      reads this, states.Values
    {
      map k | k in states :: states[k].closed
    }

    /** A deque is as it was, or empty with all it held among what came out. */
    static ghost predicate Emptied(before: seq<Scope>, now: seq<Scope>, out: seq<Scope>) {
      now == before || (now == [] && forall s | s in before :: s in out)
    }

    /** All that came out was waiting in one of the deques. */
    static ghost predicate FromDeques(before: map<M.Key, seq<Scope>>, out: seq<Scope>) {
      forall s | s in out :: exists k :: k in before && s in before[k]
    }

    static ghost predicate Progress(before: map<M.Key, seq<Scope>>, now: map<M.Key, seq<Scope>>, out: seq<Scope>,
                                    todo: set<M.Key>) {
      && now.Keys == before.Keys && FromDeques(before, out)
      && forall k | k in before :: Emptied(before[k], now[k], out) && (k !in todo ==> now[k] == [])
    }

    static lemma ProgressStarts(before: map<M.Key, seq<Scope>>)
      ensures Progress(before, before, [], before.Keys)
    {
    }

    static lemma ProgressEnds(before: map<M.Key, seq<Scope>>, now: map<M.Key, seq<Scope>>, out: seq<Scope>)
      requires Progress(before, now, out, {})
      ensures now.Keys == before.Keys && FromDeques(before, out)
      ensures forall k | k in before :: now[k] == [] && forall s | s in before[k] :: s in out
    {
    }

    static lemma ProgressStep(before: map<M.Key, seq<Scope>>, now: map<M.Key, seq<Scope>>, out: seq<Scope>,
                              todo: set<M.Key>, key: M.Key, next: map<M.Key, seq<Scope>>)
      requires Progress(before, now, out, todo) && key in before && next.Keys == now.Keys && next[key] == []
      requires forall k | k in now :: next[k] == now[k] || (next[k] == [] && now[k] == now[key])
      ensures Progress(before, next, out + now[key], todo - {key})
    {
      forall s | s in now[key] ensures s in before[key] {}
    }

    /** The stack of each registered state. */
    ghost function Open(): map<M.Key, seq<Scope>>
      reads this, states.Values
    {
      map k | k in states :: states[k].stack
    }

    method DrainEach() returns (out: seq<Scope>, ghost steps: seq<M.Step<ScopeState, Scope>>)
      requires Valid()
      modifies this, states.Values
      ensures DrainRun(old(sys), steps, sys)
      ensures Valid() && states == old(states) && sys.drained == old(sys).drained + out
      ensures Progress(old(Deques()), Deques(), out, {}) && Open() == old(Open())
      ensures OnlyDrained(old(sys), sys)
    {
      hide Valid, Mirrors, SameBut, OnlyDrained, DrainRun, Progress, Deques, Open;
      out, steps := [], [];
      OnlyDrainedReflexive(sys);
      Starts();
      var todo := states.Keys;
      StartsDeques();
      while todo != {}
        invariant Valid() && states == old(states) && todo <= states.Keys
        invariant OnlyDrained(old(sys), sys) && DrainRun(old(sys), steps, sys)
        invariant sys.drained == old(sys).drained + out
        invariant Progress(old(Deques()), Deques(), out, todo) && Open() == old(Open())
        decreases todo
      {
        var key :| key in todo;
        ghost var y := sys;
        var more, run := DrainKey(key, old(Deques()), out, todo);
        Joins(old(sys), steps, y, run, sys);
        OnlyDrainedThen(old(sys), y, sys);
        out, steps, todo := out + more, steps + run, todo - {key};
      }
    }

    lemma StartsDeques()
      ensures Progress(Deques(), Deques(), [], states.Keys)
    {
      ProgressStarts(Deques());
      assert Deques().Keys == states.Keys;
    }

    static lemma OnlyDrainedThen(y: M.Sys<ScopeState, Scope>, z: M.Sys<ScopeState, Scope>, w: M.Sys<ScopeState, Scope>)
      requires OnlyDrained(y, z) && OnlyDrained(z, w)
      ensures OnlyDrained(y, w)
    {
    }

    method DrainKey(key: M.Key, ghost before: map<M.Key, seq<Scope>>, ghost out: seq<Scope>, ghost todo: set<M.Key>)
      returns (more: seq<Scope>, ghost run: seq<M.Step<ScopeState, Scope>>)
      requires Valid() && key in states && Progress(before, Deques(), out, todo)
      modifies this, states[key]
      ensures Valid() && states == old(states) && DrainRun(old(sys), run, sys) && OnlyDrained(old(sys), sys)
      ensures sys.drained == old(sys).drained + more
      ensures Progress(before, Deques(), out + more, todo - {key}) && Open() == old(Open())
    {
      hide Valid, Mirrors, DrainRun, Progress, OnlyDrained;
      StatesKnown();
      ghost var now := Deques();
      more, run := DrainState(states[key]);
      SameButOnly(old(sys), sys, states[key]);
      hide SameBut;
      ProgressFits(before, now, out, todo, key);
      ProgressStep(before, now, out, todo, key, Deques());
    }

    static lemma SameButOnly(y: M.Sys<ScopeState, Scope>, z: M.Sys<ScopeState, Scope>, state: ScopeState)
      requires SameBut(y, z, state)
      ensures OnlyDrained(y, z)
    {
    }

    static lemma ProgressFits(before: map<M.Key, seq<Scope>>, now: map<M.Key, seq<Scope>>, out: seq<Scope>,
                              todo: set<M.Key>, key: M.Key)
      requires Progress(before, now, out, todo) && key in now
      ensures key in before
    {
    }

    method Prune() returns (ghost steps: seq<M.Step<ScopeState, Scope>>)
      requires Valid() && forall k | k in states :: states[k].closed == []
      modifies this
      ensures Valid() && DrainRun(old(sys), steps, sys)
      ensures forall k | k in states :: k in old(states) && states[k] == old(states)[k]
      ensures forall k | k in old(states) :: k !in states <==> k.Request? && old(states[k].stack) == []
      ensures sys.drained == old(sys).drained
      ensures sys.info == old(sys).info && sys.ended == old(sys).ended && sys.evicted == old(sys).evicted
    {
      hide M.Stacks, M.Placed, M.Found, M.Registered, M.Counted, DrainRun;
      var todo := states.Keys;
      steps := [];
      Starts();
      while todo != {}
        invariant Valid() && DrainRun(old(sys), steps, sys)
        invariant forall k | k in states :: k in old(states) && states[k] == old(states)[k]
        invariant forall k | k in old(states) && k !in states :: k.Request? && old(states)[k].stack == []
        invariant forall k | k in old(states) && k !in todo && k.Request? && old(states)[k].stack == [] :: k !in states
        invariant todo <= old(states).Keys
        invariant sys.drained == old(sys).drained
        invariant sys.info == old(sys).info && sys.ended == old(sys).ended && sys.evicted == old(sys).evicted
        decreases todo
      {
        var key :| key in todo;
        if key.Request? {
          M.RegistryFacts(sys);
          Goes(old(sys), steps, M.LeaveRequest(key.id), M.Forget(sys, key.id));
          steps := steps + [M.LeaveRequest(key.id)];
          Forget(key.id);
        }
        todo := todo - {key};
      }
    }
  }
}
