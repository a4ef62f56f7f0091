/** The process-wide drop counter: what it reports, and step by step what it misses. */
module ScopeDrops {
  import opened Common
  import opened ScopeMachine
  import opened ScopeRuns

  /** The sum over the state objects in `those` only. */
  ghost function SumDropsOf<B, S>(states: map<B, Buffers<S>>, made: seq<B>, those: set<B>): nat {
    if made == [] then 0
    else (if made[0] in states && made[0] in those then states[made[0]].drops else 0)
         + SumDropsOf(states, made[1..], those)
  }

  /** What drop_count_all reports: the sum over the states that are registered now. */
  ghost function DropCountAll<B, S>(y: Sys<B, S>): nat {
    SumDropsOf(y.states, y.made, y.registry.Values)
  }

  /** The spans really dropped: pushes refused and closed spans evicted. */
  function Dropped<B, S>(y: Sys<B, S>): nat { y.overflow + |y.evicted| }

  lemma {:induction false} SumDropsSplit<B, S>(states: map<B, Buffers<S>>, made: seq<B>, those: set<B>)
    ensures SumDropsOf(states, made, those) <= SumDrops(states, made)
    ensures SumDropsOf(states, made, those) == SumDrops(states, made)
       <==> forall b | b in made && b in states && b !in those :: states[b].drops == 0
  {
    if made != [] {
      SumDropsSplit(states, made[1..], those);
      assert forall b | b in made :: b == made[0] || b in made[1..];
      assert made[0] in made && forall b | b in made[1..] :: b in made;
    }
  }

  // ---------------------------------------------------------------------------------------------
  // Sums under one change
  // ---------------------------------------------------------------------------------------------

  /** Only `b` counts differently, by `n`. */
  lemma {:induction false} SumOfBump<B, S>(states: map<B, Buffers<S>>, states': map<B, Buffers<S>>, made: seq<B>,
                                           those: set<B>, b: B, n: nat)
    requires NoDup(made) && forall x | x in made :: x in states && x in states'
    requires forall x | x in made && x != b :: states'[x].drops == states[x].drops
    requires b in made ==> states'[b].drops == states[b].drops + n
    ensures SumDropsOf(states', made, those)
       == SumDropsOf(states, made, those) + if b in made && b in those then n else 0
    decreases |made|
  {
    if made != [] {
      var rest := made[1..];
      NoDupRest(made);
      SumOfBump(states, states', rest, those, b, n);
    }
  }

  lemma NoDupRest<B>(q: seq<B>)
    requires NoDup(q) && q != []
    ensures NoDup(q[1..]) && q[0] !in q[1..] && q[0] in q
    ensures forall x | x in q[1..] :: x in q
    ensures forall x | x in q :: x == q[0] || x in q[1..]
  {
  }

  /** A state that no longer counts takes its own drops out of the sum. */
  lemma {:induction false} SumWithout<B, S>(states: map<B, Buffers<S>>, made: seq<B>, those: set<B>, b: B)
    requires NoDup(made) && b in states && b in those
    ensures SumDropsOf(states, made, those)
         == SumDropsOf(states, made, those - {b}) + if b in made then states[b].drops else 0
    decreases |made|
  {
    if made != [] {
      NoDupRest(made);
      SumWithout(states, made[1..], those, b);
    }
  }

  /** A new state starts without drops. */
  lemma {:induction false} SumAdds<B, S>(states: map<B, Buffers<S>>, made: seq<B>, those: set<B>, b: B, q: Buffers<S>)
    requires b !in made && b !in states && q.drops == 0
    ensures SumDropsOf(states[b := q], made + [b], those + {b}) == SumDropsOf(states, made, those)
    decreases |made|
  {
    if made == [] {
      assert (made + [b])[1..] == [];
    } else {
      assert (made + [b])[1..] == made[1..] + [b];
      SumAdds(states, made[1..], those, b, q);
    }
  }

  // ---------------------------------------------------------------------------------------------
  // One step
  // ---------------------------------------------------------------------------------------------

  /** The step puts `s` into the full deque of `b`, having ended it. */
  predicate Overflows<B, S>(y: Sys<B, S>, b: B, s: S)
    requires b in y.states
  {
    s !in y.ended && Full(y, b)
  }

  /**
   What the counter misses through one step, readable before the step: all drops of an idle request that is
   forgotten, and a drop on a state that is not registered.
   */
  ghost function HiddenBy<B, S>(y: Sys<B, S>, step: Step<B, S>): nat
    requires Inv(y) && Enabled(y, step)
  {
    match step
    case LeaveRequest(id) =>
      if Request(id) in y.registry && y.registry[Request(id)] in y.states && Idle(y, y.registry[Request(id)])
      then y.states[y.registry[Request(id)]].drops else 0
    case PushOn(b, _) => One(b !in y.registry.Values && |y.states[b].stack| >= MAX_DEPTH)
    case PopOn(b) =>
      var q := y.states[b].stack;
      One(b !in y.registry.Values && q != [] && Overflows(y, b, q[|q| - 1]))
    case CloseInPlace(tid, b, s) =>
      One(b !in y.registry.Values && tid == y.info[s].owner && s in y.states[b].stack && Overflows(y, b, s))
    case _ => 0
  }

  /** The step from `y` to `y'` makes the counter miss `n` more drops. */
  ghost predicate Misses<B, S>(y: Sys<B, S>, y': Sys<B, S>, n: nat) {
    Dropped(y') - DropCountAll(y') == Dropped(y) - DropCountAll(y) + n
  }

  lemma MissesNothing<B, S>(y: Sys<B, S>, y': Sys<B, S>)
    requires Counted(y) && y'.made == y.made && y'.registry == y.registry && Dropped(y') == Dropped(y)
    requires y'.states.Keys == y.states.Keys && forall b | b in y.states :: y'.states[b].drops == y.states[b].drops
    ensures Misses(y, y', 0)
  {
    if y.made != [] { SumOfBump(y.states, y'.states, y.made, y.registry.Values, y.made[0], 0); }
  }

  lemma MissesOne<B, S>(y: Sys<B, S>, y': Sys<B, S>, b: B)
    requires Counted(y) && y'.made == y.made && y'.registry == y.registry && Dropped(y') == Dropped(y) + 1
    requires y'.states.Keys == y.states.Keys && b in y.states && y'.states[b].drops == y.states[b].drops + 1
    requires forall x | x in y.states && x != b :: y'.states[x].drops == y.states[x].drops
    ensures Misses(y, y', One(b !in y.registry.Values))
  {
    SumOfBump(y.states, y'.states, y.made, y.registry.Values, b, 1);
  }

  lemma MissesEnroll<B, S>(y: Sys<B, S>, key: Key, tid: int, b: B)
    requires Counted(y) && key !in y.registry && b !in y.states
    ensures Misses(y, Enroll(y, key, tid, b), 0)
  {
    ValuesAdd(y.registry, key, b);
    SumAdds(y.states, y.made, y.registry.Values, b, Buffers([], [], 0, tid));
  }

  lemma MissesForget<B, S>(y: Sys<B, S>, id: string)
    requires Counted(y) && Reach(y)
    ensures var key := Request(id);
      Misses(y, Forget(y, id),
             if key in y.registry && y.registry[key] in y.states && Idle(y, y.registry[key])
             then y.states[y.registry[key]].drops else 0)
  {
    var key := Request(id);
    if key in y.registry && y.registry[key] in y.states {
      ValuesRemove(y.registry, key);
      SumWithout(y.states, y.made, y.registry.Values, y.registry[key]);
    }
  }

  lemma MissesPush<B, S>(y: Sys<B, S>, b: B, s: S)
    requires Counted(y) && b in y.states
    ensures Misses(y, Push(y, b, s), One(b !in y.registry.Values && |y.states[b].stack| >= MAX_DEPTH))
  {
    if |y.states[b].stack| >= MAX_DEPTH {
      MissesOne(y, Push(y, b, s), b);
    } else {
      MissesNothing(y, Push(y, b, s));
    }
  }

  lemma MissesFinish<B, S>(y: Sys<B, S>, b: B, s: S, stack: seq<S>)
    requires Counted(y) && b in y.states
    ensures b in Finish(y, b, s).states
    ensures Misses(y, SetStack(Finish(y, b, s), b, stack), One(b !in y.registry.Values && Overflows(y, b, s)))
  {
    var y' := SetStack(Finish(y, b, s), b, stack);
    if Overflows(y, b, s) { MissesOne(y, y', b); } else { MissesNothing(y, y'); }
  }

  lemma MissesEmit<B, S>(y: Sys<B, S>, s: S)
    requires Counted(y) && s in y.info && forall k | k in y.registry :: y.registry[k] in y.states
    ensures Misses(y, EmitByOwner(y, s), 0)
  {
    var y', key := EmitByOwner(y, s), Thread(y.info[s].owner);
    if key in y.registry && Full(y, y.registry[key]) {
      assert y.registry[key] in y.registry.Values;
      MissesOne(y, y', y.registry[key]);
    } else {
      MissesNothing(y, y');
    }
  }

  lemma MissesClose<B, S>(y: Sys<B, S>, s: S)
    requires Inv(y) && s in y.info
    ensures CloseScope.requires(y, s) && Misses(y, CloseScope(y, s), 0)
  {
    hide Stacks, Placed, Found, Registered;
    RegistryFacts(y);
    if s !in y.ended { MissesEmit(Stop(y, s), s); }
  }

  /** Every step makes the counter miss exactly what can be read off before it. */
  lemma StepMisses<B, S>(y: Sys<B, S>, step: Step<B, S>)
    requires Inv(y) && Reach(y) && Enabled(y, step)
    ensures Misses(y, Next(y, step), HiddenBy(y, step))
  {
    hide Stacks, Placed, Found, Registered, Counted, Reach, Misses, Overflows;
    RegistryFacts(y);
    match step
    case Touch(tid, b) => MissesEnroll(y, Thread(tid), tid, b);
    case EnterRequest(id, tid, b) => MissesEnroll(y, Request(id), tid, b);
    case LeaveRequest(id) => MissesForget(y, id);
    case PushOn(b, s) => MissesPush(y, b, s);
    case PopOn(b) =>
      var q := y.states[b].stack;
      if q == [] { MissesNothing(y, y); } else { MissesFinish(y, b, q[|q| - 1], q[..|q| - 1]); }
    case CloseOutOfBand(s) => MissesClose(y, s);
    case CloseInPlace(tid, b, s) =>
      var q := y.states[b].stack;
      if tid != y.info[s].owner || s !in q { MissesClose(y, s); } else { MissesFinish(y, b, s, RemoveFirst(q, s)); }
    case StopClock(tid, b, s) => MissesNothing(y, FinalizeDeferred(y, tid, b, s));
    case EmitHeld(s) => MissesEmit(y, s);
    case DrainOne(b) => MissesNothing(y, PopLeft(y, b));
  }

  // ---------------------------------------------------------------------------------------------
  // Whole runs
  // ---------------------------------------------------------------------------------------------

  /** What the steps of a run hide, added up. */
  ghost function HiddenOver<B, S>(y: Sys<B, S>, steps: seq<Step<B, S>>): nat
    decreases |steps|
  {
    if steps == [] || !Inv(y) || !Enabled(y, steps[0]) then 0
    else HiddenBy(y, steps[0]) + HiddenOver(Next(y, steps[0]), steps[1..])
  }

  lemma {:induction false} LeadsMiss<B, S>(y: Sys<B, S>, steps: seq<Step<B, S>>, y': Sys<B, S>)
    requires Inv(y) && Reach(y) && Leads(y, steps, y')
    ensures Misses(y, y', HiddenOver(y, steps))
    decreases |steps|
  {
    hide Stacks, Placed, Found, Registered, Counted, Reach, HiddenBy, DropCountAll;
    if steps != [] {
      InvNext(y, steps[0]);
      ReachNext(y, steps[0]);
      StepMisses(y, steps[0]);
      LeadsMiss(Next(y, steps[0]), steps[1..], y');
    }
  }

  /**
   Over every run the reported count falls short of the real one by exactly what its steps hid. It is right
   exactly when no idle request with drops was forgotten and nothing was dropped on an unregistered state.
   */
  lemma DropCountAllExactlyWhen<B, S>(steps: seq<Step<B, S>>, y: Sys<B, S>)
    requires Leads(Empty(), steps, y)
    ensures DropCountAll(y) + HiddenOver(Empty(), steps) == Dropped(y)
    ensures DropCountAll(y) == Dropped(y)
       <==> forall b | b in y.states && b !in y.registry.Values :: y.states[b].drops == 0
  {
    InvEmpty<B, S>();
    EmptyReach<B, S>();
    LeadsMiss(Empty(), steps, y);
    LeadsInv(Empty(), steps, y);
    SumDropsSplit(y.states, y.made, y.registry.Values);
  }

  /** Forgetting an idle request takes its drops out of the reported count. */
  lemma LeavingForgetsDrops<B, S>(steps: seq<Step<B, S>>, y: Sys<B, S>, id: string)
    requires Leads(Empty(), steps, y)
    requires Request(id) in y.registry && y.registry[Request(id)] in y.states && Idle(y, y.registry[Request(id)])
    ensures DropCountAll(Forget(y, id)) == DropCountAll(y) - y.states[y.registry[Request(id)]].drops
  {
    hide Stacks, Placed, Found, Registered, Counted, Reach, DropCountAll;
    InvEmpty<B, S>();
    EmptyReach<B, S>();
    LeadsReach(Empty(), steps, y);
    StepMisses(y, LeaveRequest(id));
  }

  // ---------------------------------------------------------------------------------------------
  // A run whose last step takes the count from 1 to 0
  // ---------------------------------------------------------------------------------------------

  /** The spans 0 to n - 1 in push order. */
  function Upto(n: nat): seq<nat> { seq(n, i => i) }

  /** Request "r" on state 0 has the first n spans open, nothing waiting, and `drops` pushes refused. */
  ghost predicate Shape(y: Numbers, n: nat, drops: nat) {
    && y.registry == map[Request("r") := 0] && y.made == [0]
    && y.states == map[0 := Buffers(Upto(n), [], drops, 7)]
    && y.overflow == drops && y.evicted == []
    && (forall i: nat | i < n :: i !in y.ended)
  }

  lemma {:induction false} Fill(n: nat) returns (steps: seq<Step<nat, nat>>, y: Numbers)
    requires n <= MAX_DEPTH
    ensures Inv(y) && Leads(Empty(), steps, y) && Shape(y, n, 0) && forall i: nat | i >= n :: i !in y.info
  {
    hide Stacks, Placed, Found, Registered, Counted, Leads;
    if n == 0 {
      steps := [EnterRequest("r", 7, 0)];
      y := Entered();
    } else {
      var before, x := Fill(n - 1);
      var s: nat := n - 1;
      InvEmpty<nat, nat>();
      InvNext(x, PushOn(0, s));
      LeadsOn(Empty(), before, x, PushOn(0, s));
      InfoFacts(x);
      steps, y := before + [PushOn(0, s)], Push(x, 0, s);
      assert Upto(n) == Upto(n - 1) + [s];
    }
  }

  /** One push too many. */
  lemma Refused() returns (steps: seq<Step<nat, nat>>, y: Numbers)
    ensures Inv(y) && Leads(Empty(), steps, y) && Shape(y, MAX_DEPTH, 1)
  {
    hide Stacks, Placed, Found, Registered, Counted, Leads;
    var before, x := Fill(MAX_DEPTH);
    InvEmpty<nat, nat>();
    InvNext(x, PushOn(0, MAX_DEPTH));
    LeadsOn(Empty(), before, x, PushOn(0, MAX_DEPTH));
    steps, y := before + [PushOn(0, MAX_DEPTH)], Push(x, 0, MAX_DEPTH);
  }

  lemma PopThenDrain(x: Numbers, n: nat)
    requires Shape(x, n + 1, 1)
    ensures 0 in Pop(x, 0).states && Shape(PopLeft(Pop(x, 0), 0), n, 1)
  {
    var q := Upto(n + 1);
    assert q[..n] == Upto(n) && q[|q| - 1] == n;
    var z := Pop(x, 0);
    assert z.states[0] == Buffers(Upto(n), [n], 1, 7);
    assert [n][1..] == [];
    assert PopLeft(z, 0).states == map[0 := Buffers(Upto(n), [], 1, 7)];
  }

  /** Pop and drain the innermost span. */
  lemma Unwind(before: seq<Step<nat, nat>>, x: Numbers, n: nat) returns (steps: seq<Step<nat, nat>>, y: Numbers)
    requires Inv(x) && Leads(Empty(), before, x) && Shape(x, n + 1, 1)
    ensures Inv(y) && Leads(Empty(), steps, y) && Shape(y, n, 1)
  {
    hide Stacks, Placed, Found, Registered, Counted, Leads;
    InvEmpty<nat, nat>();
    InvNext(x, PopOn(0));
    LeadsOn(Empty(), before, x, PopOn(0));
    var z := Pop(x, 0);
    PopThenDrain(x, n);
    InvNext(z, DrainOne(0));
    LeadsOn(Empty(), before + [PopOn(0)], z, DrainOne(0));
    steps, y := before + [PopOn(0)] + [DrainOne(0)], PopLeft(z, 0);
  }

  lemma {:induction false} UnwindAll(before: seq<Step<nat, nat>>, x: Numbers, n: nat)
    returns (steps: seq<Step<nat, nat>>, y: Numbers)
    requires Inv(x) && Leads(Empty(), before, x) && Shape(x, n, 1)
    ensures Inv(y) && Leads(Empty(), steps, y) && Shape(y, 0, 1)
    decreases n
  {
    hide Inv, Leads, Shape;
    if n == 0 {
      steps, y := before, x;
    } else {
      var more, z := Unwind(before, x, n - 1);
      steps, y := UnwindAll(more, z, n - 1);
    }
  }

  /** 65 pushes, 64 pops and drains, and the request leaves: one span was dropped and none is reported. */
  lemma ForgettingHappens() returns (steps: seq<Step<nat, nat>>, y: Numbers)
    ensures Leads(Empty(), steps, y) && Dropped(y) == 1 && DropCountAll(y) == 1
    ensures Leads(Empty(), steps + [LeaveRequest("r")], Forget(y, "r"))
    ensures Dropped(Forget(y, "r")) == 1 && DropCountAll(Forget(y, "r")) == 0
  {
    hide Stacks, Placed, Found, Registered, Counted, Leads;
    InvEmpty<nat, nat>();
    var before, x := Refused();
    steps, y := UnwindAll(before, x, MAX_DEPTH);
    LeadsOn(Empty(), steps, y, LeaveRequest("r"));
    assert y.registry[Request("r")] == 0 && y.registry.Values == {0};
    assert SumDropsOf(y.states, [0], {0}) == 1 + SumDropsOf(y.states, [], {0});
    LeavingForgetsDrops(steps, y, "r");
  }
}
