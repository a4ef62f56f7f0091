/**
 The scope bookkeeping as a transition system: every public operation of the scope stack, run by any
 thread in any context, is one atomic step, and the cross-thread drain is a sequence of single removals.

 B stands for the identity of a per-thread (or per-request) state object, S for the identity of a span.
 */
module ScopeMachine {
  import opened Common

  const MAX_DEPTH: nat := 64
  const CLOSED_BUFFER_CAP: nat := 100_000

  /** Registry keys: integer thread ids, or the synthetic per-request names. */
  datatype Key = Thread(tid: int) | Request(id: string)

  /** One state object: the open spans, the closed spans waiting to be drained, the drop counter. */
  datatype Buffers<S> = Buffers(stack: seq<S>, closed: seq<S>, drops: nat, tid: int)

  /** Where the single copy of a span is. */
  datatype Place<B> = Open | Held | InDeque(of: B) | Drained | Evicted | Lost

  /**
   What was fixed when a span was pushed. `rank` numbers the pushes; `tracked` says that the state object
   was registered at that moment, and `ofThread` that it was the thread's own default state.
   */
  datatype Info<B, S> = Info(home: B, parent: Option<S>, owner: int, rank: nat, tracked: bool, ofThread: bool)

  datatype Sys<B(==), S(==)> = Sys(
    states: map<B, Buffers<S>>,
    registry: map<Key, B>,
    info: map<S, Info<B, S>>,
    ended: set<S>,
    clock: nat,
    drained: seq<S>,
    evicted: seq<S>,
    overflow: nat,
    made: seq<B>,
    at: map<S, Place<B>>)

  function Empty<B, S>(): Sys<B, S> {
    Sys(map[], map[], map[], {}, 0, [], [], 0, [], map[])
  }

  // ---------------------------------------------------------------------------------------------
  // The steps
  // ---------------------------------------------------------------------------------------------

  /** A thread touches the stack for the first time: a fresh state object under its integer id. */
  function Register<B, S>(y: Sys<B, S>, tid: int, b: B): Sys<B, S> {
    Enroll(y, Thread(tid), tid, b)
  }

  /** A request context is entered on thread `tid`: a fresh state object under a synthetic key. */
  function Enter<B, S>(y: Sys<B, S>, id: string, tid: int, b: B): Sys<B, S> {
    Enroll(y, Request(id), tid, b)
  }

  function Enroll<B, S>(y: Sys<B, S>, key: Key, tid: int, b: B): Sys<B, S> {
    y.(states := y.states[b := Buffers([], [], 0, tid)],
       registry := y.registry[key := b],
       made := y.made + [b])
  }

  predicate Idle<B, S>(y: Sys<B, S>, b: B)
    requires b in y.states
  {
    y.states[b].stack == [] && y.states[b].closed == []
  }

  /** Leaving a request context, or pruning after a drain: the entry goes only when nothing is left in it. */
  function Forget<B, S>(y: Sys<B, S>, id: string): Sys<B, S> {
    var key := Request(id);
    if key in y.registry && y.registry[key] in y.states && Idle(y, y.registry[key])
    then y.(registry := y.registry - {key})
    else y
  }

  /** A push beyond the depth limit opens nothing and is counted. */
  function Refuse<B, S>(y: Sys<B, S>, b: B): Sys<B, S>
    requires b in y.states
  {
    y.(states := y.states[b := y.states[b].(drops := y.states[b].drops + 1)], overflow := y.overflow + 1)
  }

  function Begin<B, S>(y: Sys<B, S>, b: B, s: S): Sys<B, S>
    requires b in y.states
  {
    var q := y.states[b];
    var parent := if q.stack == [] then None else Some(q.stack[|q.stack| - 1]);
    var own := Thread(q.tid) in y.registry && y.registry[Thread(q.tid)] == b;
    y.(states := y.states[b := q.(stack := q.stack + [s])],
       info := y.info[s := Info(b, parent, q.tid, y.clock, b in y.registry.Values, own)],
       clock := y.clock + 1,
       at := y.at[s := Open])
  }

  function Push<B, S>(y: Sys<B, S>, b: B, s: S): Sys<B, S>
    requires b in y.states
  {
    if |y.states[b].stack| >= MAX_DEPTH then Refuse(y, b) else Begin(y, b, s)
  }

  /** A full deque drops its oldest span to make room, and the drop is counted. */
  function EvictOldest<B, S>(y: Sys<B, S>, b: B): Sys<B, S>
    requires b in y.states && y.states[b].closed != []
  {
    var q := y.states[b];
    y.(states := y.states[b := q.(closed := q.closed[1..], drops := q.drops + 1)],
       evicted := y.evicted + [q.closed[0]],
       at := y.at[q.closed[0] := Evicted])
  }

  function AppendRoom<B, S>(y: Sys<B, S>, b: B, s: S): Sys<B, S>
    requires b in y.states
  {
    var q := y.states[b];
    y.(states := y.states[b := q.(closed := q.closed + [s])], at := y.at[s := InDeque(b)])
  }

  predicate Full<B, S>(y: Sys<B, S>, b: B)
    requires b in y.states
  {
    |y.states[b].closed| == CLOSED_BUFFER_CAP
  }

  /** Append to the bounded deque of closed spans. */
  function Append<B, S>(y: Sys<B, S>, b: B, s: S): Sys<B, S>
    requires b in y.states
  {
    AppendRoom(if Full(y, b) then EvictOldest(y, b) else y, b, s)
  }

  function Stop<B, S>(y: Sys<B, S>, s: S): Sys<B, S> {
    y.(ended := y.ended + {s})
  }

  function SetStack<B, S>(y: Sys<B, S>, b: B, stack: seq<S>): Sys<B, S>
    requires b in y.states
  {
    y.(states := y.states[b := y.states[b].(stack := stack)])
  }

  /** Emit through the registry: the owner is looked up by its integer thread id and may be unknown. */
  function EmitByOwner<B, S>(y: Sys<B, S>, s: S): Sys<B, S>
    requires s in y.info
    requires forall k | k in y.registry :: y.registry[k] in y.states
  {
    var key := Thread(y.info[s].owner);
    if key in y.registry then Append(y, y.registry[key], s)
    else if s in y.at && y.at[s] in {Open, Held} then y.(at := y.at[s := Lost])
    else y
  }

  /** End an open span and put it in the deque of `b`; a span that ended earlier was dealt with then. */
  function Finish<B, S>(y: Sys<B, S>, b: B, s: S): Sys<B, S>
    requires b in y.states
  {
    if s in y.ended then y else Append(Stop(y, s), b, s)
  }

  function Pop<B, S>(y: Sys<B, S>, b: B): Sys<B, S>
    requires b in y.states
  {
    var q := y.states[b].stack;
    if q == [] then y else SetStack(Finish(y, b, q[|q| - 1]), b, q[..|q| - 1])
  }

  function CloseScope<B, S>(y: Sys<B, S>, s: S): Sys<B, S>
    requires s in y.info
    requires forall k | k in y.registry :: y.registry[k] in y.states
  {
    if s in y.ended then y else EmitByOwner(Stop(y, s), s)
  }

  function CloseAndRemove<B, S>(y: Sys<B, S>, tid: int, b: B, s: S): Sys<B, S>
    requires b in y.states && s in y.info
    requires forall k | k in y.registry :: y.registry[k] in y.states
  {
    var q := y.states[b].stack;
    if tid != y.info[s].owner || s !in q then CloseScope(y, s)
    else SetStack(Finish(y, b, s), b, RemoveFirst(q, s))
  }

  /** Stop the clock without emitting; whoever calls this owes one emission. */
  function Hold<B, S>(y: Sys<B, S>, s: S): Sys<B, S> {
    if s in y.ended then y else Stop(y, s).(at := y.at[s := Held])
  }

  function FinalizeDeferred<B, S>(y: Sys<B, S>, tid: int, b: B, s: S): Sys<B, S>
    requires b in y.states && s in y.info
  {
    var q := y.states[b].stack;
    if tid == y.info[s].owner && s in q then SetStack(Hold(y, s), b, RemoveFirst(q, s)) else Hold(y, s)
  }

  function PopLeft<B, S>(y: Sys<B, S>, b: B): Sys<B, S>
    requires b in y.states
  {
    var q := y.states[b].closed;
    if q == [] then y
    else y.(states := y.states[b := y.states[b].(closed := q[1..])],
            drained := y.drained + [q[0]],
            at := y.at[q[0] := Drained])
  }

  // ---------------------------------------------------------------------------------------------
  // The invariant
  // ---------------------------------------------------------------------------------------------

  ghost predicate StackOk<B, S>(info: map<S, Info<B, S>>, b: B, q: seq<S>) {
    && (forall s | s in q :: s in info && info[s].home == b)
    && (forall i, j | 0 <= i < j < |q| :: info[q[i]].rank < info[q[j]].rank)
  }

  ghost predicate ParentEarlier<B, S>(info: map<S, Info<B, S>>, s: S)
    requires s in info
  {
    match info[s].parent
    case None => true
    case Some(p) => p in info && info[p].rank < info[s].rank
  }

  /** Stacks are bounded, in push order and hold every open span of their state; parents come first. */
  ghost predicate Stacks<B, S>(y: Sys<B, S>) {
    && (forall b | b in y.states :: |y.states[b].stack| <= MAX_DEPTH && StackOk(y.info, b, y.states[b].stack))
    && (forall s | s in y.info ::
          && y.info[s].home in y.states
          && y.info[s].owner == y.states[y.info[s].home].tid
          && y.info[s].rank < y.clock
          && (s !in y.ended ==> s in y.states[y.info[s].home].stack))
    && (forall s {:trigger ParentEarlier(y.info, s)} | s in y.info :: ParentEarlier(y.info, s))
  }

  ghost predicate AllAt<B, S>(at: map<S, Place<B>>, q: seq<S>, p: Place<B>) {
    && NoDup(q)
    && (forall s | s in q :: s in at && at[s] == p)
  }

  /** Whatever sits in a deque, was drained or was evicted sits there once, and the ledger knows it. */
  ghost predicate Placed<B, S>(y: Sys<B, S>) {
    && y.at.Keys == y.info.Keys
    && y.ended <= y.info.Keys
    && (forall s | s in y.at :: y.at[s].Open? <==> s !in y.ended)
    && (forall b | b in y.states ::
          |y.states[b].closed| <= CLOSED_BUFFER_CAP && AllAt(y.at, y.states[b].closed, InDeque(b)))
    && AllAt(y.at, y.drained, Drained)
    && AllAt(y.at, y.evicted, Evicted)
  }

  /** The ledger tells the truth: a span is where it says. */
  ghost predicate Found<B, S>(y: Sys<B, S>) {
    && (forall s | s in y.at && y.at[s].InDeque? ::
          y.at[s].of in y.states && s in y.states[y.at[s].of].closed)
    && (forall s | s in y.at && y.at[s].Drained? :: s in y.drained)
    && (forall s | s in y.at && y.at[s].Evicted? :: s in y.evicted)
  }

  /** What is registered, and which spans can sit in a state nobody will ever drain. */
  ghost predicate Registered<B, S>(y: Sys<B, S>) {
    && (forall k | k in y.registry :: y.registry[k] in y.states)
    && (forall k | k in y.registry && k.Thread? :: y.states[y.registry[k]].tid == k.tid)
    && (forall s | s in y.info && y.info[s].ofThread ::
          && y.info[s].tracked
          && Thread(y.info[s].owner) in y.registry
          && y.registry[Thread(y.info[s].owner)] == y.info[s].home)
    && (forall s | s in y.info && s in y.at && y.at[s] == Lost :: !y.info[s].ofThread)
    && (forall s | s in y.info && s in y.at && y.info[s].tracked && y.at[s].Open? ::
          y.info[s].home in y.registry.Values)
    && (forall s | s in y.info && s in y.at && y.info[s].tracked && y.at[s].InDeque? :: y.at[s].of in y.registry.Values)
  }

  function SumDrops<B, S>(states: map<B, Buffers<S>>, made: seq<B>): nat {
    if made == [] then 0
    else (if made[0] in states then states[made[0]].drops else 0) + SumDrops(states, made[1..])
  }

  /** Every drop is a push beyond the depth limit or an eviction, and every one of those is counted. */
  ghost predicate Counted<B, S>(y: Sys<B, S>) {
    && NoDup(y.made)
    && (forall b | b in y.made :: b in y.states)
    && (forall b | b in y.states :: b in y.made)
    && SumDrops(y.states, y.made) == y.overflow + |y.evicted|
  }

  ghost predicate Inv<B, S>(y: Sys<B, S>) {
    Stacks(y) && Placed(y) && Found(y) && Registered(y) && Counted(y)
  }

  // ---------------------------------------------------------------------------------------------
  // Each predicate, one micro-step at a time
  // ---------------------------------------------------------------------------------------------

  lemma StacksFrame<B, S>(y: Sys<B, S>, y': Sys<B, S>)
    requires Stacks(y) && y'.states.Keys == y.states.Keys
    requires forall b | b in y.states :: y'.states[b].stack == y.states[b].stack && y'.states[b].tid == y.states[b].tid
    requires y'.info == y.info && y.ended <= y'.ended && y'.clock == y.clock
    ensures Stacks(y')
  {
  }

  lemma StackOkRemove<B, S>(info: map<S, Info<B, S>>, b: B, q: seq<S>, s: S)
    requires StackOk(info, b, q) && s in q
    ensures StackOk(info, b, RemoveFirst(q, s))
    ensures |RemoveFirst(q, s)| < |q|
    ensures forall x | x in q && x != s :: x in RemoveFirst(q, s)
  {
    var k := RemoveFirstSplits(q, s);
    StackOkCut(info, b, q, k);
  }

  lemma StackOkCut<B, S>(info: map<S, Info<B, S>>, b: B, q: seq<S>, k: nat)
    requires StackOk(info, b, q) && k < |q|
    ensures StackOk(info, b, q[..k] + q[k + 1..])
    ensures forall x | x in q && x != q[k] :: x in q[..k] + q[k + 1..]
  {
    var r := q[..k] + q[k + 1..];
    assert forall i | 0 <= i < |r| :: r[i] == q[if i < k then i else i + 1];
    forall x | x in q && x != q[k]
      ensures x in r
    {
      assert x in q[..k] || x in q[k + 1..];
    }
  }

  lemma StacksRemove<B, S>(y: Sys<B, S>, b: B, s: S)
    requires Stacks(y) && b in y.states && s in y.ended && s in y.states[b].stack
    ensures Stacks(SetStack(y, b, RemoveFirst(y.states[b].stack, s)))
  {
    StackOkRemove(y.info, b, y.states[b].stack, s);
  }

  lemma PlacedEvict<B, S>(y: Sys<B, S>, b: B)
    requires Placed(y) && b in y.states && y.states[b].closed != []
    ensures Placed(EvictOldest(y, b))
  {
    var q := y.states[b].closed;
    assert q == [q[0]] + q[1..];
    assert q[0] !in q[1..] && q[0] !in y.evicted && q[0] !in y.drained;
  }

  lemma FoundEvict<B, S>(y: Sys<B, S>, b: B)
    requires Found(y) && b in y.states && y.states[b].closed != []
    ensures Found(EvictOldest(y, b))
  {
    var q := y.states[b].closed;
    assert q == [q[0]] + q[1..];
    assert (y.evicted + [q[0]])[|y.evicted|] == q[0];
    assert forall s | s in y.evicted :: s in y.evicted + [q[0]];
  }

  lemma RegisteredEvict<B, S>(y: Sys<B, S>, b: B)
    requires Registered(y) && b in y.states && y.states[b].closed != []
    ensures Registered(EvictOldest(y, b))
  {
  }

  lemma PlacedAppend<B, S>(y: Sys<B, S>, b: B, s: S)
    requires Placed(y) && b in y.states && s in y.info && y.at[s] in {Open, Held, Lost} && !Full(y, b)
    ensures Placed(AppendRoom(Stop(y, s), b, s))
  {
    assert s !in y.states[b].closed && s !in y.drained && s !in y.evicted;
  }

  lemma FoundAppend<B, S>(y: Sys<B, S>, b: B, s: S)
    requires Found(y) && b in y.states && s in y.at && y.at[s] in {Open, Held, Lost}
    ensures Found(AppendRoom(Stop(y, s), b, s))
  {
    var q := y.states[b].closed;
    assert (q + [s])[|q|] == s;
    assert forall x | x in q :: x in q + [s];
  }

  lemma RegisteredAppend<B, S>(y: Sys<B, S>, b: B, s: S)
    requires Registered(y) && b in y.states && s in y.info
    requires y.info[s].tracked ==> b in y.registry.Values
    ensures Registered(AppendRoom(Stop(y, s), b, s))
  {
  }

  lemma {:induction false} SumDropsFrame<B, S>(a: map<B, Buffers<S>>, c: map<B, Buffers<S>>, made: seq<B>)
    requires forall b | b in made :: b in a && b in c && a[b].drops == c[b].drops
    ensures SumDrops(a, made) == SumDrops(c, made)
  {
    if made != [] {
      SumDropsFrame(a, c, made[1..]);
    }
  }

  lemma {:induction false} SumDropsBump<B, S>(a: map<B, Buffers<S>>, c: map<B, Buffers<S>>, made: seq<B>, b: B)
    requires NoDup(made) && b in made
    requires forall x | x in made :: x in a && x in c && c[x].drops == a[x].drops + (if x == b then 1 else 0)
    ensures SumDrops(c, made) == SumDrops(a, made) + 1
  {
    if made[0] == b {
      SumDropsFrame(a, c, made[1..]);
    } else {
      SumDropsBump(a, c, made[1..], b);
    }
  }

  lemma {:induction false} SumDropsSnoc<B, S>(a: map<B, Buffers<S>>, made: seq<B>, b: B)
    requires b in a
    ensures SumDrops(a, made + [b]) == SumDrops(a, made) + a[b].drops
  {
    if made != [] {
      assert (made + [b])[1..] == made[1..] + [b];
      SumDropsSnoc(a, made[1..], b);
    }
  }

  lemma CountedSame<B, S>(y: Sys<B, S>, y': Sys<B, S>)
    requires Counted(y) && y'.states.Keys == y.states.Keys && y'.made == y.made
    requires forall b | b in y.states :: y'.states[b].drops == y.states[b].drops
    requires y'.overflow == y.overflow && |y'.evicted| == |y.evicted|
    ensures Counted(y')
  {
    SumDropsFrame(y.states, y'.states, y.made);
  }

  lemma CountedBump<B, S>(y: Sys<B, S>, y': Sys<B, S>, b: B)
    requires Counted(y) && b in y.states && y'.states.Keys == y.states.Keys && y'.made == y.made
    requires forall x | x in y.states :: y'.states[x].drops == y.states[x].drops + (if x == b then 1 else 0)
    requires y'.overflow + |y'.evicted| == y.overflow + |y.evicted| + 1
    ensures Counted(y')
  {
    SumDropsBump(y.states, y'.states, y.made, b);
  }

  // ---------------------------------------------------------------------------------------------
  // Every step keeps the invariant
  // ---------------------------------------------------------------------------------------------

  /** The facts about one span that the lemmas below need. */
  lemma InvFacts<B, S>(y: Sys<B, S>, s: S)
    requires Inv(y) && s in y.info
    ensures s in y.at && (y.at[s].Open? <==> s !in y.ended)
    ensures forall k | k in y.registry :: y.registry[k] in y.states
    ensures Thread(y.info[s].owner) in y.registry ==> y.registry[Thread(y.info[s].owner)] in y.registry.Values
    ensures s !in y.ended && y.info[s].tracked ==> y.info[s].home in y.registry.Values
  {
  }

  lemma RegistryFacts<B, S>(y: Sys<B, S>)
    requires Inv(y)
    ensures forall k | k in y.registry :: y.registry[k] in y.states
  {
  }

  lemma InfoFacts<B, S>(y: Sys<B, S>)
    requires Inv(y)
    ensures y.ended <= y.info.Keys
  {
  }

  lemma StackFacts<B, S>(y: Sys<B, S>, b: B)
    requires Inv(y) && b in y.states
    ensures forall s | s in y.states[b].stack :: s in y.info && y.info[s].home == b
    ensures var q := y.states[b].stack; q != [] ==> RemoveFirst(q, q[|q| - 1]) == q[..|q| - 1]
  {
    var q := y.states[b].stack;
    if q != [] {
      var k := RemoveFirstSplits(q, q[|q| - 1]);
    }
  }

  lemma StackIsDistinct<B, S>(y: Sys<B, S>, b: B)
    requires Inv(y) && b in y.states
    ensures NoDup(y.states[b].stack)
  {
    var q := y.states[b].stack;
    assert StackOk(y.info, b, q);
    forall i, j | 0 <= i < j < |q| ensures q[i] != q[j] {
      assert y.info[q[i]].rank < y.info[q[j]].rank;
    }
  }

  lemma InvEvict<B, S>(y: Sys<B, S>, b: B)
    requires Inv(y) && b in y.states && y.states[b].closed != []
    ensures Inv(EvictOldest(y, b))
  {
    hide Stacks, Placed, Found, Registered, Counted;
    StacksFrame(y, EvictOldest(y, b));
    PlacedEvict(y, b);
    FoundEvict(y, b);
    RegisteredEvict(y, b);
    CountedBump(y, EvictOldest(y, b), b);
  }

  /** A span that has just ended, or was held, goes into a deque whose state is registered if it must be. */
  lemma InvAppend<B, S>(y: Sys<B, S>, b: B, s: S)
    requires Inv(y) && b in y.states && s in y.info && s in y.at && y.at[s] in {Open, Held, Lost}
    requires y.info[s].tracked ==> b in y.registry.Values
    ensures Inv(Append(Stop(y, s), b, s))
  {
    hide Stacks, Placed, Found, Registered, Counted;
    if Full(y, b) {
      var y1 := EvictOldest(y, b);
      InvEvict(y, b);
      assert s in y1.at && y1.at[s] in {Open, Held, Lost} by { OldestElsewhere(y, b, s); }
      InvAppendRoom(y1, b, s);
    } else {
      InvAppendRoom(y, b, s);
    }
  }

  lemma OldestElsewhere<B, S>(y: Sys<B, S>, b: B, s: S)
    requires Inv(y) && b in y.states && y.states[b].closed != [] && s in y.at && !y.at[s].InDeque?
    ensures y.states[b].closed[0] != s
  {
    assert y.states[b].closed[0] in y.states[b].closed;
  }

  lemma InvAppendRoom<B, S>(y: Sys<B, S>, b: B, s: S)
    requires Inv(y) && b in y.states && s in y.info && s in y.at && y.at[s] in {Open, Held, Lost} && !Full(y, b)
    requires y.info[s].tracked ==> b in y.registry.Values
    ensures Inv(AppendRoom(Stop(y, s), b, s))
  {
    hide Stacks, Placed, Found, Registered, Counted;
    var y' := AppendRoom(Stop(y, s), b, s);
    StacksFrame(y, y');
    PlacedAppend(y, b, s);
    FoundAppend(y, b, s);
    RegisteredAppend(y, b, s);
    CountedSame(y, y');
  }

  lemma PlacedStack<B, S>(y: Sys<B, S>, b: B, stack: seq<S>)
    requires Placed(y) && b in y.states
    ensures Placed(SetStack(y, b, stack))
  {
  }

  lemma FoundStack<B, S>(y: Sys<B, S>, b: B, stack: seq<S>)
    requires Found(y) && Registered(y) && b in y.states
    ensures Found(SetStack(y, b, stack)) && Registered(SetStack(y, b, stack))
  {
  }

  lemma InvRemove<B, S>(y: Sys<B, S>, b: B, s: S)
    requires Inv(y) && b in y.states && s in y.ended && s in y.states[b].stack
    ensures Inv(SetStack(y, b, RemoveFirst(y.states[b].stack, s)))
  {
    hide Stacks, Placed, Found, Registered, Counted;
    var stack := RemoveFirst(y.states[b].stack, s);
    StacksRemove(y, b, s);
    PlacedStack(y, b, stack);
    FoundStack(y, b, stack);
    CountedSame(y, SetStack(y, b, stack));
  }

  /** Taking the span off its stack first, as the code does, leads to the same state. */
  lemma FinishCommutes<B, S>(y: Sys<B, S>, b: B, q: seq<S>, s: S)
    requires b in y.states
    ensures Finish(SetStack(y, b, q), b, s) == SetStack(Finish(y, b, s), b, q)
  {
    if s !in y.ended {
      var y1 := if Full(y, b) then EvictOldest(Stop(y, s), b) else Stop(y, s);
      assert Finish(y, b, s) == AppendRoom(y1, b, s);
      assert SetStack(AppendRoom(y1, b, s), b, q).states == AppendRoom(SetStack(y1, b, q), b, s).states;
      assert Full(y, b) ==> EvictOldest(SetStack(Stop(y, s), b, q), b).states == SetStack(y1, b, q).states;
    }
  }

  lemma HoldCommutes<B, S>(y: Sys<B, S>, b: B, q: seq<S>, s: S)
    requires b in y.states
    ensures Hold(SetStack(y, b, q), s) == SetStack(Hold(y, s), b, q)
  {
  }

  lemma InvFinish<B, S>(y: Sys<B, S>, b: B, s: S)
    requires Inv(y) && b in y.states && s in y.states[b].stack
    ensures Inv(Finish(y, b, s))
  {
    hide Stacks, Placed, Found, Registered, Counted;
    StackFacts(y, b);
    InvFacts(y, s);
    if s !in y.ended {
      InvAppend(y, b, s);
    }
  }

  lemma InvPop<B, S>(y: Sys<B, S>, b: B)
    requires Inv(y) && b in y.states
    ensures Inv(Pop(y, b))
  {
    hide Stacks, Placed, Found, Registered, Counted;
    var q := y.states[b].stack;
    if q != [] {
      StackFacts(y, b);
      InvFinish(y, b, q[|q| - 1]);
      InvRemove(Finish(y, b, q[|q| - 1]), b, q[|q| - 1]);
    }
  }

  lemma PlacedLose<B, S>(y: Sys<B, S>, s: S)
    requires Placed(y) && s in y.info && s in y.at && y.at[s] in {Open, Held}
    ensures Placed(Stop(y, s).(at := y.at[s := Lost]))
  {
  }

  lemma FoundLose<B, S>(y: Sys<B, S>, s: S)
    requires Found(y) && Registered(y) && s in y.info && s in y.at && Thread(y.info[s].owner) !in y.registry
    ensures Found(Stop(y, s).(at := y.at[s := Lost])) && Registered(Stop(y, s).(at := y.at[s := Lost]))
  {
  }

  /** Emission by owner of a span that is not yet emitted, whether or not the owner is known. */
  lemma InvEmitByOwner<B, S>(y: Sys<B, S>, s: S)
    requires Inv(y) && s in y.info && s in y.at && y.at[s] in {Open, Held, Lost}
    requires forall k | k in y.registry :: y.registry[k] in y.states
    ensures Inv(EmitByOwner(Stop(y, s), s))
  {
    hide Stacks, Placed, Found, Registered, Counted;
    InvFacts(y, s);
    var y' := EmitByOwner(Stop(y, s), s);
    if Thread(y.info[s].owner) in y.registry {
      InvAppend(y, y.registry[Thread(y.info[s].owner)], s);
    } else if y.at[s] != Lost {
      StacksFrame(y, y');
      PlacedLose(y, s);
      FoundLose(y, s);
      CountedSame(y, y');
    } else {
      assert y' == y;
    }
  }

  lemma InvCloseScope<B, S>(y: Sys<B, S>, s: S)
    requires Inv(y) && s in y.info
    ensures Inv(CloseScope(y, s))
  {
    hide Stacks, Placed, Found, Registered, Counted;
    InvFacts(y, s);
    if s !in y.ended {
      InvEmitByOwner(y, s);
    }
  }

  lemma InvCloseAndRemove<B, S>(y: Sys<B, S>, tid: int, b: B, s: S)
    requires Inv(y) && b in y.states && s in y.info
    ensures Inv(CloseAndRemove(y, tid, b, s))
  {
    hide Stacks, Placed, Found, Registered, Counted;
    InvFacts(y, s);
    if tid != y.info[s].owner || s !in y.states[b].stack {
      InvCloseScope(y, s);
    } else {
      InvFinish(y, b, s);
      InvRemove(Finish(y, b, s), b, s);
    }
  }

  lemma PlacedHold<B, S>(y: Sys<B, S>, s: S)
    requires Placed(y) && s in y.info
    ensures Placed(Hold(y, s))
  {
  }

  lemma FoundHold<B, S>(y: Sys<B, S>, s: S)
    requires Placed(y) && Found(y) && Registered(y) && s in y.info
    ensures Found(Hold(y, s)) && Registered(Hold(y, s))
  {
  }

  lemma InvFinalizeDeferred<B, S>(y: Sys<B, S>, tid: int, b: B, s: S)
    requires Inv(y) && b in y.states && s in y.info
    ensures Inv(FinalizeDeferred(y, tid, b, s))
  {
    hide Stacks, Placed, Found, Registered, Counted;
    StacksFrame(y, Hold(y, s));
    PlacedHold(y, s);
    FoundHold(y, s);
    CountedSame(y, Hold(y, s));
    if tid == y.info[s].owner && s in y.states[b].stack {
      InvRemove(Hold(y, s), b, s);
    }
  }

  lemma StackOkPush<B, S>(info: map<S, Info<B, S>>, info': map<S, Info<B, S>>, b: B, q: seq<S>, s: S)
    requires StackOk(info, b, q)
    requires s !in info && s in info' && info'[s].home == b
    requires forall x | x in info :: x in info' && info'[x] == info[x] && info[x].rank < info'[s].rank
    ensures StackOk(info', b, q) && StackOk(info', b, q + [s])
  {
    assert forall i | 0 <= i < |q| :: q[i] in q;
  }

  lemma ParentsBegin<B, S>(y: Sys<B, S>, b: B, s: S)
    requires Stacks(y) && b in y.states && s !in y.info
    ensures forall x | x in Begin(y, b, s).info :: ParentEarlier(Begin(y, b, s).info, x)
  {
    forall x | x in Begin(y, b, s).info
      ensures ParentEarlier(Begin(y, b, s).info, x)
    {
      assert x != s ==> ParentEarlier(y.info, x);
    }
  }

  lemma OpenBegin<B, S>(y: Sys<B, S>, b: B, s: S, x: S)
    requires Stacks(y) && b in y.states && s !in y.info && x in y.info && x !in y.ended
    ensures y.info[x].home in y.states && x in Begin(y, b, s).states[y.info[x].home].stack
  {
    assert x in y.states[y.info[x].home].stack;
  }

  lemma StacksBegin<B, S>(y: Sys<B, S>, b: B, s: S)
    requires Stacks(y) && b in y.states && s !in y.info && s !in y.ended && |y.states[b].stack| < MAX_DEPTH
    ensures Stacks(Begin(y, b, s))
  {
    var y' := Begin(y, b, s);
    StackOkPush(y.info, y'.info, b, y.states[b].stack, s);
    ParentsBegin(y, b, s);
    forall x | x in y.info && x !in y.ended
      ensures x in y'.states[y.info[x].home].stack
    {
      OpenBegin(y, b, s, x);
    }
    assert y'.states[b].stack[|y.states[b].stack|] == s;
  }

  lemma PlacedBegin<B, S>(y: Sys<B, S>, b: B, s: S)
    requires Placed(y) && b in y.states && s !in y.info
    ensures Placed(Begin(y, b, s)) && s !in y.ended && s !in y.at
  {
  }

  lemma FoundBegin<B, S>(y: Sys<B, S>, b: B, s: S)
    requires Found(y) && Registered(y) && b in y.states && s !in y.info && s !in y.at
    ensures Found(Begin(y, b, s)) && Registered(Begin(y, b, s))
  {
  }

  lemma InvRefuse<B, S>(y: Sys<B, S>, b: B)
    requires Inv(y) && b in y.states
    ensures Inv(Refuse(y, b))
  {
    hide Stacks, Placed, Found, Registered, Counted;
    StacksFrame(y, Refuse(y, b));
    SidelinesRefuse(y, b);
    CountedBump(y, Refuse(y, b), b);
  }

  lemma SidelinesRefuse<B, S>(y: Sys<B, S>, b: B)
    requires Placed(y) && Found(y) && Registered(y) && b in y.states
    ensures Placed(Refuse(y, b)) && Found(Refuse(y, b)) && Registered(Refuse(y, b))
  {
  }

  lemma InvPush<B, S>(y: Sys<B, S>, b: B, s: S)
    requires Inv(y) && b in y.states && s !in y.info
    ensures Inv(Push(y, b, s))
  {
    hide Stacks, Placed, Found, Registered, Counted;
    if |y.states[b].stack| >= MAX_DEPTH {
      InvRefuse(y, b);
    } else {
      PlacedBegin(y, b, s);
      StacksBegin(y, b, s);
      FoundBegin(y, b, s);
      CountedSame(y, Begin(y, b, s));
    }
  }

  lemma StacksEnroll<B, S>(y: Sys<B, S>, key: Key, tid: int, b: B)
    requires Stacks(y) && b !in y.states
    ensures Stacks(Enroll(y, key, tid, b))
  {
  }

  lemma PlacedEnroll<B, S>(y: Sys<B, S>, key: Key, tid: int, b: B)
    requires Placed(y) && Found(y) && b !in y.states
    ensures Placed(Enroll(y, key, tid, b)) && Found(Enroll(y, key, tid, b))
  {
  }

  lemma RegisteredEnroll<B, S>(y: Sys<B, S>, key: Key, tid: int, b: B)
    requires Registered(y) && key !in y.registry && b !in y.states && (key.Thread? ==> key.tid == tid)
    ensures Registered(Enroll(y, key, tid, b))
  {
    var registry := y.registry[key := b];
    forall x | x in y.registry.Values
      ensures x in registry.Values
    {
      var k :| k in y.registry && y.registry[k] == x;
      assert k in registry && registry[k] == x;
    }
  }

  lemma CountedEnroll<B, S>(y: Sys<B, S>, key: Key, tid: int, b: B)
    requires Counted(y) && b !in y.states
    ensures Counted(Enroll(y, key, tid, b))
  {
    var y' := Enroll(y, key, tid, b);
    SumDropsFrame(y.states, y'.states, y.made);
    SumDropsSnoc(y'.states, y.made, b);
  }

  lemma InvEnroll<B, S>(y: Sys<B, S>, key: Key, tid: int, b: B)
    requires Inv(y) && key !in y.registry && b !in y.states && (key.Thread? ==> key.tid == tid)
    ensures Inv(Enroll(y, key, tid, b))
  {
    hide Stacks, Placed, Found, Registered, Counted;
    StacksEnroll(y, key, tid, b);
    PlacedEnroll(y, key, tid, b);
    RegisteredEnroll(y, key, tid, b);
    CountedEnroll(y, key, tid, b);
  }

  /** An idle state holds no span, so taking its entry out of the registry strands nothing. */
  lemma RegisteredForget<B, S>(y: Sys<B, S>, id: string)
    requires Registered(y) && Stacks(y) && Placed(y) && Found(y)
    ensures Registered(Forget(y, id))
  {
    var key := Request(id);
    if key in y.registry && Idle(y, y.registry[key]) {
      forall b | b in y.registry.Values && b != y.registry[key]
        ensures b in (y.registry - {key}).Values
      {
        var k :| k in y.registry && y.registry[k] == b;
        assert k in y.registry - {key} && (y.registry - {key})[k] == b;
      }
    }
  }

  lemma PlacedForget<B, S>(y: Sys<B, S>, id: string)
    requires Placed(y) && Found(y)
    ensures Placed(Forget(y, id)) && Found(Forget(y, id))
  {
  }

  lemma InvForget<B, S>(y: Sys<B, S>, id: string)
    requires Inv(y)
    ensures Inv(Forget(y, id))
  {
    hide Stacks, Placed, Found, Registered, Counted;
    StacksFrame(y, Forget(y, id));
    RegisteredForget(y, id);
    PlacedForget(y, id);
    CountedSame(y, Forget(y, id));
  }

  lemma PlacedPopLeft<B, S>(y: Sys<B, S>, b: B)
    requires Placed(y) && b in y.states
    ensures Placed(PopLeft(y, b))
  {
    var q := y.states[b].closed;
    if q != [] {
      assert q == [q[0]] + q[1..];
      assert q[0] !in q[1..] && q[0] !in y.drained && q[0] !in y.evicted;
    }
  }

  lemma FoundPopLeft<B, S>(y: Sys<B, S>, b: B)
    requires Found(y) && b in y.states
    ensures Found(PopLeft(y, b))
  {
    var q := y.states[b].closed;
    if q != [] {
      assert q == [q[0]] + q[1..];
      assert (y.drained + [q[0]])[|y.drained|] == q[0];
      assert forall s | s in y.drained :: s in y.drained + [q[0]];
    }
  }

  lemma RegisteredPopLeft<B, S>(y: Sys<B, S>, b: B)
    requires Registered(y) && b in y.states
    ensures Registered(PopLeft(y, b))
  {
  }

  lemma InvPopLeft<B, S>(y: Sys<B, S>, b: B)
    requires Inv(y) && b in y.states
    ensures Inv(PopLeft(y, b))
  {
    hide Stacks, Placed, Found, Registered, Counted;
    StacksFrame(y, PopLeft(y, b));
    PlacedPopLeft(y, b);
    FoundPopLeft(y, b);
    RegisteredPopLeft(y, b);
    CountedSame(y, PopLeft(y, b));
  }

  // ---------------------------------------------------------------------------------------------
  // Whole runs: any interleaving of the steps of any number of threads, requests and drainers
  // ---------------------------------------------------------------------------------------------

  datatype Step<B, S> =
    | Touch(tid: int, b: B)
    | EnterRequest(id: string, tid: int, b: B)
    | LeaveRequest(id: string)
    | PushOn(b: B, s: S)
    | PopOn(b: B)
    | CloseOutOfBand(s: S)
    | CloseInPlace(tid: int, b: B, s: S)
    | StopClock(tid: int, b: B, s: S)
    | EmitHeld(s: S)
    | DrainOne(b: B)

  /**
   Thread ids are not reused and request ids are unique, new objects are new, and a held span is emitted
   once. Nothing else is asked: any state object may be the active one of any caller.
   */
  ghost predicate Enabled<B, S>(y: Sys<B, S>, step: Step<B, S>) {
    match step
    case Touch(tid, b) => Thread(tid) !in y.registry && b !in y.states
    case EnterRequest(id, _, b) => Request(id) !in y.registry && b !in y.states
    case LeaveRequest(_) => true
    case PushOn(b, s) => b in y.states && s !in y.info
    case PopOn(b) => b in y.states
    case CloseOutOfBand(s) => s in y.info
    case CloseInPlace(_, b, s) => b in y.states && s in y.info
    case StopClock(_, b, s) => b in y.states && s in y.info
    case EmitHeld(s) => s in y.info && s in y.at && y.at[s] == Held
    case DrainOne(b) => b in y.states
  }

  ghost function Next<B, S>(y: Sys<B, S>, step: Step<B, S>): Sys<B, S>
    requires Inv(y) && Enabled(y, step)
  {
    match step
    case Touch(tid, b) => Register(y, tid, b)
    case EnterRequest(id, tid, b) => Enter(y, id, tid, b)
    case LeaveRequest(id) => Forget(y, id)
    case PushOn(b, s) => Push(y, b, s)
    case PopOn(b) => Pop(y, b)
    case CloseOutOfBand(s) => CloseScope(y, s)
    case CloseInPlace(tid, b, s) => CloseAndRemove(y, tid, b, s)
    case StopClock(tid, b, s) => FinalizeDeferred(y, tid, b, s)
    case EmitHeld(s) => EmitByOwner(y, s)
    case DrainOne(b) => PopLeft(y, b)
  }

  lemma InvNext<B, S>(y: Sys<B, S>, step: Step<B, S>)
    requires Inv(y) && Enabled(y, step)
    ensures Inv(Next(y, step))
  {
    hide Stacks, Placed, Found, Registered, Counted;
    match step
    case Touch(tid, b) => InvEnroll(y, Thread(tid), tid, b);
    case EnterRequest(id, tid, b) => InvEnroll(y, Request(id), tid, b);
    case LeaveRequest(id) => InvForget(y, id);
    case PushOn(b, s) => InvPush(y, b, s);
    case PopOn(b) => InvPop(y, b);
    case CloseOutOfBand(s) => InvCloseScope(y, s);
    case CloseInPlace(tid, b, s) => InvCloseAndRemove(y, tid, b, s);
    case StopClock(tid, b, s) => InvFinalizeDeferred(y, tid, b, s);
    case EmitHeld(s) =>
      InvFacts(y, s);
      InvEmitByOwner(y, s);
      assert Stop(y, s) == y;
    case DrainOne(b) => InvPopLeft(y, b);
  }

  /** `y'` is where the steps lead from `y`, each enabled when its turn comes. */
  ghost predicate Leads<B, S>(y: Sys<B, S>, steps: seq<Step<B, S>>, y': Sys<B, S>)
    decreases |steps|
  {
    if steps == [] then y' == y
    else Inv(y) && Enabled(y, steps[0]) && Leads(Next(y, steps[0]), steps[1..], y')
  }

  lemma InvEmpty<B, S>()
    ensures Inv(Empty<B, S>())
  {
  }

  lemma {:induction false} LeadsInv<B, S>(y: Sys<B, S>, steps: seq<Step<B, S>>, y': Sys<B, S>)
    requires Inv(y) && Leads(y, steps, y')
    ensures Inv(y')
    decreases |steps|
  {
    hide Stacks, Placed, Found, Registered, Counted;
    if steps != [] {
      InvNext(y, steps[0]);
      LeadsInv(Next(y, steps[0]), steps[1..], y');
    }
  }

  function One(p: bool): nat { if p then 1 else 0 }

  ghost predicate InSomeDeque<B, S>(y: Sys<B, S>, s: S) {
    exists b | b in y.states :: s in y.states[b].closed
  }

  /** Open means running and on the stack of the state it was pushed on. */
  ghost predicate IsOpen<B, S>(y: Sys<B, S>, s: S)
    requires s in y.info
  {
    s !in y.ended && y.info[s].home in y.states && s in y.states[y.info[s].home].stack
  }

  ghost predicate Is<B, S>(y: Sys<B, S>, s: S, p: Place<B>) {
    s in y.at && y.at[s] == p
  }

  /** Every span ever pushed is in exactly one of the six places, and in it once. */
  ghost predicate Conserved<B, S>(y: Sys<B, S>) {
    && NoDup(y.drained) && NoDup(y.evicted)
    && (forall b | b in y.states :: NoDup(y.states[b].closed))
    && (forall b, c | b in y.states && c in y.states && b != c ::
          forall s | s in y.states[b].closed :: s !in y.states[c].closed)
    && (forall s | s in y.info ::
          One(IsOpen(y, s)) + One(Is(y, s, Held)) + One(InSomeDeque(y, s))
          + One(s in y.drained) + One(s in y.evicted) + One(Is(y, s, Lost)) == 1)
  }

  lemma InvConserved<B, S>(y: Sys<B, S>)
    requires Inv(y)
    ensures Conserved(y)
  {
    forall s | s in y.info
      ensures One(IsOpen(y, s)) + One(Is(y, s, Held)) + One(InSomeDeque(y, s))
              + One(s in y.drained) + One(s in y.evicted) + One(Is(y, s, Lost)) == 1
    {
      OnePlace(y, s);
    }
    forall b, c, s | b in y.states && c in y.states && b != c && s in y.states[b].closed
      ensures s !in y.states[c].closed
    {
      assert y.at[s] == InDeque(b);
    }
  }

  lemma OnePlace<B, S>(y: Sys<B, S>, s: S)
    requires Stacks(y) && Placed(y) && Found(y) && s in y.info
    ensures s in y.at
    ensures IsOpen(y, s) <==> y.at[s] == Open
    ensures InSomeDeque(y, s) <==> y.at[s].InDeque?
    ensures s in y.drained <==> y.at[s] == Drained
    ensures s in y.evicted <==> y.at[s] == Evicted
  {
  }

  /** The theorem of the module: over every interleaving nothing is emitted twice and nothing disappears. */
  lemma NothingTwiceNothingLost<B, S>(steps: seq<Step<B, S>>, y: Sys<B, S>)
    requires Leads(Empty(), steps, y)
    ensures Conserved(y) && Stacks(y)
    ensures SumDrops(y.states, y.made) == y.overflow + |y.evicted|
  {
    hide Stacks, Placed, Found, Registered;
    InvEmpty<B, S>();
    LeadsInv(Empty(), steps, y);
    InvConserved(y);
  }

  /** Spans pushed on a thread's own stack can always still be drained: their deque stays registered. */
  lemma ThreadSpansStayReachable<B, S>(steps: seq<Step<B, S>>, y: Sys<B, S>, s: S)
    requires Leads(Empty(), steps, y) && s in y.info && y.info[s].ofThread
    ensures !Is(y, s, Lost)
    ensures IsOpen(y, s) ==> y.info[s].home in y.registry.Values
    ensures Is(y, s, Held) || IsOpen(y, s) || s in y.drained || s in y.evicted
            || exists b | b in y.states && b in y.registry.Values :: s in y.states[b].closed
  {
    InvEmpty<B, S>();
    LeadsInv(Empty(), steps, y);
    OnePlace(y, s);
  }

  /** A tracked span waiting in a deque waits in one that the drainer still enumerates. */
  lemma TrackedSpansStayReachable<B, S>(steps: seq<Step<B, S>>, y: Sys<B, S>, s: S)
    requires Leads(Empty(), steps, y) && s in y.info && y.info[s].tracked
    ensures IsOpen(y, s) ==> y.info[s].home in y.registry.Values
    ensures InSomeDeque(y, s) ==> exists b | b in y.states && b in y.registry.Values :: s in y.states[b].closed
  {
    InvEmpty<B, S>();
    LeadsInv(Empty(), steps, y);
    OnePlace(y, s);
  }

  /**
   Why entering a request and pushing its first span must be one step: a drain in between prunes the idle
   state, and what is pushed there afterwards ends in a deque that no drain enumerates.
   */
  lemma PruningStrandsLaterSpans<B, S>(y: Sys<B, S>, id: string, b: B, s: S)
    requires Inv(y) && Request(id) in y.registry && y.registry[Request(id)] == b && b in y.states && Idle(y, b)
    requires forall k | k in y.registry && y.registry[k] == b :: k == Request(id)
    requires s !in y.info
    ensures var y' := Pop(Push(Forget(y, id), b, s), b);
      Inv(y') && y'.states[b].closed == [s] && b !in y'.registry.Values && !y'.info[s].tracked
  {
    hide Stacks, Placed, Found, Registered, Counted;
    InfoFacts(y);
    var y1 := Forget(y, id);
    var y2 := Push(y1, b, s);
    InvForget(y, id);
    InvPush(y1, b, s);
    InvPop(y2, b);
    assert y2.states[b].stack == [s] && y2.states[b].closed == [];
    assert b !in y1.registry.Values;
  }

  /** The step emits `s` through the registry, by owner, rather than on the state it was opened on. */
  ghost predicate EmitsByOwner<B, S>(y: Sys<B, S>, step: Step<B, S>, s: S)
    requires s in y.info && Enabled(y, step)
  {
    match step
    case CloseOutOfBand(x) => x == s && s !in y.ended
    case CloseInPlace(tid, b, x) =>
      x == s && s !in y.ended && (tid != y.info[s].owner || s !in y.states[b].stack)
    case EmitHeld(x) => x == s
    case _ => false
  }

  /** A span is lost in exactly one way: it is emitted by owner while the owner's id is not registered. */
  lemma LostExactlyWhen<B, S>(y: Sys<B, S>, step: Step<B, S>, s: S)
    requires Inv(y) && Enabled(y, step) && s in y.info
    ensures Is(Next(y, step), s, Lost)
       <==> Is(y, s, Lost) || (EmitsByOwner(y, step, s) && Thread(y.info[s].owner) !in y.registry)
  {
    hide Stacks, Found, Registered, Counted;
    match step
    case Touch(_, _) =>
    case EnterRequest(_, _, _) =>
    case LeaveRequest(_) =>
    case PushOn(_, _) =>
    case PopOn(b) => LostFinish(y, b, s);
    case CloseOutOfBand(x) => LostEmit(y, x, s);
    case CloseInPlace(_, b, x) =>
      LostEmit(y, x, s);
      LostFinish(y, b, s);
    case StopClock(_, _, _) =>
    case EmitHeld(x) => LostEmit(y, x, s);
    case DrainOne(_) =>
  }

  lemma LostAppend<B, S>(y: Sys<B, S>, b: B, x: S, s: S)
    requires Placed(y) && b in y.states && x in y.at && y.at[x] in {Open, Held}
    ensures Is(Append(Stop(y, x), b, x), s, Lost) <==> Is(y, s, Lost)
  {
    if Full(y, b) {
      assert y.states[b].closed[0] in y.states[b].closed;
    }
  }

  lemma LostFinish<B, S>(y: Sys<B, S>, b: B, s: S)
    requires Inv(y) && b in y.states
    ensures forall x | x in y.states[b].stack :: Is(Finish(y, b, x), s, Lost) <==> Is(y, s, Lost)
  {
    forall x | x in y.states[b].stack
      ensures Is(Finish(y, b, x), s, Lost) <==> Is(y, s, Lost)
    {
      StackFacts(y, b);
      if x !in y.ended {
        LostAppend(y, b, x, s);
      }
    }
  }

  lemma LostEmit<B, S>(y: Sys<B, S>, x: S, s: S)
    requires Inv(y) && x in y.info && s in y.info
    ensures x in y.at && (y.at[x].Open? <==> x !in y.ended)
    ensures y.at[x] == Held ==> Stop(y, x) == y
    ensures y.at[x] in {Open, Held} ==>
      (Is(EmitByOwner(Stop(y, x), x), s, Lost)
       <==> Is(y, s, Lost) || (x == s && Thread(y.info[s].owner) !in y.registry))
  {
    hide Stacks, Found, Counted;
    var key := Thread(y.info[x].owner);
    if y.at[x] == Held {
      assert y.ended + {x} == y.ended;
    }
    if y.at[x] in {Open, Held} && key in y.registry {
      LostAppend(y, y.registry[key], x, s);
    }
  }

  /**
   The emission half of a deferred close has no guard. With a known owner it is safe exactly when the span is
   still owed one. Any other span ends up in two places: running or evicted and yet in a deque, or emitted twice.
   */
  lemma EmitIsSafeExactlyWhenOwed<B, S>(y: Sys<B, S>, s: S)
    requires Inv(y) && s in y.info && Thread(y.info[s].owner) in y.registry
    ensures Inv(EmitByOwner(y, s)) <==> y.at[s] in {Held, Lost}
    ensures Conserved(EmitByOwner(y, s)) <==> y.at[s] in {Held, Lost}
  {
    hide Stacks, Placed, Found, Registered, Counted, Conserved;
    InvFacts(y, s);
    var b := y.registry[Thread(y.info[s].owner)];
    if y.at[s] in {Held, Lost} {
      assert Stop(y, s) == y by { assert y.ended + {s} == y.ended; }
      InvAppend(y, b, s);
      InvConserved(Append(y, b, s));
    } else {
      EmitTwice(y, b, s);
      EmitDoubles(y, b, s);
    }
  }

  /** Appending a span that is not owed an emission leaves it where it was and puts it in a deque. */
  lemma EmitDoubles<B, S>(y: Sys<B, S>, b: B, s: S)
    requires Inv(y) && b in y.states && s in y.info && s in y.at && y.at[s] !in {Held, Lost}
    ensures !Conserved(Append(y, b, s))
  {
    hide Stacks, Placed, Found, Registered, Counted, Conserved, Append, InSomeDeque;
    InvIsOnePlace(y, s);
    if y.at[s].InDeque? {
      DequeDoubles(y, b, s);
    } else {
      ElsewhereDoubles(y, b, s);
    }
  }

  lemma InvIsOnePlace<B, S>(y: Sys<B, S>, s: S)
    requires Inv(y) && s in y.info
    ensures s in y.at && y.at[s].InDeque? == InSomeDeque(y, s)
    ensures y.at[s] == Open ==> IsOpen(y, s)
    ensures y.at[s] == Drained ==> s in y.drained
    ensures y.at[s] == Evicted ==> s in y.evicted
  {
    OnePlace(y, s);
  }

  lemma ElsewhereDoubles<B, S>(y: Sys<B, S>, b: B, s: S)
    requires b in y.states && s in y.info && (IsOpen(y, s) || s in y.drained || s in y.evicted)
    ensures !Conserved(Append(y, b, s))
  {
    var y' := Append(y, b, s);
    var q' := y'.states[b].closed;
    assert q'[|q'| - 1] == s;
    assert InSomeDeque(y', s) by { assert s in y'.states[b].closed; }
    if s in y.evicted {
      var i :| 0 <= i < |y.evicted| && y.evicted[i] == s;
      assert y'.evicted[i] == s;
    }
    assert IsOpen(y, s) ==> IsOpen(y', s);
  }

  lemma DequeDoubles<B, S>(y: Sys<B, S>, b: B, s: S)
    requires b in y.states && s in y.info && InSomeDeque(y, s)
    ensures !Conserved(Append(y, b, s))
  {
    var y' := Append(y, b, s);
    var q, q' := y.states[b].closed, y'.states[b].closed;
    assert q'[|q'| - 1] == s;
    if s !in q {
      var c :| c in y.states && s in y.states[c].closed;
      assert s in y'.states[c].closed;
    } else {
      var i :| 0 <= i < |q| && q[i] == s;
      if !Full(y, b) {
        assert q'[i] == s;
      } else if i > 0 {
        assert q'[i - 1] == s;
      } else {
        assert y'.evicted[|y.evicted|] == s;
        assert s in y'.evicted && InSomeDeque(y', s);
      }
    }
  }

  lemma EmitTwice<B, S>(y: Sys<B, S>, b: B, s: S)
    requires Placed(y) && Found(y) && b in y.states && s in y.at && s in y.info && y.at[s] !in {Held, Lost}
    ensures !Placed(Append(y, b, s))
  {
    var y' := Append(y, b, s);
    var q' := y'.states[b].closed;
    assert q'[|q'| - 1] == s && y'.at[s] == InDeque(b);
    if y.at[s] == InDeque(b) {
      TwiceInOneDeque(y, b, s);
    } else if y.at[s].InDeque? {
      assert s in y'.states[y.at[s].of].closed;
    } else if y.at[s] == Drained {
      assert s in y'.drained;
    } else if y.at[s] == Evicted {
      var i :| 0 <= i < |y.evicted| && y.evicted[i] == s;
      assert y'.evicted[i] == s;
    }
  }

  lemma TwiceInOneDeque<B, S>(y: Sys<B, S>, b: B, s: S)
    requires b in y.states && s in y.states[b].closed
    ensures !Placed(Append(y, b, s))
  {
    var q := y.states[b].closed;
    var y' := Append(y, b, s);
    var q' := y'.states[b].closed;
    var i :| 0 <= i < |q| && q[i] == s;
    if !Full(y, b) {
      assert q'[i] == s && q'[|q|] == s;
    } else if i == 0 {
      assert y'.evicted[|y.evicted|] == s && s in y'.evicted && y'.at[s] == InDeque(b);
    } else {
      assert q'[i - 1] == s && q'[|q| - 1] == s;
    }
  }
}
