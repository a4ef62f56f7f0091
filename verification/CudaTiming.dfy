/**
 Deferred closing of spans timed by CUDA events: event pairs wait in a pending list until their elapsed time can
 be read, and only then is the span emitted. One producer opens and closes the spans, and no other hook ends them.
 */
module CudaTiming {
  import opened Common

  const REAP_INTERVAL: nat := 32
  const REAP_BACKSTOP: nat := 256
  const EVENT_POOL_CAP: nat := 64

  type Span = nat
  type Event = nat

  datatype Pair = Pair(span: Span, start: Event, end: Event)

  /** What reading a pair does: its end has not completed, or the elapsed time is read, or a call raises. */
  datatype Probe = NotReady | Ready | Fails

  /** Creating or recording an event works, or raises before or after an event was taken. */
  datatype Outcome = Recorded | AllocFails | RecordFails

  predicate ShouldReap(ops: nat, pending: nat) {
    ops % REAP_INTERVAL == 0 || pending >= REAP_BACKSTOP
  }

  // ---------------------------------------------------------------------------------------------
  // One drain over the pending list
  // ---------------------------------------------------------------------------------------------

  /** A pair stays if its span is not finalized, or if its end event has not completed and nobody insists. */
  predicate Stays(p: Pair, ended: set<Span>, force: bool, probe: Event -> Probe) {
    p.span !in ended || (!force && probe(p.end) == NotReady)
  }

  function Kept(items: seq<Pair>, ended: set<Span>, force: bool, probe: Event -> Probe): seq<Pair> {
    if items == [] then []
    else (if Stays(items[0], ended, force, probe) then [items[0]] else []) + Kept(items[1..], ended, force, probe)
  }

  function Released(items: seq<Pair>, ended: set<Span>, force: bool, probe: Event -> Probe): seq<Span> {
    if items == [] then []
    else (if Stays(items[0], ended, force, probe) then [] else [items[0].span])
         + Released(items[1..], ended, force, probe)
  }

  function SpansOf(items: seq<Pair>): (r: seq<Span>)
    ensures |r| == |items| && forall i | 0 <= i < |r| :: r[i] == items[i].span
  {
    if items == [] then [] else [items[0].span] + SpansOf(items[1..])
  }

  /** Dropping every queued pair of one span. */
  function Without(items: seq<Pair>, s: Span): seq<Pair> {
    if items == [] then []
    else (if items[0].span == s then [] else [items[0]]) + Without(items[1..], s)
  }

  lemma {:induction false} WithoutLast(items: seq<Pair>, p: Pair)
    requires p.span !in SpansOf(items)
    ensures Without(items + [p], p.span) == items
  {
    if items != [] {
      assert SpansOf(items)[0] == items[0].span;
      assert (items + [p])[1..] == items[1..] + [p];
      assert forall i | 0 <= i < |items[1..]| :: SpansOf(items[1..])[i] == SpansOf(items)[i + 1];
      WithoutLast(items[1..], p);
    }
  }

  /** q is divided between k and r: nothing lost, nothing doubled, nothing in both. */
  ghost predicate Splits(q: seq<Span>, k: seq<Span>, r: seq<Span>) {
    && NoDup(k) && NoDup(r)
    && (forall s | s in k :: s in q && s !in r)
    && (forall s | s in r :: s in q)
    && (forall s | s in q :: s in k || s in r)
  }

  lemma SplitsCons(x: Span, q: seq<Span>, k: seq<Span>, r: seq<Span>)
    requires Splits(q, k, r) && x !in q
    ensures Splits([x] + q, [x] + k, r) && Splits([x] + q, k, [x] + r)
  {
  }

  /** A drain divides the pending spans between the kept and the emitted, and emits only ended ones. */
  lemma {:induction false} DrainSplits(items: seq<Pair>, ended: set<Span>, force: bool, probe: Event -> Probe)
    requires NoDup(SpansOf(items))
    ensures Splits(SpansOf(items), SpansOf(Kept(items, ended, force, probe)), Released(items, ended, force, probe))
    ensures forall s | s in Released(items, ended, force, probe) :: s in ended
  {
    hide Splits;
    if items == [] {
      SplitsEmpty();
    } else {
      var k, r := Kept(items[1..], ended, force, probe), Released(items[1..], ended, force, probe);
      var q := SpansOf(items[1..]);
      NoDupTail(items[0].span, q);
      DrainSplits(items[1..], ended, force, probe);
      SplitsCons(items[0].span, q, SpansOf(k), r);
      SpansCons(items[0], k);
      assert [] + r == r && [] + k == k;
    }
  }

  lemma SplitsEmpty()
    ensures Splits([], [], [])
  {
  }

  lemma NoDupTail(x: Span, q: seq<Span>)
    requires NoDup([x] + q)
    ensures NoDup(q) && x !in q
  {
    var p := [x] + q;
    assert p[0] == x && forall i | 0 <= i < |q| :: p[i + 1] == q[i];
  }

  lemma SpansCons(p: Pair, items: seq<Pair>)
    ensures SpansOf([p] + items) == [p.span] + SpansOf(items)
    ensures forall s :: s in SpansOf([p] + items) <==> s == p.span || s in SpansOf(items)
  {
    assert ([p] + items)[1..] == items;
  }

  /** A forced drain empties the list exactly when every pending span has its end time, whatever the calls do. */
  lemma {:induction false} ForcedDrainEmpties(items: seq<Pair>, ended: set<Span>, probe: Event -> Probe)
    ensures Kept(items, ended, true, probe) == [] <==> forall p | p in items :: p.span in ended
    ensures (forall p | p in items :: p.span in ended) ==> Released(items, ended, true, probe) == SpansOf(items)
  {
    if items != [] {
      ForcedDrainEmpties(items[1..], ended, probe);
      assert forall p | p in items :: p == items[0] || p in items[1..];
      assert items[0] in items && forall p | p in items[1..] :: p in items;
    }
  }

  /** What a drain lets go: a finalized span whose reading works or raises, or any finalized one when forced. */
  predicate Goes(p: Pair, ended: set<Span>, force: bool, result: Probe) {
    p.span in ended && (force || result == Ready || result == Fails)
  }

  /** Exactly the other pairs are kept, in their order. */
  ghost predicate KeepsOthers(items: seq<Pair>, kept: seq<Pair>, k: seq<nat>, ended: set<Span>, force: bool,
                              probe: Event -> Probe) {
    && Picks(items, kept, k)
    && forall i | 0 <= i < |items| :: i in k <==> !Goes(items[i], ended, force, probe(items[i].end))
  }

  /** Exactly the spans of those pairs are released, in their order. */
  ghost predicate ReleasesThose(items: seq<Pair>, released: seq<Span>, r: seq<nat>, ended: set<Span>, force: bool,
                                probe: Event -> Probe) {
    && Picks(SpansOf(items), released, r)
    && forall i | 0 <= i < |items| :: i in r <==> Goes(items[i], ended, force, probe(items[i].end))
  }

  lemma KeepsOthersCons(items: seq<Pair>, rest: seq<Pair>, k': seq<nat>, ended: set<Span>, force: bool,
                        probe: Event -> Probe) returns (k: seq<nat>)
    requires items != [] && KeepsOthers(items[1..], rest, k', ended, force, probe)
    ensures KeepsOthers(items, if Stays(items[0], ended, force, probe) then [items[0]] + rest else rest, k,
                        ended, force, probe)
  {
    PicksTail(items, rest, k');
    TailMembers(k');
    hide Picks, Shift;
    assert forall i | 0 < i < |items| :: items[i] == items[1..][i - 1];
    k := if Stays(items[0], ended, force, probe) then [0] + Shift(k') else Shift(k');
  }

  lemma ReleasesThoseCons(items: seq<Pair>, rest: seq<Span>, r': seq<nat>, ended: set<Span>, force: bool,
                          probe: Event -> Probe) returns (r: seq<nat>)
    requires items != [] && ReleasesThose(items[1..], rest, r', ended, force, probe)
    ensures ReleasesThose(items, if Stays(items[0], ended, force, probe) then rest else [items[0].span] + rest, r,
                          ended, force, probe)
  {
    assert SpansOf(items)[1..] == SpansOf(items[1..]);
    PicksTail(SpansOf(items), rest, r');
    TailMembers(r');
    hide Picks, Shift;
    assert forall i | 0 < i < |items| :: items[i] == items[1..][i - 1];
    r := if Stays(items[0], ended, force, probe) then Shift(r') else [0] + Shift(r');
  }

  lemma {:induction false} DrainKeeps(items: seq<Pair>, ended: set<Span>, force: bool, probe: Event -> Probe)
    returns (k: seq<nat>)
    ensures KeepsOthers(items, Kept(items, ended, force, probe), k, ended, force, probe)
  {
    if items == [] {
      k := [];
    } else {
      var k' := DrainKeeps(items[1..], ended, force, probe);
      var rest := Kept(items[1..], ended, force, probe);
      assert [] + rest == rest;
      k := KeepsOthersCons(items, rest, k', ended, force, probe);
    }
  }

  lemma {:induction false} DrainReleases(items: seq<Pair>, ended: set<Span>, force: bool, probe: Event -> Probe)
    returns (r: seq<nat>)
    ensures ReleasesThose(items, Released(items, ended, force, probe), r, ended, force, probe)
  {
    if items == [] {
      r := [];
    } else {
      var r' := DrainReleases(items[1..], ended, force, probe);
      var rest := Released(items[1..], ended, force, probe);
      assert [] + rest == rest;
      r := ReleasesThoseCons(items, rest, r', ended, force, probe);
    }
  }

  /** Where an event is: pooled, or the start of an open span, or half of a span's pending pair. */
  datatype Place = Pooled | StartOf(span: Span) | PairOf(span: Span)

  /** The pooled events are distinct and pooled, and each pair's two events belong to it alone. */
  ghost predicate EventsOk(pool: seq<Event>, pairs: seq<Pair>, at: map<Event, Place>) {
    && |pool| <= EVENT_POOL_CAP && NoDup(pool)
    && (forall e | e in pool :: e in at && at[e] == Pooled)
    && (forall p | p in pairs ::
          p.start != p.end && p.start in at && p.end in at && at[p.start] == at[p.end] == PairOf(p.span))
  }

  /** A released pair's events go back to the pool only when both fit. */
  function Recycle(pool: seq<Event>, p: Pair): seq<Event> {
    if |pool| + 2 <= EVENT_POOL_CAP then pool + [p.start, p.end] else pool
  }

  ghost function Recycled(at: map<Event, Place>, pool: seq<Event>, p: Pair): map<Event, Place> {
    if |pool| + 2 <= EVENT_POOL_CAP then at[p.start := Pooled][p.end := Pooled] else at
  }

  lemma RecycleOk(pool: seq<Event>, pairs: seq<Pair>, k: nat, at: map<Event, Place>)
    requires k < |pairs| && EventsOk(pool, pairs, at) && SpansDistinct(pairs)
    ensures EventsOk(Recycle(pool, pairs[k]), pairs[..k] + pairs[k + 1..], Recycled(at, pool, pairs[k]))
  {
    var p := pairs[k];
    assert p in pairs && p.start !in pool && p.end !in pool;
    forall o | o in pairs[..k] + pairs[k + 1..]
      ensures o in pairs && o.span != p.span
    {
    }
  }

  lemma StartIsNew(pool: seq<Event>, pairs: seq<Pair>, at: map<Event, Place>, e: Event, s: Span)
    requires EventsOk(pool, pairs, at) && e !in at
    ensures EventsOk(pool, pairs, at[e := StartOf(s)])
  {
  }

  ghost predicate SpansDistinct(pairs: seq<Pair>) {
    forall i, j | 0 <= i < j < |pairs| :: pairs[i].span != pairs[j].span
  }

  class CudaPending {
    var items: seq<Pair>
    var pool: seq<Event>
    var ops: nat
    /** Events created so far; the next one is new. */
    var created: nat
    /** The scope stack's side: the open spans with their start event, the ended ones, and what was emitted. */
    var live: map<Span, Option<Event>>
    var ended: set<Span>
    var emitted: seq<Span>
    ghost var at: map<Event, Place>

    /** Each event is in at most one place; the pool is bounded. */
    ghost predicate Events()
      reads this`items, this`pool, this`created, this`live, this`at
    {
      Events'(items)
    }

    /** Each span is open, or pending with its end time set, or emitted with its end time set; never two of these. */
    ghost predicate Spans()
      reads this`items, this`live, this`ended, this`emitted
    {
      && NoDup(SpansOf(items)) && NoDup(emitted)
      && (forall s | s in live :: s !in ended)
      && (forall s | s in SpansOf(items) :: s in ended && s !in emitted)
      && (forall s | s in emitted :: s in ended)
      && (forall s | s in ended :: s in emitted || s in SpansOf(items))
    }

    ghost predicate Valid()
      reads this
    {
      Events() && Spans() && |items| < REAP_BACKSTOP
    }

    constructor ()
      ensures Valid() && items == [] && live == map[] && emitted == []
    {
      items, pool, ops, created, live, ended, emitted, at := [], [], 0, 0, map[], {}, [], map[];
    }

    /** An event is to be had from the pool or by creating one, and recording it works. */
    static predicate Obtains(pool: seq<Event>, outcome: Outcome) {
      outcome == Recorded || (outcome == AllocFails && pool != [])
    }

    /** Pop a pooled event or create one, and record it; a raising call leaves the event to nobody. */
    method TakeEvent(outcome: Outcome) returns (ev: Option<Event>)
      requires Events()
      modifies this`pool, this`created, this`at
      ensures Events() && (ev.Some? ==> ev.value !in at && ev.value < created)
      ensures ev.Some? <==> Obtains(old(pool), outcome)
      ensures if old(pool) != [] then pool + [old(pool)[|old(pool)| - 1]] == old(pool) && created == old(created)
        else pool == [] && created == old(created) + if outcome == AllocFails then 0 else 1
      ensures ev.Some? ==> ev.value == if old(pool) != [] then old(pool)[|old(pool)| - 1] else old(created)
    {
      var e: Event;
      if pool != [] {
        e := pool[|pool| - 1];
        assert e in pool;
        assert forall x | x in pool[..|pool| - 1] :: x in pool && x != e;
        pool, at := pool[..|pool| - 1], at - {e};
      } else if outcome == AllocFails {
        return None;
      } else {
        e, created := created, created + 1;
      }
      ev := if outcome == RecordFails then None else Some(e);
    }

    /** Open a span and record its start event, if that works. */
    method Start(s: Span, outcome: Outcome)
      requires Valid() && s !in live && s !in ended
      modifies this
      ensures Valid() && s in live && live.Keys == old(live).Keys + {s}
      ensures items == old(items) && emitted == old(emitted) && ended == old(ended)
      ensures live == old(live)[s := live[s]] && (live[s].Some? <==> Obtains(old(pool), outcome))
    {
      hide EventsOk, SpansOf;
      var ev := TakeEvent(outcome);
      live := live[s := ev];
      if ev.Some? {
        StartIsNew(pool, items, at, ev.value, s);
        at := at[ev.value := StartOf(s)];
      }
    }

    /** Emit every pair that can be read, or whose reading fails; recycle the events of those that were read. */
    method Drain(force: bool, probe: Event -> Probe) returns (ghost k: seq<nat>, ghost r: seq<nat>)
      requires Events() && Spans()
      modifies this`items, this`pool, this`emitted, this`at
      ensures Events() && Spans()
      ensures items == Kept(old(items), ended, force, probe)
      ensures emitted == old(emitted) + Released(old(items), ended, force, probe)
      ensures Picks(old(items), items, k) && Picks(SpansOf(old(items)), emitted[|old(emitted)|..], r)
      ensures forall i | 0 <= i < |old(items)| ::
        var p := old(items)[i];
        var leaves := p.span in ended && (force || probe(p.end) == Ready || probe(p.end) == Fails);
        (i in k <==> !leaves) && (i in r <==> leaves)
      ensures Recycling(old(pool), pool, old(items), |old(items)|, ended, force, probe)
    {
      hide Kept, Released, EventsOk, SpansOf, Recycling, Picks;
      k := DrainKeeps(items, ended, force, probe);
      r := DrainReleases(items, ended, force, probe);
      assert (emitted + Released(items, ended, force, probe))[|emitted|..] == Released(items, ended, force, probe);
      DrainSplits(items, ended, force, probe);
      ghost var gone := Released(items, ended, force, probe);
      assert NoDup(emitted + gone) by {
        assert forall i, j | 0 <= i < |emitted| && 0 <= j < |gone| :: emitted[i] in emitted && gone[j] in gone;
      }
      DrainItems(force, probe);
    }

    method DrainItems(force: bool, probe: Event -> Probe)
      requires Events() && NoDup(SpansOf(items))
      modifies this`items, this`pool, this`emitted, this`at
      ensures Events()
      ensures items == Kept(old(items), ended, force, probe)
      ensures emitted == old(emitted) + Released(old(items), ended, force, probe)
      ensures Recycling(old(pool), pool, old(items), |old(items)|, ended, force, probe)
    {
      hide Kept, Released, EventsOk, Events', Stays, SpansDistinct, Progress, Recycling, Remains;
      RecyclingStarts(pool, items, ended, force, probe);
      var all := items;
      var keep: seq<Pair> := [];
      ghost var left := all;
      Distinct(all);
      ProgressStarts(all, emitted, ended, force, probe);
      RemainsAll(all);
      for i := 0 to |all|
        invariant items == all && Remains(left, keep, all, i)
        invariant SpansDistinct(left) && Events'(left)
        invariant Progress(all, i, keep, old(emitted), emitted, ended, force, probe)
        invariant Recycling(old(pool), pool, all, i, ended, force, probe)
      {
        var p := all[i];
        ProgressGoes(all, i, keep, old(emitted), emitted, ended, force, probe);
        RemainsStep(left, keep, all, i);
        if Stays(p, ended, force, probe) {
          keep := keep + [p];
          RecyclingStays(old(pool), pool, all, i, ended, force, probe);
        } else {
          LetGo(p, probe, left, |keep|, old(pool), all, i, force);
          left := left[..|keep|] + left[|keep| + 1..];
        }
      }
      ProgressEnds(all, keep, old(emitted), emitted, ended, force, probe);
      RemainsNothing(left, keep, all);
      items := keep;
    }

    /** The pair at `k` of those left leaves: its span is emitted, its events may come back. */
    method LetGo(p: Pair, probe: Event -> Probe, ghost left: seq<Pair>, ghost k: nat, ghost before: seq<Event>,
                 ghost all: seq<Pair>, ghost i: nat, ghost force: bool)
      requires k < |left| && left[k] == p && Events'(left) && SpansDistinct(left)
      requires i < |all| && all[i] == p && Recycling(before, pool, all, i, ended, force, probe)
      requires !Stays(p, ended, force, probe)
      modifies this`pool, this`emitted, this`at
      ensures Events'(left[..k] + left[k + 1..]) && SpansDistinct(left[..k] + left[k + 1..])
      ensures emitted == old(emitted) + [p.span]
      ensures Recycling(before, pool, all, i + 1, ended, force, probe)
    {
      hide EventsOk, Events', Stays, SpansDistinct, Recycling;
      RecyclingGoes(before, pool, all, i, ended, force, probe);
      DistinctCut(left, k);
      Release(p, probe, left, k);
    }

    /** The pair is let go, and its elapsed time was read. */
    static predicate Read(p: Pair, ended: set<Span>, probe: Event -> Probe) {
      p.span in ended && probe(p.end) == Ready
    }

    /** After i pairs: events came back from pairs that were read, and from each of them while two more fitted. */
    static ghost predicate Recycling(before: seq<Event>, pool: seq<Event>, all: seq<Pair>, i: nat, ended: set<Span>,
                                     force: bool, probe: Event -> Probe)
      requires i <= |all|
    {
      && before <= pool
      && (forall e | e in pool[|before|..] ::
            exists j | 0 <= j < i :: Read(all[j], ended, probe) && (e == all[j].start || e == all[j].end))
      && (forall j | 0 <= j < i && Read(all[j], ended, probe) ::
            |pool| > 62 || (all[j].start in pool && all[j].end in pool))
    }

    static lemma RecyclingStarts(pool: seq<Event>, all: seq<Pair>, ended: set<Span>, force: bool, probe: Event -> Probe)
      ensures Recycling(pool, pool, all, 0, ended, force, probe)
    {
    }

    static lemma RecyclingStays(before: seq<Event>, pool: seq<Event>, all: seq<Pair>, i: nat, ended: set<Span>,
                                force: bool, probe: Event -> Probe)
      requires i < |all| && Recycling(before, pool, all, i, ended, force, probe)
      requires Stays(all[i], ended, force, probe)
      ensures Recycling(before, pool, all, i + 1, ended, force, probe)
    {
    }

    static lemma RecyclingGoes(before: seq<Event>, pool: seq<Event>, all: seq<Pair>, i: nat, ended: set<Span>,
                               force: bool, probe: Event -> Probe)
      requires i < |all| && Recycling(before, pool, all, i, ended, force, probe)
      requires !Stays(all[i], ended, force, probe)
      ensures var p := all[i];
        Recycling(before, if probe(p.end) == Ready && |pool| + 2 <= 64 then pool + [p.start, p.end] else pool,
                  all, i + 1, ended, force, probe)
    {
      var p := all[i];
      var after := if probe(p.end) == Ready && |pool| + 2 <= 64 then pool + [p.start, p.end] else pool;
      assert after[|before|..] == pool[|before|..] + after[|pool|..];
    }

    /** After i pairs: what is kept and emitted so far, completed by what the rest will give. */
    static ghost predicate Progress(all: seq<Pair>, i: nat, keep: seq<Pair>, before: seq<Span>, got: seq<Span>,
                                    ended: set<Span>, force: bool, probe: Event -> Probe)
      requires i <= |all|
    {
      && Kept(all, ended, force, probe) == keep + Kept(all[i..], ended, force, probe)
      && before + Released(all, ended, force, probe) == got + Released(all[i..], ended, force, probe)
    }

    static lemma ProgressStarts(all: seq<Pair>, before: seq<Span>, ended: set<Span>, force: bool, probe: Event -> Probe)
      ensures Progress(all, 0, [], before, before, ended, force, probe)
    {
      assert all[0..] == all && [] + Kept(all, ended, force, probe) == Kept(all, ended, force, probe);
    }

    static lemma ProgressGoes(all: seq<Pair>, i: nat, keep: seq<Pair>, before: seq<Span>, got: seq<Span>,
                              ended: set<Span>, force: bool, probe: Event -> Probe)
      requires i < |all| && Progress(all, i, keep, before, got, ended, force, probe)
      ensures if Stays(all[i], ended, force, probe)
              then Progress(all, i + 1, keep + [all[i]], before, got, ended, force, probe)
              else Progress(all, i + 1, keep, before, got + [all[i].span], ended, force, probe)
    {
      assert all[i..][1..] == all[i + 1..];
      var k, r := Kept(all[i + 1..], ended, force, probe), Released(all[i + 1..], ended, force, probe);
      assert [] + k == k && [] + r == r;
      assert keep + ([all[i]] + k) == keep + [all[i]] + k;
      assert got + ([all[i].span] + r) == got + [all[i].span] + r;
    }

    static lemma ProgressEnds(all: seq<Pair>, keep: seq<Pair>, before: seq<Span>, got: seq<Span>,
                              ended: set<Span>, force: bool, probe: Event -> Probe)
      requires Progress(all, |all|, keep, before, got, ended, force, probe)
      ensures keep == Kept(all, ended, force, probe) && got == before + Released(all, ended, force, probe)
    {
      assert keep + [] == keep && got + [] == got;
    }

    /** The pairs kept so far and the ones not looked at. */
    static ghost predicate Remains(left: seq<Pair>, keep: seq<Pair>, all: seq<Pair>, i: nat) {
      i <= |all| && left == keep + all[i..]
    }

    static lemma RemainsAll(all: seq<Pair>)
      ensures Remains(all, [], all, 0)
    {
    }

    static lemma RemainsStep(left: seq<Pair>, keep: seq<Pair>, all: seq<Pair>, i: nat)
      requires i < |all| && Remains(left, keep, all, i)
      ensures |keep| < |left| && left[|keep|] == all[i] && Remains(left, keep + [all[i]], all, i + 1)
      ensures Remains(left[..|keep|] + left[|keep| + 1..], keep, all, i + 1)
    {
    }

    static lemma RemainsNothing(left: seq<Pair>, keep: seq<Pair>, all: seq<Pair>)
      requires Remains(left, keep, all, |all|)
      ensures left == keep
    {
    }

    static lemma DistinctCut(pairs: seq<Pair>, k: nat)
      requires SpansDistinct(pairs) && k < |pairs|
      ensures SpansDistinct(pairs[..k] + pairs[k + 1..])
    {
    }

    static lemma Distinct(pairs: seq<Pair>)
      requires NoDup(SpansOf(pairs))
      ensures SpansDistinct(pairs)
    {
      forall i, j | 0 <= i < j < |pairs|
        ensures pairs[i].span != pairs[j].span
      {
        assert SpansOf(pairs)[i] != SpansOf(pairs)[j];
      }
    }

    ghost predicate Events'(pairs: seq<Pair>)
      reads this`pool, this`created, this`live, this`at
    {
      && EventsOk(pool, pairs, at)
      && (forall e | e in at :: e < created)
      && (forall s | s in live && live[s].Some? :: live[s].value in at && at[live[s].value] == StartOf(s))
    }

    method Release(p: Pair, probe: Event -> Probe, ghost pairs: seq<Pair>, ghost k: nat)
      requires k < |pairs| && pairs[k] == p && Events'(pairs) && SpansDistinct(pairs)
      modifies this`pool, this`emitted, this`at
      ensures Events'(pairs[..k] + pairs[k + 1..]) && emitted == old(emitted) + [p.span]
      ensures pool == if probe(p.end) == Ready && |old(pool)| + 2 <= 64 then old(pool) + [p.start, p.end] else old(pool)
    {
      emitted := emitted + [p.span];
      assert p in pairs;
      if probe(p.end) == Ready {
        RecycleOk(pool, pairs, k, at);
        at := Recycled(at, pool, p);
        pool := Recycle(pool, p);
      }
    }

    /** End an open span the ordinary way: it is emitted at once. */
    method EndNow(s: Span)
      requires Events() && Spans() && s in live
      modifies this`live, this`ended, this`emitted
      ensures Events() && Spans() && live == old(live) - {s} && ended == old(ended) + {s}
      ensures emitted == old(emitted) + [s]
    {
      live, ended, emitted := live - {s}, ended + {s}, emitted + [s];
    }

    /** Queue the pair of a span and stop its clock; should that raise, discard the pair and close as usual. */
    method QueueAndFinalize(s: Span, end: Event, finalizes: bool)
      requires Events() && Spans() && s in live && live[s].Some? && end !in at && end < created
      modifies this`items, this`at, this`live, this`ended, this`emitted
      ensures Events() && Spans() && live == old(live) - {s} && ended == old(ended) + {s}
      ensures |items| <= |old(items)| + 1
      ensures if finalizes then items == old(items) + [Pair(s, old(live)[s].value, end)] && emitted == old(emitted)
        else items == old(items) && emitted == old(emitted) + [s]
    {
      hide SpansOf;
      var pair := Pair(s, live[s].value, end);
      items := items + [pair];
      if finalizes {
        live, ended := live - {s}, ended + {s};
        at := at[pair.start := PairOf(s)][end := PairOf(s)];
        SpansSnoc(old(items), pair);
      } else {
        WithoutLast(old(items), pair);
        items := Without(items, s);
        EndNow(s);
      }
    }

    static lemma SpansSnoc(items: seq<Pair>, p: Pair)
      ensures SpansOf(items + [p]) == SpansOf(items) + [p.span]
      ensures forall s :: s in SpansOf(items + [p]) <==> s in SpansOf(items) || s == p.span
    {
      var a, b := SpansOf(items + [p]), SpansOf(items) + [p.span];
      assert |a| == |b| && forall i | 0 <= i < |a| :: a[i] == b[i];
      assert b[|items|] == p.span;
    }

    /**
     Close a timed span: hold it back if its end event could be recorded, otherwise end it at once. Only then
     may a drain run. Nothing already emitted is taken back, and afterwards fewer than 256 pairs wait.
     */
    method CloseOrDefer(s: Span, outcome: Outcome, finalizes: bool, probe: Event -> Probe)
      returns (ghost queued: seq<Pair>, ghost emittedFirst: seq<Span>)
      requires Valid() && s in live
      modifies this
      ensures Valid() && live == old(live) - {s} && ended == old(ended) + {s} && ops == old(ops) + 1
      ensures if old(live)[s].Some? && Obtains(old(pool), outcome) && finalizes
        then emittedFirst == old(emitted) && |queued| == |old(items)| + 1 && queued[..|old(items)|] == old(items)
          && queued[|old(items)|].span == s && queued[|old(items)|].start == old(live)[s].value
        else emittedFirst == old(emitted) + [s] && queued == old(items)
      ensures Reaped(queued, items, emittedFirst, emitted, ops, ended, probe)
    {
      hide Spans, Events', EventsOk, Reaped;
      StillClosed(s);
      var end: Option<Event> := None;
      if live[s].Some? {
        end := TakeEvent(outcome);
      }
      if end.Some? {
        QueueAndFinalize(s, end.value, finalizes);
      } else {
        EndNow(s);
      }
      queued, emittedFirst := items, emitted;
      Reap(probe);
    }

    /** At 256 pairs all that is finalized goes, at every 32nd close what can be read, else nothing. */
    static ghost predicate Reaped(before: seq<Pair>, after: seq<Pair>, was: seq<Span>, now: seq<Span>, ops: nat,
                                  ended: set<Span>, probe: Event -> Probe) {
      if |before| >= 256 then
        after == Kept(before, ended, true, probe) && now == was + Released(before, ended, true, probe)
      else if ops % 32 == 0 then
        after == Kept(before, ended, false, probe) && now == was + Released(before, ended, false, probe)
      else after == before && now == was
    }

    lemma StillClosed(s: Span)
      requires Spans() && s in live
      ensures s !in ended && s !in SpansOf(items)
    {
    }

    /** Every 32nd close looks at the pairs; 256 waiting pairs force them out. */
    method Reap(probe: Event -> Probe)
      requires Events() && Spans() && |items| <= REAP_BACKSTOP
      modifies this`ops, this`items, this`pool, this`emitted, this`at
      ensures Valid() && ops == old(ops) + 1
      ensures Reaped(old(items), items, old(emitted), emitted, ops, ended, probe)
    {
      hide Events', EventsOk, Kept, Released, Recycling, Picks;
      ops := ops + 1;
      if ShouldReap(ops, |items|) {
        var force := |items| >= REAP_BACKSTOP;
        AllEnded();
        ForcedDrainEmpties(items, ended, probe);
        KeptIsShorter(items, ended, force, probe);
        var _, _ := Drain(force, probe);
      }
    }

    lemma AllEnded()
      requires Spans()
      ensures forall p | p in items :: p.span in ended
    {
      forall p | p in items
        ensures p.span in ended
      {
        var i :| 0 <= i < |items| && items[i] == p;
        assert SpansOf(items)[i] == p.span && p.span in SpansOf(items);
      }
    }

    static lemma {:induction false} KeptIsShorter(items: seq<Pair>, ended: set<Span>,
      force: bool, probe: Event -> Probe)
      ensures |Kept(items, ended, force, probe)| <= |items|
    {
      if items != [] {
        KeptIsShorter(items[1..], ended, force, probe);
      }
    }

    /** Uninstalling: a forced drain leaves nothing pending, even when synchronizing or timing calls fail. */
    method Uninstall(probe: Event -> Probe)
      requires Valid()
      modifies this
      ensures Valid() && items == [] && live == old(live) && ended == old(ended)
      ensures emitted == old(emitted) + SpansOf(old(items))
    {
      AllEnded();
      ForcedDrainEmpties(items, ended, probe);
      var _, _ := Drain(true, probe);
    }
  }
}
