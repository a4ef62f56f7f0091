/**
 Filtering a trace by span name: the worklist over parent links that may run in circles.
 */
module TraceFilter {
  import opened Common

  datatype Span = Span(id: Option<string>, parent: Option<string>, name: string)

  type Children = map<string, seq<string>>

  // ---------------------------------------------------------------------------------------------
  // What should be kept
  // ---------------------------------------------------------------------------------------------

  /** Some span with this id has the name, or hangs `k` links below one that has it. */
  ghost predicate Descends(spans: seq<Span>, name: string, id: string, k: nat)
    decreases k
  {
    if k == 0 then exists s :: s in spans && s.id == Some(id) && s.name == name
    else exists s :: s in spans && s.id == Some(id) && s.parent.Some? && Descends(spans, name, s.parent.value, k - 1)
  }

  ghost predicate Reached(spans: seq<Span>, name: string, id: string) {
    exists k: nat :: Descends(spans, name, id, k)
  }

  ghost function Kept(spans: seq<Span>, name: string): set<string> {
    set s | s in spans && s.id.Some? && Reached(spans, name, s.id.value) :: s.id.value
  }

  /** A set holding the named spans and, with a span, its children. */
  ghost predicate Closed(spans: seq<Span>, name: string, c: set<string>) {
    && (forall s | s in spans && s.id.Some? && s.name == name :: s.id.value in c)
    && (forall s | s in spans && s.id.Some? && s.parent.Some? && s.parent.value in c :: s.id.value in c)
  }

  lemma ReachedIsSpan(spans: seq<Span>, name: string, id: string)
    requires Reached(spans, name, id)
    ensures id in Kept(spans, name)
  {
    var k: nat :| Descends(spans, name, id, k);
    var s :| s in spans && s.id == Some(id);
  }

  lemma {:induction false} ClosedHasReached(spans: seq<Span>, name: string, c: set<string>, id: string, k: nat)
    requires Closed(spans, name, c) && Descends(spans, name, id, k)
    ensures id in c
    decreases k
  {
    if k > 0 {
      var s :| s in spans && s.id == Some(id) && s.parent.Some? && Descends(spans, name, s.parent.value, k - 1);
      ClosedHasReached(spans, name, c, s.parent.value, k - 1);
    }
  }

  /** The kept ids are the least closed set, on cyclic links too. */
  lemma KeptIsLeast(spans: seq<Span>, name: string)
    ensures Closed(spans, name, Kept(spans, name))
    ensures forall c: set<string> | Closed(spans, name, c) :: Kept(spans, name) <= c
  {
    var keep := Kept(spans, name);
    forall s | s in spans && s.id.Some? && s.name == name ensures s.id.value in keep {
      assert Descends(spans, name, s.id.value, 0);
    }
    forall s | s in spans && s.id.Some? && s.parent.Some? && s.parent.value in keep ensures s.id.value in keep {
      ChildReached(spans, name, s);
      ReachedIsSpan(spans, name, s.id.value);
    }
    forall c: set<string>, id | Closed(spans, name, c) && id in keep ensures id in c {
      var k: nat :| Descends(spans, name, id, k);
      ClosedHasReached(spans, name, c, id, k);
    }
  }

  lemma ChildReached(spans: seq<Span>, name: string, s: Span)
    requires s in spans && s.id.Some? && s.parent.Some? && Reached(spans, name, s.parent.value)
    ensures Reached(spans, name, s.id.value)
  {
    var k: nat :| Descends(spans, name, s.parent.value, k);
    assert Descends(spans, name, s.id.value, k + 1);
  }

  // ---------------------------------------------------------------------------------------------
  // The worklist
  // ---------------------------------------------------------------------------------------------

  /** The children listed for a parent id are the spans naming it, and nothing else is listed. */
  ghost predicate Lists(children: Children, spans: seq<Span>) {
    && (forall s | s in spans && s.id.Some? && s.parent.Some? ::
          s.parent.value in children && s.id.value in children[s.parent.value])
    && (forall p, c | p in children && c in children[p] :: Spanned(spans, p, c))
  }

  ghost predicate Spanned(spans: seq<Span>, p: string, c: string) {
    exists s :: s in spans && s.id == Some(c) && s.parent == Some(p)
  }

  function Get(children: Children, id: string): seq<string> {
    if id in children then children[id] else []
  }

  lemma ListsStep(children: Children, spans: seq<Span>, s: Span)
    requires Lists(children, spans)
    ensures s.id.Some? && s.parent.Some? ==>
      Lists(children[s.parent.value := Get(children, s.parent.value) + [s.id.value]], spans + [s])
    ensures !(s.id.Some? && s.parent.Some?) ==> Lists(children, spans + [s])
  {
    forall p, c | Spanned(spans, p, c) ensures Spanned(spans + [s], p, c) {
      var t :| t in spans && t.id == Some(c) && t.parent == Some(p);
      assert t in spans + [s];
    }
    if s.id.Some? && s.parent.Some? {
      assert s in spans + [s];
      assert Spanned(spans + [s], s.parent.value, s.id.value);
    }
  }

  method ChildrenOf(spans: seq<Span>) returns (children: Children)
    ensures Lists(children, spans)
  {
    children := map[];
    for i := 0 to |spans|
      invariant Lists(children, spans[..i])
    {
      var s := spans[i];
      ListsStep(children, spans[..i], s);
      assert spans[..i + 1] == spans[..i] + [s];
      if s.id.Some? && s.parent.Some? {
        children := children[s.parent.value := Get(children, s.parent.value) + [s.id.value]];
      }
    }
    assert spans[..|spans|] == spans;
  }

  ghost predicate AllReached(spans: seq<Span>, name: string, keep: set<string>, stack: seq<string>) {
    && (forall x | x in keep :: Reached(spans, name, x))
    && (forall x | x in stack :: Reached(spans, name, x))
  }

  /** The children of everything kept are kept or still on the stack. */
  ghost predicate Frontier(children: Children, keep: set<string>, stack: seq<string>) {
    forall p, c | p in keep && p in children && c in children[p] :: c in keep || c in stack
  }

  lemma PushReached(children: Children, spans: seq<Span>, name: string, id: string)
    requires Lists(children, spans) && Reached(spans, name, id)
    ensures forall c | c in Get(children, id) :: Reached(spans, name, c)
  {
    hide Reached;
    forall c | c in Get(children, id) ensures Reached(spans, name, c) {
      assert Spanned(spans, id, c);
      var s :| s in spans && s.id == Some(c) && s.parent == Some(id);
      ChildReached(spans, name, s);
    }
  }

  lemma ReachedStep(children: Children, spans: seq<Span>, name: string, keep: set<string>,
    stack: seq<string>, id: string)
    requires Lists(children, spans) && AllReached(spans, name, keep, stack + [id])
    ensures AllReached(spans, name, keep, stack)
    ensures AllReached(spans, name, keep + {id}, stack + Get(children, id))
  {
    hide Lists, Reached;
    assert forall x | x in stack :: x in stack + [id];
    assert id in stack + [id];
    PushReached(children, spans, name, id);
  }

  lemma FrontierStep(children: Children, keep: set<string>, stack: seq<string>, id: string)
    requires Frontier(children, keep, stack + [id])
    ensures id in keep ==> Frontier(children, keep, stack)
    ensures Frontier(children, keep + {id}, stack + Get(children, id))
  {
    forall p, c | p in keep + {id} && p in children && c in children[p]
      ensures c in keep + {id} || c in stack + Get(children, id)
    {
      if p in keep { assert c in keep || c in stack + [id]; }
    }
    if id in keep {
      forall p, c | p in keep && p in children && c in children[p] ensures c in keep || c in stack {
        assert c in keep || c in stack + [id];
      }
    }
  }

  lemma StackSpans(spans: seq<Span>, name: string, keep: set<string>, stack: seq<string>)
    requires AllReached(spans, name, keep, stack)
    ensures forall x | x in stack :: x in Kept(spans, name)
  {
    forall x | x in stack ensures x in Kept(spans, name) { ReachedIsSpan(spans, name, x); }
  }

  /** `add_subtree`: each id enters the set once, so a cycle of parent links ends the descent. */
  method AddSubtree(ghost spans: seq<Span>, ghost name: string, children: Children, keep: set<string>, root: string)
    returns (keep': set<string>)
    requires Lists(children, spans) && AllReached(spans, name, keep, [root]) && Frontier(children, keep, [])
    ensures AllReached(spans, name, keep', []) && Frontier(children, keep', [])
    ensures keep <= keep' && root in keep'
  {
    hide Lists, AllReached, Frontier, Kept;
    keep' := keep;
    var stack := [root];
    FrontierGrows(children, keep, root);
    while stack != []
      invariant keep <= keep' && (root in keep' || root in stack)
      invariant AllReached(spans, name, keep', stack) && Frontier(children, keep', stack)
      decreases Kept(spans, name) - keep', |stack|
    {
      var id, rest := stack[|stack| - 1], stack[..|stack| - 1];
      assert stack == rest + [id];
      StackSpans(spans, name, keep', stack);
      ReachedStep(children, spans, name, keep', rest, id);
      FrontierStep(children, keep', rest, id);
      stack := rest;
      if id !in keep' {
        keep' := keep' + {id};
        stack := stack + Get(children, id);
      }
    }
  }

  lemma FrontierGrows(children: Children, keep: set<string>, root: string)
    requires Frontier(children, keep, [])
    ensures Frontier(children, keep, [root])
  {
    assert forall c: string :: c !in [];
  }

  lemma KeepIsKept(children: Children, spans: seq<Span>, name: string, keep: set<string>)
    requires Lists(children, spans) && AllReached(spans, name, keep, []) && Frontier(children, keep, [])
    requires forall s | s in spans && s.id.Some? && s.name == name :: s.id.value in keep
    ensures keep == Kept(spans, name)
  {
    assert Closed(spans, name, keep);
    KeptIsLeast(spans, name);
    forall x | x in keep ensures x in Kept(spans, name) { ReachedIsSpan(spans, name, x); }
  }

  method KeepIds(spans: seq<Span>, name: string) returns (keep: set<string>)
    ensures keep == Kept(spans, name)
  {
    hide Lists, AllReached, Frontier, Kept;
    var children := ChildrenOf(spans);
    keep := {};
    NothingKept(children, spans, name);
    for i := 0 to |spans|
      invariant AllReached(spans, name, keep, []) && Frontier(children, keep, [])
      invariant forall j | 0 <= j < i && spans[j].id.Some? && spans[j].name == name :: spans[j].id.value in keep
    {
      if spans[i].name == name && spans[i].id.Some? {
        NamedIsReached(spans, name, keep, i);
        keep := AddSubtree(spans, name, children, keep, spans[i].id.value);
      }
    }
    KeepIsKept(children, spans, name, keep);
  }

  lemma NothingKept(children: Children, spans: seq<Span>, name: string)
    ensures AllReached(spans, name, {}, []) && Frontier(children, {}, [])
  {}

  lemma NamedIsReached(spans: seq<Span>, name: string, keep: set<string>, i: nat)
    requires i < |spans| && spans[i].id.Some? && spans[i].name == name && AllReached(spans, name, keep, [])
    ensures AllReached(spans, name, keep, [spans[i].id.value])
  {
    assert Descends(spans, name, spans[i].id.value, 0);
  }

  /** `_filter_by_name`: kept spans in their order, and just the other spans' marks dropped. */
  method FilterByName<M>(spans: seq<Span>, marks: map<string, seq<M>>, name: string)
    returns (keptSpans: seq<Span>, keptMarks: map<string, seq<M>>, ghost index: seq<nat>)
    ensures Picks(spans, keptSpans, index)
    ensures forall i | 0 <= i < |spans| ::
      i in index <==> spans[i].id.Some? && spans[i].id.value in Kept(spans, name)
    ensures keptMarks == map id | id in marks && id in Kept(spans, name) :: marks[id]
  {
    var keep := KeepIds(spans, name);
    keptSpans, index := [], [];
    for i := 0 to |spans|
      invariant Picks(spans[..i], keptSpans, index)
      invariant forall j: nat :: j in index <==> j < i && spans[j].id.Some? && spans[j].id.value in keep
    {
      assert spans[..i + 1][..i] == spans[..i];
      PicksInit(spans[..i + 1], keptSpans, index);
      if spans[i].id.Some? && spans[i].id.value in keep {
        keptSpans, index := keptSpans + [spans[i]], index + [i];
      }
    }
    assert spans[..|spans|] == spans;
    keptMarks := map id | id in marks && id in keep :: marks[id];
  }

  /** With unique ids: a span is kept exactly when it has the name or its parent is a kept span. */
  lemma KeptByAncestor(spans: seq<Span>, name: string, s: Span)
    requires forall i, j | 0 <= i < j < |spans| :: spans[i].id.Some? ==> spans[i].id != spans[j].id
    requires s in spans && s.id.Some?
    ensures s.id.value in Kept(spans, name)
      <==> s.name == name || (s.parent.Some? && s.parent.value in Kept(spans, name))
  {
    KeptIsLeast(spans, name);
    if s.id.value in Kept(spans, name) {
      var k: nat :| Descends(spans, name, s.id.value, k);
      var t :| t in spans && t.id == s.id &&
        if k == 0 then t.name == name else t.parent.Some? && Descends(spans, name, t.parent.value, k - 1);
      assert t == s;
      if k > 0 { ReachedIsSpan(spans, name, s.parent.value); }
    }
  }
}
