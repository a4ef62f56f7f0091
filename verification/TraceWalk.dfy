/**
 Building the forest and walking it: every span whose parent chain ends is printed exactly once, at
 its chain depth, and the walk ends even when the links of other spans run in circles.
 */
module TraceWalk {
  import opened Common
  import opened TraceTree

  // ---------------------------------------------------------------------------------------------
  // What building produces
  // ---------------------------------------------------------------------------------------------

  function NodesOf(spans: seq<Span>): Nodes {
    if spans == [] then map[]
    else
      var s := spans[|spans| - 1];
      var rest := NodesOf(spans[..|spans| - 1]);
      if s.id.Some? then rest[s.id.value := s] else rest
  }

  function OrderOf(spans: seq<Span>): seq<string> {
    if spans == [] then []
    else
      var s := spans[|spans| - 1];
      OrderOf(spans[..|spans| - 1]) + if s.id.Some? then [s.id.value] else []
  }

  function ParentOf(nodes: Nodes, id: string): Option<string> {
    if id in nodes then nodes[id].parent else None
  }

  /** Children of `p` in arrival order. */
  function ChildrenIn(nodes: Nodes, order: seq<string>, p: string): seq<string> {
    if order == [] then []
    else
      var id := order[|order| - 1];
      ChildrenIn(nodes, order[..|order| - 1], p) + if ParentOf(nodes, id) == Some(p) then [id] else []
  }

  function RootsIn(nodes: Nodes, order: seq<string>): seq<string> {
    if order == [] then []
    else
      var id := order[|order| - 1];
      RootsIn(nodes, order[..|order| - 1]) + if Present(nodes, ParentOf(nodes, id)) then [] else [id]
  }

  function Built(spans: seq<Span>): Forest {
    var nodes, order := NodesOf(spans), OrderOf(spans);
    Forest(nodes,
           map p | p in nodes :: Sort(nodes, ChildrenIn(nodes, order, p)),
           Sort(nodes, RootsIn(nodes, order)))
  }

  lemma {:induction false} OrderNames(spans: seq<Span>)
    ensures forall id: string :: id in OrderOf(spans) <==> id in NodesOf(spans)
  {
    if spans != [] { OrderNames(spans[..|spans| - 1]); }
  }

  lemma IsLastSnoc(spans: seq<Span>, s: Span, i: nat, id: string)
    ensures s.id == Some(id) ==> IsLast(spans + [s], |spans|, id)
    ensures s.id != Some(id) && IsLast(spans, i, id) ==> IsLast(spans + [s], i, id)
  {
  }

  /** The node of an id is the last span with it; an id that no span has has none. */
  lemma {:induction false} NodesAre(spans: seq<Span>, id: string) returns (i: nat)
    ensures id !in NodesOf(spans) ==> forall j | 0 <= j < |spans| :: spans[j].id != Some(id)
    ensures id in NodesOf(spans) ==> IsLast(spans, i, id) && NodesOf(spans)[id] == spans[i]
  {
    i := 0;
    if spans != [] {
      var n := |spans| - 1;
      var init, s := spans[..n], spans[n];
      assert spans == init + [s];
      i := NodesAre(init, id);
      IsLastSnoc(init, s, i, id);
      if s.id == Some(id) { i := n; }
    }
  }

  ghost predicate IsLast(spans: seq<Span>, i: nat, id: string) {
    i < |spans| && spans[i].id == Some(id) && forall j | i < j < |spans| :: spans[j].id != Some(id)
  }

  /** `build_tree`: index, append each node under its parent or as a root, then sort. */
  method BuildTree(spans: seq<Span>) returns (forest: Forest)
    ensures forest == Built(spans)
  {
    hide Sort, RootsIn, ChildrenIn, NodesOf, OrderOf;
    var nodes, order := Index(spans);
    OrderNames(spans);
    var children, roots := Attach(nodes, order);
    children := SortAll(nodes, children);
    return Forest(nodes, children, Sort(nodes, roots));
  }

  method Index(spans: seq<Span>) returns (nodes: Nodes, order: seq<string>)
    ensures nodes == NodesOf(spans) && order == OrderOf(spans)
  {
    nodes, order := map[], [];
    for i := 0 to |spans|
      invariant nodes == NodesOf(spans[..i]) && order == OrderOf(spans[..i])
    {
      assert spans[..i + 1][..i] == spans[..i];
      if spans[i].id.Some? {
        nodes := nodes[spans[i].id.value := spans[i]];
        order := order + [spans[i].id.value];
      }
    }
    assert spans[..|spans|] == spans;
  }

  function ChildMap(nodes: Nodes, order: seq<string>): map<string, seq<string>> {
    map p | p in nodes :: ChildrenIn(nodes, order, p)
  }

  lemma ChildMapStep(nodes: Nodes, order: seq<string>, i: nat)
    requires i < |order| && order[i] in nodes
    ensures var id := order[i];
      var parent := nodes[id].parent;
      var was := ChildMap(nodes, order[..i]);
      ChildMap(nodes, order[..i + 1]) ==
        if Present(nodes, parent) then was[parent.value := was[parent.value] + [id]] else was
    ensures RootsIn(nodes, order[..i + 1]) ==
      RootsIn(nodes, order[..i]) + if Present(nodes, nodes[order[i]].parent) then [] else [order[i]]
  {
    assert order[..i + 1][..i] == order[..i];
    var id, parent := order[i], nodes[order[i]].parent;
    var was, now := ChildMap(nodes, order[..i]), ChildMap(nodes, order[..i + 1]);
    forall p | p in nodes
      ensures now[p] == if parent == Some(p) then was[p] + [id] else was[p]
    {}
    if Present(nodes, parent) {
      assert now == was[parent.value := was[parent.value] + [id]];
    } else {
      assert now == was;
    }
  }

  method Attach(nodes: Nodes, order: seq<string>) returns (children: map<string, seq<string>>, roots: seq<string>)
    requires forall id | id in order :: id in nodes
    ensures children == ChildMap(nodes, order)
    ensures roots == RootsIn(nodes, order)
  {
    children := map p | p in nodes :: [];
    roots := [];
    for i := 0 to |order|
      invariant children == ChildMap(nodes, order[..i])
      invariant roots == RootsIn(nodes, order[..i])
    {
      ChildMapStep(nodes, order, i);
      var id := order[i];
      var parent := nodes[id].parent;
      if Present(nodes, parent) {
        children := children[parent.value := children[parent.value] + [id]];
      } else {
        roots := roots + [id];
      }
    }
    assert order[..|order|] == order;
  }

  method SortAll(nodes: Nodes, children: map<string, seq<string>>) returns (sorted: map<string, seq<string>>)
    requires children.Keys == nodes.Keys
    ensures sorted == map p | p in nodes :: Sort(nodes, children[p])
  {
    hide Sort;
    sorted := children;
    var todo := nodes.Keys;
    while todo != {}
      invariant todo <= nodes.Keys && sorted.Keys == nodes.Keys
      invariant forall p | p in nodes :: sorted[p] == if p in todo then children[p] else Sort(nodes, children[p])
      decreases todo
    {
      var p :| p in todo;
      sorted := sorted[p := Sort(nodes, sorted[p])];
      todo := todo - {p};
    }
  }

  // ---------------------------------------------------------------------------------------------
  // The shape of the forest when ids are unique
  // ---------------------------------------------------------------------------------------------

  /** Every span sits under its parent when that is present and else among the roots, and only there. */
  ghost predicate Placed(f: Forest) {
    Linked(f) && Ordered(f) && Complete(f)
  }

  ghost predicate Linked(f: Forest) {
    && f.children.Keys == f.nodes.Keys
    && (forall p, c | p in f.nodes && c in f.children[p] :: c in f.nodes && f.nodes[c].parent == Some(p))
    && (forall r | r in f.roots :: r in f.nodes && !Present(f.nodes, f.nodes[r].parent))
  }

  ghost predicate Ordered(f: Forest) {
    && (forall p | p in f.children :: NoDup(f.children[p]) && Sorted(f.nodes, f.children[p]))
    && NoDup(f.roots) && Sorted(f.nodes, f.roots)
  }

  ghost predicate Complete(f: Forest) {
    forall c | c in f.nodes ::
      if Present(f.nodes, f.nodes[c].parent) then
        f.nodes[c].parent.value in f.children && c in f.children[f.nodes[c].parent.value]
      else c in f.roots
  }

  lemma {:induction false} ChildrenAre(nodes: Nodes, order: seq<string>, p: string)
    ensures forall c: string :: c in ChildrenIn(nodes, order, p) <==> c in order && ParentOf(nodes, c) == Some(p)
    ensures NoDup(order) ==> NoDup(ChildrenIn(nodes, order, p))
  {
    if order != [] {
      ChildrenAre(nodes, order[..|order| - 1], p);
    }
  }

  lemma {:induction false} RootsAre(nodes: Nodes, order: seq<string>)
    ensures forall c: string :: c in RootsIn(nodes, order) <==> c in order && !Present(nodes, ParentOf(nodes, c))
    ensures NoDup(order) ==> NoDup(RootsIn(nodes, order))
  {
    if order != [] {
      RootsAre(nodes, order[..|order| - 1]);
    }
  }

  lemma {:induction false} NoDupCounts<T>(s: seq<T>)
    ensures NoDup(s) <==> forall x | x in s :: multiset(s)[x] == 1
  {
    if s != [] {
      var init, x := s[..|s| - 1], s[|s| - 1];
      NoDupCounts(init);
      assert s == init + [x];
      assert multiset(s) == multiset(init) + multiset{x};
      NoDupSnoc(init, x);
      if x !in init {
        assert forall y | y in init :: multiset(s)[y] == multiset(init)[y];
      } else {
        assert x in multiset(init) && multiset(s)[x] > 1;
      }
    }
  }

  lemma NoDupSnoc<T>(s: seq<T>, x: T)
    ensures NoDup(s + [x]) <==> NoDup(s) && x !in s
  {
    if x in s {
      var i :| 0 <= i < |s| && s[i] == x;
      assert (s + [x])[i] == (s + [x])[|s|];
    }
    if NoDup(s + [x]) {
      forall i, j | 0 <= i < j < |s| ensures s[i] != s[j] { assert (s + [x])[i] != (s + [x])[j]; }
    }
  }

  lemma SortKeeps(nodes: Nodes, s: seq<string>)
    ensures Sorted(nodes, Sort(nodes, s)) && (NoDup(s) <==> NoDup(Sort(nodes, s)))
    ensures forall x: string :: x in Sort(nodes, s) <==> x in s
  {
    SortIsStable(nodes, s, 0);
    NoDupCounts(s);
    NoDupCounts(Sort(nodes, s));
    assert forall x: string :: x in Sort(nodes, s) <==> x in multiset(Sort(nodes, s));
    assert forall x: string :: x in s <==> x in multiset(s);
  }

  lemma BuiltIsPlaced(spans: seq<Span>)
    requires NoDup(OrderOf(spans))
    ensures Placed(Built(spans))
  {
    var nodes, order := NodesOf(spans), OrderOf(spans);
    OrderNames(spans);
    RootsAre(nodes, order);
    SortKeeps(nodes, RootsIn(nodes, order));
    forall p | p in nodes
      ensures NoDup(Sort(nodes, ChildrenIn(nodes, order, p))) && Sorted(nodes, Sort(nodes, ChildrenIn(nodes, order, p)))
      ensures forall c: string ::
        c in Sort(nodes, ChildrenIn(nodes, order, p)) <==> c in nodes && nodes[c].parent == Some(p)
    {
      ChildrenAre(nodes, order, p);
      SortKeeps(nodes, ChildrenIn(nodes, order, p));
    }
  }

  // ---------------------------------------------------------------------------------------------
  // The walk
  // ---------------------------------------------------------------------------------------------

  /** One printed line: which span, indented how far. */
  datatype Line = Line(id: string, depth: nat)

  function Room(f: Forest, depth: nat): nat { if depth < |f.nodes| then |f.nodes| - depth else 0 }

  lemma ChildrenAt(f: Forest, id: string, depth: nat)
    requires Placed(f) && At(f.nodes, id, depth)
    ensures id in f.children && NoDup(f.children[id]) && forall c | c in f.children[id] :: At(f.nodes, c, depth + 1)
  {
    hide NoDup, Sorted, Complete;
    assert Linked(f);
    assert id in f.nodes;
    forall c | c in f.children[id] ensures At(f.nodes, c, depth + 1) {
      assert f.nodes[c].parent == Some(id);
    }
  }

  lemma RootsAt(f: Forest)
    requires Placed(f)
    ensures NoDup(f.roots) && forall r | r in f.roots :: At(f.nodes, r, 0)
  {
    hide NoDup, Sorted, Complete;
  }

  lemma ChildOfParent(f: Forest, c: string, p: string)
    requires Placed(f) && c in f.nodes && f.nodes[c].parent == Some(p) && p in f.nodes
    ensures p in f.children && c in f.children[p]
  {
    hide Linked, Ordered;
  }

  lemma RoomShrinks(f: Forest, id: string, depth: nat)
    requires At(f.nodes, id, depth)
    ensures Room(f, depth + 1) < Room(f, depth)
  {
    DepthIsBounded(f.nodes, id, depth);
  }

  /** The lines of one subtree. It terminates because no span is deeper than there are spans. */
  function Walk(f: Forest, id: string, depth: nat): seq<Line>
    requires Placed(f) && At(f.nodes, id, depth)
    decreases Room(f, depth), 0, 0
  {
    RoomShrinks(f, id, depth);
    ChildrenAt(f, id, depth);
    hide Placed, At, Room;
    [Line(id, depth)] + WalkEach(f, f.children[id], depth + 1)
  }

  function WalkEach(f: Forest, ids: seq<string>, depth: nat): seq<Line>
    requires Placed(f) && forall c | c in ids :: At(f.nodes, c, depth)
    decreases Room(f, depth), 1, |ids|
  {
    if ids == [] then [] else Walk(f, ids[0], depth) + WalkEach(f, ids[1..], depth)
  }

  function Lines(f: Forest): seq<Line>
    requires Placed(f)
  {
    RootsAt(f);
    WalkEach(f, f.roots, 0)
  }

  lemma WalkEachStep(f: Forest, ids: seq<string>, i: nat, depth: nat)
    requires Placed(f) && i < |ids| && forall c | c in ids :: At(f.nodes, c, depth)
    ensures WalkEach(f, ids[i..], depth) == Walk(f, ids[i], depth) + WalkEach(f, ids[i + 1..], depth)
  {
    hide Placed, At;
    assert ids[i..][0] == ids[i] && ids[i..][1..] == ids[i + 1..];
  }

  /** The recursive printer, appending to the lines printed so far. */
  method WalkInto(f: Forest, id: string, depth: nat, lines: seq<Line>) returns (out: seq<Line>)
    requires Placed(f) && At(f.nodes, id, depth)
    ensures out == lines + Walk(f, id, depth)
    decreases Room(f, depth)
  {
    hide Placed, At, Room;
    ChildrenAt(f, id, depth);
    var kids := f.children[id];
    out := lines + [Line(id, depth)];
    assert kids[0..] == kids;
    assert Walk(f, id, depth) == [Line(id, depth)] + WalkEach(f, kids, depth + 1);
    ghost var whole := lines + Walk(f, id, depth);
    RoomShrinks(f, id, depth);
    for i := 0 to |kids|
      invariant forall c | c in kids[i..] :: At(f.nodes, c, depth + 1)
      invariant out + WalkEach(f, kids[i..], depth + 1) == whole
    {
      assert kids[i] in kids;
      WalkEachStep(f, kids, i, depth + 1);
      out := WalkInto(f, kids[i], depth + 1, out);
    }
    assert kids[|kids|..] == [];
  }

  lemma AtIsNode(nodes: Nodes, id: string, d: nat)
    requires At(nodes, id, d)
    ensures id in nodes
  {}

  /** The `k`-th ancestor. */
  ghost function Up(nodes: Nodes, id: string, d: nat, k: nat): string
    requires At(nodes, id, d) && k <= d
    decreases k
  {
    if k == 0 then id else Up(nodes, nodes[id].parent.value, d - 1, k - 1)
  }

  lemma {:induction false} UpAt(nodes: Nodes, id: string, d: nat, k: nat)
    requires At(nodes, id, d) && k <= d
    ensures At(nodes, Up(nodes, id, d, k), d - k)
    ensures k < d ==> nodes[Up(nodes, id, d, k)].parent == Some(Up(nodes, id, d, k + 1))
    decreases k
  {
    if k > 0 { UpAt(nodes, nodes[id].parent.value, d - 1, k - 1); }
  }

  /** Line `l` is printed for a descendant of `id`, which is at `depth`, or for `id` itself. */
  ghost predicate Under(nodes: Nodes, l: Line, id: string, depth: nat) {
    l.depth >= depth && At(nodes, l.id, l.depth) && Up(nodes, l.id, l.depth, l.depth - depth) == id
  }

  lemma UnderSelf(nodes: Nodes, id: string, depth: nat)
    requires At(nodes, id, depth)
    ensures Under(nodes, Line(id, depth), id, depth)
  {}

  lemma UnderAt(nodes: Nodes, l: Line, id: string, depth: nat)
    requires Under(nodes, l, id, depth)
    ensures At(nodes, l.id, l.depth)
  {}

  lemma UnderChild(nodes: Nodes, l: Line, c: string, depth: nat)
    requires Under(nodes, l, c, depth + 1)
    ensures c in nodes && nodes[c].parent.Some? && Under(nodes, l, nodes[c].parent.value, depth)
  {
    UpAt(nodes, l.id, l.depth, l.depth - depth - 1);
  }

  lemma ParentOfChild(f: Forest, p: string, c: string)
    requires Placed(f) && p in f.children && c in f.children[p]
    ensures c in f.nodes && f.nodes[c].parent == Some(p)
  {
    hide Ordered, Complete;
  }

  lemma RootOf(f: Forest, r: string)
    requires Placed(f) && At(f.nodes, r, 0)
    ensures r in f.roots
  {
    hide Ordered, Linked;
  }

  /** Each line of a subtree belongs to it, at the depth of its own parent chain. */
  lemma {:induction false} WalkStaysUnder(f: Forest, id: string, depth: nat)
    requires Placed(f) && At(f.nodes, id, depth)
    ensures forall l | l in Walk(f, id, depth) :: Under(f.nodes, l, id, depth)
    decreases Room(f, depth), 0, 0
  {
    hide Placed, Under, At;
    RoomShrinks(f, id, depth);
    UnderSelf(f.nodes, id, depth);
    ChildrenAt(f, id, depth);
    WalkEachStaysUnder(f, f.children[id], depth + 1);
    var below := WalkEach(f, f.children[id], depth + 1);
    forall l | l in below ensures Under(f.nodes, l, id, depth) {
      var c :| c in f.children[id] && Under(f.nodes, l, c, depth + 1);
      UnderChild(f.nodes, l, c, depth);
      ParentOfChild(f, id, c);
    }
  }

  lemma {:induction false} WalkEachStaysUnder(f: Forest, ids: seq<string>, depth: nat)
    requires Placed(f) && forall c | c in ids :: At(f.nodes, c, depth)
    ensures forall l | l in WalkEach(f, ids, depth) :: exists c :: c in ids && Under(f.nodes, l, c, depth)
    decreases Room(f, depth), 1, |ids|
  {
    hide Placed, Under, At;
    if ids != [] {
      WalkStaysUnder(f, ids[0], depth);
      WalkEachStaysUnder(f, ids[1..], depth);
    }
  }

  ghost predicate OncePerSpan(lines: seq<Line>) {
    forall i, j | 0 <= i < j < |lines| :: lines[i].id != lines[j].id
  }

  lemma OnceJoined(a: seq<Line>, b: seq<Line>)
    requires OncePerSpan(a) && OncePerSpan(b)
    requires forall l, m | l in a && m in b :: l.id != m.id
    ensures OncePerSpan(a + b)
  {
    forall i, j | 0 <= i < j < |a + b| ensures (a + b)[i].id != (a + b)[j].id {
      if i < |a| <= j { assert a[i] in a && b[j - |a|] in b; }
    }
  }

  lemma UnderOne(nodes: Nodes, l: Line, m: Line, c: string, e: string, depth: nat)
    requires Under(nodes, l, c, depth) && Under(nodes, m, e, depth) && l.id == m.id
    ensures c == e
  {
    ChainOnce(nodes, nodes[l.id].parent, l.depth, m.depth);
  }

  /** No span is printed twice. */
  lemma {:induction false} WalkOnce(f: Forest, id: string, depth: nat)
    requires Placed(f) && At(f.nodes, id, depth)
    ensures OncePerSpan(Walk(f, id, depth))
    decreases Room(f, depth), 0, 0
  {
    hide Placed;
    RoomShrinks(f, id, depth);
    ChildrenAt(f, id, depth);
    var kids := f.children[id];
    WalkEachOnce(f, kids, depth + 1);
    WalkEachStaysUnder(f, kids, depth + 1);
    forall m | m in WalkEach(f, kids, depth + 1) ensures m.id != id {
      if m.id == id { ChainOnce(f.nodes, f.nodes[id].parent, depth, m.depth); }
    }
    OnceJoined([Line(id, depth)], WalkEach(f, kids, depth + 1));
  }

  lemma {:induction false} WalkEachOnce(f: Forest, ids: seq<string>, depth: nat)
    requires Placed(f) && NoDup(ids) && forall c | c in ids :: At(f.nodes, c, depth)
    ensures OncePerSpan(WalkEach(f, ids, depth))
    decreases Room(f, depth), 1, |ids|
  {
    hide Placed, Under, At;
    if ids != [] {
      var rest := ids[1..];
      WalkOnce(f, ids[0], depth);
      WalkEachOnce(f, rest, depth);
      WalkStaysUnder(f, ids[0], depth);
      WalkEachStaysUnder(f, rest, depth);
      var a, b := Walk(f, ids[0], depth), WalkEach(f, rest, depth);
      forall l, m | l in a && m in b ensures l.id != m.id {
        if l.id == m.id {
          var e :| e in rest && Under(f.nodes, m, e, depth);
          UnderOne(f.nodes, l, m, ids[0], e, depth);
        }
      }
      OnceJoined(a, b);
    }
  }

  lemma {:induction false} WalkEachHas(f: Forest, ids: seq<string>, depth: nat, c: string)
    requires Placed(f) && c in ids && forall x | x in ids :: At(f.nodes, x, depth)
    ensures forall l | l in Walk(f, c, depth) :: l in WalkEach(f, ids, depth)
  {
    hide Placed, At;
    if ids[0] != c { WalkEachHas(f, ids[1..], depth, c); }
  }

  /** A span at depth `d` is printed in the subtree of each of its ancestors. */
  lemma {:induction false} WalkCovers(f: Forest, id: string, d: nat, k: nat)
    requires Placed(f) && At(f.nodes, id, d) && k <= d
    ensures At(f.nodes, Up(f.nodes, id, d, k), d - k) && Line(id, d) in Walk(f, Up(f.nodes, id, d, k), d - k)
    decreases k
  {
    hide Placed, At;
    UpAt(f.nodes, id, d, k);
    if k > 0 {
      var c, p := Up(f.nodes, id, d, k - 1), Up(f.nodes, id, d, k);
      WalkCovers(f, id, d, k - 1);
      UpAt(f.nodes, id, d, k - 1);
      ChildrenAt(f, p, d - k);
      AtIsNode(f.nodes, c, d - k + 1);
      AtIsNode(f.nodes, p, d - k);
      ChildOfParent(f, c, p);
      WalkEachHas(f, f.children[p], d - k + 1, c);
    }
  }

  lemma LinesCover(f: Forest, id: string, d: nat)
    requires Placed(f) && At(f.nodes, id, d)
    ensures Line(id, d) in Lines(f)
  {
    hide Placed;
    RootsAt(f);
    UpAt(f.nodes, id, d, d);
    WalkCovers(f, id, d, d);
    RootOf(f, Up(f.nodes, id, d, d));
    WalkEachHas(f, f.roots, 0, Up(f.nodes, id, d, d));
  }

  /**
   Whatever the parent links: no span is printed twice, and a line is printed exactly for each span
   whose parent chain ends, indented by the length of that chain.
   */
  lemma WalkPrintsExactly(spans: seq<Span>, l: Line)
    requires NoDup(OrderOf(spans))
    ensures Placed(Built(spans)) && OncePerSpan(Lines(Built(spans)))
    ensures l in Lines(Built(spans)) <==> At(NodesOf(spans), l.id, l.depth)
  {
    hide Placed, Under;
    BuiltIsPlaced(spans);
    var f := Built(spans);
    RootsAt(f);
    WalkEachOnce(f, f.roots, 0);
    WalkEachStaysUnder(f, f.roots, 0);
    if l in Lines(f) {
      var c :| c in f.roots && Under(f.nodes, l, c, 0);
      UnderAt(f.nodes, l, c, 0);
    }
    if At(f.nodes, l.id, l.depth) { LinesCover(f, l.id, l.depth); }
  }

  // ---------------------------------------------------------------------------------------------
  // Display order
  // ---------------------------------------------------------------------------------------------

  /** Span `c` comes before span `d` in the list. */
  ghost predicate Arrives(spans: seq<Span>, c: string, d: string) {
    exists a, b :: 0 <= a < b < |spans| && spans[a].id == Some(c) && spans[b].id == Some(d)
  }

  /** Chronological, and in order of arrival where the starts are equal. */
  ghost predicate Displayed(spans: seq<Span>, nodes: Nodes, ids: seq<string>) {
    && Chronological(nodes, ids)
    && forall i, j | 0 <= i < j < |ids| && SameStart(nodes, ids[i], ids[j]) :: Arrives(spans, ids[i], ids[j])
  }

  lemma ArrivesSnoc(spans: seq<Span>, s: Span, c: string, d: string)
    requires Arrives(spans, c, d) || (s.id == Some(d) && exists a :: 0 <= a < |spans| && spans[a].id == Some(c))
    ensures Arrives(spans + [s], c, d)
  {
    var t := spans + [s];
    if Arrives(spans, c, d) {
      var a, b :| 0 <= a < b < |spans| && spans[a].id == Some(c) && spans[b].id == Some(d);
      assert t[a].id == Some(c) && t[b].id == Some(d);
    } else {
      var a :| 0 <= a < |spans| && spans[a].id == Some(c);
      assert t[a].id == Some(c) && t[|spans|].id == Some(d);
    }
  }

  lemma {:induction false} OrderHas(spans: seq<Span>, c: string)
    requires c in OrderOf(spans)
    ensures exists a :: 0 <= a < |spans| && spans[a].id == Some(c)
  {
    var n := |spans| - 1;
    if c in OrderOf(spans[..n]) {
      OrderHas(spans[..n], c);
      var a :| 0 <= a < n && spans[..n][a].id == Some(c);
      assert spans[a].id == Some(c);
    } else {
      assert spans[n].id == Some(c);
    }
  }

  lemma {:induction false} OrderArrives(spans: seq<Span>, i: nat, j: nat)
    requires i < j < |OrderOf(spans)|
    ensures Arrives(spans, OrderOf(spans)[i], OrderOf(spans)[j])
  {
    var n := |spans| - 1;
    var init := OrderOf(spans[..n]);
    assert spans == spans[..n] + [spans[n]];
    if j < |init| {
      OrderArrives(spans[..n], i, j);
    } else {
      assert init[i] in init;
      OrderHas(spans[..n], init[i]);
    }
    ArrivesSnoc(spans[..n], spans[n], OrderOf(spans)[i], OrderOf(spans)[j]);
  }

  /** Choosing from the order keeps it. */
  lemma {:induction false} ChildrenKeepOrder(nodes: Nodes, order: seq<string>, p: string, x: string, y: string)
    requires Before(ChildrenIn(nodes, order, p), x, y)
    ensures Before(order, x, y)
  {
    var n := |order| - 1;
    var init := ChildrenIn(nodes, order[..n], p);
    var all := ChildrenIn(nodes, order, p);
    var a, b :| 0 <= a < b < |all| && all[a] == x && all[b] == y;
    assert order == order[..n] + [order[n]];
    if b < |init| {
      assert init[a] == x && init[b] == y;
      ChildrenKeepOrder(nodes, order[..n], p, x, y);
    } else {
      ChildrenAre(nodes, order[..n], p);
      assert init[a] in init;
    }
    BeforeSnoc(order[..n], order[n], x, y);
  }

  lemma {:induction false} RootsKeepOrder(nodes: Nodes, order: seq<string>, x: string, y: string)
    requires Before(RootsIn(nodes, order), x, y)
    ensures Before(order, x, y)
  {
    var n := |order| - 1;
    var init := RootsIn(nodes, order[..n]);
    var all := RootsIn(nodes, order);
    var a, b :| 0 <= a < b < |all| && all[a] == x && all[b] == y;
    assert order == order[..n] + [order[n]];
    if b < |init| {
      assert init[a] == x && init[b] == y;
      RootsKeepOrder(nodes, order[..n], x, y);
    } else {
      RootsAre(nodes, order[..n]);
      assert init[a] in init;
    }
    BeforeSnoc(order[..n], order[n], x, y);
  }

  lemma OrderBefore(spans: seq<Span>, x: string, y: string)
    requires Before(OrderOf(spans), x, y)
    ensures Arrives(spans, x, y)
  {
    var order := OrderOf(spans);
    var a, b :| 0 <= a < b < |order| && order[a] == x && order[b] == y;
    OrderArrives(spans, a, b);
  }

  /** Children of every node and the roots are in display order. */
  lemma SiblingsInDisplayOrder(spans: seq<Span>)
    ensures var f := Built(spans);
      && Displayed(spans, f.nodes, f.roots)
      && forall p | p in f.nodes :: p in f.children && Displayed(spans, f.nodes, f.children[p])
  {
    var nodes, order := NodesOf(spans), OrderOf(spans);
    RootsDisplayed(spans, nodes, order);
    forall p | p in nodes ensures Displayed(spans, nodes, Sort(nodes, ChildrenIn(nodes, order, p))) {
      ChildrenDisplayed(spans, nodes, order, p);
    }
  }

  lemma ChildrenDisplayed(spans: seq<Span>, nodes: Nodes, order: seq<string>, p: string)
    requires order == OrderOf(spans)
    ensures Displayed(spans, nodes, Sort(nodes, ChildrenIn(nodes, order, p)))
  {
    hide Sort, ChildrenIn, SameStart, OrderOf, Before, Arrives;
    var s := ChildrenIn(nodes, order, p);
    SortIsStable(nodes, s, 0);
    SortedIsChronological(nodes, Sort(nodes, s));
    SortKeepsArrival(nodes, s);
    var r := Sort(nodes, s);
    forall i, j | 0 <= i < j < |r| && SameStart(nodes, r[i], r[j]) ensures Arrives(spans, r[i], r[j]) {
      ChildrenKeepOrder(nodes, order, p, r[i], r[j]);
      OrderBefore(spans, r[i], r[j]);
    }
  }

  lemma RootsDisplayed(spans: seq<Span>, nodes: Nodes, order: seq<string>)
    requires order == OrderOf(spans)
    ensures Displayed(spans, nodes, Sort(nodes, RootsIn(nodes, order)))
  {
    hide Sort, RootsIn, SameStart, OrderOf, Before, Arrives;
    var s := RootsIn(nodes, order);
    SortIsStable(nodes, s, 0);
    SortedIsChronological(nodes, Sort(nodes, s));
    SortKeepsArrival(nodes, s);
    var r := Sort(nodes, s);
    forall i, j | 0 <= i < j < |r| && SameStart(nodes, r[i], r[j]) ensures Arrives(spans, r[i], r[j]) {
      RootsKeepOrder(nodes, order, r[i], r[j]);
      OrderBefore(spans, r[i], r[j]);
    }
  }

  // ---------------------------------------------------------------------------------------------
  // The order of the lines
  // ---------------------------------------------------------------------------------------------

  /** The lines at the front that are indented further than `d`. */
  function Block(lines: seq<Line>, d: nat): seq<Line> {
    if lines == [] || lines[0].depth <= d then [] else [lines[0]] + Block(lines[1..], d)
  }

  /** The spans of the lines indented by just `d`. */
  function Level(lines: seq<Line>, d: nat): seq<string> {
    if lines == [] then [] else (if lines[0].depth == d then [lines[0].id] else []) + Level(lines[1..], d)
  }

  /** Below each line, one level in, come just its children, in display order. */
  ghost predicate Blocks(f: Forest, lines: seq<Line>) {
    forall i | 0 <= i < |lines| :: BlockAt(f, lines, i)
  }

  ghost predicate BlockAt(f: Forest, lines: seq<Line>, i: nat)
    requires i < |lines|
  {
    && lines[i].id in f.children
    && Level(Block(lines[i + 1..], lines[i].depth), lines[i].depth + 1) == f.children[lines[i].id]
  }

  ghost predicate Deep(lines: seq<Line>, d: nat) {
    forall l | l in lines :: l.depth >= d
  }

  lemma {:induction false} BlockJoins(a: seq<Line>, b: seq<Line>, d: nat)
    requires b == [] || b[0].depth <= d
    ensures Block(a + b, d) == Block(a, d)
  {
    if a == [] {
      assert a + b == b;
    } else {
      assert (a + b)[1..] == a[1..] + b;
      BlockJoins(a[1..], b, d);
    }
  }

  lemma {:induction false} BlockWhole(a: seq<Line>, d: nat)
    requires Deep(a, d + 1)
    ensures Block(a, d) == a
  {
    if a != [] {
      assert a[0] in a;
      BlockWhole(a[1..], d);
    }
  }

  lemma {:induction false} LevelJoins(a: seq<Line>, b: seq<Line>, d: nat)
    ensures Level(a + b, d) == Level(a, d) + Level(b, d)
  {
    if a == [] {
      assert a + b == b;
    } else {
      assert (a + b)[1..] == a[1..] + b;
      LevelJoins(a[1..], b, d);
    }
  }

  lemma {:induction false} LevelBelow(a: seq<Line>, d: nat)
    requires Deep(a, d + 1)
    ensures Level(a, d) == []
  {
    if a != [] {
      assert a[0] in a;
      LevelBelow(a[1..], d);
    }
  }

  lemma BlocksJoin(f: Forest, a: seq<Line>, b: seq<Line>, d: nat)
    requires Blocks(f, a) && Blocks(f, b) && Deep(a, d) && (b == [] || b[0].depth == d)
    ensures Blocks(f, a + b)
  {
    var all := a + b;
    forall i | 0 <= i < |all| ensures BlockAt(f, all, i) {
      if i < |a| {
        assert BlockAt(f, a, i) && a[i] in a;
        assert all[i + 1..] == a[i + 1..] + b;
        BlockJoins(a[i + 1..], b, a[i].depth);
      } else {
        assert BlockAt(f, b, i - |a|);
        assert all[i + 1..] == b[i - |a| + 1..];
      }
    }
  }

  lemma BlocksCons(f: Forest, l: Line, below: seq<Line>)
    requires l.id in f.children && Blocks(f, below) && Deep(below, l.depth + 1)
    requires Level(below, l.depth + 1) == f.children[l.id]
    ensures Blocks(f, [l] + below)
  {
    var all := [l] + below;
    BlockWhole(below, l.depth);
    forall i | 0 <= i < |all| ensures BlockAt(f, all, i) {
      if i == 0 {
        assert all[1..] == below;
      } else {
        assert BlockAt(f, below, i - 1);
        assert all[i + 1..] == below[i..];
      }
    }
  }

  lemma {:induction false} WalkBlocks(f: Forest, id: string, depth: nat)
    requires Placed(f) && At(f.nodes, id, depth)
    ensures var lines := Walk(f, id, depth);
      Blocks(f, lines) && Deep(lines, depth) && lines != [] && lines[0].depth == depth && Level(lines, depth) == [id]
    decreases Room(f, depth), 0, 0
  {
    hide Placed, At, Blocks;
    RoomShrinks(f, id, depth);
    ChildrenAt(f, id, depth);
    hide Room;
    var below := WalkEach(f, f.children[id], depth + 1);
    WalkEachBlocks(f, f.children[id], depth + 1);
    BlocksCons(f, Line(id, depth), below);
    LevelBelow(below, depth);
    assert ([Line(id, depth)] + below)[1..] == below;
  }

  lemma {:induction false} WalkEachBlocks(f: Forest, ids: seq<string>, depth: nat)
    requires Placed(f) && forall c | c in ids :: At(f.nodes, c, depth)
    ensures var lines := WalkEach(f, ids, depth);
      && Blocks(f, lines) && Deep(lines, depth) && Level(lines, depth) == ids
      && (lines == [] || lines[0].depth == depth)
    decreases Room(f, depth), 1, |ids|
  {
    hide Placed, At, Blocks;
    if ids == [] {
      NoBlocks(f);
    } else {
      var a, b := Walk(f, ids[0], depth), WalkEach(f, ids[1..], depth);
      WalkBlocks(f, ids[0], depth);
      WalkEachBlocks(f, ids[1..], depth);
      BlocksJoin(f, a, b, depth);
      LevelJoins(a, b, depth);
    }
  }

  lemma NoBlocks(f: Forest)
    ensures Blocks(f, [])
  {
  }

  /**
   The printed order: the unindented lines are the roots in display order, and below each line, one level in,
   come just the children of its span in display order, before the next line indented no further.
   */
  lemma LinesInOrder(spans: seq<Span>)
    requires NoDup(OrderOf(spans))
    ensures Placed(Built(spans))
    ensures Level(Lines(Built(spans)), 0) == Built(spans).roots && Blocks(Built(spans), Lines(Built(spans)))
  {
    hide Placed, Blocks, NoDup;
    BuiltIsPlaced(spans);
    var f := Built(spans);
    RootsAt(f);
    WalkEachBlocks(f, f.roots, 0);
  }

  /** Line `j` is the nearest line before `i` that is indented less, it is one level out, and it shows the parent. */
  ghost predicate ParentLine(f: Forest, lines: seq<Line>, j: int, i: int) {
    && 0 <= j < i < |lines| && lines[j].depth + 1 == lines[i].depth
    && (lines[i].id in f.nodes && f.nodes[lines[i].id].parent == Some(lines[j].id))
    && forall k | j < k < i :: lines[k].depth >= lines[i].depth
  }

  /** Every line indented further than `d` follows its parent's. */
  ghost predicate Nested(f: Forest, lines: seq<Line>, d: nat) {
    forall i | 0 <= i < |lines| && lines[i].depth > d :: exists j :: ParentLine(f, lines, j, i)
  }

  lemma NestedJoin(f: Forest, a: seq<Line>, b: seq<Line>, d: nat)
    requires Nested(f, a, d) && Nested(f, b, d)
    ensures Nested(f, a + b, d)
  {
    var all := a + b;
    forall i | 0 <= i < |all| && all[i].depth > d ensures exists j :: ParentLine(f, all, j, i) {
      if i < |a| {
        var j :| ParentLine(f, a, j, i);
        assert ParentLine(f, all, j, i);
      } else {
        var j :| ParentLine(f, b, j, i - |a|);
        assert forall k | j + |a| < k < i :: all[k] == b[k - |a|];
        assert ParentLine(f, all, j + |a|, i);
      }
    }
  }

  lemma ParentShifts(f: Forest, l: Line, below: seq<Line>, j: int, i: int)
    requires ParentLine(f, below, j, i)
    ensures ParentLine(f, [l] + below, j + 1, i + 1)
  {
    var all := [l] + below;
    forall k | j + 1 < k < i + 1 ensures all[k].depth >= all[i + 1].depth { assert all[k] == below[k - 1]; }
  }

  lemma FirstIsParent(f: Forest, l: Line, below: seq<Line>, i: nat)
    requires i < |below| && Deep(below, l.depth + 1) && below[i].depth == l.depth + 1
    requires below[i].id in f.nodes && f.nodes[below[i].id].parent == Some(l.id)
    ensures ParentLine(f, [l] + below, 0, i + 1)
  {
    var all := [l] + below;
    forall k | 0 < k < i + 1 ensures all[k].depth >= all[i + 1].depth { assert below[k - 1] in below; }
  }

  lemma NestedConsAt(f: Forest, l: Line, below: seq<Line>, i: nat) returns (j: int)
    requires i < |below| && Nested(f, below, l.depth + 1) && Deep(below, l.depth + 1)
    requires below[i].depth == l.depth + 1 ==> below[i].id in f.nodes && f.nodes[below[i].id].parent == Some(l.id)
    ensures ParentLine(f, [l] + below, j, i + 1)
  {
    hide ParentLine;
    assert below[i] in below;
    if below[i].depth == l.depth + 1 {
      FirstIsParent(f, l, below, i);
      j := 0;
    } else {
      var k :| ParentLine(f, below, k, i);
      ParentShifts(f, l, below, k, i);
      j := k + 1;
    }
  }

  lemma NestedCons(f: Forest, l: Line, below: seq<Line>)
    requires Nested(f, below, l.depth + 1) && Deep(below, l.depth + 1)
    requires forall m | m in below && m.depth == l.depth + 1 :: m.id in f.nodes && f.nodes[m.id].parent == Some(l.id)
    ensures Nested(f, [l] + below, l.depth)
  {
    hide ParentLine, Deep;
    var all := [l] + below;
    forall i | 0 <= i < |all| && all[i].depth > l.depth ensures exists j :: ParentLine(f, all, j, i) {
      assert below[i - 1] in below;
      var j := NestedConsAt(f, l, below, i - 1);
    }
  }

  lemma {:induction false} LevelHas(lines: seq<Line>, d: nat, l: Line)
    requires l in lines && l.depth == d
    ensures l.id in Level(lines, d)
  {
    if l != lines[0] { LevelHas(lines[1..], d, l); }
  }

  lemma {:induction false} WalkNests(f: Forest, id: string, depth: nat)
    requires Placed(f) && At(f.nodes, id, depth)
    ensures Nested(f, Walk(f, id, depth), depth)
    decreases Room(f, depth), 0, 0
  {
    hide Placed, At, Nested, Blocks;
    RoomShrinks(f, id, depth);
    ChildrenAt(f, id, depth);
    hide Room;
    var below := WalkEach(f, f.children[id], depth + 1);
    WalkEachNests(f, f.children[id], depth + 1);
    WalkEachBlocks(f, f.children[id], depth + 1);
    forall m | m in below && m.depth == depth + 1 ensures m.id in f.nodes && f.nodes[m.id].parent == Some(id) {
      LevelHas(below, depth + 1, m);
      ParentOfChild(f, id, m.id);
    }
    NestedCons(f, Line(id, depth), below);
  }

  lemma {:induction false} WalkEachNests(f: Forest, ids: seq<string>, depth: nat)
    requires Placed(f) && forall c | c in ids :: At(f.nodes, c, depth)
    ensures Nested(f, WalkEach(f, ids, depth), depth)
    decreases Room(f, depth), 1, |ids|
  {
    hide Placed, At, Nested;
    if ids == [] {
      NothingNests(f, depth);
    } else {
      WalkNests(f, ids[0], depth);
      WalkEachNests(f, ids[1..], depth);
      NestedJoin(f, Walk(f, ids[0], depth), WalkEach(f, ids[1..], depth), depth);
    }
  }

  lemma NothingNests(f: Forest, d: nat)
    ensures Nested(f, [], d)
  {
  }

  /** Every indented line's parent is the nearest earlier line one level out. */
  lemma LinesNest(spans: seq<Span>)
    requires NoDup(OrderOf(spans))
    ensures Placed(Built(spans)) && Nested(Built(spans), Lines(Built(spans)), 0)
  {
    hide Placed, Nested, NoDup;
    BuiltIsPlaced(spans);
    var f := Built(spans);
    RootsAt(f);
    WalkEachNests(f, f.roots, 0);
  }

  // ---------------------------------------------------------------------------------------------
  // Acyclic links
  // ---------------------------------------------------------------------------------------------

  /** Parents come first in some order, as pushing a span below its parent guarantees. */
  ghost predicate Ranked(nodes: Nodes, rank: map<string, nat>) {
    && rank.Keys == nodes.Keys
    && forall id | id in nodes && Present(nodes, nodes[id].parent) :: rank[nodes[id].parent.value] < rank[id]
  }

  lemma {:induction false} RankedHasDepth(nodes: Nodes, rank: map<string, nat>, id: string) returns (d: nat)
    requires Ranked(nodes, rank) && id in nodes
    ensures At(nodes, id, d)
    decreases rank[id]
  {
    if Present(nodes, nodes[id].parent) {
      var above := RankedHasDepth(nodes, rank, nodes[id].parent.value);
      d := above + 1;
    } else {
      d := 0;
    }
  }

  ghost predicate AllPrinted(nodes: Nodes, lines: seq<Line>) {
    forall id | id in nodes :: exists l :: l in lines && l.id == id
  }

  ghost predicate Acyclic(nodes: Nodes) {
    exists rank :: Ranked(nodes, rank)
  }

  lemma AcyclicAllPrinted(f: Forest, rank: map<string, nat>)
    requires Placed(f) && Ranked(f.nodes, rank)
    ensures AllPrinted(f.nodes, Lines(f))
  {
    hide Placed, Ranked, Lines;
    forall id | id in f.nodes ensures exists l :: l in Lines(f) && l.id == id {
      var d := RankedHasDepth(f.nodes, rank, id);
      LinesCover(f, id, d);
      assert Line(id, d).id == id;
    }
  }

  /** All spans are printed exactly when the parent links are acyclic. */
  lemma AllPrintedExactlyWhenAcyclic(spans: seq<Span>)
    requires NoDup(OrderOf(spans))
    ensures Placed(Built(spans))
    ensures AllPrinted(NodesOf(spans), Lines(Built(spans))) <==> Acyclic(NodesOf(spans))
  {
    hide Placed, Ranked, Lines, NoDup;
    BuiltIsPlaced(spans);
    var f := Built(spans);
    if Acyclic(f.nodes) {
      var rank :| Ranked(f.nodes, rank);
      AcyclicAllPrinted(f, rank);
    }
    if AllPrinted(f.nodes, Lines(f)) {
      forall id | id in f.nodes ensures exists d: nat :: At(f.nodes, id, d) {
        var l :| l in Lines(f) && l.id == id;
        WalkPrintsExactly(spans, l);
      }
      DepthsRank(f.nodes);
    }
  }

  lemma DepthsRank(nodes: Nodes)
    requires forall id | id in nodes :: exists d: nat :: At(nodes, id, d)
    ensures exists rank :: Ranked(nodes, rank)
  {
    var rank: map<string, nat> := map id | id in nodes :: DepthIn(nodes, id);
    forall id | id in nodes && Present(nodes, nodes[id].parent)
      ensures rank[nodes[id].parent.value] < rank[id]
    {
      var p := nodes[id].parent.value;
      assert At(nodes, p, rank[id] - 1);
      ChainOnce(nodes, nodes[p].parent, rank[p], rank[id] - 1);
    }
    assert Ranked(nodes, rank);
  }

  ghost function DepthIn(nodes: Nodes, id: string): (d: nat)
    requires exists d: nat :: At(nodes, id, d)
    ensures At(nodes, id, d)
  {
    var d: nat :| At(nodes, id, d);
    d
  }

  /** The depth column: one entry a span, the length of its parent chain if that ends. */
  method FlatDepths(spans: seq<Span>) returns (depths: seq<nat>)
    ensures |depths| == |spans|
    ensures forall i, k: nat | 0 <= i < |spans| && Chain(NodesOf(spans), spans[i].parent, k) :: depths[i] == k
  {
    depths := [];
    for i := 0 to |spans|
      invariant |depths| == i
      invariant forall j, k: nat | 0 <= j < i && Chain(NodesOf(spans), spans[j].parent, k) :: depths[j] == k
    {
      var d := DepthOf(NodesOf(spans), spans[i]);
      depths := depths + [d];
    }
  }

  /** A line's indentation is the depth the flat form reports for its span. */
  lemma IndentIsFlatDepth(spans: seq<Span>, i: nat, l: Line)
    requires NoDup(OrderOf(spans)) && i < |spans| && spans[i].id == Some(l.id)
    ensures Placed(Built(spans))
    ensures l in Lines(Built(spans)) <==> Chain(NodesOf(spans), spans[i].parent, l.depth)
  {
    hide Placed, Lines, NoDup;
    WalkPrintsExactly(spans, l);
    NodeIsSpan(spans, i);
  }

  lemma {:induction false} NodeIsSpan(spans: seq<Span>, i: nat)
    requires NoDup(OrderOf(spans)) && i < |spans| && spans[i].id.Some?
    ensures spans[i].id.value in NodesOf(spans) && NodesOf(spans)[spans[i].id.value] == spans[i]
  {
    var n := |spans| - 1;
    var init := spans[..n];
    assert NoDup(OrderOf(init)) by {
      assert forall k | 0 <= k < |OrderOf(init)| :: OrderOf(spans)[k] == OrderOf(init)[k];
    }
    if i < n {
      NodeIsSpan(init, i);
      OrderNames(init);
      if spans[n].id == spans[i].id {
        NoDupSnoc(OrderOf(init), spans[i].id.value);
      }
    }
  }
}
