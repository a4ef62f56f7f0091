/**
 The span forest: building it from a flat list, walking it as indented text, and the parent-chain
 depth of the flat form.
 */
module TraceTree {
  import opened Common

  datatype Span = Span(id: Option<string>, parent: Option<string>, start: Option<int>)

  type Nodes = map<string, Span>

  /** Nodes by id, with each node's children and the roots in display order. */
  datatype Forest = Forest(nodes: Nodes, children: map<string, seq<string>>, roots: seq<string>)

  // ---------------------------------------------------------------------------------------------
  // Parent chains
  // ---------------------------------------------------------------------------------------------

  predicate Present(nodes: Nodes, id: Option<string>) { id.Some? && id.value in nodes }

  /** Following parents from `cur` passes exactly `k` present spans before it stops. */
  ghost predicate Chain(nodes: Nodes, cur: Option<string>, k: nat)
    decreases k
  {
    if Present(nodes, cur) then k > 0 && Chain(nodes, nodes[cur.value].parent, k - 1) else k == 0
  }

  /** A span at depth `d`: `d` present ancestors, then none. */
  ghost predicate At(nodes: Nodes, id: string, d: nat) {
    id in nodes && Chain(nodes, nodes[id].parent, d)
  }

  lemma {:induction false} ChainOnce(nodes: Nodes, cur: Option<string>, j: nat, k: nat)
    requires Chain(nodes, cur, j) && Chain(nodes, cur, k)
    ensures j == k
    decreases k
  {
    if Present(nodes, cur) { ChainOnce(nodes, nodes[cur.value].parent, j - 1, k - 1); }
  }

  /** The spans on a chain, nearest first. */
  ghost function OnChain(nodes: Nodes, cur: Option<string>, k: nat): set<string>
    requires Chain(nodes, cur, k)
    decreases k
  {
    if k == 0 then {} else {cur.value} + OnChain(nodes, nodes[cur.value].parent, k - 1)
  }

  /** Members of a chain are distinct, because each sits at a depth of its own. */
  lemma {:induction false} ChainIsShort(nodes: Nodes, cur: Option<string>, k: nat)
    requires Chain(nodes, cur, k)
    ensures OnChain(nodes, cur, k) <= nodes.Keys && |OnChain(nodes, cur, k)| == k
    ensures forall x | x in OnChain(nodes, cur, k) :: exists d: nat :: d < k && At(nodes, x, d)
    decreases k
  {
    if k > 0 {
      var id := cur.value;
      var rest := OnChain(nodes, nodes[id].parent, k - 1);
      ChainIsShort(nodes, nodes[id].parent, k - 1);
      assert At(nodes, id, k - 1);
      if id in rest {
        var d: nat :| d < k - 1 && At(nodes, id, d);
        ChainOnce(nodes, nodes[id].parent, d, k - 1);
      }
    }
  }

  /** No span is deeper than there are other spans. */
  lemma DepthIsBounded(nodes: Nodes, id: string, d: nat)
    requires At(nodes, id, d)
    ensures d < |nodes|
  {
    assert Chain(nodes, Some(id), d + 1);
    ChainIsShort(nodes, Some(id), d + 1);
    CardinalityBound(OnChain(nodes, Some(id), d + 1), nodes.Keys);
  }

  lemma {:induction false} CardinalityBound<T>(a: set<T>, b: set<T>)
    requires a <= b
    ensures |a| <= |b|
  {
    if a != {} {
      var x :| x in a;
      CardinalityBound(a - {x}, b - {x});
    }
  }

  /** `depth_of`: the walk up with its guard against cycles. */
  method DepthOf(nodes: Nodes, span: Span) returns (d: nat)
    ensures forall k: nat | Chain(nodes, span.parent, k) :: d == k
    ensures d <= |nodes|
  {
    hide Climbed, Chain;
    d := 0;
    var cur := span.parent;
    var seen: set<string> := {};
    ClimbStart(nodes, cur);
    while cur.Some? && cur.value in nodes && cur.value !in seen
      invariant seen <= nodes.Keys && |seen| == d
      invariant forall k: nat | Chain(nodes, span.parent, k) :: Climbed(nodes, cur, seen, k, d)
      decreases nodes.Keys - seen
    {
      forall k: nat | Chain(nodes, span.parent, k)
        ensures Climbed(nodes, nodes[cur.value].parent, seen + {cur.value}, k, d + 1)
      {
        ClimbStep(nodes, cur, seen, k, d);
      }
      seen := seen + {cur.value};
      d := d + 1;
      cur := nodes[cur.value].parent;
    }
    CardinalityBound(seen, nodes.Keys);
    forall k: nat | Chain(nodes, span.parent, k) ensures d == k { ClimbEnd(nodes, cur, seen, k, d); }
  }

  /** After `d` of `k` steps the rest of the chain is ahead and everything seen is behind. */
  ghost predicate Climbed(nodes: Nodes, cur: Option<string>, seen: set<string>, k: nat, d: nat) {
    && d <= k && Chain(nodes, cur, k - d)
    && forall x | x in seen :: exists j: nat :: Chain(nodes, Some(x), j) && j > k - d
  }

  lemma ClimbStart(nodes: Nodes, cur: Option<string>)
    ensures forall k: nat | Chain(nodes, cur, k) :: Climbed(nodes, cur, {}, k, 0)
  {}

  lemma ClimbStep(nodes: Nodes, cur: Option<string>, seen: set<string>, k: nat, d: nat)
    requires Climbed(nodes, cur, seen, k, d) && Present(nodes, cur)
    ensures Climbed(nodes, nodes[cur.value].parent, seen + {cur.value}, k, d + 1)
  {
    var next := nodes[cur.value].parent;
    assert Chain(nodes, next, k - (d + 1));
    forall x | x in seen + {cur.value} ensures exists j: nat :: Chain(nodes, Some(x), j) && j > k - (d + 1) {
      if x == cur.value { assert Chain(nodes, Some(x), k - d); }
    }
  }

  lemma ClimbEnd(nodes: Nodes, cur: Option<string>, seen: set<string>, k: nat, d: nat)
    requires Climbed(nodes, cur, seen, k, d) && (Present(nodes, cur) ==> cur.value in seen)
    ensures d == k
  {
    if Present(nodes, cur) {
      var j: nat :| Chain(nodes, Some(cur.value), j) && j > k - d;
      ChainOnce(nodes, cur, j, k - d);
    }
  }

  // ---------------------------------------------------------------------------------------------
  // Stable sorting by start time
  // ---------------------------------------------------------------------------------------------

  /** A missing start time sorts as 0. */
  function Key(nodes: Nodes, id: string): int {
    if id in nodes && nodes[id].start.Some? then nodes[id].start.value else 0
  }

  /** Insert behind everything that does not start later. */
  function Insert(nodes: Nodes, s: seq<string>, x: string): seq<string> {
    if s == [] || Key(nodes, s[|s| - 1]) <= Key(nodes, x) then s + [x]
    else Insert(nodes, s[..|s| - 1], x) + [s[|s| - 1]]
  }

  function Sort(nodes: Nodes, s: seq<string>): seq<string> {
    if s == [] then [] else Insert(nodes, Sort(nodes, s[..|s| - 1]), s[|s| - 1])
  }

  ghost predicate Sorted(nodes: Nodes, s: seq<string>) {
    forall i, j | 0 <= i < j < |s| :: Key(nodes, s[i]) <= Key(nodes, s[j])
  }

  /** The entries of `s` starting at `k`, in order. */
  function Ties(nodes: Nodes, s: seq<string>, k: int): seq<string> {
    if s == [] then []
    else Ties(nodes, s[..|s| - 1], k) + if Key(nodes, s[|s| - 1]) == k then [s[|s| - 1]] else []
  }

  lemma {:induction false} InsertAdds(nodes: Nodes, s: seq<string>, x: string)
    ensures multiset(Insert(nodes, s, x)) == multiset(s) + multiset{x}
    ensures forall y | y in Insert(nodes, s, x) :: y == x || y in s
  {
    if s != [] && Key(nodes, s[|s| - 1]) > Key(nodes, x) {
      InsertAdds(nodes, s[..|s| - 1], x);
      assert s == s[..|s| - 1] + [s[|s| - 1]];
    }
  }

  lemma {:induction false} InsertSorts(nodes: Nodes, s: seq<string>, x: string)
    requires Sorted(nodes, s)
    ensures Sorted(nodes, Insert(nodes, s, x))
  {
    if s != [] && Key(nodes, s[|s| - 1]) > Key(nodes, x) {
      var n := |s| - 1;
      SortedInit(nodes, s);
      InsertSorts(nodes, s[..n], x);
      InsertAdds(nodes, s[..n], x);
      hide Sorted;
      InsertBelow(nodes, s, Insert(nodes, s[..n], x), x);
    }
  }

  lemma SortedInit(nodes: Nodes, s: seq<string>)
    requires s != [] && Sorted(nodes, s)
    ensures Sorted(nodes, s[..|s| - 1]) && forall y | y in s[..|s| - 1] :: y in s
  {
  }

  lemma InsertBelow(nodes: Nodes, s: seq<string>, front: seq<string>, x: string)
    requires s != [] && Sorted(nodes, s) && Key(nodes, x) < Key(nodes, s[|s| - 1])
    requires Sorted(nodes, front) && forall y | y in front :: y == x || y in s
    ensures Sorted(nodes, front + [s[|s| - 1]])
  {
    forall i | 0 <= i < |front| ensures Key(nodes, front[i]) <= Key(nodes, s[|s| - 1]) {
      assert front[i] in front;
    }
  }

  lemma {:induction false} InsertTies(nodes: Nodes, s: seq<string>, x: string, k: int)
    requires Sorted(nodes, s)
    ensures Ties(nodes, Insert(nodes, s, x), k) == Ties(nodes, s, k) + if Key(nodes, x) == k then [x] else []
  {
    if s == [] || Key(nodes, s[|s| - 1]) <= Key(nodes, x) {
      assert (s + [x])[..|s|] == s;
    } else {
      var n := |s| - 1;
      var front := Insert(nodes, s[..n], x);
      assert (front + [s[n]])[..|front|] == front;
      InsertTies(nodes, s[..n], x, k);
    }
  }

  /** Sorted, a permutation, and entries with equal start keep their order. */
  lemma {:induction false} SortIsStable(nodes: Nodes, s: seq<string>, k: int)
    ensures Sorted(nodes, Sort(nodes, s)) && multiset(Sort(nodes, s)) == multiset(s)
    ensures Ties(nodes, Sort(nodes, s), k) == Ties(nodes, s, k)
  {
    if s != [] {
      var n := |s| - 1;
      assert s == s[..n] + [s[n]];
      SortIsStable(nodes, s[..n], k);
      InsertSorts(nodes, Sort(nodes, s[..n]), s[n]);
      InsertAdds(nodes, Sort(nodes, s[..n]), s[n]);
      InsertTies(nodes, Sort(nodes, s[..n]), s[n], k);
    }
  }

  // ---------------------------------------------------------------------------------------------
  // Display order, over the start times themselves
  // ---------------------------------------------------------------------------------------------

  /** The first of two siblings does not start later; a missing start counts as 0. */
  ghost predicate NotLater(a: Option<int>, b: Option<int>) {
    && (a.Some? && b.Some? ==> a.value <= b.value)
    && (a.Some? && b.None? ==> a.value <= 0)
    && (a.None? && b.Some? ==> 0 <= b.value)
  }

  ghost predicate Chronological(nodes: Nodes, ids: seq<string>) {
    forall i, j | 0 <= i < j < |ids| && ids[i] in nodes && ids[j] in nodes ::
      NotLater(nodes[ids[i]].start, nodes[ids[j]].start)
  }

  lemma SortedIsChronological(nodes: Nodes, ids: seq<string>)
    requires Sorted(nodes, ids)
    ensures Chronological(nodes, ids)
  {
    forall i, j | 0 <= i < j < |ids| && ids[i] in nodes && ids[j] in nodes
      ensures NotLater(nodes[ids[i]].start, nodes[ids[j]].start)
    {
      assert Key(nodes, ids[i]) <= Key(nodes, ids[j]);
    }
  }

  /** `x` comes before `y` in `s`. */
  ghost predicate Before(s: seq<string>, x: string, y: string) {
    exists a, b :: 0 <= a < b < |s| && s[a] == x && s[b] == y
  }

  /** Neither of two starts is later than the other. */
  ghost predicate SameStart(nodes: Nodes, x: string, y: string) {
    x in nodes && y in nodes && NotLater(nodes[x].start, nodes[y].start) && NotLater(nodes[y].start, nodes[x].start)
  }

  /** Entries of equal start are in the order they have in `s`. */
  ghost predicate StableIn(nodes: Nodes, r: seq<string>, s: seq<string>) {
    forall i, j | 0 <= i < j < |r| && SameStart(nodes, r[i], r[j]) :: Before(s, r[i], r[j])
  }

  lemma BeforeSnoc(s: seq<string>, z: string, x: string, y: string)
    requires Before(s, x, y) || (x in s && y == z)
    ensures Before(s + [z], x, y)
  {
    var t := s + [z];
    if Before(s, x, y) {
      var a, b :| 0 <= a < b < |s| && s[a] == x && s[b] == y;
      assert t[a] == x && t[b] == y;
    } else {
      var a :| 0 <= a < |s| && s[a] == x;
      assert t[a] == x && t[|s|] == y;
    }
  }

  /** Inserting behind everything that does not start later keeps what was in order in order. */
  lemma {:induction false} InsertIsStable(nodes: Nodes, r: seq<string>, x: string, s: seq<string>)
    requires StableIn(nodes, r, s) && forall y | y in r :: y in s
    ensures StableIn(nodes, Insert(nodes, r, x), s + [x])
    ensures forall y | y in Insert(nodes, r, x) :: y == x || y in r
  {
    if r == [] || Key(nodes, r[|r| - 1]) <= Key(nodes, x) {
      forall i, j | 0 <= i < j < |r + [x]| && SameStart(nodes, (r + [x])[i], (r + [x])[j])
        ensures Before(s + [x], (r + [x])[i], (r + [x])[j])
      {
        assert r[i] in r;
        BeforeSnoc(s, x, (r + [x])[i], (r + [x])[j]);
      }
    } else {
      var n := |r| - 1;
      InsertIsStable(nodes, r[..n], x, s);
      InsertBefore(nodes, r, Insert(nodes, r[..n], x), x, s);
    }
  }

  lemma InsertBefore(nodes: Nodes, r: seq<string>, front: seq<string>, x: string, s: seq<string>)
    requires r != [] && Key(nodes, r[|r| - 1]) > Key(nodes, x) && StableIn(nodes, r, s)
    requires StableIn(nodes, front, s + [x]) && forall y | y in front :: y == x || y in r[..|r| - 1]
    ensures StableIn(nodes, front + [r[|r| - 1]], s + [x])
  {
    var n := |r| - 1;
    forall i | 0 <= i < |front| && SameStart(nodes, front[i], r[n]) ensures Before(s + [x], front[i], r[n]) {
      assert front[i] in front;
      SameKey(nodes, front[i], r[n]);
      var k :| 0 <= k < n && r[..n][k] == front[i];
      assert SameStart(nodes, r[k], r[n]);
      BeforeSnoc(s, x, front[i], r[n]);
    }
  }

  lemma SameKey(nodes: Nodes, x: string, y: string)
    requires SameStart(nodes, x, y)
    ensures Key(nodes, x) == Key(nodes, y)
  {
  }

  /** Sorting is chronological, and siblings of equal start stay in arrival order. */
  lemma {:induction false} SortKeepsArrival(nodes: Nodes, s: seq<string>)
    ensures StableIn(nodes, Sort(nodes, s), s) && forall y | y in Sort(nodes, s) :: y in s
  {
    if s != [] {
      var n := |s| - 1;
      SortKeepsArrival(nodes, s[..n]);
      InsertIsStable(nodes, Sort(nodes, s[..n]), s[n], s[..n]);
      assert s == s[..n] + [s[n]];
    }
  }
}
