/**
 What the sanitizer means: on a value whose containers unfold to a finite tree of at most 32
 levels it is a plain map over that tree, however much its containers are shared.
 */
module JsonUnfold {
  import opened Common
  import opened JsonSafe

  /** Value `v` of heap `h` unfolds to `t`. A cyclic value unfolds to no tree. */
  ghost predicate Unfolds(h: Heap, v: Val, t: Tree)
    decreases t
  {
    match t
    case TStr(s) => v == VStr(s)
    case TInt(n) => v == VInt(n)
    case TBool(b) => v == VBool(b)
    case TNull => v == VNull
    case TFlt(f) => v == VFlt(f)
    case TOther(text) => v == VOther(text)
    case TList(ts) =>
      && v.VRef? && v.r in h && h[v.r].List? && |h[v.r].elems| == |ts|
      && forall i | 0 <= i < |ts| :: Unfolds(h, h[v.r].elems[i], ts[i])
    case TDict(es) =>
      && v.VRef? && v.r in h && h[v.r].Dict? && |h[v.r].entries| == |es|
      && forall i | 0 <= i < |es| :: h[v.r].entries[i].0 == es[i].key && Unfolds(h, h[v.r].entries[i].1, es[i].value)
  }

  lemma {:induction false} UnfoldsOnce(h: Heap, v: Val, t: Tree, u: Tree)
    requires Unfolds(h, v, t) && Unfolds(h, v, u)
    ensures t == u
    decreases t
  {
    match t
    case TList(ts) =>
      var elems := h[v.r].elems;
      forall i | 0 <= i < |ts| ensures ts[i] == u.elems[i] { UnfoldsOnce(h, elems[i], ts[i], u.elems[i]); }
      assert ts == u.elems;
    case TDict(es) =>
      var entries := h[v.r].entries;
      forall i | 0 <= i < |es| ensures es[i] == u.entries[i] {
        UnfoldsOnce(h, entries[i].1, es[i].value, u.entries[i].value);
      }
      assert es == u.entries;
    case _ =>
  }

  // ---------------------------------------------------------------------------------------------
  // The map over trees
  // ---------------------------------------------------------------------------------------------

  /** The reference meaning: scalars screened, keys made text, no guard against depth or cycles. */
  function Scrub(t: Tree, str: Val -> string): Tree
    decreases t
  {
    match t
    case TFlt(f) => FiniteOrToken(f, str)
    case TOther(text) => TStr(text)
    case TList(ts) => TList(ScrubList(ts, str))
    case TDict(es) => TDict(ScrubDict(es, str))
    case _ => t
  }

  function ScrubList(ts: seq<Tree>, str: Val -> string): seq<Tree>
    decreases ts
  {
    if ts == [] then [] else [Scrub(ts[0], str)] + ScrubList(ts[1..], str)
  }

  function ScrubDict(es: seq<Entry>, str: Val -> string): seq<Entry>
    decreases es
  {
    if es == [] then []
    else
      var n := |es| - 1;
      assert es[n] in es;
      Put(ScrubDict(es[..n], str), VStr(str(es[n].key)), ScrubEntry(es[n], str))
  }

  function ScrubEntry(e: Entry, str: Val -> string): Tree
    decreases e
  {
    Scrub(e.value, str)
  }

  lemma {:induction false} DepthOfEntry(es: seq<Entry>, i: nat)
    requires i < |es|
    ensures Depth(es[i].value) <= DepthDict(es)
  {
    if i > 0 { DepthOfEntry(es[1..], i - 1); }
  }

  lemma {:induction false} DepthOfInit(es: seq<Entry>)
    requires es != []
    ensures DepthDict(es[..|es| - 1]) <= DepthDict(es)
  {
    if |es| > 1 {
      DepthOfInit(es[1..]);
      assert es[..|es| - 1][1..] == es[1..][..|es[1..]| - 1];
    }
  }

  /** The containers on the path to a value, with the trees they unfold to, all deeper than `d`. */
  ghost predicate PathAbove(h: Heap, path: map<Ref, Tree>, d: nat) {
    forall r | r in path :: Unfolds(h, VRef(r), path[r]) && Depth(path[r]) > d
  }

  lemma PathWithout(h: Heap, path: map<Ref, Tree>, r: Ref, t: Tree)
    requires PathAbove(h, path, Depth(t)) && Unfolds(h, VRef(r), t)
    ensures r !in path
  {
    if r in path { UnfoldsOnce(h, VRef(r), t, path[r]); }
  }

  lemma PathExtended(h: Heap, path: map<Ref, Tree>, r: Ref, t: Tree, d: nat)
    requires PathAbove(h, path, Depth(t)) && Unfolds(h, VRef(r), t) && d < Depth(t)
    ensures PathAbove(h, path[r := t], d)
  {
    hide Unfolds, Depth;
  }

  /**
   Within 32 levels neither guard fires: a container cannot reappear below itself, because it
   unfolds to one tree only and that tree would have to be deeper than itself.
   */
  lemma {:induction false} SafeScrubs(h: Heap, str: Val -> string, v: Val, t: Tree, depth: nat, path: map<Ref, Tree>)
    requires Unfolds(h, v, t) && depth + Depth(t) <= MAX_DEPTH && PathAbove(h, path, Depth(t))
    ensures Safe(h, str, v, depth, path.Keys) == Scrub(t, str)
    decreases t, 1
  {
    if t.TList? || t.TDict? {
      PathWithout(h, path, v.r, t);
      PathExtended(h, path, v.r, t, Depth(t) - 1);
      var below := path[v.r := t];
      assert below.Keys == path.Keys + {v.r};
      hide PathAbove;
      if t.TList? {
        SafeListScrubs(h, str, h[v.r].elems, t.elems, depth + 1, below);
      } else {
        SafeDictScrubs(h, str, h[v.r].entries, t.entries, depth + 1, below);
      }
    }
  }

  lemma {:induction false} SafeListScrubs(h: Heap, str: Val -> string, elems: seq<Val>, ts: seq<Tree>,
    depth: nat, path: map<Ref, Tree>)
    requires |elems| == |ts| && forall i | 0 <= i < |ts| :: Unfolds(h, elems[i], ts[i])
    requires depth + DepthList(ts) <= MAX_DEPTH && PathAbove(h, path, DepthList(ts))
    ensures SafeList(h, str, elems, depth, path.Keys) == ScrubList(ts, str)
    decreases ts, 0
  {
    if ts != [] {
      SafeScrubs(h, str, elems[0], ts[0], depth, path);
      SafeListScrubs(h, str, elems[1..], ts[1..], depth, path);
    }
  }

  lemma {:induction false} SafeDictScrubs(h: Heap, str: Val -> string, entries: seq<(Val, Val)>, es: seq<Entry>,
    depth: nat, path: map<Ref, Tree>)
    requires |entries| == |es|
    requires forall i | 0 <= i < |es| :: entries[i].0 == es[i].key && Unfolds(h, entries[i].1, es[i].value)
    requires depth + DepthDict(es) <= MAX_DEPTH && PathAbove(h, path, DepthDict(es))
    ensures SafeDict(h, str, entries, depth, path.Keys) == ScrubDict(es, str)
    decreases es, 0
  {
    if es != [] {
      var n := |es| - 1;
      DepthOfEntry(es, n);
      DepthOfInit(es);
      EntryScrubs(h, str, entries[n].1, es[n], depth, path);
      SafeDictScrubs(h, str, entries[..n], es[..n], depth, path);
    }
  }

  lemma {:induction false} EntryScrubs(h: Heap, str: Val -> string, v: Val, e: Entry, depth: nat, path: map<Ref, Tree>)
    requires Unfolds(h, v, e.value) && depth + Depth(e.value) <= MAX_DEPTH && PathAbove(h, path, Depth(e.value))
    ensures Safe(h, str, v, depth, path.Keys) == Scrub(e.value, str)
    decreases e, 0
  {
    SafeScrubs(h, str, v, e.value, depth, path);
  }

  /** Shared acyclic containers are unfolded, never degraded to text. */
  lemma SharedContainersUnfold(h: Heap, str: Val -> string, v: Val, t: Tree)
    requires Unfolds(h, v, t) && Depth(t) <= MAX_DEPTH
    ensures Sanitize(h, str, v) == Scrub(t, str)
  {
    var path: map<Ref, Tree> := map[];
    SafeScrubs(h, str, v, t, 0, path);
    assert path.Keys == {};
  }

  // ---------------------------------------------------------------------------------------------
  // Clean values
  // ---------------------------------------------------------------------------------------------

  /** Text converts to itself. */
  ghost predicate Honest(str: Val -> string) {
    forall s :: str(VStr(s)) == s
  }

  lemma {:induction false} PutFresh(entries: seq<Entry>, k: Val, t: Tree)
    requires forall e | e in entries :: e.key != k
    ensures Put(entries, k, t) == entries + [Entry(k, t)]
  {
    if entries != [] { PutFresh(entries[1..], k, t); }
  }

  lemma {:induction false} StrictScrubs(t: Tree, str: Val -> string)
    requires Strict(t) && Honest(str)
    ensures Scrub(t, str) == t
    decreases t, 1
  {
    match t
    case TList(ts) => StrictListScrubs(ts, str);
    case TDict(es) => StrictDictScrubs(es, str);
    case _ =>
  }

  lemma {:induction false} StrictListScrubs(ts: seq<Tree>, str: Val -> string)
    requires (forall e | e in ts :: Strict(e)) && Honest(str)
    ensures ScrubList(ts, str) == ts
    decreases ts, 0
  {
    if ts != [] {
      StrictScrubs(ts[0], str);
      StrictListScrubs(ts[1..], str);
    }
  }

  lemma {:induction false} StrictDictScrubs(es: seq<Entry>, str: Val -> string)
    requires StrictEntries(es) && Honest(str)
    ensures ScrubDict(es, str) == es
    decreases es, 0
  {
    if es != [] {
      var n := |es| - 1;
      assert es[n] in es;
      InitStrict(es);
      StrictDictScrubs(es[..n], str);
      StrictEntryScrubs(es[n], str);
      PutFresh(es[..n], es[n].key, es[n].value);
      assert es[..n] + [es[n]] == es;
      assert Entry(es[n].key, es[n].value) == es[n];
    }
  }

  lemma InitStrict(es: seq<Entry>)
    requires StrictEntries(es) && es != []
    ensures StrictEntries(es[..|es| - 1]) && forall e | e in es[..|es| - 1] :: e.key != es[|es| - 1].key
  {
    var init := es[..|es| - 1];
    assert forall e | e in init :: e in es;
  }

  lemma {:induction false} StrictEntryScrubs(e: Entry, str: Val -> string)
    requires Strict(e.value) && Honest(str)
    ensures Scrub(e.value, str) == e.value
    decreases e, 0
  {
    StrictScrubs(e.value, str);
  }

  /** A clean value comes through unchanged exactly when at most 32 of its containers nest. */
  lemma CleanUnchangedUpToLimit(h: Heap, str: Val -> string, v: Val, t: Tree)
    requires Unfolds(h, v, t) && Strict(t) && Honest(str)
    ensures Sanitize(h, str, v) == t <==> Depth(t) <= MAX_DEPTH
  {
    SafeIsStrict(h, str, v, 0, {});
    if Depth(t) <= MAX_DEPTH {
      SharedContainersUnfold(h, str, v, t);
      StrictScrubs(t, str);
    }
  }

  /** Sanitizing what the sanitizer returned, wherever it is stored, changes nothing. */
  lemma SanitizingTwice(h: Heap, h': Heap, str: Val -> string, v: Val, v': Val)
    requires Unfolds(h', v', Sanitize(h, str, v)) && Honest(str)
    ensures Sanitize(h', str, v') == Sanitize(h, str, v)
  {
    SafeIsStrict(h, str, v, 0, {});
    CleanUnchangedUpToLimit(h', str, v', Sanitize(h, str, v));
  }

  /** A container that holds itself is cut where it comes round again, not at the depth limit. */
  lemma SelfReferenceIsCutAtOnce(h: Heap, str: Val -> string, r: Ref)
    requires r in h && h[r] == List([VRef(r)])
    ensures Sanitize(h, str, VRef(r)) == TList([TStr(str(VRef(r)))])
  {
    var seen: set<Ref> := {} + {r};
    assert Safe(h, str, VRef(r), 1, seen) == TStr(str(VRef(r)));
    assert SafeList(h, str, [], 1, seen) == [];
    assert SafeList(h, str, [VRef(r)], 1, seen)
      == [Safe(h, str, VRef(r), 1, seen)] + SafeList(h, str, [VRef(r)][1..], 1, seen);
  }

  // ---------------------------------------------------------------------------------------------
  // Attrs
  // ---------------------------------------------------------------------------------------------

  datatype Attrs = Same | Copied(entries: seq<Entry>) | Dropped

  predicate CleanScalar(v: Val) {
    match v
    case VFlt(f) => f.Finite?
    case VRef(_) => false
    case VOther(_) => false
    case _ => true
  }

  /** The entry whose finiteness test raises. */
  predicate Explodes(v: Val) {
    v == VFlt(Hostile(true))
  }

  function Rebuilt(h: Heap, str: Val -> string, attrs: seq<(Val, Val)>): seq<Entry> {
    SafeDict(h, str, attrs, 0, {})
  }

  /** The same scalar as a tree. */
  function AsTree(v: Val): Tree
    requires CleanScalar(v)
  {
    match v
    case VStr(s) => TStr(s)
    case VInt(n) => TInt(n)
    case VBool(b) => TBool(b)
    case VFlt(f) => TFlt(f)
    case _ => TNull
  }

  /** Returned by reference exactly when clean; dropped exactly when the first unclean value explodes. */
  method SafeAttrs(h: Heap, str: Val -> string, attrs: seq<(Val, Val)>) returns (result: Attrs)
    ensures result.Same? <==> forall e | e in attrs :: CleanScalar(e.1)
    ensures result.Dropped? <==>
      exists i | 0 <= i < |attrs| :: Explodes(attrs[i].1) && forall j | 0 <= j < i :: CleanScalar(attrs[j].1)
    ensures result.Copied? ==> result.entries == Rebuilt(h, str, attrs)
  {
    for i := 0 to |attrs|
      invariant forall j | 0 <= j < i :: CleanScalar(attrs[j].1)
    {
      var value := attrs[i].1;
      if value.VFlt? {
        if value.f == Hostile(true) { return Dropped; }
        if !value.f.Finite? { return Copied(Rebuilt(h, str, attrs)); }
      } else if value.VRef? || value.VOther? {
        return Copied(Rebuilt(h, str, attrs));
      }
    }
    return Same;
  }

  lemma {:induction false} RebuiltIsStrict(h: Heap, str: Val -> string, attrs: seq<(Val, Val)>)
    ensures StrictEntries(Rebuilt(h, str, attrs)) && DepthDict(Rebuilt(h, str, attrs)) <= MAX_DEPTH
  {
    SafeDictIsStrict(h, str, attrs, 0, {});
  }

  /** The fast path returns what the slow path would have built. */
  lemma {:induction false} FastPathAgrees(h: Heap, str: Val -> string, attrs: seq<(Val, Val)>)
    requires Honest(str) && forall e | e in attrs :: e.0.VStr? && CleanScalar(e.1)
    requires forall i, j | 0 <= i < j < |attrs| :: attrs[i].0 != attrs[j].0
    ensures |Rebuilt(h, str, attrs)| == |attrs|
    ensures forall i | 0 <= i < |attrs| :: Rebuilt(h, str, attrs)[i] == Entry(attrs[i].0, AsTree(attrs[i].1))
  {
    if attrs != [] {
      var n := |attrs| - 1;
      FastPathAgrees(h, str, attrs[..n]);
      var init := Rebuilt(h, str, attrs[..n]);
      assert attrs[n] in attrs;
      assert attrs[n].0 == VStr(attrs[n].0.s);
      forall e | e in init ensures e.key != attrs[n].0 {
        var i :| 0 <= i < |init| && init[i] == e;
        assert e == Entry(attrs[..n][i].0, AsTree(attrs[..n][i].1));
      }
      assert Safe(h, str, attrs[n].1, 0, {}) == AsTree(attrs[n].1);
      PutFresh(init, attrs[n].0, AsTree(attrs[n].1));
    }
  }
}
