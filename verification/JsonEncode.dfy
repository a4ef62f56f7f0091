/**
 The encoder and its one retry. The interpreter refuses to turn an int of more than a limited number of digits
 into text (4300 unless set otherwise), so the encoder rejects such an int, and the sanitizer lets it through.
 */
module JsonEncode {
  import opened Common
  import opened JsonSafe
  import opened JsonUnfold

  /** An int of more than `limit` digits; no limit is `None`. */
  predicate Long(n: int, limit: Option<nat>) {
    limit.Some? && (n >= Pow10(limit.value) || -n >= Pow10(limit.value))
  }

  /** Keys the strict encoder writes; any other key is a TypeError, or a ValueError for its digits. */
  predicate WritesKey(k: Val, limit: Option<nat>) {
    match k
    case VInt(n) => !Long(n, limit)
    case VFlt(f) => f.Finite?
    case VOther(_) => false
    case VRef(_) => false
    case _ => true
  }

  /** The encoder with non-finite floats forbidden and opaque values defaulted to text. */
  predicate Writes(t: Tree, limit: Option<nat>) {
    match t
    case TInt(n) => !Long(n, limit)
    case TFlt(f) => f.Finite?
    case TList(ts) => forall e | e in ts :: Writes(e, limit)
    case TDict(es) => forall e | e in es :: WritesKey(e.key, limit) && Writes(e.value, limit)
    case _ => true
  }

  /** An over-long int in value position. */
  ghost predicate HasLong(t: Tree, limit: Option<nat>) {
    match t
    case TInt(n) => Long(n, limit)
    case TList(ts) => exists e | e in ts :: HasLong(e, limit)
    case TDict(es) => exists e | e in es :: HasLong(e.value, limit)
    case _ => false
  }

  datatype Outcome = Direct(t: Tree) | Retried(t: Tree) | Rejected

  /**
   `dumps`. `first` is what the encoder walks on the first attempt: nothing when it gives up on a cycle, on
   nesting beyond the interpreter's stack, or because a container changed meanwhile. `still` says that no
   container changes size while the retry reads it, which would make that raise as well.
   */
  function Dumps(h: Heap, str: Val -> string, v: Val, first: Option<Tree>, still: bool, limit: Option<nat>): Outcome {
    if first.Some? && Writes(first.value, limit) then Direct(first.value)
    else if !still then Rejected
    else
      var t := Sanitize(h, str, v);
      if Writes(t, limit) then Retried(t) else Rejected
  }

  /** Of strict JSON the encoder refuses just the over-long ints. */
  lemma {:induction false} StrictWrites(t: Tree, limit: Option<nat>)
    requires Strict(t)
    ensures Writes(t, limit) <==> !HasLong(t, limit)
  {
    match t
    case TList(ts) => forall e | e in ts ensures Writes(e, limit) <==> !HasLong(e, limit) { StrictWrites(e, limit); }
    case TDict(es) =>
      forall e | e in es ensures Writes(e.value, limit) <==> !HasLong(e.value, limit) { StrictWrites(e.value, limit); }
    case _ =>
  }

  // ---------------------------------------------------------------------------------------------
  // Which ints survive the sanitizer, on every heap
  // ---------------------------------------------------------------------------------------------

  /** No later entry has the same key text, so this one is in the sanitized dict. */
  ghost predicate Latest(entries: seq<(Val, Val)>, i: int, str: Val -> string) {
    0 <= i < |entries| && forall j | i < j < |entries| :: str(entries[j].0) != str(entries[i].0)
  }

  /** A value the sanitizer visits and keeps below this container. */
  ghost predicate Child(cell: Cell, str: Val -> string, c: Val) {
    match cell
    case List(elems) => c in elems
    case Dict(entries) => exists i :: Latest(entries, i, str) && entries[i].1 == c
  }

  /** Following the containers of `path` from `v` ends at an over-long int. */
  ghost predicate LongAt(h: Heap, str: Val -> string, v: Val, path: seq<Ref>, limit: Option<nat>)
    decreases |path|
  {
    if path == [] then v.VInt? && Long(v.n, limit)
    else (
      && v == VRef(path[0]) && path[0] in h
      && exists c :: Child(h[path[0]], str, c) && LongAt(h, str, c, path[1..], limit))
  }

  /** A path neither guard of the sanitizer cuts: no container twice, none seen above, few enough. */
  ghost predicate Uncut(path: seq<Ref>, depth: nat, seen: set<Ref>) {
    NoDup(path) && depth + |path| <= MAX_DEPTH && forall r | r in path :: r !in seen
  }

  lemma {:induction false} PutHas(entries: seq<Entry>, k: Val, t: Tree, e: Entry)
    requires DistinctKeys(entries)
    ensures e in Put(entries, k, t) <==> e == Entry(k, t) || (e in entries && e.key != k)
  {
    if entries != [] {
      assert entries == [entries[0]] + entries[1..];
      if entries[0].key != k { PutHas(entries[1..], k, t, e); }
    }
  }

  lemma LatestInit(entries: seq<(Val, Val)>, i: int, str: Val -> string)
    requires entries != []
    ensures var n := |entries| - 1;
      Latest(entries, i, str) <==> i == n || (Latest(entries[..n], i, str) && str(entries[i].0) != str(entries[n].0))
  {
  }

  /** The entries of a sanitized dict: those whose key text does not recur later. */
  lemma {:induction false} SafeDictHas(h: Heap, str: Val -> string, entries: seq<(Val, Val)>, depth: nat,
                                       seen: set<Ref>, e: Entry)
    requires depth <= MAX_DEPTH
    ensures e in SafeDict(h, str, entries, depth, seen) <==>
      exists i :: Latest(entries, i, str)
        && e == Entry(VStr(str(entries[i].0)), Safe(h, str, entries[i].1, depth, seen))
    decreases |entries|
  {
    if entries != [] {
      var n := |entries| - 1;
      var init := SafeDict(h, str, entries[..n], depth, seen);
      SafeDictIsStrict(h, str, entries[..n], depth, seen);
      SafeDictHas(h, str, entries[..n], depth, seen, e);
      PutHas(init, VStr(str(entries[n].0)), Safe(h, str, entries[n].1, depth, seen), e);
      forall i ensures Latest(entries, i, str) <==>
        i == n || (Latest(entries[..n], i, str) && str(entries[i].0) != str(entries[n].0))
      {
        LatestInit(entries, i, str);
      }
    }
  }

  lemma {:induction false} SafeListAt(h: Heap, str: Val -> string, elems: seq<Val>, depth: nat, seen: set<Ref>)
    requires depth <= MAX_DEPTH
    ensures |SafeList(h, str, elems, depth, seen)| == |elems|
    ensures forall i | 0 <= i < |elems| ::
      SafeList(h, str, elems, depth, seen)[i] == Safe(h, str, elems[i], depth, seen)
    decreases |elems|
  {
    if elems != [] { SafeListAt(h, str, elems[1..], depth, seen); }
  }

  lemma SafeListKeeps(h: Heap, str: Val -> string, elems: seq<Val>, depth: nat, seen: set<Ref>, limit: Option<nat>)
    requires depth <= MAX_DEPTH
    ensures HasLong(TList(SafeList(h, str, elems, depth, seen)), limit) <==>
      exists c :: c in elems && HasLong(Safe(h, str, c, depth, seen), limit)
  {
    SafeListAt(h, str, elems, depth, seen);
    var ts := SafeList(h, str, elems, depth, seen);
    if HasLong(TList(ts), limit) {
      var t :| t in ts && HasLong(t, limit);
      var i :| 0 <= i < |ts| && ts[i] == t;
      assert elems[i] in elems;
    }
    if c :| c in elems && HasLong(Safe(h, str, c, depth, seen), limit) {
      var i :| 0 <= i < |elems| && elems[i] == c;
      assert ts[i] in ts;
    }
  }

  /** A container the sanitizer enters keeps an over-long int exactly if one of its children does. */
  lemma SafeCellHas(h: Heap, str: Val -> string, r: Ref, depth: nat, seen: set<Ref>, limit: Option<nat>)
    requires r in h && depth < MAX_DEPTH && r !in seen
    ensures HasLong(Safe(h, str, VRef(r), depth, seen), limit) <==>
      exists c :: Child(h[r], str, c) && HasLong(Safe(h, str, c, depth + 1, seen + {r}), limit)
  {
    var d, seen' := depth + 1, seen + {r};
    match h[r]
    case List(elems) =>
      SafeListKeeps(h, str, elems, d, seen', limit);
      assert forall c :: Child(h[r], str, c) <==> c in elems;
    case Dict(entries) =>
      SafeDictKeeps(h, str, entries, d, seen', limit);
      if i :| Latest(entries, i, str) && HasLong(Safe(h, str, entries[i].1, d, seen'), limit) {
        assert Child(h[r], str, entries[i].1);
      }
      if c :| Child(h[r], str, c) && HasLong(Safe(h, str, c, d, seen'), limit) {
        var i :| Latest(entries, i, str) && entries[i].1 == c;
      }
  }

  lemma SafeDictKeeps(h: Heap, str: Val -> string, entries: seq<(Val, Val)>, depth: nat, seen: set<Ref>,
                      limit: Option<nat>)
    requires depth <= MAX_DEPTH
    ensures HasLong(TDict(SafeDict(h, str, entries, depth, seen)), limit) <==>
      exists i :: Latest(entries, i, str) && HasLong(Safe(h, str, entries[i].1, depth, seen), limit)
  {
    var es := SafeDict(h, str, entries, depth, seen);
    if HasLong(TDict(es), limit) {
      var e :| e in es && HasLong(e.value, limit);
      SafeDictHas(h, str, entries, depth, seen, e);
    }
    if i :| Latest(entries, i, str) && HasLong(Safe(h, str, entries[i].1, depth, seen), limit) {
      var e := Entry(VStr(str(entries[i].0)), Safe(h, str, entries[i].1, depth, seen));
      SafeDictHas(h, str, entries, depth, seen, e);
    }
  }

  lemma {:induction false} LongHasPath(h: Heap, str: Val -> string, v: Val, depth: nat, seen: set<Ref>,
                                       limit: Option<nat>)
    returns (path: seq<Ref>)
    requires depth <= MAX_DEPTH && HasLong(Safe(h, str, v, depth, seen), limit)
    ensures Uncut(path, depth, seen) && LongAt(h, str, v, path, limit)
    decreases MAX_DEPTH - depth
  {
    if v.VRef? {
      SafeCellHas(h, str, v.r, depth, seen, limit);
      var c :| Child(h[v.r], str, c) && HasLong(Safe(h, str, c, depth + 1, seen + {v.r}), limit);
      var rest := LongHasPath(h, str, c, depth + 1, seen + {v.r}, limit);
      path := [v.r] + rest;
      assert path[1..] == rest;
    } else {
      path := [];
    }
  }

  lemma {:induction false} PathIsKept(h: Heap, str: Val -> string, v: Val, depth: nat, seen: set<Ref>,
                                      limit: Option<nat>, path: seq<Ref>)
    requires depth <= MAX_DEPTH && Uncut(path, depth, seen) && LongAt(h, str, v, path, limit)
    ensures HasLong(Safe(h, str, v, depth, seen), limit)
    decreases |path|
  {
    if path != [] {
      var c :| Child(h[path[0]], str, c) && LongAt(h, str, c, path[1..], limit);
      assert path[0] in path;
      assert forall r | r in path[1..] :: r in path && r != path[0];
      PathIsKept(h, str, c, depth + 1, seen + {path[0]}, limit, path[1..]);
      SafeCellHas(h, str, path[0], depth, seen, limit);
    }
  }

  // ---------------------------------------------------------------------------------------------
  // When a value is lost
  // ---------------------------------------------------------------------------------------------

  /** An over-long int is reached through at most 32 containers, none of them twice. */
  ghost predicate LongInReach(h: Heap, str: Val -> string, v: Val, limit: Option<nat>) {
    exists path :: Uncut(path, 0, {}) && LongAt(h, str, v, path, limit)
  }

  /**
   On every heap, cyclic ones included: a value is rejected exactly when the first attempt fails and either a
   container changes under the retry or an over-long int in value position is in the sanitizer's reach. What
   the retry writes is strict and nested at most 32 deep.
   */
  lemma RejectedExactlyWhen(h: Heap, str: Val -> string, v: Val, first: Option<Tree>, still: bool, limit: Option<nat>)
    ensures Dumps(h, str, v, first, still, limit).Rejected? <==>
      (first.None? || !Writes(first.value, limit)) && (!still || LongInReach(h, str, v, limit))
    ensures var r := Dumps(h, str, v, first, still, limit);
      r.Retried? ==> Strict(r.t) && Writes(r.t, limit) && Depth(r.t) <= MAX_DEPTH
  {
    var t := Sanitize(h, str, v);
    SafeIsStrict(h, str, v, 0, {});
    StrictWrites(t, limit);
    if HasLong(t, limit) { var path := LongHasPath(h, str, v, 0, {}, limit); }
    if path :| Uncut(path, 0, {}) && LongAt(h, str, v, path, limit) { PathIsKept(h, str, v, 0, {}, limit, path); }
  }

  ghost predicate ShortInt(v: Val, limit: Option<nat>) { v.VInt? ==> !Long(v.n, limit) }

  /** No container holds an over-long int as an element or a dict value; keys may be any. */
  ghost predicate ShortInts(h: Heap, limit: Option<nat>) {
    forall r | r in h ::
      match h[r]
      case List(elems) => forall c | c in elems :: ShortInt(c, limit)
      case Dict(entries) => forall e | e in entries :: ShortInt(e.1, limit)
  }

  lemma {:induction false} ShortIntsHaveNoPath(h: Heap, str: Val -> string, v: Val, path: seq<Ref>, limit: Option<nat>)
    requires ShortInts(h, limit) && ShortInt(v, limit)
    ensures !LongAt(h, str, v, path, limit)
    decreases |path|
  {
    if path != [] && LongAt(h, str, v, path, limit) {
      var c :| Child(h[path[0]], str, c) && LongAt(h, str, c, path[1..], limit);
      ShortIntsHaveNoPath(h, str, c, path[1..], limit);
    }
  }

  /** The caller's guard: without over-long ints nothing that holds still is ever rejected. */
  lemma ShortIntsAreNeverRejected(h: Heap, str: Val -> string, v: Val, first: Option<Tree>, limit: Option<nat>)
    requires ShortInts(h, limit) && ShortInt(v, limit)
    ensures !Dumps(h, str, v, first, true, limit).Rejected?
  {
    RejectedExactlyWhen(h, str, v, first, true, limit);
    if path :| Uncut(path, 0, {}) && LongAt(h, str, v, path, limit) { ShortIntsHaveNoPath(h, str, v, path, limit); }
  }

  // ---------------------------------------------------------------------------------------------
  // On trees
  // ---------------------------------------------------------------------------------------------

  ghost predicate LatestEntry(es: seq<Entry>, i: int, str: Val -> string) {
    0 <= i < |es| && forall j | i < j < |es| :: str(es[j].key) != str(es[i].key)
  }

  /** An over-long int in value position of an entry that the key text of no later one replaces. */
  ghost predicate KeepsLong(t: Tree, str: Val -> string, limit: Option<nat>)
    decreases t
  {
    match t
    case TInt(n) => Long(n, limit)
    case TList(ts) => exists e | e in ts :: KeepsLong(e, str, limit)
    case TDict(es) => exists i | 0 <= i < |es| :: LatestEntry(es, i, str) && KeepsLong(es[i].value, str, limit)
    case _ => false
  }

  lemma {:induction false} ScrubDictStrict(es: seq<Entry>, str: Val -> string)
    ensures DistinctKeys(ScrubDict(es, str))
    decreases |es|
  {
    if es != [] {
      var n := |es| - 1;
      ScrubDictStrict(es[..n], str);
      PutDistinct(ScrubDict(es[..n], str), VStr(str(es[n].key)), ScrubEntry(es[n], str));
    }
  }

  lemma LatestEntryInit(es: seq<Entry>, i: int, str: Val -> string)
    requires es != []
    ensures var n := |es| - 1;
      LatestEntry(es, i, str) <==> i == n || (LatestEntry(es[..n], i, str) && str(es[i].key) != str(es[n].key))
  {
  }

  lemma {:induction false} ScrubDictHas(es: seq<Entry>, str: Val -> string, e: Entry)
    ensures e in ScrubDict(es, str) <==>
      exists i :: LatestEntry(es, i, str) && e == Entry(VStr(str(es[i].key)), Scrub(es[i].value, str))
    decreases |es|
  {
    if es != [] {
      var n := |es| - 1;
      ScrubDictStrict(es[..n], str);
      ScrubDictHas(es[..n], str, e);
      PutHas(ScrubDict(es[..n], str), VStr(str(es[n].key)), Scrub(es[n].value, str), e);
      forall i ensures LatestEntry(es, i, str) <==>
        i == n || (LatestEntry(es[..n], i, str) && str(es[i].key) != str(es[n].key))
      {
        LatestEntryInit(es, i, str);
      }
    }
  }

  lemma {:induction false} ScrubListAt(ts: seq<Tree>, str: Val -> string)
    ensures |ScrubList(ts, str)| == |ts| && forall i | 0 <= i < |ts| :: ScrubList(ts, str)[i] == Scrub(ts[i], str)
  {
    if ts != [] { ScrubListAt(ts[1..], str); }
  }

  lemma {:induction false} ScrubKeeps(t: Tree, str: Val -> string, limit: Option<nat>)
    ensures HasLong(Scrub(t, str), limit) <==> KeepsLong(t, str, limit)
    decreases t
  {
    match t
    case TList(ts) =>
      ScrubListAt(ts, str);
      var us := ScrubList(ts, str);
      forall i | 0 <= i < |ts| ensures HasLong(us[i], limit) <==> KeepsLong(ts[i], str, limit) {
        ScrubKeeps(ts[i], str, limit);
      }
      assert forall i | 0 <= i < |ts| :: us[i] in us && ts[i] in ts;
    case TDict(es) =>
      forall i | 0 <= i < |es| ensures HasLong(Scrub(es[i].value, str), limit) <==> KeepsLong(es[i].value, str, limit) {
        ScrubKeeps(es[i].value, str, limit);
      }
      ScrubDictKeeps(es, str, limit);
    case _ =>
  }

  lemma ScrubDictKeeps(es: seq<Entry>, str: Val -> string, limit: Option<nat>)
    ensures HasLong(TDict(ScrubDict(es, str)), limit) <==>
      exists i :: LatestEntry(es, i, str) && HasLong(Scrub(es[i].value, str), limit)
  {
    var out := ScrubDict(es, str);
    if HasLong(TDict(out), limit) {
      var e :| e in out && HasLong(e.value, limit);
      ScrubDictHas(es, str, e);
    }
    if i :| LatestEntry(es, i, str) && HasLong(Scrub(es[i].value, str), limit) {
      ScrubDictHas(es, str, Entry(VStr(str(es[i].key)), Scrub(es[i].value, str)));
    }
  }

  /** A value that unfolds to at most 32 levels is rejected exactly when its tree keeps an over-long int. */
  lemma TreeRejectedExactlyWhen(h: Heap, str: Val -> string, v: Val, t: Tree, first: Option<Tree>, limit: Option<nat>)
    requires Unfolds(h, v, t) && Depth(t) <= MAX_DEPTH
    ensures Dumps(h, str, v, first, true, limit).Rejected? <==>
      (first.None? || !Writes(first.value, limit)) && KeepsLong(t, str, limit)
  {
    SafeIsStrict(h, str, v, 0, {});
    StrictWrites(Sanitize(h, str, v), limit);
    SharedContainersUnfold(h, str, v, t);
    ScrubKeeps(t, str, limit);
  }

  /** What a retry writes, when it writes, is the tree itself scrubbed. */
  lemma RetryWritesScrubbed(h: Heap, str: Val -> string, v: Val, t: Tree, first: Option<Tree>, limit: Option<nat>)
    requires Unfolds(h, v, t) && Depth(t) <= MAX_DEPTH
    requires first.None? || !Writes(first.value, limit)
    ensures Dumps(h, str, v, first, true, limit)
         == if KeepsLong(t, str, limit) then Rejected else Retried(Scrub(t, str))
  {
    TreeRejectedExactlyWhen(h, str, v, t, first, limit);
    SharedContainersUnfold(h, str, v, t);
  }

  /** A clean value without over-long ints reads the same whichever attempt wrote it; with one, neither writes. */
  lemma RetryWritesTheSame(h: Heap, str: Val -> string, v: Val, t: Tree, limit: Option<nat>)
    requires Unfolds(h, v, t) && Strict(t) && Depth(t) <= MAX_DEPTH && Honest(str)
    ensures Dumps(h, str, v, Some(t), true, limit) == if HasLong(t, limit) then Rejected else Direct(t)
    ensures Dumps(h, str, v, None, true, limit) == if HasLong(t, limit) then Rejected else Retried(t)
  {
    StrictWrites(t, limit);
    CleanUnchangedUpToLimit(h, str, v, t);
  }

  /**
   The failing input: one attr whose value has a digit too many. It is a clean scalar, so the attrs sanitizer
   passes it by reference, and both attempts refuse it.
   */
  lemma LongAttrIsRejected(h: Heap, str: Val -> string, digits: nat)
    requires 0 in h && h[0] == Dict([(VStr("n"), VInt(Pow10(digits)))])
    ensures CleanScalar(VInt(Pow10(digits)))
    ensures Unfolds(h, VRef(0), TDict([Entry(VStr("n"), TInt(Pow10(digits)))]))
    ensures Dumps(h, str, VRef(0), Some(TDict([Entry(VStr("n"), TInt(Pow10(digits)))])), true, Some(digits)).Rejected?
  {
    var n, limit := Pow10(digits), Some(digits);
    var es := [Entry(VStr("n"), TInt(n))];
    assert es[0] in es && !Writes(es[0].value, limit);
    assert Latest(h[0].entries, 0, str) && h[0].entries[0].1 == VInt(n);
    assert Child(h[0], str, VInt(n));
    assert LongAt(h, str, VInt(n), [0][1..], limit);
    assert LongAt(h, str, VRef(0), [0], limit) && Uncut([0], 0, {});
    RejectedExactlyWhen(h, str, VRef(0), Some(TDict(es)), true, limit);
  }

  /** An over-long int as a key is harmless on the retry, where it becomes text. */
  lemma LongKeyIsHarmless(h: Heap, str: Val -> string, digits: nat)
    requires 0 in h && h[0] == Dict([(VInt(Pow10(digits)), VNull)])
    ensures var t := TDict([Entry(VInt(Pow10(digits)), TNull)]);
      Unfolds(h, VRef(0), t) && Dumps(h, str, VRef(0), Some(t), true, Some(digits)).Retried?
  {
    var es := [Entry(VInt(Pow10(digits)), TNull)];
    var t, limit := TDict(es), Some(digits);
    assert es[0] in es && !WritesKey(es[0].key, limit);
    assert es[1..] == [] && DepthEntry(es[0]) == 0;
    assert Depth(t) == 1 + DepthDict(es) && DepthDict(es) == Max(DepthEntry(es[0]), DepthDict(es[1..]));
    assert !KeepsLong(t, str, limit);
    TreeRejectedExactlyWhen(h, str, VRef(0), t, Some(t), limit);
  }
}
