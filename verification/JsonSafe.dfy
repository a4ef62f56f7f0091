/**
 The strict-JSON sanitizer over a heap of Python containers that may be shared or cyclic.

 `str` stands for the text conversion that never raises.
 */
module JsonSafe {
  import opened Common

  const MAX_DEPTH: nat := 32

  type Ref = nat

  /**
   A float. `Hostile` is a float subclass that cannot be classified: either the finiteness test
   itself raises, or it denies finiteness and the comparisons that follow raise.
   */
  datatype Flt = Finite(r: real) | PosInf | NegInf | NaN | Hostile(isfiniteRaises: bool)

  /** A Python value; dicts, lists and tuples are named by identity. */
  datatype Val =
    | VStr(s: string) | VInt(n: int) | VBool(b: bool) | VNull | VFlt(f: Flt)
    | VRef(r: Ref)
    | VOther(text: string)

  datatype Cell = Dict(entries: seq<(Val, Val)>) | List(elems: seq<Val>)

  type Heap = map<Ref, Cell>

  /** What a value looks like when its containers are unfolded. Dict keys stay raw values. */
  datatype Tree =
    | TStr(s: string) | TInt(n: int) | TBool(b: bool) | TNull | TFlt(f: Flt)
    | TList(elems: seq<Tree>) | TDict(entries: seq<Entry>)
    | TOther(text: string)

  datatype Entry = Entry(key: Val, value: Tree)

  function NonfiniteToken(f: Flt): Option<string> {
    match f
    case NaN => Some("nan")
    case PosInf => Some("inf")
    case NegInf => Some("-inf")
    case _ => None
  }

  /** No token means "finite" or "cannot tell"; only a float known to be finite passes. */
  function FiniteOrToken(f: Flt, str: Val -> string): Tree {
    if f.Finite? then TFlt(f)
    else match NonfiniteToken(f)
      case Some(token) => TStr(token)
      case None => TStr(str(VFlt(f)))
  }

  function Scalar(v: Val, str: Val -> string): Tree {
    match v
    case VStr(s) => TStr(s)
    case VInt(n) => TInt(n)
    case VBool(b) => TBool(b)
    case VNull => TNull
    case VFlt(f) => FiniteOrToken(f, str)
    case VOther(text) => TStr(text)
    case VRef(_) => TStr(str(v))
  }

  /** Insertion into a dict: a repeated key keeps its place and takes the later value. */
  function Put(entries: seq<Entry>, k: Val, t: Tree): seq<Entry> {
    if entries == [] then [Entry(k, t)]
    else if entries[0].key == k then [Entry(k, t)] + entries[1..]
    else [entries[0]] + Put(entries[1..], k, t)
  }

  /** The sanitizer. It recurses through the heap, so only the two guards bound it on a cycle. */
  function Safe(h: Heap, str: Val -> string, v: Val, depth: nat, seen: set<Ref>): Tree
    requires depth <= MAX_DEPTH
    decreases MAX_DEPTH - depth, 0, 0
  {
    if v.VRef? && v.r in h then
      if depth >= MAX_DEPTH || v.r in seen then TStr(str(v))
      else match h[v.r]
        case List(elems) => TList(SafeList(h, str, elems, depth + 1, seen + {v.r}))
        case Dict(entries) => TDict(SafeDict(h, str, entries, depth + 1, seen + {v.r}))
    else Scalar(v, str)
  }

  function SafeList(h: Heap, str: Val -> string, elems: seq<Val>, depth: nat, seen: set<Ref>): seq<Tree>
    requires depth <= MAX_DEPTH
    decreases MAX_DEPTH - depth, 1, |elems|
  {
    if elems == [] then []
    else [Safe(h, str, elems[0], depth, seen)] + SafeList(h, str, elems[1..], depth, seen)
  }

  /** A dict comprehension inserts front to back, so the last entry goes in last. */
  function SafeDict(h: Heap, str: Val -> string, entries: seq<(Val, Val)>, depth: nat, seen: set<Ref>): seq<Entry>
    requires depth <= MAX_DEPTH
    decreases MAX_DEPTH - depth, 1, |entries|
  {
    if entries == [] then []
    else
      var n := |entries| - 1;
      Put(SafeDict(h, str, entries[..n], depth, seen), VStr(str(entries[n].0)), Safe(h, str, entries[n].1, depth, seen))
  }

  function Sanitize(h: Heap, str: Val -> string, v: Val): Tree {
    Safe(h, str, v, 0, {})
  }

  // ---------------------------------------------------------------------------------------------
  // What comes out
  // ---------------------------------------------------------------------------------------------

  ghost predicate DistinctKeys(entries: seq<Entry>) {
    forall i, j | 0 <= i < j < |entries| :: entries[i].key != entries[j].key
  }

  /** Strict JSON: finite numbers, string names that occur once, nothing opaque. */
  ghost predicate Strict(t: Tree) {
    match t
    case TFlt(f) => f.Finite?
    case TOther(_) => false
    case TList(elems) => forall e | e in elems :: Strict(e)
    case TDict(entries) => DistinctKeys(entries) && forall e | e in entries :: e.key.VStr? && Strict(e.value)
    case _ => true
  }

  ghost predicate StrictEntries(entries: seq<Entry>) {
    DistinctKeys(entries) && forall e | e in entries :: e.key.VStr? && Strict(e.value)
  }

  function Max(a: nat, b: nat): nat { if a < b then b else a }

  /** The number of containers nested in each other. */
  function Depth(t: Tree): nat
    decreases t, 0
  {
    match t
    case TList(elems) => 1 + DepthList(elems)
    case TDict(entries) => 1 + DepthDict(entries)
    case _ => 0
  }

  function DepthList(elems: seq<Tree>): nat
    decreases elems, 1
  {
    if elems == [] then 0 else Max(Depth(elems[0]), DepthList(elems[1..]))
  }

  function DepthDict(entries: seq<Entry>): nat
    decreases entries, 1
  {
    if entries == [] then 0 else Max(DepthEntry(entries[0]), DepthDict(entries[1..]))
  }

  function DepthEntry(e: Entry): nat
    decreases e, 1
  {
    Depth(e.value)
  }

  lemma {:induction false} PutMembers(entries: seq<Entry>, k: Val, t: Tree)
    ensures forall e | e in Put(entries, k, t) :: e == Entry(k, t) || e in entries
  {
    if entries != [] { PutMembers(entries[1..], k, t); }
  }

  lemma {:induction false} PutDistinct(entries: seq<Entry>, k: Val, t: Tree)
    requires DistinctKeys(entries)
    ensures DistinctKeys(Put(entries, k, t))
  {
    if entries != [] {
      var rest := entries[1..];
      assert DistinctKeys(rest);
      PutDistinct(rest, k, t);
      PutMembers(rest, k, t);
      var p := Put(rest, k, t);
      if entries[0].key != k {
        forall j | 0 <= j < |p| ensures p[j].key != entries[0].key {
          assert p[j] in p;
          assert forall o | o in rest :: o.key != entries[0].key;
        }
      }
    }
  }

  lemma {:induction false} PutDepth(entries: seq<Entry>, k: Val, t: Tree)
    ensures DepthDict(Put(entries, k, t)) <= Max(DepthDict(entries), Depth(t))
  {
    if entries != [] {
      PutDepth(entries[1..], k, t);
      var p := Put(entries, k, t);
      if entries[0].key == k {
        assert p[1..] == entries[1..];
      } else {
        assert p[1..] == Put(entries[1..], k, t);
      }
    }
  }

  lemma {:induction false} PutStrict(entries: seq<Entry>, s: string, t: Tree)
    requires StrictEntries(entries) && Strict(t)
    ensures StrictEntries(Put(entries, VStr(s), t))
  {
    PutDistinct(entries, VStr(s), t);
    PutMembers(entries, VStr(s), t);
  }

  /** On every heap, cyclic ones included, the result is strict JSON nested at most 32 deep. */
  lemma {:induction false} SafeIsStrict(h: Heap, str: Val -> string, v: Val, depth: nat, seen: set<Ref>)
    requires depth <= MAX_DEPTH
    ensures Strict(Safe(h, str, v, depth, seen)) && Depth(Safe(h, str, v, depth, seen)) + depth <= MAX_DEPTH
    decreases MAX_DEPTH - depth, 0, 0
  {
    if v.VRef? && v.r in h && depth < MAX_DEPTH && v.r !in seen {
      match h[v.r]
      case List(elems) => SafeListIsStrict(h, str, elems, depth + 1, seen + {v.r});
      case Dict(entries) => SafeDictIsStrict(h, str, entries, depth + 1, seen + {v.r});
    }
  }

  lemma {:induction false} SafeListIsStrict(h: Heap, str: Val -> string, elems: seq<Val>, depth: nat, seen: set<Ref>)
    requires depth <= MAX_DEPTH
    ensures var r := SafeList(h, str, elems, depth, seen);
      (forall e | e in r :: Strict(e)) && DepthList(r) + depth <= MAX_DEPTH
    decreases MAX_DEPTH - depth, 1, |elems|
  {
    if elems != [] {
      SafeIsStrict(h, str, elems[0], depth, seen);
      SafeListIsStrict(h, str, elems[1..], depth, seen);
      var r := SafeList(h, str, elems, depth, seen);
      assert r[1..] == SafeList(h, str, elems[1..], depth, seen);
    }
  }

  lemma {:induction false} SafeDictIsStrict(h: Heap, str: Val -> string, entries: seq<(Val, Val)>,
    depth: nat, seen: set<Ref>)
    requires depth <= MAX_DEPTH
    ensures var r := SafeDict(h, str, entries, depth, seen);
      StrictEntries(r) && DepthDict(r) + depth <= MAX_DEPTH
    decreases MAX_DEPTH - depth, 1, |entries|
  {
    if entries != [] {
      var n := |entries| - 1;
      var init := SafeDict(h, str, entries[..n], depth, seen);
      var last := Safe(h, str, entries[n].1, depth, seen);
      SafeIsStrict(h, str, entries[n].1, depth, seen);
      SafeDictIsStrict(h, str, entries[..n], depth, seen);
      PutStrict(init, str(entries[n].0), last);
      PutDepth(init, VStr(str(entries[n].0)), last);
    }
  }
}
