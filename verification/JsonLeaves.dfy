/**
 Where the parts of a value end up in its sanitized form: each leaf, floats above all, at its own place, each
 dict entry under the text of its key, and what the guards cut off as text.
 */
module JsonLeaves {
  import opened Common
  import opened JsonSafe
  import opened JsonUnfold
  import opened JsonEncode

  /** The forms of a float: a finite one is itself, the others say in text what they are. */
  ghost predicate FloatShows(f: Flt, u: Tree, str: Val -> string) {
    match f
    case Finite(r) => u == TFlt(Finite(r))
    case NaN => u == TStr("nan")
    case PosInf => u == TStr("inf")
    case NegInf => u == TStr("-inf")
    case Hostile(_) => u == TStr(str(VFlt(f)))
  }

  lemma FloatsSanitized(h: Heap, str: Val -> string, r: real, raises: bool)
    ensures Sanitize(h, str, VFlt(NaN)) == TStr("nan")
    ensures Sanitize(h, str, VFlt(PosInf)) == TStr("inf")
    ensures Sanitize(h, str, VFlt(NegInf)) == TStr("-inf")
    ensures Sanitize(h, str, VFlt(Finite(r))) == TFlt(Finite(r))
    ensures Sanitize(h, str, VFlt(Hostile(raises))) == TStr(str(VFlt(Hostile(raises))))
  {
  }

  /** `u` shows the tree `t` leaf by leaf; of entries with the same key text the last one. */
  ghost predicate Shows(t: Tree, u: Tree, str: Val -> string)
    decreases t
  {
    match t
    case TFlt(f) => FloatShows(f, u, str)
    case TOther(text) => u == TStr(text)
    case TList(ts) => u.TList? && |u.elems| == |ts| && forall i | 0 <= i < |ts| :: Shows(ts[i], u.elems[i], str)
    case TDict(es) =>
      && u.TDict? && DistinctKeys(u.entries)
      && (forall i | 0 <= i < |es| && LatestEntry(es, i, str) ::
            exists e :: e in u.entries && e.key == VStr(str(es[i].key)) && Shows(es[i].value, e.value, str))
      && (forall e | e in u.entries ::
            exists i :: LatestEntry(es, i, str) && e.key == VStr(str(es[i].key)))
    case _ => u == t
  }

  lemma {:induction false} ScrubShows(t: Tree, str: Val -> string)
    ensures Shows(t, Scrub(t, str), str)
    decreases t
  {
    match t
    case TList(ts) =>
      ScrubListAt(ts, str);
      forall i | 0 <= i < |ts| ensures Shows(ts[i], ScrubList(ts, str)[i], str) { ScrubShows(ts[i], str); }
    case TDict(es) =>
      var out := ScrubDict(es, str);
      ScrubDictStrict(es, str);
      forall i | 0 <= i < |es| && LatestEntry(es, i, str)
        ensures exists e :: e in out && e.key == VStr(str(es[i].key)) && Shows(es[i].value, e.value, str)
      {
        ScrubShows(es[i].value, str);
        ScrubDictHas(es, str, Entry(VStr(str(es[i].key)), Scrub(es[i].value, str)));
      }
      forall e | e in out ensures exists i :: LatestEntry(es, i, str) && e.key == VStr(str(es[i].key)) {
        ScrubDictHas(es, str, e);
      }
    case _ =>
  }

  /** In a value of at most 32 levels every leaf comes out at its place, each float in its form. */
  lemma LeavesStayInPlace(h: Heap, str: Val -> string, v: Val, t: Tree)
    requires Unfolds(h, v, t) && Depth(t) <= MAX_DEPTH
    ensures Shows(t, Sanitize(h, str, v), str)
  {
    SharedContainersUnfold(h, str, v, t);
    ScrubShows(t, str);
  }

  /** A float leaf can be told back: finite, or which of the others. */
  lemma FloatsToldApart(f: Flt, g: Flt, u: Tree, str: Val -> string)
    requires FloatShows(f, u, str) && FloatShows(g, u, str) && !f.Hostile? && !g.Hostile?
    ensures f == g
  {
    assert "nan"[0] == 'n' && "inf"[0] == 'i' && "-inf"[0] == '-';
  }

  // ---------------------------------------------------------------------------------------------
  // What is written
  // ---------------------------------------------------------------------------------------------

  /** No float but finite ones, no key that JSON cannot name. */
  ghost predicate NumbersFinite(t: Tree) {
    match t
    case TFlt(f) => exists r: real :: f == Finite(r)
    case TList(ts) => forall e | e in ts :: NumbersFinite(e)
    case TDict(es) =>
      forall e | e in es ::
        !e.key.VOther? && !e.key.VRef? && e.key !in {VFlt(NaN), VFlt(PosInf), VFlt(NegInf)} && NumbersFinite(e.value)
    case _ => true
  }

  lemma {:induction false} WritesFinite(t: Tree, limit: Option<nat>)
    requires Writes(t, limit)
    ensures NumbersFinite(t)
  {
    match t
    case TFlt(f) => assert f == Finite(f.r);
    case TList(ts) => forall e | e in ts ensures NumbersFinite(e) { WritesFinite(e, limit); }
    case TDict(es) =>
      forall e | e in es ensures NumbersFinite(e.value) && WritesKey(e.key, limit) { WritesFinite(e.value, limit); }
    case _ =>
  }

  /** Whichever attempt wrote, no bare NaN or infinity is on the wire. */
  lemma DumpsIsFinite(h: Heap, str: Val -> string, v: Val, first: Option<Tree>, still: bool, limit: Option<nat>)
    ensures var r := Dumps(h, str, v, first, still, limit);
      && (!r.Rejected? ==> NumbersFinite(r.t))
      && (r.Direct? ==> first == Some(r.t)) && (r.Retried? ==> r.t == Sanitize(h, str, v))
  {
    var r := Dumps(h, str, v, first, still, limit);
    if !r.Rejected? { WritesFinite(r.t, limit); }
  }

  /** Rebuilt attrs hold just each last entry of a key text, its value sanitized on its own. */
  lemma RebuiltHas(h: Heap, str: Val -> string, attrs: seq<(Val, Val)>, e: Entry)
    ensures e in Rebuilt(h, str, attrs) <==>
      exists i :: Latest(attrs, i, str) && e == Entry(VStr(str(attrs[i].0)), Sanitize(h, str, attrs[i].1))
  {
    SafeDictHas(h, str, attrs, 0, {}, e);
  }

  // ---------------------------------------------------------------------------------------------
  // Keys
  // ---------------------------------------------------------------------------------------------

  /** The key texts in the order in which each first occurs. */
  function FirstTexts(texts: seq<string>): seq<string> {
    if texts == [] then []
    else
      var n := |texts| - 1;
      var rest := FirstTexts(texts[..n]);
      if texts[n] in texts[..n] then rest else rest + [texts[n]]
  }

  function Texts(entries: seq<(Val, Val)>, str: Val -> string): seq<string> {
    seq(|entries|, i requires 0 <= i < |entries| => str(entries[i].0))
  }

  function Keys(entries: seq<Entry>): seq<Val> {
    seq(|entries|, i requires 0 <= i < |entries| => entries[i].key)
  }

  lemma KeysCons(e: Entry, entries: seq<Entry>)
    ensures Keys([e] + entries) == [e.key] + Keys(entries)
  {
  }

  lemma {:induction false} PutKeys(entries: seq<Entry>, k: Val, t: Tree)
    ensures Keys(Put(entries, k, t)) == if k in Keys(entries) then Keys(entries) else Keys(entries) + [k]
  {
    if entries != [] {
      PutKeys(entries[1..], k, t);
      var rest := Put(entries[1..], k, t);
      KeysCons(entries[0], entries[1..]);
      KeysCons(entries[0], rest);
      KeysCons(Entry(k, t), entries[1..]);
      hide Keys;
      assert entries == [entries[0]] + entries[1..];
    }
  }

  function AsKeys(texts: seq<string>): seq<Val> {
    seq(|texts|, i requires 0 <= i < |texts| => VStr(texts[i]))
  }

  lemma {:induction false} FirstTextsHave(texts: seq<string>)
    ensures forall s: string :: s in FirstTexts(texts) <==> s in texts
  {
    if texts != [] {
      FirstTextsHave(texts[..|texts| - 1]);
      assert texts == texts[..|texts| - 1] + [texts[|texts| - 1]];
    }
  }

  /** A sanitized dict has the key texts in the order in which they first occur. */
  lemma {:induction false} KeysInOrder(h: Heap, str: Val -> string, entries: seq<(Val, Val)>, depth: nat,
                                       seen: set<Ref>)
    requires depth <= MAX_DEPTH
    ensures Keys(SafeDict(h, str, entries, depth, seen)) == AsKeys(FirstTexts(Texts(entries, str)))
    decreases |entries|
  {
    if entries != [] {
      var n := |entries| - 1;
      var texts := Texts(entries, str);
      assert texts[..n] == Texts(entries[..n], str);
      KeysInOrder(h, str, entries[..n], depth, seen);
      PutKeys(SafeDict(h, str, entries[..n], depth, seen), VStr(texts[n]), Safe(h, str, entries[n].1, depth, seen));
      FirstTextsHave(texts[..n]);
      KeyAmong(FirstTexts(texts[..n]), texts[n]);
    }
  }

  lemma KeyAmong(texts: seq<string>, s: string)
    ensures VStr(s) in AsKeys(texts) <==> s in texts
    ensures AsKeys(texts + [s]) == AsKeys(texts) + [VStr(s)]
  {
    if s in texts {
      var i :| 0 <= i < |texts| && texts[i] == s;
      assert AsKeys(texts)[i] == VStr(s);
    }
  }

  // ---------------------------------------------------------------------------------------------
  // What the guards cut
  // ---------------------------------------------------------------------------------------------

  /** Opaque values, containers 32 levels down and containers met again on their own path become their text. */
  lemma CutIsText(h: Heap, str: Val -> string, r: Ref, depth: nat, seen: set<Ref>, text: string)
    requires depth <= 32
    ensures Safe(h, str, VOther(text), depth, seen) == TStr(text)
    ensures depth == 32 || r in seen ==> Safe(h, str, VRef(r), depth, seen) == TStr(str(VRef(r)))
  {
  }
}
