/**
 What a streaming load delivers, as a function of what the drivers answer: batches in source order, mapped and
 possibly flattened, ended by exhaustion or by the first failure.
 */
module StreamTrace {
  import opened Common

  datatype Err =
    | ConnectFailed(source: nat)
    | QueryFailed(source: nat)
    | FetchFailed(source: nat)
    | MapFailed(row: nat)

  /** One answer of fetchmany; an empty batch means the result set is exhausted. */
  datatype Fetch<R> = Rows(rows: seq<R>) | Raises

  /** One SQL source: how its driver answers each call. Beyond the script every fetch is empty. */
  datatype Source<R> = Source(connects: bool, opensCursor: bool, executes: bool, fetches: seq<Fetch<R>>)

  datatype Trace<T> = Trace(items: seq<T>, failure: Option<Err>)

  function Nothing<T>(): Trace<T> {
    Trace([], None)
  }

  function Then<T>(t: Trace<T>, u: Trace<T>): Trace<T> {
    if t.failure.Some? then t else Trace(t.items + u.items, u.failure)
  }

  /** The batches from the k-th fetch on. */
  function FetchTrace<R>(i: nat, fetches: seq<Fetch<R>>, k: nat): Trace<seq<R>>
    decreases |fetches| - k
  {
    if k >= |fetches| then Nothing()
    else match fetches[k]
      case Raises => Trace([], Some(FetchFailed(i)))
      case Rows(rows) =>
        if rows == [] then Nothing() else Then(Trace([rows], None), FetchTrace(i, fetches, k + 1))
  }

  function SourceTrace<R>(i: nat, s: Source<R>): Trace<seq<R>> {
    if !s.connects then Trace([], Some(ConnectFailed(i)))
    else if !s.opensCursor || !s.executes then Trace([], Some(QueryFailed(i)))
    else FetchTrace(i, s.fetches, 0)
  }

  function ChainTrace<R>(sources: seq<Source<R>>, i: nat): Trace<seq<R>>
    decreases |sources| - i
  {
    if i >= |sources| then Nothing()
    else Then(SourceTrace(i, sources[i]), ChainTrace(sources, i + 1))
  }

  datatype Mapped<R> = Mapped(rows: seq<R>) | Bad(row: nat)

  /** The row callable over a list; None is an exception, reported with the row's index from `start`. */
  function MapRows<R>(rows: seq<R>, fn: R -> Option<R>, start: nat): Mapped<R> {
    if rows == [] then Mapped([])
    else match fn(rows[0])
      case None => Bad(start)
      case Some(r) =>
        match MapRows(rows[1..], fn, start + 1)
        case Bad(k) => Bad(k)
        case Mapped(rs) => Mapped([r] + rs)
  }

  function MapTrace<R>(t: Trace<seq<R>>, fn: R -> Option<R>, offset: nat): Trace<seq<R>>
    decreases |t.items|
  {
    if t.items == [] then t
    else match MapRows(t.items[0], fn, offset)
      case Bad(k) => Trace([], Some(MapFailed(k)))
      case Mapped(rows) =>
        Then(Trace([rows], None), MapTrace(Trace(t.items[1..], t.failure), fn, offset + |t.items[0]|))
  }

  lemma MapTraceCons<R>(b: seq<R>, t: Trace<seq<R>>, fn: R -> Option<R>, offset: nat)
    ensures MapTrace(Then(Trace([b], None), t), fn, offset) ==
      match MapRows(b, fn, offset)
      case Bad(k) => Trace([], Some(MapFailed(k)))
      case Mapped(rows) => Then(Trace([rows], None), MapTrace(t, fn, offset + |b|))
  {
    assert Trace(([b] + t.items)[1..], t.failure) == t;
  }

  function Flat<R>(batches: seq<seq<R>>): seq<R> {
    if batches == [] then [] else batches[0] + Flat(batches[1..])
  }

  function FlatTrace<R>(t: Trace<seq<R>>): Trace<R> {
    Trace(Flat(t.items), t.failure)
  }

  lemma FlatTraceCons<R>(b: seq<R>, t: Trace<seq<R>>)
    ensures FlatTrace(Then(Trace([b], None), t)) == Then(Trace(b, None), FlatTrace(t))
  {
    assert ([b] + t.items)[1..] == t.items;
  }

  lemma ThenAssociative<T>(a: Trace<T>, b: Trace<T>, c: Trace<T>)
    ensures Then(Then(a, b), c) == Then(a, Then(b, c))
  {
    if a.failure.None? && b.failure.None? {
      assert a.items + b.items + c.items == a.items + (b.items + c.items);
    }
  }

  lemma ThenNothing<T>(a: Trace<T>)
    ensures Then(a, Nothing()) == a && Then(Nothing(), a) == a
  {
    assert a.items + [] == a.items && [] + a.items == a.items;
  }

  // ---------------------------------------------------------------------------------------------
  // What the drivers' answers mean
  // ---------------------------------------------------------------------------------------------

  /** The query of this source runs. */
  predicate Opens<R>(s: Source<R>) { s.connects && s.opensCursor && s.executes }

  /** Fetch `k` raises, and every one before it brought rows. */
  ghost predicate RaisesAt<R>(s: Source<R>, k: nat) {
    k < |s.fetches| && s.fetches[k].Raises? && forall m | 0 <= m < k :: s.fetches[m].Rows? && s.fetches[m].rows != []
  }

  ghost predicate Delivers<R>(s: Source<R>) {
    Opens(s) && forall k: nat :: !RaisesAt(s, k)
  }

  /** Source `j` fails, and with this error. */
  ghost predicate FailsWith<R>(j: nat, s: Source<R>, e: Err) {
    if !s.connects then e == ConnectFailed(j)
    else if !s.opensCursor || !s.executes then e == QueryFailed(j)
    else e == FetchFailed(j) && exists k: nat :: RaisesAt(s, k)
  }

  /** The first `n` fetches brought rows and the next does not, if there is one. */
  ghost predicate EndsAt<R>(s: Source<R>, n: nat) {
    && n <= |s.fetches|
    && (forall m | 0 <= m < n :: s.fetches[m].Rows? && s.fetches[m].rows != [])
    && (n < |s.fetches| ==> s.fetches[n] == Raises || s.fetches[n] == Rows([]))
  }

  /** What a source brings, fetch by fetch, as long as rows come. */
  function Brought<R>(fetches: seq<Fetch<R>>): seq<seq<R>> {
    if fetches == [] || fetches[0] == Raises || fetches[0].rows == [] then []
    else [fetches[0].rows] + Brought(fetches[1..])
  }

  function BatchesOf<R>(s: Source<R>): seq<seq<R>> {
    if Opens(s) then Brought(s.fetches) else []
  }

  lemma {:induction false} BroughtEnds<R>(s: Source<R>, k: nat)
    requires k <= |s.fetches|
    ensures var n := k + |Brought(s.fetches[k..])|;
      && n <= |s.fetches|
      && (forall m | k <= m < n ::
            s.fetches[m].Rows? && s.fetches[m].rows != [] && Brought(s.fetches[k..])[m - k] == s.fetches[m].rows)
      && (n < |s.fetches| ==> s.fetches[n] == Raises || s.fetches[n] == Rows([]))
    decreases |s.fetches| - k
  {
    if k < |s.fetches| {
      assert s.fetches[k..][1..] == s.fetches[k + 1..];
      BroughtEnds(s, k + 1);
    }
  }

  /** An opened source brings all its fetches up to the first that brings nothing, none skipped. */
  lemma BatchesAre<R>(s: Source<R>)
    requires Opens(s)
    ensures EndsAt(s, |BatchesOf(s)|)
    ensures forall m | 0 <= m < |BatchesOf(s)| :: BatchesOf(s)[m] == s.fetches[m].rows
  {
    assert s.fetches[0..] == s.fetches;
    BroughtEnds(s, 0);
  }

  lemma {:induction false} FetchTraceMeans<R>(i: nat, s: Source<R>, k: nat)
    requires k <= |s.fetches| && forall m | 0 <= m < k :: s.fetches[m].Rows? && s.fetches[m].rows != []
    ensures var t := FetchTrace(i, s.fetches, k);
      && t.items == Brought(s.fetches[k..])
      && t.failure == if exists n: nat :: RaisesAt(s, n) then Some(FetchFailed(i)) else None
    decreases |s.fetches| - k
  {
    if k < |s.fetches| {
      var f := s.fetches[k];
      assert s.fetches[k..][0] == f && s.fetches[k..][1..] == s.fetches[k + 1..];
      if f.Raises? {
        assert RaisesAt(s, k);
      } else if f.rows == [] {
        forall n: nat ensures !RaisesAt(s, n) {}
      } else {
        FetchTraceMeans(i, s, k + 1);
      }
    }
  }

  /** One source: its batches, and a failure exactly when it fails. */
  lemma SourceTraceMeans<R>(i: nat, s: Source<R>)
    ensures SourceTrace(i, s).items == BatchesOf(s)
    ensures SourceTrace(i, s).failure == None <==> Delivers(s)
    ensures forall e :: SourceTrace(i, s).failure == Some(e) <==> FailsWith(i, s, e)
  {
    if Opens(s) {
      FetchTraceMeans(i, s, 0);
      assert s.fetches[0..] == s.fetches;
    }
  }

  /**
   The stream fails exactly when some source refuses the connection, the cursor or the query, or raises at a
   fetch, while all before it deliver; the error names that source and cause.
   */
  lemma {:induction false} ChainFailsExactlyWhen<R>(sources: seq<Source<R>>, i: nat, e: Err)
    ensures ChainTrace(sources, i).failure == Some(e) <==>
      exists j :: i <= j < |sources| && FailsWith(j, sources[j], e) && forall m | i <= m < j :: Delivers(sources[m])
    decreases |sources| - i
  {
    if i < |sources| {
      SourceTraceMeans(i, sources[i]);
      ChainFailsExactlyWhen(sources, i + 1, e);
      hide FailsWith, Delivers;
      FailsIsNoDelivery(i, sources[i]);
    }
  }

  lemma FailsIsNoDelivery<R>(i: nat, s: Source<R>)
    ensures Delivers(s) <==> forall e :: !FailsWith(i, s, e)
  {
    if !Delivers(s) {
      var e := if !s.connects then ConnectFailed(i) else if !Opens(s) then QueryFailed(i) else FetchFailed(i);
      assert FailsWith(i, s, e);
    }
  }

  /** How many batches the sources from `i` up to `j` bring. */
  function Offset<R>(sources: seq<Source<R>>, i: nat, j: nat): nat
    requires i <= j <= |sources|
    decreases j - i
  {
    if i == j then 0 else |BatchesOf(sources[i])| + Offset(sources, i + 1, j)
  }

  lemma ChainItems<R>(sources: seq<Source<R>>, i: nat)
    requires i < |sources|
    ensures ChainTrace(sources, i).items
         == if Delivers(sources[i]) then BatchesOf(sources[i]) + ChainTrace(sources, i + 1).items
            else BatchesOf(sources[i])
  {
    SourceTraceMeans(i, sources[i]);
  }

  lemma BatchAt<R>(s: Source<R>, k: nat)
    requires k < |BatchesOf(s)|
    ensures Opens(s) && k < |s.fetches| && s.fetches[k].Rows? && BatchesOf(s)[k] == s.fetches[k].rows
  {
    BatchesAre(s);
  }

  /** Each batch of each source that is reached comes at its place. */
  lemma {:induction false} ChainItemAt<R>(sources: seq<Source<R>>, i: nat, j: nat, k: nat)
    requires i <= j < |sources| && k < |BatchesOf(sources[j])| && forall m | i <= m < j :: Delivers(sources[m])
    ensures var items := ChainTrace(sources, i).items;
      && Opens(sources[j]) && k < |sources[j].fetches| && sources[j].fetches[k].Rows?
      && Offset(sources, i, j) + k < |items| && items[Offset(sources, i, j) + k] == sources[j].fetches[k].rows
    decreases j - i
  {
    hide ChainTrace, Delivers, BatchesOf;
    ChainItems(sources, i);
    if i == j { BatchAt(sources[i], k); } else { ChainItemAt(sources, i + 1, j, k); }
  }

  /** And nothing else comes: up to the failing source, or to the end. */
  lemma {:induction false} ChainLength<R>(sources: seq<Source<R>>, i: nat, j: nat)
    requires i <= j <= |sources| && forall m | i <= m < j :: Delivers(sources[m])
    requires j < |sources| ==> !Delivers(sources[j])
    ensures |ChainTrace(sources, i).items| == Offset(sources, i, if j < |sources| then j + 1 else j)
    decreases j - i
  {
    if i < |sources| { SourceTraceMeans(i, sources[i]); }
    if i < j { ChainLength(sources, i + 1, j); }
  }

  // ---------------------------------------------------------------------------------------------
  // Streamed content equals materialized content
  // ---------------------------------------------------------------------------------------------

  /** The whole result of one source, as the materializing path fetches it. */
  function FetchAll<R>(s: Source<R>): seq<R> {
    Flat(BatchesOf(s))
  }

  function Concatenated<R>(sources: seq<Source<R>>, i: nat): seq<R>
    decreases |sources| - i
  {
    if i >= |sources| then [] else FetchAll(sources[i]) + Concatenated(sources, i + 1)
  }

  /** With FlatAppend this says what flattening is. */
  lemma FlatOne<R>(b: seq<R>)
    ensures Flat([b]) == b && Flat<R>([]) == []
  {
    assert [b][1..] == [];
  }

  lemma {:induction false} FlatAppend<R>(a: seq<seq<R>>, b: seq<seq<R>>)
    ensures Flat(a + b) == Flat(a) + Flat(b)
  {
    if a == [] {
      assert a + b == b;
    } else {
      assert (a + b)[1..] == a[1..] + b;
      FlatAppend(a[1..], b);
      assert a[0] + (Flat(a[1..]) + Flat(b)) == a[0] + Flat(a[1..]) + Flat(b);
    }
  }

  lemma {:induction false} ChainIsConcatenation<R>(sources: seq<Source<R>>, i: nat)
    requires ChainTrace(sources, i).failure == None
    ensures Flat(ChainTrace(sources, i).items) == Concatenated(sources, i)
    decreases |sources| - i
  {
    if i < |sources| {
      ChainIsConcatenation(sources, i + 1);
      SourceTraceMeans(i, sources[i]);
      FlatAppend(SourceTrace(i, sources[i]).items, ChainTrace(sources, i + 1).items);
    }
  }

  ghost predicate MappedBy<R>(rows: seq<R>, out: seq<R>, fn: R -> Option<R>) {
    |out| == |rows| && forall i | 0 <= i < |rows| :: fn(rows[i]) == Some(out[i])
  }

  ghost predicate FirstNone<R>(rows: seq<R>, k: nat, fn: R -> Option<R>) {
    k < |rows| && fn(rows[k]) == None && forall i | 0 <= i < k :: fn(rows[i]).Some?
  }

  /** All rows mapped, each at its place, if none raises; else the index of the first that does. */
  lemma {:induction false} MapRowsMeans<R>(rows: seq<R>, fn: R -> Option<R>, start: nat)
    ensures match MapRows(rows, fn, start)
      case Mapped(out) => MappedBy(rows, out, fn)
      case Bad(k) => start <= k < start + |rows| && FirstNone(rows, k - start, fn)
  {
    if rows != [] && fn(rows[0]).Some? { MapRowsMeans(rows[1..], fn, start + 1); }
  }

  lemma {:induction false} MapAppend<R>(a: seq<R>, b: seq<R>, fn: R -> Option<R>, start: nat)
    ensures MapRows(a + b, fn, start) ==
      match MapRows(a, fn, start)
      case Bad(k) => Bad(k)
      case Mapped(x) =>
        match MapRows(b, fn, start + |a|)
        case Bad(k) => Bad(k)
        case Mapped(z) => Mapped(x + z)
  {
    if a == [] {
      assert a + b == b;
      match MapRows(b, fn, start)
      case Bad(_) =>
      case Mapped(z) => assert [] + z == z;
    } else {
      assert (a + b)[1..] == a[1..] + b;
      MapAppend(a[1..], b, fn, start + 1);
      match (fn(a[0]), MapRows(a[1..], fn, start + 1), MapRows(b, fn, start + |a|))
      case (Some(r), Mapped(x), Mapped(z)) => assert [r] + (x + z) == [r] + x + z;
      case _ =>
    }
  }

  /**
   Mapping batch by batch is mapping the concatenation: the same rows, or a failure reported with the index of
   the same row in the whole stream.
   */
  lemma {:induction false} MapTraceIsMapRows<R>(t: Trace<seq<R>>, fn: R -> Option<R>, offset: nat)
    ensures var m := MapTrace(t, fn, offset);
      match MapRows(Flat(t.items), fn, offset)
      case Mapped(rows) => Flat(m.items) == rows && m.failure == t.failure
      case Bad(k) => m.failure == Some(MapFailed(k))
    decreases |t.items|
  {
    if t.items != [] {
      var b, rest := t.items[0], Trace(t.items[1..], t.failure);
      MapTraceIsMapRows(rest, fn, offset + |b|);
      MapAppend(b, Flat(rest.items), fn, offset);
      match MapRows(b, fn, offset)
      case Bad(_) =>
      case Mapped(rows) => FlatAppend([rows], MapTrace(rest, fn, offset + |b|).items);
    }
  }

  /** Batches come out one for one, each mapped row by row, until the first with a raising row. */
  lemma {:induction false} MapTraceBatchwise<R>(t: Trace<seq<R>>, fn: R -> Option<R>, offset: nat)
    ensures var m := MapTrace(t, fn, offset);
      && |m.items| <= |t.items| && (forall k | 0 <= k < |m.items| :: MappedBy(t.items[k], m.items[k], fn))
      && (|m.items| == |t.items| ==> m.failure == t.failure)
      && (|m.items| < |t.items| ==> exists k: nat :: FirstNone(t.items[|m.items|], k, fn))
    decreases |t.items|
  {
    if t.items != [] {
      MapRowsMeans(t.items[0], fn, offset);
      MapTraceBatchwise(Trace(t.items[1..], t.failure), fn, offset + |t.items[0]|);
    }
  }

  lemma FlatCons<R>(b: seq<R>, bs: seq<seq<R>>)
    ensures Flat([b] + bs) == b + Flat(bs)
  {
    assert ([b] + bs)[1..] == bs;
  }

  /** Whatever is delivered, before a failure or in all, is the mapping of the first so many rows. */
  lemma {:induction false} DeliveredIsMappedPrefix<R>(t: Trace<seq<R>>, fn: R -> Option<R>, offset: nat)
    ensures var got := Flat(MapTrace(t, fn, offset).items);
      |got| <= |Flat(t.items)| && MapRows(Flat(t.items)[..|got|], fn, offset) == Mapped(got)
    decreases |t.items|
  {
    if t.items != [] && MapRows(t.items[0], fn, offset).Mapped? {
      var b, rest := t.items[0], Trace(t.items[1..], t.failure);
      DeliveredIsMappedPrefix(rest, fn, offset + |b|);
      PrefixCons(b, rest, fn, offset, MapTrace(rest, fn, offset + |b|).items);
    }
  }

  lemma PrefixCons<R>(b: seq<R>, rest: Trace<seq<R>>, fn: R -> Option<R>, offset: nat, bs: seq<seq<R>>)
    requires MapRows(b, fn, offset).Mapped?
    requires |Flat(bs)| <= |Flat(rest.items)|
    requires MapRows(Flat(rest.items)[..|Flat(bs)|], fn, offset + |b|) == Mapped(Flat(bs))
    ensures var rows := MapRows(b, fn, offset).rows; var n := |Flat([rows] + bs)|;
      && Flat([rows] + bs) == rows + Flat(bs)
      && n <= |b + Flat(rest.items)|
      && MapRows((b + Flat(rest.items))[..n], fn, offset) == Mapped(rows + Flat(bs))
  {
    hide Flat, MapRows;
    var rows := MapRows(b, fn, offset).rows;
    FlatCons(rows, bs);
    MapKeepsLength(b, fn, offset);
    MapAppend(b, Flat(rest.items)[..|Flat(bs)|], fn, offset);
    assert (b + Flat(rest.items))[..|rows + Flat(bs)|] == b + Flat(rest.items)[..|Flat(bs)|];
  }

  /** What the stream stack delivers, before flattening. */
  function Batches<R>(sources: seq<Source<R>>, fn: Option<R -> Option<R>>): Trace<seq<R>> {
    match fn
    case None => ChainTrace(sources, 0)
    case Some(f) => MapTrace(ChainTrace(sources, 0), f, 0)
  }

  /** The materializing path: fetch everything, concatenate, and map the whole list once. */
  function Materialized<R>(sources: seq<Source<R>>, fn: Option<R -> Option<R>>): Mapped<R> {
    match fn
    case None => Mapped(Concatenated(sources, 0))
    case Some(f) => MapRows(Concatenated(sources, 0), f, 0)
  }

  /** When every source delivers, the stream is the materialized result: same rows, or same failing row. */
  lemma StreamIsMaterialized<R>(sources: seq<Source<R>>, fn: Option<R -> Option<R>>)
    requires ChainTrace(sources, 0).failure == None
    ensures var t := Batches(sources, fn);
      match Materialized(sources, fn)
      case Mapped(rows) => Flat(t.items) == rows && t.failure == None
      case Bad(k) => t.failure == Some(MapFailed(k))
  {
    ChainIsConcatenation(sources, 0);
    if fn.Some? {
      MapTraceIsMapRows(ChainTrace(sources, 0), fn.value, 0);
    }
  }

  // ---------------------------------------------------------------------------------------------
  // The shape of the batches
  // ---------------------------------------------------------------------------------------------

  /** What DB-API promises of fetchmany(size). */
  ghost predicate Bounded<R>(s: Source<R>, size: nat) {
    forall k | 0 <= k < |s.fetches| && s.fetches[k].Rows? :: |s.fetches[k].rows| <= size
  }

  ghost predicate Shaped<R>(batches: seq<seq<R>>, size: nat) {
    forall b | b in batches :: 0 < |b| <= size
  }

  lemma {:induction false} FetchShaped<R>(i: nat, s: Source<R>, k: nat, size: nat)
    requires Bounded(s, size)
    ensures Shaped(FetchTrace(i, s.fetches, k).items, size)
    decreases |s.fetches| - k
  {
    if k < |s.fetches| {
      FetchShaped(i, s, k + 1, size);
    }
  }

  lemma {:induction false} ChainShaped<R>(sources: seq<Source<R>>, i: nat, size: nat)
    requires forall s | s in sources :: Bounded(s, size)
    ensures Shaped(ChainTrace(sources, i).items, size)
    decreases |sources| - i
  {
    if i < |sources| {
      FetchShaped(i, sources[i], 0, size);
      ChainShaped(sources, i + 1, size);
    }
  }

  /** Every batch that comes out of the sources is one fetch of one source, so none spans two. */
  lemma {:induction false} BatchIsOneFetch<R>(sources: seq<Source<R>>, i: nat, b: seq<R>)
    requires b in ChainTrace(sources, i).items
    ensures exists j, k | i <= j < |sources| && 0 <= k < |sources[j].fetches| :: sources[j].fetches[k] == Rows(b)
    decreases |sources| - i
  {
    if b in SourceTrace(i, sources[i]).items {
      var k := FetchOf(i, sources[i].fetches, 0, b);
      assert sources[i].fetches[k] == Rows(b);
    } else {
      BatchIsOneFetch(sources, i + 1, b);
    }
  }

  lemma {:induction false} FetchOf<R>(i: nat, fetches: seq<Fetch<R>>, k: nat, b: seq<R>) returns (j: nat)
    requires b in FetchTrace(i, fetches, k).items
    ensures k <= j < |fetches| && fetches[j] == Rows(b)
    decreases |fetches| - k
  {
    if fetches[k] == Rows(b) {
      j := k;
    } else {
      j := FetchOf(i, fetches, k + 1, b);
    }
  }

  lemma {:induction false} MapKeepsLength<R>(rows: seq<R>, fn: R -> Option<R>, start: nat)
    ensures MapRows(rows, fn, start).Mapped? ==> |MapRows(rows, fn, start).rows| == |rows|
  {
    if rows != [] {
      MapKeepsLength(rows[1..], fn, start + 1);
    }
  }

  lemma {:induction false} MapShaped<R>(t: Trace<seq<R>>, fn: R -> Option<R>, offset: nat, size: nat)
    requires Shaped(t.items, size)
    ensures Shaped(MapTrace(t, fn, offset).items, size)
    decreases |t.items|
  {
    if t.items != [] {
      MapKeepsLength(t.items[0], fn, offset);
      MapShaped(Trace(t.items[1..], t.failure), fn, offset + |t.items[0]|, size);
    }
  }

  /** No delivered batch is empty or longer than asked for. */
  lemma BatchesAreShaped<R>(sources: seq<Source<R>>, fn: Option<R -> Option<R>>, size: nat)
    requires forall s | s in sources :: Bounded(s, size)
    ensures Shaped(Batches(sources, fn).items, size)
  {
    ChainShaped(sources, 0, size);
    if fn.Some? {
      MapShaped(ChainTrace(sources, 0), fn.value, 0, size);
    }
  }
}
