/**
 The generator stack behind a streaming load, one explicit frame per generator, and the set of connections
 that are open. Closing a generator that has not started does nothing, as in Python.
 */
module StreamStack {
  import opened Common
  import opened StreamTrace

  /** A generator frame: not started, suspended at a yield, or finished. */
  datatype Frame = Unstarted | Suspended | Finished

  /** The connection generator of one source: suspended with `at` the next fetch, or finished. */
  datatype Conn = Live(at: nat) | Done

  /** What stream_select returned for a source; `Absent` before it is called. */
  datatype Src<R> = Absent | Empty | Primed(first: Option<seq<R>>, conn: Conn)

  datatype Step<T> = Yield(value: T) | Stop | Raise(err: Err)

  /** One call of next moves a trace forward by what it returned; after the end there is nothing more. */
  ghost predicate Advances<T>(before: Trace<T>, r: Step<T>, after: Trace<T>) {
    match r
    case Yield(v) => before == Then(Trace([v], None), after)
    case Stop => before == Nothing() && after == Nothing()
    case Raise(e) => before == Trace([], Some(e)) && after == Nothing()
  }

  class StreamHandle<R> {
    const sources: seq<Source<R>>
    const fn: Option<R -> Option<R>>
    const flatten: bool
    var src: seq<Src<R>>
    var chain: Frame
    var cur: nat
    var mapping: Frame
    var offset: nat
    var flattening: Frame
    var buffer: seq<R>
    /** The sources whose connection is open. */
    var open: set<nat>

    constructor (sources: seq<Source<R>>, fn: Option<R -> Option<R>>, flatten: bool)
      ensures this.sources == sources && this.fn == fn && this.flatten == flatten && open == {} && cur == 0
      ensures src == seq(|sources|, i => Absent) && buffer == [] && offset == 0
      ensures chain == mapping == flattening == Unstarted
    {
      this.sources, this.fn, this.flatten := sources, fn, flatten;
      src, cur, open := seq(|sources|, i => Absent), 0, {};
      chain, mapping, flattening, offset, buffer := Unstarted, Unstarted, Unstarted, 0, [];
    }

    predicate Chained() {
      |sources| > 1
    }

    // -------------------------------------------------------------------------------------------
    // Which connections are open
    // -------------------------------------------------------------------------------------------

    /** A connection is open exactly while its generator is suspended, and only the current one ever is. */
    ghost predicate Sound()
      reads this`src, this`open, this`chain, this`cur
    {
      && 0 < |sources| == |src|
      && cur < |src|
      && src[cur] != Absent
      && (forall i | cur < i < |src| :: src[i] == Absent)
      && (forall i | 0 <= i < cur :: src[i] == Empty || src[i] == Primed(None, Done))
      && open == (if IsLive(src[cur]) then {cur} else {})
      && (!Chained() || chain == Unstarted ==> cur == 0)
      && (Chained() && chain == Finished ==> cur == 0 || open == {})
    }

    static predicate IsLive(s: Src<R>) {
      s.Primed? && s.conn.Live?
    }

    static function SrcRest(i: nat, s: Source<R>, c: Src<R>): Trace<seq<R>> {
      match c
      case Primed(Some(b), Live(k)) => Then(Trace([b], None), FetchTrace(i, s.fetches, k))
      case Primed(Some(b), Done) => Trace([b], None)
      case Primed(None, Live(k)) => FetchTrace(i, s.fetches, k)
      case _ => Nothing()
    }

    function CurRest(): Trace<seq<R>>
      reads this`src, this`cur
    {
      if cur < |src| && cur < |sources| then SrcRest(cur, sources[cur], src[cur]) else Nothing()
    }

    /** What is still to come out of the sources. */
    function BelowRest(): Trace<seq<R>>
      reads this`src, this`cur, this`chain
    {
      if !Chained() then CurRest()
      else if chain == Finished then Nothing()
      else Then(CurRest(), ChainTrace(sources, cur + 1))
    }

    /** ... out of the row callable, */
    function MappedRest(): Trace<seq<R>>
      reads this`src, this`cur, this`chain, this`mapping, this`offset
    {
      if fn.None? then BelowRest()
      else if mapping == Finished then Nothing()
      else MapTrace(BelowRest(), fn.value, offset)
    }

    /** ... and out of the flattening. */
    function FlatRest(): Trace<R>
      reads this
    {
      if flattening == Finished then Nothing()
      else Then(Trace(buffer, None), FlatTrace(MappedRest()))
    }

    /** The source generator advances to its next fetch; its finally closes the connection when it ends. */
    method Fetch() returns (r: Step<seq<R>>)
      requires Sound() && IsLive(src[cur]) && src[cur].first == None
      modifies this`src, this`open
      ensures Sound() && src[cur].Primed? && src[cur].first == None
      ensures Advances(old(CurRest()), r, CurRest())
      ensures !r.Yield? ==> open == {}
      ensures var k, fetches := old(src[cur].conn.at), sources[cur].fetches;
        if k >= |fetches| || fetches[k] == Rows([]) then r == Stop && src[cur].conn == Done
        else if fetches[k].Raises? then r == Raise(FetchFailed(cur)) && src[cur].conn == Done
        else r == Yield(fetches[k].rows) && src[cur].conn == Live(k + 1)
    {
      var k := src[cur].conn.at;
      var fetches := sources[cur].fetches;
      if k < |fetches| && fetches[k].Rows? && fetches[k].rows != [] {
        src := src[cur := Primed(None, Live(k + 1))];
        return Yield(fetches[k].rows);
      }
      src := src[cur := Primed(None, Done)];
      open := open - {cur};
      r := if k < |fetches| && fetches[k] == Raises then Raise(FetchFailed(cur)) else Stop;
    }

    /** stream_select: connect, run the query, fetch the first batch. A failure closes what was opened. */
    method Select(i: nat) returns (err: Option<Err>)
      requires i < |sources| == |src| && open == {} && src[i] == Absent
      modifies this`src, this`open
      ensures |src| == |old(src)| && src == old(src)[i := src[i]]
      ensures var s := sources[i];
        err == if !s.connects then Some(ConnectFailed(i))
          else if !s.opensCursor || !s.executes then Some(QueryFailed(i))
          else if s.fetches != [] && s.fetches[0].Raises? then Some(FetchFailed(i))
          else None
      ensures err.None? ==>
        src[i] == if sources[i].fetches == [] || sources[i].fetches[0].rows == [] then Empty
          else Primed(Some(sources[i].fetches[0].rows), Live(1))
      ensures err.Some? ==> src[i] == Absent && open == {} && SourceTrace(i, sources[i]) == Trace([], err)
      ensures err.None? ==> src[i] != Absent && open == (if IsLive(src[i]) then {i} else {})
                            && SrcRest(i, sources[i], src[i]) == SourceTrace(i, sources[i])
    {
      var s := sources[i];
      if !s.connects {
        return Some(ConnectFailed(i));
      }
      open := open + {i};
      if !s.opensCursor || !s.executes {
        open := open - {i};
        return Some(QueryFailed(i));
      }
      if s.fetches == [] || s.fetches[0] == Rows([]) {
        src := src[i := Empty];
        open := open - {i};
      } else if s.fetches[0] == Raises {
        open := open - {i};
        return Some(FetchFailed(i));
      } else {
        src := src[i := Primed(Some(s.fetches[0].rows), Live(1))];
      }
      err := None;
    }

    /** next() of the current source: the batch fetched ahead, then the generator. */
    method NextSource() returns (r: Step<seq<R>>)
      requires Sound()
      modifies this`src, this`open
      ensures Sound() && Advances(old(CurRest()), r, CurRest())
      ensures !r.Yield? ==> open == {} && Spent(src[cur])
    {
      match src[cur]
      case Empty => r := Stop;
      case Primed(Some(b), conn) =>
        src := src[cur := Primed(None, conn)];
        r := Yield(b);
      case Primed(None, Done) => r := Stop;
      case Primed(None, Live(_)) => r := Fetch();
    }

    /** close() of a source's stream reaches the connection in every state. */
    method CloseSource(i: nat)
      requires Sound() && i <= cur
      modifies this`src, this`open
      ensures Sound() && Spent(src[i]) && SrcRest(i, sources[i], src[i]) == Nothing()
      ensures i == cur ==> open == {}
      ensures i != cur || Spent(old(src)[i]) ==> src == old(src) && open == old(open)
    {
      if src[i].Primed? {
        src := src[i := Primed(None, Done)];
        open := open - {i};
      }
    }

    static predicate Spent(s: Src<R>) {
      s == Empty || s == Primed(None, Done)
    }

    /** next() over the chained sources: each is opened once the one before it is exhausted. */
    method NextChained() returns (r: Step<seq<R>>)
      requires Sound() && Chained()
      modifies this`src, this`open, this`chain, this`cur
      ensures Sound() && chain != Unstarted && Advances(old(BelowRest()), r, BelowRest())
      ensures old(chain) != Finished ==> if r.Yield? then chain == Suspended else chain == Finished && open == {}
      ensures old(chain) == Finished ==> r == Stop && open == old(open) && chain == Finished
    {
      if chain == Finished {
        return Stop;
      }
      chain := Suspended;
      while true
        invariant Sound() && chain == Suspended && BelowRest() == old(BelowRest())
        decreases |sources| - cur
      {
        ghost var before := CurRest();
        r := NextSource();
        ghost var later := ChainTrace(sources, cur + 1);
        match r
        case Yield(b) =>
          ThenAssociative(Trace([b], None), CurRest(), later);
          return;
        case Raise(_) =>
          EndChain();
          return;
        case Stop =>
          if cur + 1 == |sources| {
            EndChain();
            return;
          }
          var err := OpenNext();
          if err.Some? {
            chain := Finished;
            return Raise(err.value);
          }
      }
    }

    /** The chain's finally closes the current source. */
    method EndChain()
      requires Sound() && Chained() && chain == Suspended
      modifies this`src, this`open, this`chain
      ensures Sound() && chain == Finished && open == {} && BelowRest() == Nothing()
    {
      CloseSource(cur);
      chain := Finished;
    }

    /** Open the source after an exhausted one; on failure the exhausted one is what the finally closes. */
    method OpenNext() returns (err: Option<Err>)
      requires Sound() && Chained() && chain == Suspended && Spent(src[cur]) && open == {} && cur + 1 < |sources|
      modifies this`src, this`open, this`cur
      ensures Sound()
      ensures err.None? ==> cur == old(cur) + 1 && BelowRest() == old(BelowRest())
      ensures err.Some? ==> cur == old(cur) && open == {} && old(BelowRest()) == Trace([], err)
    {
      ThenNothing(ChainTrace(sources, cur + 1));
      err := Select(cur + 1);
      if err.Some? {
        CloseSource(cur);
      } else {
        cur := cur + 1;
      }
    }

    // -------------------------------------------------------------------------------------------
    // The frames above the sources
    // -------------------------------------------------------------------------------------------

    /** A frame that is not finished is in step with the frame below it. */
    ghost predicate MapAligned()
      reads this`src, this`open, this`chain, this`cur, this`mapping
    {
      && (fn.Some? && Chained() && mapping != Finished ==> chain == mapping)
      && (fn.Some? && mapping != Suspended ==> Loose())
    }

    /** The frames below the flattening: neither finished, or in the given state. */
    ghost predicate BatchesAt(frame: Frame)
      reads this`chain, this`mapping
    {
      && (fn.Some? ==> mapping == frame)
      && (fn.None? && Chained() ==> chain == frame)
    }

    ghost predicate Aligned()
      reads this
    {
      && MapAligned()
      && (flatten && flattening != Finished ==> BatchesAt(flattening))
      && (flatten && flattening != Suspended ==> Loose())
      && (flatten && flattening == Unstarted ==> buffer == [])
    }

    /** Nothing is open but possibly the first source, which the handle closes itself. */
    ghost predicate Loose()
      reads this`cur, this`open
    {
      cur == 0 || open == {}
    }

    method NextBelow() returns (r: Step<seq<R>>)
      requires Sound()
      modifies this`src, this`open, this`chain, this`cur
      ensures Sound() && Advances(old(BelowRest()), r, BelowRest())
      ensures Chained() && old(chain) != Finished ==> if r.Yield? then chain == Suspended else chain == Finished
      ensures Chained() && old(chain) == Finished ==> r == Stop && chain == Finished && open == old(open)
      ensures !r.Yield? && (Chained() ==> old(chain) != Finished) ==> open == {}
      ensures !Chained() ==> chain == old(chain)
    {
      if Chained() {
        r := NextChained();
      } else {
        r := NextSource();
      }
    }

    /** close() of the source layers: a chain that has not started lets it pass by. */
    method CloseBelow()
      requires Sound()
      modifies this`src, this`open, this`chain
      ensures Sound() && Loose() && BelowRest() == Nothing()
      ensures Chained() ==> chain == Finished
      ensures !Chained() ==> open == {} && chain == old(chain)
      ensures old(open) == {} ==> open == {}
      ensures old(chain) != Unstarted || !Chained() ==> old(chain) == Finished || open == {}
      ensures (if Chained() then old(chain) == Finished else old(Spent(src[cur]))) ==>
        src == old(src) && open == old(open) && chain == old(chain)
      ensures !Chained() ==> Spent(src[cur])
    {
      if !Chained() {
        CloseSource(cur);
      } else {
        if chain == Suspended {
          CloseSource(cur);
        }
        chain := Finished;
      }
    }

    /** next() of the row-callable layer, where there is one. */
    method NextMapped() returns (r: Step<seq<R>>)
      requires Sound() && MapAligned()
      modifies this`src, this`open, this`chain, this`cur, this`mapping, this`offset
      ensures Sound() && MapAligned() && Advances(old(MappedRest()), r, MappedRest())
      ensures r.Yield? ==> BatchesAt(Suspended)
      ensures !r.Yield? && (old(BatchesAt(Suspended)) || old(BatchesAt(Unstarted))) ==> open == {}
      ensures Moved(old(TopOfMapped()), r, TopOfMapped())
      ensures old(TopOfMapped()) != Finished && !r.Yield? ==> open == {}
      ensures old(TopOfMapped()) == Finished ==> open == old(open)
    {
      if fn.None? {
        r := NextBelow();
      } else if mapping == Finished {
        r := Stop;
      } else {
        r := RunMapping();
      }
    }

    /** Resume the row-callable frame; a raising row closes everything beneath before it propagates. */
    method RunMapping() returns (r: Step<seq<R>>)
      requires Sound() && fn.Some? && mapping != Finished && (Chained() ==> chain == mapping)
      modifies this`src, this`open, this`chain, this`cur, this`mapping, this`offset
      ensures Sound() && Advances(old(MappedRest()), r, MappedRest())
      ensures if r.Yield? then mapping == Suspended && (Chained() ==> chain == mapping)
        else mapping == Finished && open == {}
    {
      hide Sound, BelowRest;
      mapping := Suspended;
      r := NextBelow();
      if r.Yield? {
        MapTraceCons(r.value, BelowRest(), fn.value, offset);
        var mapped := MapWithIndex(r.value, offset);
        if mapped.Mapped? {
          offset := offset + |r.value|;
          return Yield(mapped.rows);
        }
        r := Raise(MapFailed(mapped.row));
      }
      CloseBelow();
      mapping := Finished;
    }

    /** The state of the outermost frame of the batch layers; without any, the first source's own. */
    function TopOfMapped(): Frame
      reads this`src, this`cur, this`chain, this`mapping
    {
      if fn.Some? then mapping
      else if Chained() then chain
      else if cur < |src| && Spent(src[cur]) then Finished else Suspended
    }

    static ghost predicate Moved<T>(before: Frame, r: Step<T>, after: Frame) {
      if r.Yield? then before != Finished else after == Finished && (before == Finished ==> r == Stop)
    }

    /** The row callable over one batch, counting rows across the whole stream. */
    method MapWithIndex(rows: seq<R>, start: nat) returns (m: Mapped<R>)
      requires fn.Some?
      ensures m == MapRows(rows, fn.value, start)
    {
      var out: seq<R> := [];
      for i := 0 to |rows|
        invariant MapRows(rows, fn.value, start) ==
          match MapRows(rows[i..], fn.value, start + i)
          case Bad(k) => Bad(k)
          case Mapped(rest) => Mapped(out + rest)
      {
        match fn.value(rows[i])
        case None => return Bad(start + i);
        case Some(r) =>
          out := out + [r];
      }
      m := Mapped(out);
    }

    method CloseMapped()
      requires Sound() && MapAligned()
      modifies this`src, this`open, this`chain, this`mapping
      ensures Sound() && MapAligned() && Loose() && MappedRest() == Nothing()
      ensures fn.Some? ==> mapping == Finished
      ensures fn.None? && Chained() ==> chain == Finished
      ensures old(open) == {} ==> open == {}
      ensures old(BatchesAt(Suspended)) ==> open == {}
      ensures TopOfMapped() == Finished
      ensures old(TopOfMapped()) == Finished ==>
        src == old(src) && open == old(open) && chain == old(chain) && mapping == old(mapping)
    {
      if fn.None? {
        CloseBelow();
      } else {
        if mapping == Suspended {
          CloseBelow();
        }
        mapping := Finished;
      }
    }

    /** next() of the flattening layer: single rows out of the batches. */
    method NextFlat() returns (r: Step<R>)
      requires Sound() && Aligned() && flatten
      modifies this`src, this`open, this`chain, this`cur, this`mapping, this`offset, this`flattening, this`buffer
      ensures Sound() && Aligned() && Advances(old(FlatRest()), r, FlatRest())
      ensures r.Yield? ==> flattening == Suspended
      ensures !r.Yield? ==> flattening == Finished && (old(flattening) == Finished || open == {})
      ensures old(flattening) == Finished ==> open == old(open)
    {
      if flattening == Finished {
        return Stop;
      }
      r := RunFlattening();
    }

    method RunFlattening() returns (r: Step<R>)
      requires Sound() && MapAligned() && flatten && flattening != Finished && BatchesAt(flattening)
      requires flattening == Unstarted ==> buffer == []
      modifies this`src, this`open, this`chain, this`cur, this`mapping, this`offset, this`flattening, this`buffer
      ensures Sound() && MapAligned() && Advances(old(FlatRest()), r, FlatRest())
      ensures if r.Yield? then flattening == Suspended && BatchesAt(Suspended) else flattening == Finished && open == {}
    {
      hide Sound, MapAligned, MappedRest, TopOfMapped, Loose, Moved;
      ghost var entry := flattening;
      flattening := Suspended;
      while buffer == []
        invariant Sound() && MapAligned() && flattening == Suspended
        invariant BatchesAt(entry) || BatchesAt(Suspended)
        invariant buffer != [] ==> BatchesAt(Suspended)
        invariant FlatRest() == old(FlatRest())
        decreases |MappedRest().items|, buffer == []
      {
        var b := NextMapped();
        match b
        case Yield(rows) =>
          FlatTraceCons(rows, MappedRest());
          buffer := rows;
        case Stop =>
          CloseMapped();
          flattening := Finished;
          return Stop;
        case Raise(e) =>
          CloseMapped();
          flattening := Finished;
          return Raise(e);
      }
      r := Yield(buffer[0]);
      buffer := buffer[1..];
    }

    // -------------------------------------------------------------------------------------------
    // The handle
    // -------------------------------------------------------------------------------------------

    function Top(): Frame
      reads this`src, this`cur, this`chain, this`mapping, this`flattening
    {
      if flatten then flattening else TopOfMapped()
    }

    /** Between two calls: the frames are in step, and a finished stream holds no connection. */
    ghost predicate Valid()
      reads this
    {
      Sound() && Aligned() && (Top() == Finished ==> open == {})
    }

    method NextBatch() returns (r: Step<seq<R>>)
      requires Valid() && !flatten
      modifies this
      ensures Valid() && Advances(old(MappedRest()), r, MappedRest())
      ensures |open| <= 1 && (!r.Yield? ==> open == {})
    {
      r := NextMapped();
    }

    method NextRow() returns (r: Step<R>)
      requires Valid() && flatten
      modifies this
      ensures Valid() && Advances(old(FlatRest()), r, FlatRest())
      ensures |open| <= 1 && (!r.Yield? ==> open == {})
    {
      hide Aligned, FlatRest;
      r := NextFlat();
    }

    predicate Closed()
      reads this`src, this`cur, this`chain, this`mapping, this`flattening, this`open
    {
      Top() == Finished && open == {} && 0 < |src| && Spent(src[0])
    }

    /** close() in any state releases whatever is open; a second close changes nothing. */
    method Close()
      requires Valid()
      modifies this
      ensures Valid() && Closed() && open == {}
      ensures if flatten then FlatRest() == Nothing() else MappedRest() == Nothing()
      ensures old(Closed()) ==> Unchanged(old(src), old(cur), old(chain), old(mapping), old(flattening), old(open))
    {
      CloseTop();
      CloseSource(0);
    }

    /** close() of the outermost generator: not started means nothing happens below it. */
    method CloseTop()
      requires Valid()
      modifies this`src, this`open, this`chain, this`mapping, this`flattening
      ensures Sound() && Aligned() && Loose() && Top() == Finished
      ensures old(Top()) == Finished ==>
        Unchanged(old(src), old(cur), old(chain), old(mapping), old(flattening), old(open))
    {
      if !flatten {
        CloseMapped();
      } else {
        if flattening == Suspended {
          CloseMapped();
        }
        flattening := Finished;
      }
    }

    ghost predicate Unchanged(src: seq<Src<R>>, cur: nat, chain: Frame,
        mapping: Frame, flattening: Frame, open: set<nat>)
      reads this
    {
      && this.src == src && this.cur == cur && this.open == open
      && this.chain == chain && this.mapping == mapping && this.flattening == flattening
    }
  }

  lemma ChainHead<R>(sources: seq<Source<R>>)
    requires sources != []
    ensures ChainTrace(sources, 0) == Then(SourceTrace(0, sources[0]), ChainTrace(sources, 1))
    ensures |sources| == 1 ==> ChainTrace(sources, 0) == SourceTrace(0, sources[0])
  {
    ThenNothing(SourceTrace(0, sources[0]));
    assert |sources| == 1 ==> ChainTrace(sources, 1) == Nothing();
  }

  /** ci.load of SQL sources as an iterator: the first source connects and runs its query here. */
  method Load<R>(sources: seq<Source<R>>, fn: Option<R -> Option<R>>, flatten: bool)
    returns (err: Option<Err>, handle: StreamHandle<R>)
    requires sources != []
    ensures fresh(handle) && handle.flatten == flatten
    ensures err.Some? ==> handle.open == {} && SourceTrace(0, sources[0]) == Trace([], err)
    ensures err.None? ==> handle.Valid()
    ensures err.None? && !flatten ==> handle.MappedRest() == Batches(sources, fn)
    ensures err.None? && flatten ==> handle.FlatRest() == FlatTrace(Batches(sources, fn))
  {
    hide ChainTrace, SourceTrace, MapTrace, FlatTrace, StreamHandle.SrcRest;
    handle := new StreamHandle(sources, fn, flatten);
    err := handle.Select(0);
    ChainHead(sources);
    ThenNothing(FlatTrace(Batches(sources, fn)));
  }

  /** Iterating a batch stream to its end yields exactly its trace and leaves no connection open. */
  method ConsumeBatches<R>(handle: StreamHandle<R>) returns (t: Trace<seq<R>>)
    requires handle.Valid() && !handle.flatten
    modifies handle
    ensures t == old(handle.MappedRest()) && handle.Valid() && handle.open == {}
  {
    hide StreamHandle.Valid, StreamHandle.MappedRest;
    var got: seq<seq<R>> := [];
    while true
      invariant handle.Valid()
      invariant Then(Trace(got, None), handle.MappedRest()) == old(handle.MappedRest())
      decreases |handle.MappedRest().items|
    {
      var r := handle.NextBatch();
      match r
      case Yield(b) =>
        ThenAssociative(Trace(got, None), Trace([b], None), handle.MappedRest());
        got := got + [b];
      case Stop => return Trace(got, None);
      case Raise(e) => return Trace(got, Some(e));
    }
  }

  method ConsumeRows<R>(handle: StreamHandle<R>) returns (t: Trace<R>)
    requires handle.Valid() && handle.flatten
    modifies handle
    ensures t == old(handle.FlatRest()) && handle.Valid() && handle.open == {}
  {
    hide StreamHandle.Valid, StreamHandle.FlatRest;
    var got: seq<R> := [];
    while true
      invariant handle.Valid()
      invariant Then(Trace(got, None), handle.FlatRest()) == old(handle.FlatRest())
      decreases |handle.FlatRest().items|
    {
      var r := handle.NextRow();
      match r
      case Yield(row) =>
        ThenAssociative(Trace(got, None), Trace([row], None), handle.FlatRest());
        got := got + [row];
      case Stop => return Trace(got, None);
      case Raise(e) => return Trace(got, Some(e));
    }
  }
}
