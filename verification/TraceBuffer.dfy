/**
 The bounded in-memory trace buffer, refined against the log of every batch ever added.
 */
module TraceBuffer {
  import opened Common

  datatype Span = Span(id: Option<string>, payload: nat)

  datatype Mark = Mark(spanId: Option<string>, summary: bool, payload: nat)

  datatype Batch = Batch(spans: seq<Span>, marks: seq<Mark>)

  // ---------------------------------------------------------------------------------------------
  // The log and what should be retained of it
  // ---------------------------------------------------------------------------------------------

  function Filter<T>(s: seq<T>, p: T -> bool): seq<T> {
    if s == [] then [] else Filter(s[..|s| - 1], p) + (if p(s[|s| - 1]) then [s[|s| - 1]] else [])
  }

  /** The last `n` elements, or all of them. */
  function Last<T>(s: seq<T>, n: nat): seq<T> {
    if |s| <= n then s else s[|s| - n..]
  }

  lemma LastIs<T>(s: seq<T>, n: nat)
    ensures |Last(s, n)| <= n && (|s| <= n ==> Last(s, n) == s) && (|s| > n ==> |Last(s, n)| == n)
    ensures s == s[..|s| - |Last(s, n)|] + Last(s, n)
  {
  }

  predicate IsSummary(m: Mark) { m.summary }

  predicate IsPoint(m: Mark) { !m.summary }

  function Of(id: string): Mark -> bool { (m: Mark) => m.spanId == Some(id) }

  function AllSpans(log: seq<Batch>): seq<Span> {
    if log == [] then [] else AllSpans(log[..|log| - 1]) + log[|log| - 1].spans
  }

  /** How many of the first `n` spans a buffer of `cap` spans has dropped. */
  function Dropped(n: nat, cap: nat): nat { if n <= cap then 0 else n - cap }

  function Min(a: nat, b: nat): nat { if a < b then a else b }

  ghost function Ids(spans: seq<Span>): set<string> {
    set s | s in spans && s.id.Some? :: s.id.value
  }

  /** The spans the last batch of the log pushed out. */
  ghost function PushedOut(log: seq<Batch>, cap: nat): seq<Span>
    requires log != []
  {
    var all := AllSpans(log);
    var before := |AllSpans(log[..|log| - 1])|;
    all[Min(Dropped(before, cap), Dropped(|all|, cap))..Dropped(|all|, cap)]
  }

  /** The marks of one id, in arrival order, since a span with that id was last evicted. */
  ghost function Arrived(log: seq<Batch>, cap: nat, id: string): seq<Mark> {
    if log == [] then []
    else if id in Ids(PushedOut(log, cap)) then []
    else Arrived(log[..|log| - 1], cap, id) + Filter(log[|log| - 1].marks, Of(id))
  }

  /** What a bucket must hold of the marks that arrived: all summaries, the newest points. */
  ghost predicate Keeps(bucket: seq<Mark>, arrived: seq<Mark>, cap: nat) {
    && Filter(bucket, IsSummary) == Filter(arrived, IsSummary)
    && Filter(bucket, IsPoint) == Last(Filter(arrived, IsPoint), cap)
  }

  // ---------------------------------------------------------------------------------------------
  // Trimming one bucket
  // ---------------------------------------------------------------------------------------------

  function Trim(bucket: seq<Mark>, cap: nat): seq<Mark> {
    if |bucket| <= cap then bucket
    else Filter(bucket, IsSummary) + Last(Filter(bucket, IsPoint), cap)
  }

  lemma {:induction false} FilterAppend<T>(s: seq<T>, t: seq<T>, p: T -> bool)
    ensures Filter(s + t, p) == Filter(s, p) + Filter(t, p)
  {
    if t == [] {
      assert s + t == s;
    } else {
      var n := |t| - 1;
      FilterAppend(s, t[..n], p);
      assert (s + t)[..|s + t| - 1] == s + t[..n];
    }
  }

  lemma FilterOne<T>(s: seq<T>, x: T, p: T -> bool)
    ensures Filter(s + [x], p) == if p(x) then Filter(s, p) + [x] else Filter(s, p)
  {
    assert (s + [x])[..|s|] == s;
  }

  /** Filtering picks exactly the elements that satisfy the predicate, in their order. */
  ghost predicate PicksThose<T>(s: seq<T>, p: T -> bool, r: seq<T>, index: seq<nat>) {
    Picks(s, r, index) && forall i: nat :: i in index <==> i < |s| && p(s[i])
  }

  lemma PicksThoseStep<T>(s: seq<T>, p: T -> bool, r: seq<T>, index: seq<nat>)
    requires s != [] && PicksThose(s[..|s| - 1], p, r, index)
    ensures var x := s[|s| - 1];
      if p(x) then PicksThose(s, p, r + [x], index + [|s| - 1]) else PicksThose(s, p, r, index)
  {
    PicksInit(s, r, index);
    hide Picks;
    var n := |s| - 1;
    forall i: nat | i < n ensures s[..n][i] == s[i] {}
  }

  lemma {:induction false} FilterPicks<T>(s: seq<T>, p: T -> bool) returns (index: seq<nat>)
    ensures PicksThose(s, p, Filter(s, p), index)
  {
    if s == [] {
      index := [];
    } else {
      index := FilterPicks(s[..|s| - 1], p);
      PicksThoseStep(s, p, Filter(s[..|s| - 1], p), index);
      hide PicksThose;
      var rest := Filter(s[..|s| - 1], p);
      assert rest + [] == rest;
      if p(s[|s| - 1]) { index := index + [|s| - 1]; }
    }
  }

  lemma {:induction false} FilterIn<T>(s: seq<T>, p: T -> bool)
    ensures forall x | x in Filter(s, p) :: x in s && p(x)
    ensures |Filter(s, p)| <= |s|
    ensures |Filter(s, p)| == |s| ==> Filter(s, p) == s
  {
    if s != [] {
      FilterIn(s[..|s| - 1], p);
      assert s == s[..|s| - 1] + [s[|s| - 1]];
    }
  }

  lemma {:induction false} FilterAll<T>(s: seq<T>, p: T -> bool)
    requires forall x | x in s :: p(x)
    ensures Filter(s, p) == s
  {
    if s != [] {
      FilterAll(s[..|s| - 1], p);
      assert s[|s| - 1] in s;
      assert s == s[..|s| - 1] + [s[|s| - 1]];
    }
  }

  lemma {:induction false} FilterNone<T>(s: seq<T>, p: T -> bool)
    requires forall x | x in s :: !p(x)
    ensures Filter(s, p) == []
  {
    if s != [] {
      FilterNone(s[..|s| - 1], p);
      assert s[|s| - 1] in s;
    }
  }

  lemma LastIn<T>(s: seq<T>, n: nat)
    ensures forall x | x in Last(s, n) :: x in s
  {}

  /** Summaries and points of what trimming leaves. */
  lemma TrimKeeps(bucket: seq<Mark>, cap: nat)
    ensures Keeps(Trim(bucket, cap), bucket, cap)
  {
    hide Filter;
    var s, p := Filter(bucket, IsSummary), Filter(bucket, IsPoint);
    FilterIn(bucket, IsSummary);
    FilterIn(bucket, IsPoint);
    if |bucket| > cap {
      var q := Last(p, cap);
      LastIn(p, cap);
      hide Last;
      FilterAppend(s, q, IsSummary);
      FilterAppend(s, q, IsPoint);
      FilterAll(s, IsSummary);
      FilterNone(s, IsPoint);
      FilterNone(q, IsSummary);
      FilterAll(q, IsPoint);
    }
  }

  lemma LastOfLast<T>(s: seq<T>, x: T, n: nat)
    ensures Last(Last(s, n) + [x], n) == Last(s + [x], n)
    ensures Last(Last(s, n), n) == Last(s, n)
  {
  }

  /** One more mark, appended and trimmed, keeps what one more arrival calls for. */
  lemma TrimStep(bucket: seq<Mark>, arrived: seq<Mark>, m: Mark, cap: nat)
    requires Keeps(bucket, arrived, cap)
    ensures Keeps(Trim(bucket + [m], cap), arrived + [m], cap)
  {
    hide Filter, Trim;
    TrimKeeps(bucket + [m], cap);
    FilterOne(bucket, m, IsSummary);
    FilterOne(bucket, m, IsPoint);
    FilterOne(arrived, m, IsSummary);
    FilterOne(arrived, m, IsPoint);
    LastOfLast(Filter(arrived, IsPoint), m, cap);
    hide Last;
  }

  /** The first `n` marks are summaries, the others points. */
  ghost predicate SummariesFirst(bucket: seq<Mark>, n: int) {
    && 0 <= n <= |bucket| && (forall i | 0 <= i < n :: bucket[i].summary)
    && (forall i | n <= i < |bucket| :: !bucket[i].summary)
  }

  lemma Sided(s: seq<Mark>, p: seq<Mark>)
    requires (forall m | m in s :: m.summary) && forall m | m in p :: !m.summary
    ensures SummariesFirst(s + p, |s|)
  {
  }

  lemma TrimmedSides(bucket: seq<Mark>, cap: nat)
    ensures SummariesFirst(Filter(bucket, IsSummary) + Last(Filter(bucket, IsPoint), cap), |Filter(bucket, IsSummary)|)
  {
    FilterIn(bucket, IsSummary);
    FilterIn(bucket, IsPoint);
    LastIn(Filter(bucket, IsPoint), cap);
    Sided(Filter(bucket, IsSummary), Last(Filter(bucket, IsPoint), cap));
  }

  lemma PointsOnly(bucket: seq<Mark>)
    requires forall m | m in bucket :: !m.summary
    ensures Filter(bucket, IsSummary) == [] && Filter(bucket, IsPoint) == bucket
  {
    FilterAll(bucket, IsPoint);
    FilterNone(bucket, IsSummary);
  }

  /** `_cap_marks_locked`: the fast path for point-only buckets and the slow path trim alike. */
  method CapMarks(bucket: seq<Mark>, cap: nat) returns (trimmed: seq<Mark>)
    ensures trimmed == Trim(bucket, cap)
    ensures |bucket| <= cap ==> trimmed == bucket
    ensures |bucket| > cap ==> exists n :: SummariesFirst(trimmed, n)
    ensures Keeps(trimmed, bucket, cap)
  {
    TrimKeeps(bucket, cap);
    hide Filter;
    if |bucket| <= cap { return bucket; }
    TrimmedSides(bucket, cap);
    hide SummariesFirst, Keeps;
    if forall m | m in bucket :: !m.summary {
      PointsOnly(bucket);
      return bucket[|bucket| - cap..];
    }
    var summaries := Filter(bucket, IsSummary);
    var points := Filter(bucket, IsPoint);
    if |points| > cap { points := points[|points| - cap..]; }
    return summaries + points;
  }

  // ---------------------------------------------------------------------------------------------
  // The join table
  // ---------------------------------------------------------------------------------------------

  type Table = map<string, seq<Mark>>

  /** The marks of one id when `marks` have arrived on top of the log. */
  ghost function Due(log: seq<Batch>, spanCap: nat, marks: seq<Mark>, id: string): seq<Mark> {
    Arrived(log, spanCap, id) + Filter(marks, Of(id))
  }

  /** Every id with marks due has a bucket keeping them, and there is no other bucket. */
  ghost predicate Joined(table: Table, log: seq<Batch>, spanCap: nat, marks: seq<Mark>, cap: nat) {
    forall id: string :: BucketFits(table, id, Due(log, spanCap, marks, id), cap)
  }

  ghost predicate BucketFits(table: Table, id: string, due: seq<Mark>, cap: nat) {
    if id in table then due != [] && Keeps(table[id], due, cap) else due == []
  }

  function Get(table: Table, id: string): seq<Mark> { if id in table then table[id] else [] }

  lemma BucketStep(table: Table, id: string, due: seq<Mark>, m: Mark, cap: nat)
    requires BucketFits(table, id, due, cap)
    ensures Keeps(Trim(Get(table, id) + [m], cap), due + [m], cap)
  {
    TrimStep(Get(table, id), due, m, cap);
  }

  lemma DueStep(log: seq<Batch>, spanCap: nat, marks: seq<Mark>, m: Mark, k: string)
    ensures Due(log, spanCap, marks + [m], k)
         == if m.spanId == Some(k) then Due(log, spanCap, marks, k) + [m] else Due(log, spanCap, marks, k)
  {
    hide Arrived;
    FilterOne(marks, m, Of(k));
    hide Filter;
    assert Of(k)(m) <==> m.spanId == Some(k);
  }

  lemma JoinedStep(table: Table, log: seq<Batch>, spanCap: nat, marks: seq<Mark>, cap: nat, m: Mark, id: string)
    requires Joined(table, log, spanCap, marks, cap) && m.spanId == Some(id)
    ensures Joined(table[id := Trim(Get(table, id) + [m], cap)], log, spanCap, marks + [m], cap)
  {
    hide Keeps, Trim, Due;
    var table' := table[id := Trim(Get(table, id) + [m], cap)];
    forall k: string ensures BucketFits(table', k, Due(log, spanCap, marks + [m], k), cap) {
      assert BucketFits(table, k, Due(log, spanCap, marks, k), cap);
      DueStep(log, spanCap, marks, m, k);
      if k == id { BucketStep(table, id, Due(log, spanCap, marks, id), m, cap); }
    }
  }

  lemma JoinedSkip(table: Table, log: seq<Batch>, spanCap: nat, marks: seq<Mark>, cap: nat, m: Mark)
    requires Joined(table, log, spanCap, marks, cap) && m.spanId.None?
    ensures Joined(table, log, spanCap, marks + [m], cap)
  {
    hide BucketFits, Due;
    forall k: string ensures BucketFits(table, k, Due(log, spanCap, marks + [m], k), cap) {
      assert BucketFits(table, k, Due(log, spanCap, marks, k), cap);
      DueStep(log, spanCap, marks, m, k);
    }
  }

  lemma ArrivedNext(log: seq<Batch>, batch: Batch, cap: nat, id: string)
    ensures Arrived(log + [batch], cap, id) ==
      if id in Ids(PushedOut(log + [batch], cap)) then [] else Due(log, cap, batch.marks, id)
  {
    assert (log + [batch])[..|log|] == log;
  }

  /** Evicting spans removes just their buckets, as the log demands. */
  lemma JoinedEvict(table: Table, table': Table, log: seq<Batch>, batch: Batch, spanCap: nat, cap: nat)
    requires Joined(table, log, spanCap, batch.marks, cap)
    requires table' == table - Ids(PushedOut(log + [batch], spanCap))
    ensures Joined(table', log + [batch], spanCap, [], cap)
  {
    hide Arrived, Keeps, PushedOut;
    forall k: string ensures BucketFits(table', k, Due(log + [batch], spanCap, [], k), cap) {
      assert BucketFits(table, k, Due(log, spanCap, batch.marks, k), cap);
      ArrivedNext(log, batch, spanCap, k);
      assert Due(log + [batch], spanCap, [], k) == Arrived(log + [batch], spanCap, k);
    }
  }

  /** Before eviction the deque holds the retained spans and the new ones: the tail of the log. */
  lemma SpansNext(log: seq<Batch>, batch: Batch, cap: nat)
    ensures var all := AllSpans(log + [batch]);
      && all == AllSpans(log) + batch.spans
      && Last(AllSpans(log), cap) + batch.spans == all[Dropped(|AllSpans(log)|, cap)..]
      && Dropped(|AllSpans(log)|, cap) <= Dropped(|all|, cap)
      && Last(all, cap) == all[Dropped(|all|, cap)..]
      && PushedOut(log + [batch], cap) == all[Dropped(|AllSpans(log)|, cap)..Dropped(|all|, cap)]
  {
    assert (log + [batch])[..|log|] == log;
  }

  class Buffer {
    const maxSpans: nat
    const maxMarks: nat
    var spans: seq<Span>
    var marks: Table
    ghost var log: seq<Batch>

    /** The buffer is the bounded view of everything added since it was made or cleared. */
    ghost predicate Valid()
      reads this
    {
      && spans == Last(AllSpans(log), maxSpans)
      && Joined(marks, log, maxSpans, [], maxMarks)
    }

    constructor (spanCap: int, markCap: int)
      ensures Valid() && log == [] && spans == [] && marks == map[]
      ensures maxSpans >= 1 && maxMarks >= 1
      ensures maxSpans == (if spanCap < 1 then 1 else spanCap) && maxMarks == (if markCap < 1 then 1 else markCap)
    {
      maxSpans := if spanCap < 1 then 1 else spanCap;
      maxMarks := if markCap < 1 then 1 else markCap;
      spans := [];
      marks := map[];
      log := [];
    }

    method AddBatch(batch: Batch)
      requires Valid()
      modifies this
      ensures Valid() && log == old(log) + [batch]
    {
      hide Joined;
      SpansNext(log, batch, maxSpans);
      if batch.spans == [] && batch.marks == [] {
        JoinedEvict(marks, marks, log, batch, maxSpans, maxMarks);
        log := log + [batch];
        return;
      }
      for i := 0 to |batch.spans|
        invariant spans == old(spans) + batch.spans[..i] && marks == old(marks) && log == old(log)
      {
        spans := spans + [batch.spans[i]];
      }
      assert spans == old(spans) + batch.spans;
      AddMarks(batch.marks);
      Evict(batch);
    }

    method AddMarks(added: seq<Mark>)
      requires Joined(marks, log, maxSpans, [], maxMarks)
      modifies this`marks
      ensures Joined(marks, log, maxSpans, added, maxMarks)
    {
      hide Joined, Keeps, SummariesFirst, Trim, Get;
      assert added[..0] == [];
      for i := 0 to |added|
        invariant Joined(marks, log, maxSpans, added[..i], maxMarks)
      {
        var m := added[i];
        PrefixStep(added, i);
        if m.spanId.None? {
          JoinedSkip(marks, log, maxSpans, added[..i], maxMarks, m);
        } else {
          var id := m.spanId.value;
          JoinedStep(marks, log, maxSpans, added[..i], maxMarks, m, id);
          var bucket := CapMarks(Get(marks, id) + [m], maxMarks);
          marks := marks[id := bucket];
        }
      }
      assert added[..|added|] == added;
    }

    /** `_evict_locked`: drop the oldest spans and their marks until within the cap. */
    method Evict(ghost batch: Batch)
      requires spans == Last(AllSpans(log), maxSpans) + batch.spans
      requires Joined(marks, log, maxSpans, batch.marks, maxMarks)
      modifies this
      ensures Valid() && log == old(log) + [batch]
    {
      hide Joined, AllSpans, PushedOut, Ids;
      SpansNext(log, batch, maxSpans);
      ghost var all := AllSpans(log + [batch]);
      ghost var from := Dropped(|AllSpans(log)|, maxSpans);
      ghost var i := from;
      NoIds(all, from);
      while |spans| > maxSpans
        invariant from <= i <= |all| && spans == all[i..] && (i == from || |spans| >= maxSpans)
        invariant marks == old(marks) - Ids(all[from..i]) && log == old(log)
        decreases |spans|
      {
        TailStep(all, i);
        EvictStep(old(marks), marks, all, from, i);
        var oldest := spans[0];
        spans := spans[1..];
        if oldest.id.Some? { marks := marks - {oldest.id.value}; }
        i := i + 1;
      }
      JoinedEvict(old(marks), marks, log, batch, maxSpans, maxMarks);
      log := log + [batch];
    }

    method Snapshot() returns (s: seq<Span>, m: Table)
      requires Valid()
      ensures s == Last(AllSpans(log), maxSpans)
      ensures forall id: string :: BucketFits(m, id, Arrived(log, maxSpans, id), maxMarks)
    {
      s, m := spans, marks;
      forall id: string ensures BucketFits(m, id, Arrived(log, maxSpans, id), maxMarks) {
        assert Due(log, maxSpans, [], id) == Arrived(log, maxSpans, id);
        assert BucketFits(m, id, Due(log, maxSpans, [], id), maxMarks);
      }
    }

    method Clear()
      modifies this
      ensures Valid() && log == [] && spans == [] && marks == map[]
    {
      spans, marks, log := [], map[], [];
    }
  }

  lemma PrefixStep<T>(s: seq<T>, i: nat)
    requires i < |s|
    ensures s[..i + 1] == s[..i] + [s[i]]
  {}

  lemma NoIds(all: seq<Span>, from: nat)
    requires from <= |all|
    ensures Ids(all[from..from]) == {}
  {}

  lemma EvictStep(table: Table, marks: Table, all: seq<Span>, from: nat, i: nat)
    requires from <= i < |all| && marks == table - Ids(all[from..i])
    ensures table - Ids(all[from..i + 1]) == if all[i].id.Some? then marks - {all[i].id.value} else marks
  {
    IdsStep(all, from, i);
  }

  lemma TailStep<T>(s: seq<T>, i: nat)
    requires i < |s|
    ensures s[i..][0] == s[i] && s[i..][1..] == s[i + 1..]
  {}

  lemma IdsStep(all: seq<Span>, from: nat, i: nat)
    requires from <= i < |all|
    ensures Ids(all[from..i + 1]) == Ids(all[from..i]) + if all[i].id.Some? then {all[i].id.value} else {}
  {
    assert all[from..i + 1] == all[from..i] + [all[i]];
  }

  // ---------------------------------------------------------------------------------------------
  // Consequences
  // ---------------------------------------------------------------------------------------------

  /** Retained memory per id is bounded by the cap and the summaries. */
  lemma BucketIsBounded(bucket: seq<Mark>, arrived: seq<Mark>, cap: nat)
    requires Keeps(bucket, arrived, cap)
    ensures |bucket| <= cap + |Filter(arrived, IsSummary)|
  {
    FilterSplits(bucket);
  }

  lemma {:induction false} FilterSplits(s: seq<Mark>)
    ensures |s| == |Filter(s, IsSummary)| + |Filter(s, IsPoint)|
  {
    if s != [] { FilterSplits(s[..|s| - 1]); }
  }

  function AllMarks(log: seq<Batch>): seq<Mark> {
    if log == [] then [] else AllMarks(log[..|log| - 1]) + log[|log| - 1].marks
  }

  /** No span with this id has left the buffer, closed or not. */
  ghost predicate NeverEvicted(log: seq<Batch>, cap: nat, id: string) {
    forall i | 0 <= i < Dropped(|AllSpans(log)|, cap) :: AllSpans(log)[i].id != Some(id)
  }

  lemma NeverEvictedBefore(log: seq<Batch>, batch: Batch, cap: nat, id: string)
    requires NeverEvicted(log + [batch], cap, id)
    ensures NeverEvicted(log, cap, id) && id !in Ids(PushedOut(log + [batch], cap))
  {
    SpansNext(log, batch, cap);
    var all, was := AllSpans(log + [batch]), AllSpans(log);
    assert forall i | 0 <= i < |was| :: was[i] == all[i];
    IdsOfSlice(all, Dropped(|was|, cap), Dropped(|all|, cap), id);
  }

  lemma IdsOfSlice(all: seq<Span>, from: nat, to: nat, id: string)
    requires from <= to <= |all|
    requires forall i | from <= i < to :: all[i].id != Some(id)
    ensures id !in Ids(all[from..to])
  {}

  /** While a span is retained, or still open, nothing that arrived for it has been forgotten. */
  lemma {:induction false} RetainedSpanHasItsMarks(log: seq<Batch>, cap: nat, id: string)
    requires NeverEvicted(log, cap, id)
    ensures Arrived(log, cap, id) == Filter(AllMarks(log), Of(id))
  {
    if log != [] {
      var init, batch := log[..|log| - 1], log[|log| - 1];
      assert log == init + [batch];
      NeverEvictedBefore(init, batch, cap, id);
      RetainedSpanHasItsMarks(init, cap, id);
      FilterAppend(AllMarks(init), batch.marks, Of(id));
    }
  }

  /** With unique ids a retained span has not been evicted. */
  lemma RetainedIsNeverEvicted(log: seq<Batch>, cap: nat, k: nat, id: string)
    requires forall i, j | 0 <= i < j < |AllSpans(log)| ::
      AllSpans(log)[i].id.Some? ==> AllSpans(log)[i].id != AllSpans(log)[j].id
    requires k < |Last(AllSpans(log), cap)| && Last(AllSpans(log), cap)[k].id == Some(id)
    ensures NeverEvicted(log, cap, id)
  {
    var all := AllSpans(log);
    var d := Dropped(|all|, cap);
    assert all[d + k].id == Some(id);
  }
}
