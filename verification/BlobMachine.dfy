/**
 Blob uploads as a state machine: producers enqueue while the flush thread works through the blobs
 it drained at the start of its tick. The lists of finished blobs are the ledger of the proofs.
 */
module BlobMachine {
  import opened Common

  const MAX_BLOB_ATTEMPTS: nat := 3

  /** `id` tells blobs apart; a retry is a new record of the same blob with one more attempt. */
  datatype Blob = Blob(id: nat, uri: string, attempts: nat)

  datatype End = Uploaded | GaveUp | Discarded | Dropped

  datatype Fate = Fate(id: nat, end: End)

  /** An upload of this tick: the blob's local URI and the remote one it got. */
  datatype Sent = Sent(local: string, remote: string)

  datatype World = World(
    cap: nat,
    items: seq<Blob>,     // queued
    hand: seq<Blob>,      // drained by the current tick, not yet tried
    drops: nat,
    fates: seq<Fate>,     // blobs that left
    asked: multiset<nat>, // every enqueue by a producer
    failed: multiset<nat>,// every failed upload
    sent: seq<Sent>)      // successful uploads of the current tick

  datatype Step = Enqueue(blob: Blob) | Drain | Upload(remote: Option<string>) | Discard

  function Init(cap: nat): World {
    World(cap, [], [], 0, [], multiset{}, multiset{}, [])
  }

  /** `enqueue`: past the soft cap the new blob is the one dropped. */
  function Put(w: World, b: Blob): World {
    if |w.items| >= w.cap then w.(drops := w.drops + 1, fates := w.fates + [Fate(b.id, Dropped)])
    else w.(items := w.items + [b])
  }

  predicate Enabled(w: World, step: Step) {
    match step
    case Enqueue(b) => b.attempts == 0 && b.id !in w.asked
    case Drain => w.hand == []
    case Upload(_) => w.hand != []
    case Discard => w.hand == []
  }

  function DiscardedFates(items: seq<Blob>): seq<Fate> {
    if items == [] then [] else [Fate(items[0].id, Discarded)] + DiscardedFates(items[1..])
  }

  function Next(w: World, step: Step): World
    requires Enabled(w, step)
  {
    match step
    case Enqueue(b) => Put(w.(asked := w.asked + multiset{b.id}), b)
    case Drain => w.(items := [], hand := w.items, sent := [])
    case Discard => w.(items := [], fates := w.fates + DiscardedFates(w.items))
    case Upload(remote) =>
      var b := w.hand[0];
      var w' := w.(hand := w.hand[1..]);
      if remote.Some? then
        w'.(sent := w.sent + [Sent(b.uri, remote.value)], fates := w.fates + [Fate(b.id, Uploaded)])
      else
        var w'' := w'.(failed := w.failed + multiset{b.id});
        if b.attempts + 1 >= MAX_BLOB_ATTEMPTS then w''.(fates := w.fates + [Fate(b.id, GaveUp)])
        else Put(w'', b.(attempts := b.attempts + 1))
  }

  // ---------------------------------------------------------------------------------------------
  // Conservation
  // ---------------------------------------------------------------------------------------------

  /** How often a blob occurs among live ones. */
  function Count(bs: seq<Blob>, id: nat): nat {
    if bs == [] then 0 else (if bs[0].id == id then 1 else 0) + Count(bs[1..], id)
  }

  function Gone(fates: seq<Fate>, id: nat): nat {
    if fates == [] then 0 else (if fates[0].id == id then 1 else 0) + Gone(fates[1..], id)
  }

  /** How often a blob occurs among the queued, those in hand and those gone. */
  function Places(w: World, id: nat): nat {
    Count(w.items, id) + Count(w.hand, id) + Gone(w.fates, id)
  }

  function DropsIn(fates: seq<Fate>): nat {
    if fates == [] then 0 else (if fates[0].end.Dropped? then 1 else 0) + DropsIn(fates[1..])
  }

  /** Every blob asked for is queued, in hand, or gone: as often as it was asked for. */
  ghost predicate Conserved(w: World) {
    forall id: nat :: Places(w, id) == w.asked[id]
  }

  /** No blob was asked for twice. */
  ghost predicate Unique(w: World) { forall id | id in w.asked :: w.asked[id] == 1 }

  ghost predicate Live(w: World, b: Blob) { b in w.items || b in w.hand }

  /** A live blob's attempt counter is its number of failures; who gave up failed three times. */
  ghost predicate Tallied(w: World) {
    && (forall b | Live(w, b) :: b.attempts < MAX_BLOB_ATTEMPTS && w.failed[b.id] == b.attempts)
    && (forall f | f in w.fates ::
          if f.end.GaveUp? then w.failed[f.id] == MAX_BLOB_ATTEMPTS else w.failed[f.id] < MAX_BLOB_ATTEMPTS)
    && (forall id | id in w.failed :: id in w.asked)
  }

  ghost predicate Counted(w: World) {
    w.drops == DropsIn(w.fates) && |w.items| <= w.cap
  }

  ghost predicate Inv(w: World) { Conserved(w) && Unique(w) && Tallied(w) && Counted(w) }

  lemma {:induction false} CountAppend(bs: seq<Blob>, b: Blob, id: nat)
    ensures Count(bs + [b], id) == Count(bs, id) + if b.id == id then 1 else 0
  {
    if bs == [] {
      assert (bs + [b])[1..] == [];
    } else {
      CountAppend(bs[1..], b, id);
      assert (bs + [b])[1..] == bs[1..] + [b];
    }
  }

  lemma {:induction false} GoneAppend(fates: seq<Fate>, more: seq<Fate>, id: nat)
    ensures Gone(fates + more, id) == Gone(fates, id) + Gone(more, id)
  {
    if fates == [] {
      assert fates + more == more;
    } else {
      GoneAppend(fates[1..], more, id);
      assert (fates + more)[1..] == fates[1..] + more;
    }
  }

  lemma {:induction false} DropsAppend(fates: seq<Fate>, more: seq<Fate>)
    ensures DropsIn(fates + more) == DropsIn(fates) + DropsIn(more)
  {
    if fates == [] {
      assert fates + more == more;
    } else {
      DropsAppend(fates[1..], more);
      assert (fates + more)[1..] == fates[1..] + more;
    }
  }

  lemma FateGone(fates: seq<Fate>, f: Fate, id: nat)
    ensures Gone(fates + [f], id) == Gone(fates, id) + if f.id == id then 1 else 0
  {
    GoneAppend(fates, [f], id);
    assert [f][1..] == [];
  }

  lemma FateDrops(fates: seq<Fate>, f: Fate)
    ensures DropsIn(fates + [f]) == DropsIn(fates) + if f.end.Dropped? then 1 else 0
  {
    DropsAppend(fates, [f]);
    assert [f][1..] == [];
  }

  lemma {:induction false} DiscardedAre(items: seq<Blob>)
    ensures DropsIn(DiscardedFates(items)) == 0
    ensures forall f | f in DiscardedFates(items) :: f.end == Discarded && exists b :: b in items && b.id == f.id
  {
    if items != [] {
      DiscardedAre(items[1..]);
      assert DiscardedFates(items)[1..] == DiscardedFates(items[1..]);
    }
  }

  lemma {:induction false} DiscardedCount(items: seq<Blob>, id: nat)
    ensures Gone(DiscardedFates(items), id) == Count(items, id)
  {
    if items != [] {
      DiscardedCount(items[1..], id);
      assert DiscardedFates(items)[1..] == DiscardedFates(items[1..]);
    }
  }

  lemma {:induction false} CountHas(bs: seq<Blob>, b: Blob)
    requires b in bs
    ensures Count(bs, b.id) > 0
  {
    if b != bs[0] { CountHas(bs[1..], b); }
  }

  lemma {:induction false} GoneHas(fates: seq<Fate>, f: Fate)
    requires f in fates
    ensures Gone(fates, f.id) > 0
  {
    if f != fates[0] { GoneHas(fates[1..], f); }
  }

  lemma PutPlaces(w: World, b: Blob, id: nat)
    ensures Places(Put(w, b), id) == Places(w, id) + if b.id == id then 1 else 0
  {
    CountAppend(w.items, b, id);
    FateGone(w.fates, Fate(b.id, Dropped), id);
  }

  /** No step moves a blob but within the ledger. */
  lemma NextPlaces(w: World, step: Step, id: nat)
    requires Enabled(w, step)
    ensures Places(Next(w, step), id) == Places(w, id) + if step.Enqueue? && step.blob.id == id then 1 else 0
  {
    match step
    case Enqueue(b) => PutPlaces(w.(asked := w.asked + multiset{b.id}), b, id);
    case Drain =>
    case Discard => DiscardedCount(w.items, id); GoneAppend(w.fates, DiscardedFates(w.items), id);
    case Upload(remote) =>
      var b := w.hand[0];
      FateGone(w.fates, Fate(b.id, Uploaded), id);
      FateGone(w.fates, Fate(b.id, GaveUp), id);
      PutPlaces(w.(hand := w.hand[1..], failed := w.failed + multiset{b.id}), b.(attempts := b.attempts + 1), id);
  }

  lemma NextAsked(w: World, step: Step, id: nat)
    requires Enabled(w, step)
    ensures Next(w, step).asked[id] == w.asked[id] + if step.Enqueue? && step.blob.id == id then 1 else 0
  {}

  lemma NextConserves(w: World, step: Step)
    requires Conserved(w) && Enabled(w, step)
    ensures Conserved(Next(w, step))
  {
    hide Places, Next;
    forall id: nat ensures Places(Next(w, step), id) == Next(w, step).asked[id] {
      NextPlaces(w, step, id);
      NextAsked(w, step, id);
    }
  }

  lemma PutCounts(w: World, b: Blob)
    requires Counted(w)
    ensures Counted(Put(w, b))
  {
    FateDrops(w.fates, Fate(b.id, Dropped));
  }

  lemma UploadCounts(w: World, remote: Option<string>)
    requires Counted(w) && w.hand != []
    ensures Counted(Next(w, Upload(remote)))
  {
    var b := w.hand[0];
    FateDrops(w.fates, Fate(b.id, Uploaded));
    FateDrops(w.fates, Fate(b.id, GaveUp));
    hide Put, DropsIn;
    if remote.None? && b.attempts + 1 < MAX_BLOB_ATTEMPTS {
      PutCounts(w.(hand := w.hand[1..], failed := w.failed + multiset{b.id}), b.(attempts := b.attempts + 1));
    }
  }

  lemma NextCounts(w: World, step: Step)
    requires Counted(w) && Enabled(w, step)
    ensures Counted(Next(w, step))
  {
    match step
    case Enqueue(b) => PutCounts(w.(asked := w.asked + multiset{b.id}), b);
    case Drain =>
    case Discard => DiscardedAre(w.items); DropsAppend(w.fates, DiscardedFates(w.items));
    case Upload(remote) => UploadCounts(w, remote);
  }

  /** The blob being tried is nowhere else. */
  lemma HeadIsAlone(w: World)
    requires Conserved(w) && Unique(w) && w.hand != []
    ensures forall b | b in w.items || b in w.hand[1..] :: b.id != w.hand[0].id
    ensures forall f | f in w.fates :: f.id != w.hand[0].id
    ensures w.hand[0].id in w.asked
  {
    var id := w.hand[0].id;
    assert Places(w, id) == w.asked[id] && Count(w.hand, id) == 1 + Count(w.hand[1..], id);
    forall b | b in w.items || b in w.hand[1..] ensures b.id != id {
      if b in w.items { CountHas(w.items, b); } else { CountHas(w.hand[1..], b); }
    }
    forall f | f in w.fates ensures f.id != id { GoneHas(w.fates, f); }
  }

  lemma PutTallies(w: World, b: Blob)
    requires Tallied(w) && b.attempts < MAX_BLOB_ATTEMPTS && w.failed[b.id] == b.attempts
    ensures Tallied(Put(w, b))
  {
    var w' := Put(w, b);
    forall x | Live(w', x) ensures x == b || Live(w, x) {}
    forall f | f in w'.fates ensures f == Fate(b.id, Dropped) || f in w.fates {}
  }

  lemma EnqueueTallies(w: World, b: Blob)
    requires Tallied(w) && Conserved(w) && Enabled(w, Enqueue(b))
    ensures Tallied(Next(w, Enqueue(b)))
  {
    var w' := w.(asked := w.asked + multiset{b.id});
    assert b.id !in w.failed;
    assert forall x | Live(w', x) :: Live(w, x);
    PutTallies(w', b);
  }

  lemma DrainTallies(w: World)
    requires Tallied(w) && w.hand == []
    ensures Tallied(Next(w, Drain))
  {
    assert forall x | Live(Next(w, Drain), x) :: Live(w, x);
  }

  lemma DiscardTallies(w: World)
    requires Tallied(w) && w.hand == []
    ensures Tallied(Next(w, Discard))
  {
    DiscardedAre(w.items);
    var w' := Next(w, Discard);
    forall f | f in w'.fates && f !in w.fates ensures f.end == Discarded && w.failed[f.id] < MAX_BLOB_ATTEMPTS {
      var b :| b in w.items && b.id == f.id;
      assert Live(w, b);
    }
  }

  /** Taking the head out of hand and, on failure, adding to its count. */
  lemma HeadTallies(w: World, failing: bool)
    requires Tallied(w) && Conserved(w) && Unique(w) && w.hand != []
    ensures var w' := w.(hand := w.hand[1..],
                   failed := if failing then w.failed + multiset{w.hand[0].id} else w.failed);
      Tallied(w') && w'.failed[w.hand[0].id] == w.hand[0].attempts + (if failing then 1 else 0)
  {
    HeadIsAlone(w);
    var b := w.hand[0];
    assert Live(w, b);
    var w' := w.(hand := w.hand[1..], failed := if failing then w.failed + multiset{b.id} else w.failed);
    forall x | Live(w', x) ensures Live(w, x) && x.id != b.id {}
  }

  lemma FateTallies(w: World, f: Fate)
    requires Tallied(w)
    requires if f.end.GaveUp? then w.failed[f.id] == MAX_BLOB_ATTEMPTS else w.failed[f.id] < MAX_BLOB_ATTEMPTS
    ensures Tallied(w.(fates := w.fates + [f]))
  {
    var w' := w.(fates := w.fates + [f]);
    assert forall x | Live(w', x) :: Live(w, x);
  }

  lemma SuccessTallies(w: World, remote: string)
    requires Tallied(w) && Conserved(w) && Unique(w) && w.hand != []
    ensures Tallied(Next(w, Upload(Some(remote))))
  {
    var b := w.hand[0];
    assert Live(w, b) && b.attempts < MAX_BLOB_ATTEMPTS;
    HeadTallies(w, false);
    hide Tallied, Conserved, Unique, Put;
    var w' := w.(hand := w.hand[1..]);
    FateTallies(w', Fate(b.id, Uploaded));
    SentTallies(w'.(fates := w.fates + [Fate(b.id, Uploaded)]), w.sent + [Sent(b.uri, remote)]);
  }

  lemma FailureTallies(w: World)
    requires Tallied(w) && Conserved(w) && Unique(w) && w.hand != []
    ensures Tallied(Next(w, Upload(None)))
  {
    var b := w.hand[0];
    assert Live(w, b) && b.attempts < MAX_BLOB_ATTEMPTS;
    HeadTallies(w, true);
    hide Tallied, Conserved, Unique, Put;
    var w' := w.(hand := w.hand[1..], failed := w.failed + multiset{b.id});
    if b.attempts + 1 >= MAX_BLOB_ATTEMPTS {
      FateTallies(w', Fate(b.id, GaveUp));
    } else {
      PutTallies(w', b.(attempts := b.attempts + 1));
    }
  }

  lemma SentTallies(w: World, sent: seq<Sent>)
    requires Tallied(w)
    ensures Tallied(w.(sent := sent))
  {
    var w' := w.(sent := sent);
    assert forall x | Live(w', x) :: Live(w, x);
  }

  lemma NextIsUnique(w: World, step: Step)
    requires Unique(w) && Enabled(w, step)
    ensures Unique(Next(w, step))
  {}

  /** Every step keeps the ledger. */
  lemma InvNext(w: World, step: Step)
    requires Inv(w) && Enabled(w, step)
    ensures Inv(Next(w, step))
  {
    hide Conserved, Unique, Tallied, Counted, Next;
    NextConserves(w, step);
    NextCounts(w, step);
    NextIsUnique(w, step);
    match step
    case Enqueue(b) => EnqueueTallies(w, b);
    case Drain => DrainTallies(w);
    case Discard => DiscardTallies(w);
    case Upload(remote) => if remote.Some? { SuccessTallies(w, remote.value); } else { FailureTallies(w); }
  }

  ghost predicate Leads(w: World, steps: seq<Step>, w': World)
    decreases |steps|
  {
    if steps == [] then w == w' else Enabled(w, steps[0]) && Leads(Next(w, steps[0]), steps[1..], w')
  }

  lemma {:induction false} LeadsInv(w: World, steps: seq<Step>, w': World)
    requires Inv(w) && Leads(w, steps, w')
    ensures Inv(w')
    decreases |steps|
  {
    if steps != [] {
      InvNext(w, steps[0]);
      LeadsInv(Next(w, steps[0]), steps[1..], w');
    }
  }

  /** How a tried blob leaves, if it does. */
  lemma UploadEnds(w: World, remote: Option<string>)
    requires w.hand != []
    ensures var b, w' := w.hand[0], Next(w, Upload(remote));
      if remote.Some? then w'.fates == w.fates + [Fate(b.id, Uploaded)]
      else if b.attempts + 1 >= 3 then w'.fates == w.fates + [Fate(b.id, GaveUp)]
      else if |w.items| >= w.cap then w'.fates == w.fates + [Fate(b.id, Dropped)]
      else w'.fates == w.fates && w'.items == w.items + [b.(attempts := b.attempts + 1)]
  {
  }

  /** Over every run: each blob asked for is in exactly one place; it gave up exactly if it failed three times. */
  lemma EveryBlobOnce(cap: nat, steps: seq<Step>, w: World, id: nat)
    requires Leads(Init(cap), steps, w)
    ensures Places(w, id) == if id in w.asked then 1 else 0
    ensures w.drops == DropsIn(w.fates)
    ensures forall end | Fate(id, end) in w.fates :: end == GaveUp <==> w.failed[id] == MAX_BLOB_ATTEMPTS
  {
    LeadsInv(Init(cap), steps, w);
    forall end | Fate(id, end) in w.fates ensures end == GaveUp <==> w.failed[id] == MAX_BLOB_ATTEMPTS {
      assert Tallied(w);
    }
  }
}
