/**
 The blob queue and the flush thread's share of it, refining the blob machine; what ticks achieve while
 producers keep enqueueing; and the rewriting of snapshot records.
 */
module BlobQueue {
  import opened Common
  import opened BlobMachine

  // ---------------------------------------------------------------------------------------------
  // One tick
  // ---------------------------------------------------------------------------------------------

  /** The answers of the uploads among the steps. */
  function Uploads(steps: seq<Step>): seq<Option<string>> {
    if steps == [] then []
    else (if steps[0].Upload? then [steps[0].remote] else []) + Uploads(steps[1..])
  }

  ghost predicate WithinTick(steps: seq<Step>) { forall step | step in steps :: !step.Drain? }

  /** A tick, with whatever producers do meanwhile: drain, then try every blob drained. */
  ghost predicate Ticks(w: World, steps: seq<Step>, w': World) {
    w.hand == [] && WithinTick(steps) && Leads(Next(w, Drain), steps, w') && w'.hand == []
  }

  /** What the first blobs in hand leave in the list of successes. */
  function SentBy(hand: seq<Blob>, outcomes: seq<Option<string>>): seq<Sent>
    requires |outcomes| <= |hand|
  {
    if outcomes == [] then []
    else (if outcomes[0].Some? then [Sent(hand[0].uri, outcomes[0].value)] else []) + SentBy(hand[1..], outcomes[1..])
  }

  lemma NextHand(w: World, step: Step)
    requires Enabled(w, step) && !step.Drain?
    ensures var w' := Next(w, step);
      if step.Upload? then w'.hand == w.hand[1..] && w'.sent == w.sent + SentBy(w.hand[..1], [step.remote])
      else w'.hand == w.hand && w'.sent == w.sent
  {
    if step.Upload? {
      var sent := SentBy(w.hand[..1], [step.remote]);
      assert SentBy(w.hand[..1][1..], [step.remote][1..]) == [];
      assert sent == if step.remote.Some? then [Sent(w.hand[0].uri, step.remote.value)] else [];
    }
  }

  lemma UploadsHead(steps: seq<Step>)
    requires steps != []
    ensures Uploads(steps) == (if steps[0].Upload? then [steps[0].remote] else []) + Uploads(steps[1..])
  {}

  /** Within a tick uploads take the blobs in hand one by one, whatever is enqueued in between. */
  lemma {:induction false} SegmentSends(w: World, steps: seq<Step>, w': World)
    requires Leads(w, steps, w') && WithinTick(steps)
    ensures var outcomes := Uploads(steps);
      |outcomes| <= |w.hand| && w'.hand == w.hand[|outcomes|..] && w'.sent == w.sent + SentBy(w.hand, outcomes)
    decreases |steps|
  {
    if steps != [] {
      var next := Next(w, steps[0]);
      UploadsHead(steps);
      NextHand(w, steps[0]);
      SegmentSends(next, steps[1..], w');
      hide Next;
      var rest := Uploads(steps[1..]);
      hide Uploads, SentBy, Leads;
      if steps[0].Upload? {
        SendJoins(w.sent, w.hand, steps[0].remote, rest);
      } else {
        assert [] + rest == rest;
      }
    }
  }

  lemma SendJoins(sent: seq<Sent>, hand: seq<Blob>, first: Option<string>, rest: seq<Option<string>>)
    requires |rest| < |hand|
    ensures sent + SentBy(hand[..1], [first]) + SentBy(hand[1..], rest) == sent + SentBy(hand, [first] + rest)
    ensures hand[1..][|rest|..] == hand[|[first] + rest|..]
  {
    hide SentBy;
    var outcomes := [first] + rest;
    assert outcomes[..1] == [first] && outcomes[1..] == rest;
    SentByHead(hand, outcomes);
  }

  lemma SentByHead(hand: seq<Blob>, outcomes: seq<Option<string>>)
    requires 0 < |outcomes| <= |hand|
    ensures SentBy(hand, outcomes) == SentBy(hand[..1], outcomes[..1]) + SentBy(hand[1..], outcomes[1..])
  {
    assert outcomes[..1][1..] == [];
  }

  // ---------------------------------------------------------------------------------------------
  // How long a blob stays
  // ---------------------------------------------------------------------------------------------

  /** The blobs that were asked for by then have been tried at least `k` times. */
  ghost predicate Tried(bs: seq<Blob>, asked: multiset<nat>, k: nat) {
    forall b | b in bs && b.id in asked :: b.attempts >= k
  }

  lemma StepRaises(w: World, step: Step, asked: multiset<nat>, k: nat)
    requires Enabled(w, step) && !step.Drain? && asked <= w.asked
    requires Tried(w.hand, asked, k) && Tried(w.items, asked, k + 1)
    ensures var w' := Next(w, step); asked <= w'.asked && Tried(w'.hand, asked, k) && Tried(w'.items, asked, k + 1)
  {
    if step.Upload? { assert w.hand[0] in w.hand; }
  }

  lemma {:induction false} SegmentRaises(w: World, steps: seq<Step>, w': World, asked: multiset<nat>, k: nat)
    requires Inv(w) && Leads(w, steps, w') && WithinTick(steps) && asked <= w.asked
    requires Tried(w.hand, asked, k) && Tried(w.items, asked, k + 1)
    ensures Inv(w') && asked <= w'.asked && Tried(w'.items, asked, k + 1)
    decreases |steps|
  {
    hide Inv, Tried;
    if steps != [] {
      InvNext(w, steps[0]);
      StepRaises(w, steps[0], asked, k);
      hide Next;
      SegmentRaises(Next(w, steps[0]), steps[1..], w', asked, k);
    }
  }

  lemma TickRaises(w: World, steps: seq<Step>, w': World, asked: multiset<nat>, k: nat)
    requires Inv(w) && Ticks(w, steps, w') && asked <= w.asked && Tried(w.items, asked, k)
    ensures Inv(w') && asked <= w'.asked && Tried(w'.items, asked, k + 1)
  {
    InvNext(w, Drain);
    SegmentRaises(Next(w, Drain), steps, w', asked, k);
  }

  /** Whatever the uploads do and whatever else is enqueued, a blob is out of the queue after three ticks. */
  lemma OldBlobsLeaveInThreeTicks(w: World, s1: seq<Step>, w1: World,
                                   s2: seq<Step>, w2: World, s3: seq<Step>, w3: World)
    requires Inv(w) && Ticks(w, s1, w1) && Ticks(w1, s2, w2) && Ticks(w2, s3, w3)
    ensures forall b | b in w3.items :: b.id !in w.asked
  {
    hide Inv, Ticks;
    TickRaises(w, s1, w1, w.asked, 0);
    TickRaises(w1, s2, w2, w.asked, 1);
    TickRaises(w2, s3, w3, w.asked, 2);
    Exhausted(w3, w.asked);
  }

  lemma Exhausted(w: World, asked: multiset<nat>)
    requires Inv(w) && Tried(w.items, asked, MAX_BLOB_ATTEMPTS)
    ensures forall b | b in w.items :: b.id !in asked
  {
    forall b | b in w.items ensures b.id !in asked { assert Live(w, b); }
  }

  /** With nothing new enqueued three ticks empty the queue. */
  lemma EmptyAfterThreeTicks(w: World, s1: seq<Step>, w1: World, s2: seq<Step>, w2: World, s3: seq<Step>, w3: World)
    requires Inv(w) && Ticks(w, s1, w1) && Ticks(w1, s2, w2) && Ticks(w2, s3, w3)
    requires forall step | step in s1 || step in s2 || step in s3 :: !step.Enqueue?
    ensures w3.items == []
  {
    OldBlobsLeaveInThreeTicks(w, s1, w1, s2, w2, s3, w3);
    AskedStays(Next(w, Drain), s1, w1);
    AskedStays(Next(w1, Drain), s2, w2);
    AskedStays(Next(w2, Drain), s3, w3);
    hide Leads;
    InvNext(w, Drain);
    LeadsInv(Next(w, Drain), s1, w1);
    InvNext(w1, Drain);
    LeadsInv(Next(w1, Drain), s2, w2);
    InvNext(w2, Drain);
    LeadsInv(Next(w2, Drain), s3, w3);
    if w3.items != [] { QueuedIsAsked(w3, w3.items[0]); }
  }

  lemma {:induction false} AskedStays(w: World, steps: seq<Step>, w': World)
    requires Leads(w, steps, w') && forall step | step in steps :: !step.Enqueue?
    ensures w'.asked == w.asked
    decreases |steps|
  {
    if steps != [] {
      assert Next(w, steps[0]).asked == w.asked;
      AskedStays(Next(w, steps[0]), steps[1..], w');
    }
  }

  lemma QueuedIsAsked(w: World, b: Blob)
    requires Inv(w) && b in w.items
    ensures b.id in w.asked
  {
    CountHas(w.items, b);
    assert Places(w, b.id) == w.asked[b.id];
  }

  /** Two ticks are not enough for a blob that keeps failing. */
  lemma TwoTicksMayNotDo(b: Blob, cap: nat) returns (w1: World, w2: World)
    requires b.attempts == 0 && cap > 0
    ensures Ticks(Next(Init(cap), Enqueue(b)), [Upload(None)], w1) && Ticks(w1, [Upload(None)], w2)
    ensures w2.items == [b.(attempts := 2)]
  {
    var w := Next(Init(cap), Enqueue(b));
    assert w.items == [b];
    w1 := TickFails(w, b);
    w2 := TickFails(w1, b.(attempts := 1));
  }

  lemma TickFails(w: World, b: Blob) returns (w': World)
    requires w.items == [b] && w.hand == [] && b.attempts + 1 < MAX_BLOB_ATTEMPTS && w.cap > 0
    ensures Ticks(w, [Upload(None)], w') && w'.items == [b.(attempts := b.attempts + 1)]
        && w'.hand == [] && w'.cap == w.cap
  {
    var w1 := Next(w, Drain);
    w' := Next(w1, Upload(None));
    assert w1.hand[1..] == [] && w'.items == [] + [b.(attempts := b.attempts + 1)];
    var steps := [Upload(None)];
    assert steps[0] == Upload(None) && steps[1..] == [];
    assert Leads(w', steps[1..], w');
  }

  // ---------------------------------------------------------------------------------------------
  // Remote URIs
  // ---------------------------------------------------------------------------------------------

  function UriMap(sent: seq<Sent>): map<string, string> {
    if sent == [] then map[]
    else UriMap(sent[..|sent| - 1])[sent[|sent| - 1].local := sent[|sent| - 1].remote]
  }

  lemma {:induction false} UriMapIsSent(sent: seq<Sent>)
    ensures forall u | u in UriMap(sent) :: Sent(u, UriMap(sent)[u]) in sent
    ensures forall s | s in sent :: s.local in UriMap(sent)
  {
    if sent != [] {
      UriMapIsSent(sent[..|sent| - 1]);
      assert sent == sent[..|sent| - 1] + [sent[|sent| - 1]];
    }
  }

  /** One of the blobs in hand has this local URI and its upload got this remote one. */
  ghost predicate UploadedAs(hand: seq<Blob>, outcomes: seq<Option<string>>, local: string, remote: string) {
    exists k :: 0 <= k < |hand| && k < |outcomes| && hand[k].uri == local && outcomes[k] == Some(remote)
  }

  /** The successes are the uploads that got a remote URI, and only those. */
  lemma {:induction false} SentIsUploaded(hand: seq<Blob>, outcomes: seq<Option<string>>, s: Sent)
    requires |outcomes| <= |hand|
    ensures s in SentBy(hand, outcomes) <==> UploadedAs(hand, outcomes, s.local, s.remote)
  {
    if outcomes != [] {
      SentIsUploaded(hand[1..], outcomes[1..], s);
      UploadedCons(hand, outcomes, s);
    }
  }

  lemma UploadedCons(hand: seq<Blob>, outcomes: seq<Option<string>>, s: Sent)
    requires 0 < |outcomes| <= |hand|
    ensures UploadedAs(hand, outcomes, s.local, s.remote) <==>
      (hand[0].uri == s.local && outcomes[0] == Some(s.remote))
      || UploadedAs(hand[1..], outcomes[1..], s.local, s.remote)
  {
    if UploadedAs(hand[1..], outcomes[1..], s.local, s.remote) {
      var k :| 0 <= k < |hand[1..]| && k < |outcomes[1..]|
        && hand[1..][k].uri == s.local && outcomes[1..][k] == Some(s.remote);
      assert hand[k + 1].uri == s.local && outcomes[k + 1] == Some(s.remote);
    }
    if UploadedAs(hand, outcomes, s.local, s.remote) {
      var k :| 0 <= k < |hand| && k < |outcomes| && hand[k].uri == s.local && outcomes[k] == Some(s.remote);
      if k > 0 { assert hand[1..][k - 1].uri == s.local && outcomes[1..][k - 1] == Some(s.remote); }
    }
  }

  /** At any moment of a tick the successes are exactly the uploads so far of blobs drained by this tick. */
  lemma SentThisTick(w: World, steps: seq<Step>, w': World, s: Sent)
    requires w.hand == [] && WithinTick(steps) && Leads(Next(w, Drain), steps, w')
    ensures s in w'.sent <==> UploadedAs(w.items, Uploads(steps), s.local, s.remote)
  {
    SegmentSends(Next(w, Drain), steps, w');
    SentIsUploaded(w.items, Uploads(steps), s);
    assert [] + SentBy(w.items, Uploads(steps)) == SentBy(w.items, Uploads(steps));
  }

  /** A record's `blob_uri`, if it has one. */
  type Record = Option<string>

  function Rewritten(r: Record, uris: map<string, string>): Record {
    if r.Some? && r.value in uris then Some(uris[r.value]) else r
  }

  /** `_apply_uri_map`: records are rewritten in place. */
  method ApplyUriMap(records: array<Record>, uris: map<string, string>)
    modifies records
    ensures forall i | 0 <= i < records.Length :: records[i] == Rewritten(old(records[i]), uris)
  {
    for i := 0 to records.Length
      invariant forall j | 0 <= j < i :: records[j] == Rewritten(old(records[j]), uris)
      invariant forall j | i <= j < records.Length :: records[j] == old(records[j])
    {
      if records[i].Some? && records[i].value in uris {
        records[i] := Some(uris[records[i].value]);
      }
    }
  }

  /** A record leaves with another URI only if a blob of its own URI was uploaded in that tick. */
  lemma RemoteOnlyIfUploaded(w: World, steps: seq<Step>, w': World, r: Record)
    requires w.hand == [] && WithinTick(steps) && Leads(Next(w, Drain), steps, w')
    ensures var r' := Rewritten(r, UriMap(w'.sent));
      r' != r ==> r.Some? && r'.Some? && UploadedAs(w.items, Uploads(steps), r.value, r'.value)
  {
    UriMapIsSent(w'.sent);
    var r' := Rewritten(r, UriMap(w'.sent));
    if r' != r { SentThisTick(w, steps, w', Sent(r.value, r'.value)); }
  }

  /** Conversely, the URI of every blob uploaded in the tick is mapped. */
  lemma UploadedIsRewritten(w: World, steps: seq<Step>, w': World, k: nat)
    requires w.hand == [] && WithinTick(steps) && Leads(Next(w, Drain), steps, w')
    requires k < |w.items| && k < |Uploads(steps)| && Uploads(steps)[k].Some?
    ensures w.items[k].uri in UriMap(w'.sent)
  {
    UriMapIsSent(w'.sent);
    SentThisTick(w, steps, w', Sent(w.items[k].uri, Uploads(steps)[k].value));
  }

  // ---------------------------------------------------------------------------------------------
  // The flush thread's loop and the producers
  // ---------------------------------------------------------------------------------------------

  /** One turn of the loop: what producers enqueue before the upload, and the upload's answer. */
  datatype Turn = Turn(arrivals: seq<Blob>, remote: Option<string>)

  function Arrivals(bs: seq<Blob>): seq<Step> {
    if bs == [] then [] else [Enqueue(bs[0])] + Arrivals(bs[1..])
  }

  function StepsOf(turns: seq<Turn>): seq<Step> {
    if turns == [] then []
    else Arrivals(turns[0].arrivals) + ([Upload(turns[0].remote)] + StepsOf(turns[1..]))
  }

  lemma {:induction false} ArrivalsUpload(bs: seq<Blob>, rest: seq<Step>)
    ensures Uploads(Arrivals(bs) + rest) == Uploads(rest)
    ensures WithinTick(rest) ==> WithinTick(Arrivals(bs) + rest)
  {
    if bs == [] {
      assert Arrivals(bs) + rest == rest;
    } else {
      ArrivalsUpload(bs[1..], rest);
      assert Arrivals(bs) + rest == [Enqueue(bs[0])] + (Arrivals(bs[1..]) + rest);
    }
  }

  lemma {:induction false} StepsUpload(turns: seq<Turn>)
    ensures |Uploads(StepsOf(turns))| == |turns| && WithinTick(StepsOf(turns))
  {
    if turns != [] {
      StepsUpload(turns[1..]);
      ArrivalsUpload(turns[0].arrivals, [Upload(turns[0].remote)] + StepsOf(turns[1..]));
    }
  }

  /** Exactly as many turns lead to an end as there are blobs in hand. */
  lemma {:induction false} TurnsFit(w: World, turns: seq<Turn>, goal: World)
    requires Leads(w, StepsOf(turns), goal) && goal.hand == []
    ensures |turns| == |w.hand|
  {
    StepsUpload(turns);
    SegmentSends(w, StepsOf(turns), goal);
  }

  // ---------------------------------------------------------------------------------------------
  // The queue and its consumer
  // ---------------------------------------------------------------------------------------------

  class BlobUploadQueue {
    const softCap: nat
    var items: seq<Blob>
    var dropCount: nat

    constructor (cap: nat)
      ensures softCap == cap && items == [] && dropCount == 0
    {
      softCap, items, dropCount := cap, [], 0;
    }

    method Enqueue(blob: Blob)
      modifies this
      ensures if |old(items)| >= softCap then items == old(items) && dropCount == old(dropCount) + 1
        else items == old(items) + [blob] && dropCount == old(dropCount)
    {
      if |items| >= softCap {
        dropCount := dropCount + 1;
        return;
      }
      items := items + [blob];
    }

    method Drain() returns (out: seq<Blob>)
      modifies this`items
      ensures out == old(items) && items == []
    {
      out := items;
      items := [];
    }
  }

  class FlushThread {
    const queue: BlobUploadQueue
    var pending: seq<Blob>          // the rest of the drained list
    var uris: map<string, string>   // the map being built
    ghost var world: World

    ghost predicate Valid()
      reads this, queue
    {
      && queue.items == world.items && queue.dropCount == world.drops && queue.softCap == world.cap
      && pending == world.hand && uris == UriMap(world.sent)
      && Inv(world)
    }

    constructor (queue: BlobUploadQueue)
      requires queue.items == [] && queue.dropCount == 0
      ensures Valid() && world == Init(queue.softCap) && this.queue == queue
    {
      this.queue := queue;
      pending, uris := [], map[];
      world := Init(queue.softCap);
    }

    /** A producer on another thread, at any moment. */
    method Produce(blob: Blob)
      requires Valid() && Enabled(world, Enqueue(blob))
      modifies this`world, queue
      ensures Valid() && world == Next(old(world), Enqueue(blob)) && pending == old(pending)
      ensures if |old(queue.items)| >= queue.softCap
        then queue.items == old(queue.items) && queue.dropCount == old(queue.dropCount) + 1
        else queue.items == old(queue.items) + [blob] && queue.dropCount == old(queue.dropCount)
    {
      hide Inv;
      InvNext(world, Enqueue(blob));
      queue.Enqueue(blob);
      world := Next(world, Enqueue(blob));
    }

    method BeginDrain()
      requires Valid() && pending == []
      modifies this, queue
      ensures Valid() && world == Next(old(world), BlobMachine.Drain)
      ensures pending == old(queue.items) && queue.items == [] && uris == map[]
    {
      hide Inv;
      InvNext(world, BlobMachine.Drain);
      pending := queue.Drain();
      uris := map[];
      world := Next(world, BlobMachine.Drain);
    }

    /** One turn of the loop; an upload that raises counts as one that returned nothing. */
    method TryNext(remote: Option<string>)
      requires Valid() && pending != []
      modifies this, queue
      ensures Valid() && world == Next(old(world), Upload(remote))
      ensures pending == old(pending)[1..]
      ensures var blob := old(pending)[0];
        if remote.Some? then uris == old(uris)[blob.uri := remote.value] && queue.items == old(queue.items)
        else uris == old(uris) && (blob.attempts + 1 >= 3 ==> queue.items == old(queue.items))
      ensures var blob := old(pending)[0];
        remote.None? && blob.attempts + 1 < 3 && |old(queue.items)| < queue.softCap ==>
          queue.items == old(queue.items) + [blob.(attempts := blob.attempts + 1)]
    {
      hide Inv;
      InvNext(world, Upload(remote));
      ghost var w := world;
      var blob := pending[0];
      pending := pending[1..];
      if remote.Some? {
        uris := uris[blob.uri := remote.value];
        UriMapStep(w.sent, Sent(blob.uri, remote.value));
      } else {
        HandleUploadFailure(blob);
      }
      world := Next(w, Upload(remote));
    }

    /** Re-enqueue with one more attempt, or give up at the limit. */
    method HandleUploadFailure(blob: Blob)
      modifies queue
      ensures var next := blob.(attempts := blob.attempts + 1);
        if next.attempts >= MAX_BLOB_ATTEMPTS
          then queue.items == old(queue.items) && queue.dropCount == old(queue.dropCount)
        else if |old(queue.items)| >= queue.softCap
          then queue.items == old(queue.items) && queue.dropCount == old(queue.dropCount) + 1
        else queue.items == old(queue.items) + [next] && queue.dropCount == old(queue.dropCount)
    {
      var nextAttempts := blob.attempts + 1;
      if nextAttempts >= MAX_BLOB_ATTEMPTS { return; }
      queue.Enqueue(blob.(attempts := nextAttempts));
    }

    /** `_drain_blobs`, with producers at work between the uploads; `goal` is where the turns lead. */
    method DrainBlobs(turns: seq<Turn>, ghost goal: World) returns (uriMap: map<string, string>)
      requires Valid() && pending == [] && Ticks(world, StepsOf(turns), goal)
      modifies this, queue
      ensures Valid() && world == goal && pending == []
      ensures uriMap == UriMap(world.sent)
    {
      hide Inv, Next, Uploads;
      BeginDrain();
      var i := 0;
      assert turns[0..] == turns;
      TurnsFit(world, turns, goal);
      while pending != []
        invariant Valid() && i + |pending| == |turns| && Leads(world, StepsOf(turns[i..]), goal)
        decreases |pending|
      {
        TakeTurn(turns[i], turns[i + 1..], goal);
        assert turns[i..][0] == turns[i] && turns[i..][1..] == turns[i + 1..];
        i := i + 1;
        TurnsFit(world, turns[i..], goal);
      }
      return uris;
    }

    method TakeTurn(turn: Turn, ghost later: seq<Turn>, ghost goal: World)
      requires Valid() && pending != [] && goal.hand == []
      requires Leads(world, StepsOf([turn] + later), goal)
      modifies this, queue
      ensures Valid() && Leads(world, StepsOf(later), goal) && |pending| == |old(pending)| - 1
    {
      hide Inv, Next;
      assert ([turn] + later)[1..] == later;
      ghost var rest := [Upload(turn.remote)] + StepsOf(later);
      assert StepsOf([turn] + later) == Arrivals(turn.arrivals) + rest;
      Arrive(turn.arrivals, rest, goal);
      assert rest[0] == Upload(turn.remote) && rest[1..] == StepsOf(later);
      NextHand(world, Upload(turn.remote));
      TryNext(turn.remote);
    }

    method Arrive(bs: seq<Blob>, ghost rest: seq<Step>, ghost goal: World)
      requires Valid() && Leads(world, Arrivals(bs) + rest, goal)
      modifies this`world, queue
      ensures Valid() && Leads(world, rest, goal) && pending == old(pending)
      decreases |bs|
    {
      hide Inv, Next;
      if bs == [] {
        assert Arrivals(bs) + rest == rest;
        return;
      }
      assert Arrivals(bs) + rest == [Enqueue(bs[0])] + (Arrivals(bs[1..]) + rest);
      Produce(bs[0]);
      Arrive(bs[1..], rest, goal);
    }

    /** The blob part of a tick: upload and rewrite the tick's records, or discard without a transport. */
    method TickBlobs(records: array<Record>, hasTransport: bool, turns: seq<Turn>, ghost goal: World)
      requires Valid() && pending == [] && (hasTransport ==> Ticks(world, StepsOf(turns), goal))
      modifies this, queue, records
      ensures Valid() && pending == []
      ensures world == if hasTransport then goal else Next(old(world), Discard)
      ensures forall i | 0 <= i < records.Length ::
        records[i] == if hasTransport then Rewritten(old(records[i]), UriMap(world.sent)) else old(records[i])
    {
      hide Inv, Ticks, Rewritten;
      if hasTransport {
        var uriMap := DrainBlobs(turns, goal);
        ApplyUriMap(records, uriMap);
      } else {
        DiscardPending();
      }
    }

    /** `_discard_pending_blobs`: the spool-only tick. */
    method DiscardPending()
      requires Valid() && pending == []
      modifies this`world, queue
      ensures Valid() && world == Next(old(world), Discard) && queue.items == []
    {
      hide Inv;
      InvNext(world, Discard);
      var dropped := queue.Drain();
      world := Next(world, Discard);
    }
  }

  lemma UriMapStep(sent: seq<Sent>, s: Sent)
    ensures UriMap(sent + [s]) == UriMap(sent)[s.local := s.remote]
  {
    assert (sent + [s])[..|sent|] == sent;
  }
}
