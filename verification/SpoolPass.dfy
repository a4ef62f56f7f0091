/**
 The spool directory and one cap pass over it, as functions of what the other ranks do meanwhile.

 Peers may create, seal and delete files at any point between our own operations, and any unlink of ours may
 be refused. Batch names are never reused.
 */
module SpoolPass {

  const RESCAN_EVERY_WRITES: nat := 256
  const TMP_STALE_SEC: int := 3600

  /** `<name>.json`, a sealed batch, or `<name>.json.tmp`, a batch still being written. */
  datatype File = Sealed(name: string) | Temp(name: string)

  datatype Meta = Meta(size: nat, mtime: int)

  /** The directory and every name that was ever used in it. */
  datatype Disk = Disk(files: map<File, Meta>, names: set<string>)

  datatype PeerAct = Create(name: string, meta: Meta) | Seal(name: string) | Delete(file: File)

  /** What happens around one of our unlinks: peers first, then the outcome, then peers before we look again. */
  datatype Turn = Turn(before: seq<PeerAct>, between: seq<PeerAct>, denied: bool)

  datatype Entry = Entry(file: File, size: nat, mtime: int)

  datatype Scan = Scan(batches: seq<Entry>, tmps: seq<Entry>)

  function Unlink(d: Disk, f: File): Disk {
    d.(files := d.files - {f})
  }

  function Act(d: Disk, act: PeerAct): Disk {
    match act
    case Create(n, meta) =>
      if n in d.names then d else Disk(d.files[Temp(n) := meta], d.names + {n})
    case Seal(n) =>
      if Temp(n) in d.files then d.(files := (d.files - {Temp(n)})[Sealed(n) := d.files[Temp(n)]]) else d
    case Delete(f) => Unlink(d, f)
  }

  function Acts(d: Disk, acts: seq<PeerAct>): Disk
    decreases |acts|
  {
    if acts == [] then d else Acts(Act(d, acts[0]), acts[1..])
  }

  // ---------------------------------------------------------------------------------------------
  // The sweep of stale temporary files
  // ---------------------------------------------------------------------------------------------

  datatype Sweeping = Sweeping(disk: Disk, reclaimed: nat, swept: nat)

  /** One temporary file: a vanished one is credited only if it was not sealed in the meantime. */
  function SweepOne(cutoff: int, e: Entry, turn: Turn, w: Sweeping): Sweeping {
    if e.mtime > cutoff then w
    else
      var d := Acts(w.disk, turn.before);
      if e.file !in d.files then
        var d' := Acts(d, turn.between);
        w.(disk := d', reclaimed := w.reclaimed + if Sealed(e.file.name) in d'.files then 0 else e.size)
      else if turn.denied then w.(disk := d)
      else Sweeping(Unlink(d, e.file), w.reclaimed + e.size, w.swept + 1)
  }

  function Sweep(cutoff: int, tmps: seq<Entry>, i: nat, turns: nat -> Turn, w: Sweeping): Sweeping
    requires i <= |tmps|
    decreases |tmps| - i
  {
    if i == |tmps| then w else Sweep(cutoff, tmps, i + 1, turns, SweepOne(cutoff, tmps[i], turns(i), w))
  }

  // ---------------------------------------------------------------------------------------------
  // Eviction
  // ---------------------------------------------------------------------------------------------

  /** `own` lists our evictions with the tracked total at the moment of each; `refused` counts the refusals. */
  datatype Evicting = Evicting(disk: Disk, total: int, own: seq<(File, int)>, refused: nat)

  function EvictOne(e: Entry, turn: Turn, v: Evicting): Evicting {
    var d := Acts(v.disk, turn.before);
    if e.file !in d.files then v.(disk := d, total := v.total - e.size)
    else if turn.denied then v.(disk := d, refused := v.refused + 1)
    else Evicting(Unlink(d, e.file), v.total - e.size, v.own + [(e.file, v.total)], v.refused)
  }

  function Evict(max: nat, batches: seq<Entry>, i: nat, turns: nat -> Turn, v: Evicting): Evicting
    requires i <= |batches|
    decreases |batches| - i
  {
    if i == |batches| || v.total <= max then v
    else Evict(max, batches, i + 1, turns, EvictOne(batches[i], turns(i), v))
  }

  // ---------------------------------------------------------------------------------------------
  // What a race with a peer comes to
  // ---------------------------------------------------------------------------------------------

  /** A batch a peer evicted first: its bytes come off the total, but the eviction is not ours. */
  lemma PeerEvictedFirst(e: Entry, turn: Turn, v: Evicting)
    requires e.file !in Acts(v.disk, turn.before).files
    ensures var v' := EvictOne(e, turn, v);
      v'.total == v.total - e.size && v'.own == v.own && v'.refused == v.refused && e.file !in v'.disk.files
  {
  }

  /** A batch still there: gone and ours, or refused, there still, and still counted. */
  lemma EvictedOrRefused(e: Entry, turn: Turn, v: Evicting)
    requires e.file in Acts(v.disk, turn.before).files
    ensures var v' := EvictOne(e, turn, v);
      if turn.denied then (
        && v'.total == v.total && v'.own == v.own && v'.refused == v.refused + 1 && e.file in v'.disk.files)
      else (
        && v'.total == v.total - e.size && v'.own == v.own + [(e.file, v.total)] && v'.refused == v.refused
        && v'.disk.files == Acts(v.disk, turn.before).files - {e.file})
  {
  }

  /** A stale temp file that vanished: credited exactly if the peer did not seal it, never counted as swept. */
  lemma PeerTookTemp(cutoff: int, e: Entry, turn: Turn, w: Sweeping)
    requires e.mtime <= cutoff && e.file !in Acts(w.disk, turn.before).files
    ensures var w' := SweepOne(cutoff, e, turn, w);
      && w'.swept == w.swept
      && w'.reclaimed == w.reclaimed + if Sealed(e.file.name) in w'.disk.files then 0 else e.size
  {
  }

  /** A stale temp file still there: swept and credited, or refused and not; a fresh one is left alone. */
  lemma TempSweptOrLeft(cutoff: int, e: Entry, turn: Turn, w: Sweeping)
    requires e.mtime <= cutoff ==> e.file in Acts(w.disk, turn.before).files
    ensures var w' := SweepOne(cutoff, e, turn, w);
      if e.mtime > cutoff then w' == w
      else if turn.denied then w'.reclaimed == w.reclaimed && w'.swept == w.swept && e.file in w'.disk.files
      else (
        && w'.reclaimed == w.reclaimed + e.size && w'.swept == w.swept + 1
        && w'.disk.files == Acts(w.disk, turn.before).files - {e.file})
  {
  }

  /** The pass looks at the temp files with an hour's grace, and starts evicting from what they left of the total. */
  lemma PassStarts(y: Spool, scan: Scan, now: int, sweeps: nat -> Turn, turns: nat -> Turn)
    ensures var w := Sweep(now - 3600, scan.tmps, 0, sweeps, Sweeping(y.disk, 0, 0));
      var y' := Enforce(y, scan, now, sweeps, turns);
      && y'.sinceScan == 0 && y'.max == y.max
      && (y'.blocked <==> SumSizes(scan.tmps) >= y.max + w.reclaimed)
      && (y'.blocked ==> y'.disk == w.disk && y'.total == SumSizes(scan.batches) + SumSizes(scan.tmps) - w.reclaimed)
  {
  }

  // ---------------------------------------------------------------------------------------------
  // The pass and the writer
  // ---------------------------------------------------------------------------------------------

  datatype Spool = Spool(max: nat, total: int, sinceScan: nat, blocked: bool, drops: nat, disk: Disk)

  function SumSizes(q: seq<Entry>): nat {
    if q == [] then 0 else q[0].size + SumSizes(q[1..])
  }

  function Total(scan: Scan): nat {
    SumSizes(scan.batches) + SumSizes(scan.tmps)
  }

  function Swept(y: Spool, scan: Scan, now: int, turns: nat -> Turn): Sweeping {
    Sweep(now - TMP_STALE_SEC, scan.tmps, 0, turns, Sweeping(y.disk, 0, 0))
  }

  predicate Blocked(y: Spool, scan: Scan, now: int, turns: nat -> Turn) {
    SumSizes(scan.tmps) as int - Swept(y, scan, now, turns).reclaimed as int >= y.max
  }

  function Evicted(y: Spool, scan: Scan, now: int, sweeps: nat -> Turn, turns: nat -> Turn): Evicting {
    var w := Swept(y, scan, now, sweeps);
    Evict(y.max, scan.batches, 0, turns, Evicting(w.disk, Total(scan) as int - w.reclaimed as int, [], 0))
  }

  /** One cap pass: sweep, then either give up because temporary files alone fill the cap, or evict. */
  function Enforce(y: Spool, scan: Scan, now: int, sweeps: nat -> Turn, turns: nat -> Turn): Spool {
    var w := Swept(y, scan, now, sweeps);
    if Blocked(y, scan, now, sweeps) then
      y.(total := Total(scan) as int - w.reclaimed as int, sinceScan := 0, blocked := true, disk := w.disk)
    else
      var v := Evicted(y, scan, now, sweeps, turns);
      y.(total := v.total, sinceScan := 0, blocked := false, drops := y.drops + |v.own|, disk := v.disk)
  }

  /** The state after a batch is in place and credited, before the cap is considered. */
  function Credit(y: Spool, name: string, meta: Meta): Spool {
    y.(total := y.total + meta.size as int, sinceScan := y.sinceScan + 1,
       disk := Disk(y.disk.files[Sealed(name) := meta], y.disk.names + {name}))
  }

  predicate NeedsPass(y: Spool) {
    (y.total > y.max && !y.blocked) || y.sinceScan >= RESCAN_EVERY_WRITES
  }

  // ---------------------------------------------------------------------------------------------
  // What the peers cannot do: give a scanned file back the bytes it lost
  // ---------------------------------------------------------------------------------------------

  function SizeOf(d: Disk, f: File): nat {
    if f in d.files then d.files[f].size else 0
  }

  /** The bytes a batch still occupies, sealed or not. */
  function Held(d: Disk, name: string): nat {
    SizeOf(d, Temp(name)) + SizeOf(d, Sealed(name))
  }

  function SumHeld(d: Disk, q: seq<Entry>): nat {
    if q == [] then 0 else Held(d, q[0].file.name) + SumHeld(d, q[1..])
  }

  ghost predicate DiskOk(d: Disk) {
    && (forall n | Temp(n) in d.files :: Sealed(n) !in d.files)
    && (forall f | f in d.files :: f.name in d.names)
  }

  ghost predicate Degraded(d: Disk, d': Disk) {
    && DiskOk(d')
    && d.names <= d'.names
    && (forall n | n in d.names ::
          && Held(d', n) <= Held(d, n)
          && (Temp(n) !in d.files ==> Temp(n) !in d'.files))
  }

  lemma DegradedTransitive(a: Disk, b: Disk, c: Disk)
    requires Degraded(a, b) && Degraded(b, c)
    ensures Degraded(a, c)
  {
  }

  lemma UnlinkDegrades(d: Disk, f: File)
    requires DiskOk(d)
    ensures Degraded(d, Unlink(d, f))
  {
  }

  lemma ActDegrades(d: Disk, act: PeerAct)
    requires DiskOk(d)
    ensures Degraded(d, Act(d, act))
  {
  }

  lemma {:induction false} ActsDegrade(d: Disk, acts: seq<PeerAct>)
    requires DiskOk(d)
    ensures Degraded(d, Acts(d, acts))
    decreases |acts|
  {
    if acts != [] {
      ActDegrades(d, acts[0]);
      ActsDegrade(Act(d, acts[0]), acts[1..]);
      DegradedTransitive(d, Act(d, acts[0]), Acts(d, acts));
    }
  }

  /** A scanned entry: its name is used up, a sealed one has no temporary twin, and it only shrinks. */
  ghost predicate EntryOk(d: Disk, e: Entry) {
    && e.file.name in d.names
    && (e.file.Sealed? ==> Temp(e.file.name) !in d.files)
    && Held(d, e.file.name) <= e.size
  }

  lemma {:induction false} SumHeldShrinks(d: Disk, d': Disk, q: seq<Entry>)
    requires Degraded(d, d') && forall e | e in q :: EntryOk(d, e)
    ensures SumHeld(d', q) <= SumHeld(d, q) && forall e | e in q :: EntryOk(d', e)
  {
    if q != [] {
      assert EntryOk(d, q[0]);
      SumHeldShrinks(d, d', q[1..]);
      assert forall e | e in q :: e == q[0] || e in q[1..];
    }
  }

  /** Whatever a sweep step takes off the total is really gone, and stays gone. */
  lemma SweepOneHeld(cutoff: int, e: Entry, turn: Turn, w: Sweeping)
    requires DiskOk(w.disk) && EntryOk(w.disk, e) && e.file.Temp?
    ensures var w' := SweepOne(cutoff, e, turn, w);
      Degraded(w.disk, w'.disk) && Held(w'.disk, e.file.name) + (w'.reclaimed - w.reclaimed) <= e.size
      && w'.reclaimed >= w.reclaimed
  {
    if e.mtime <= cutoff {
      var d := Acts(w.disk, turn.before);
      ActsDegrade(w.disk, turn.before);
      ActsDegrade(d, turn.between);
      DegradedTransitive(w.disk, d, Acts(d, turn.between));
      UnlinkDegrades(d, e.file);
      DegradedTransitive(w.disk, d, Unlink(d, e.file));
      assert e.file == Temp(e.file.name);
    }
  }

  lemma {:induction false} SweepHeld(cutoff: int, tmps: seq<Entry>, i: nat, turns: nat -> Turn, w: Sweeping)
    requires i <= |tmps| && DiskOk(w.disk)
    requires forall e | e in tmps[i..] :: EntryOk(w.disk, e) && e.file.Temp?
    ensures var w' := Sweep(cutoff, tmps, i, turns, w);
      Degraded(w.disk, w'.disk) && w'.reclaimed >= w.reclaimed
      && SumHeld(w'.disk, tmps[i..]) + (w'.reclaimed - w.reclaimed) <= SumSizes(tmps[i..])
    decreases |tmps| - i
  {
    if i < |tmps| {
      var w1 := SweepOne(cutoff, tmps[i], turns(i), w);
      var w' := Sweep(cutoff, tmps, i, turns, w);
      assert tmps[i] in tmps[i..] && tmps[i..][1..] == tmps[i + 1..];
      SweepOneHeld(cutoff, tmps[i], turns(i), w);
      SumHeldShrinks(w.disk, w1.disk, tmps[i + 1..]);
      SweepHeld(cutoff, tmps, i + 1, turns, w1);
      DegradedTransitive(w.disk, w1.disk, w'.disk);
      assert Held(w'.disk, tmps[i].file.name) <= Held(w1.disk, tmps[i].file.name);
    }
  }

  lemma EvictOneHeld(e: Entry, turn: Turn, v: Evicting)
    requires DiskOk(v.disk) && EntryOk(v.disk, e) && e.file.Sealed?
    ensures var v' := EvictOne(e, turn, v);
      Degraded(v.disk, v'.disk) && Held(v'.disk, e.file.name) + (v.total - v'.total) <= e.size && v'.total <= v.total
  {
    var d := Acts(v.disk, turn.before);
    ActsDegrade(v.disk, turn.before);
    UnlinkDegrades(d, e.file);
    DegradedTransitive(v.disk, d, Unlink(d, e.file));
    assert e.file == Sealed(e.file.name);
  }

  lemma {:induction false} EvictHeld(max: nat, q: seq<Entry>, i: nat, turns: nat -> Turn, v: Evicting)
    requires i <= |q| && DiskOk(v.disk)
    requires forall e | e in q[i..] :: EntryOk(v.disk, e) && e.file.Sealed?
    ensures var v' := Evict(max, q, i, turns, v);
      Degraded(v.disk, v'.disk) && SumHeld(v'.disk, q[i..]) + (v.total - v'.total) <= SumSizes(q[i..])
    decreases |q| - i
  {
    if i == |q| || v.total <= max {
      SumHeldBound(v.disk, q[i..]);
    } else {
      var v1 := EvictOne(q[i], turns(i), v);
      var v' := Evict(max, q, i, turns, v);
      assert q[i] in q[i..] && q[i..][1..] == q[i + 1..];
      EvictOneHeld(q[i], turns(i), v);
      SumHeldShrinks(v.disk, v1.disk, q[i + 1..]);
      EvictHeld(max, q, i + 1, turns, v1);
      DegradedTransitive(v.disk, v1.disk, v'.disk);
      assert Held(v'.disk, q[i].file.name) <= Held(v1.disk, q[i].file.name);
    }
  }

  lemma {:induction false} SumHeldBound(d: Disk, q: seq<Entry>)
    requires forall e | e in q :: EntryOk(d, e)
    ensures SumHeld(d, q) <= SumSizes(q)
  {
    if q != [] {
      assert EntryOk(d, q[0]);
      SumHeldBound(d, q[1..]);
    }
  }

  /** The scan lists what is on disk; in the pass's order or any other. */
  ghost predicate Lists(d: Disk, scan: Scan) {
    && (forall e | e in scan.batches ::
          e.file.Sealed? && e.file in d.files && d.files[e.file] == Meta(e.size, e.mtime))
    && (forall e | e in scan.tmps ::
          e.file.Temp? && e.file in d.files && d.files[e.file] == Meta(e.size, e.mtime))
  }

  lemma ListedOk(d: Disk, scan: Scan)
    requires DiskOk(d) && Lists(d, scan)
    ensures forall e | e in scan.batches :: EntryOk(d, e)
    ensures forall e | e in scan.tmps :: EntryOk(d, e)
  {
    forall e | e in scan.batches
      ensures EntryOk(d, e)
    {
      assert e.file == Sealed(e.file.name);
    }
    forall e | e in scan.tmps
      ensures EntryOk(d, e)
    {
      assert e.file == Temp(e.file.name);
    }
  }

  /**
   Under any peers and any refusals the pass never undercounts: the recorded total is at least what the files
   it scanned still hold.
   */
  lemma NeverUndercounts(y: Spool, scan: Scan, now: int, sweeps: nat -> Turn, turns: nat -> Turn)
    requires DiskOk(y.disk) && Lists(y.disk, scan)
    ensures var y' := Enforce(y, scan, now, sweeps, turns);
      SumHeld(y'.disk, scan.batches) + SumHeld(y'.disk, scan.tmps) <= y'.total
  {
    var w := Swept(y, scan, now, sweeps);
    ListedOk(y.disk, scan);
    assert scan.tmps[0..] == scan.tmps && scan.batches[0..] == scan.batches;
    SweepHeld(now - TMP_STALE_SEC, scan.tmps, 0, sweeps, Sweeping(y.disk, 0, 0));
    SumHeldShrinks(y.disk, w.disk, scan.batches);
    if Blocked(y, scan, now, sweeps) {
      SumHeldBound(w.disk, scan.batches);
    } else {
      SumHeldShrinks(y.disk, w.disk, scan.tmps);
      var v0 := Evicting(w.disk, Total(scan) as int - w.reclaimed as int, [], 0);
      EvictHeld(y.max, scan.batches, 0, turns, v0);
      SumHeldShrinks(w.disk, Evict(y.max, scan.batches, 0, turns, v0).disk, scan.tmps);
    }
  }

  // ---------------------------------------------------------------------------------------------
  // The cap
  // ---------------------------------------------------------------------------------------------

  lemma {:induction false} EvictReaches(max: nat, q: seq<Entry>, i: nat, turns: nat -> Turn, v: Evicting)
    requires i <= |q|
    requires forall k | 0 <= k < |v.own| :: v.own[k].1 > max
    ensures var v' := Evict(max, q, i, turns, v);
      && (forall k | 0 <= k < |v'.own| :: v'.own[k].1 > max)
      && v'.refused >= v.refused
      && (v'.refused == v.refused ==> v'.total <= max || v'.total == v.total - SumSizes(q[i..]))
    decreases |q| - i
  {
    if i < |q| && v.total > max {
      assert q[i..][1..] == q[i + 1..];
      EvictReaches(max, q, i + 1, turns, EvictOne(q[i], turns(i), v));
    }
  }

  /**
   Under any peers: every eviction happens while the tracked total is above the cap, and a pass that was
   neither blocked nor refused an unlink ends within it.
   */
  lemma CapIsReached(y: Spool, scan: Scan, now: int, sweeps: nat -> Turn, turns: nat -> Turn)
    ensures var v := Evicted(y, scan, now, sweeps, turns); var y' := Enforce(y, scan, now, sweeps, turns);
      && (forall k | 0 <= k < |v.own| :: v.own[k].1 > y.max)
      && y'.blocked == Blocked(y, scan, now, sweeps)
      && (y'.blocked ==> y'.drops == y.drops)
      && (!y'.blocked && v.refused == 0 ==> y'.total <= y.max)
  {
    var w := Swept(y, scan, now, sweeps);
    assert scan.batches[0..] == scan.batches;
    EvictReaches(y.max, scan.batches, 0, turns, Evicting(w.disk, Total(scan) as int - w.reclaimed as int, [], 0));
  }
}
