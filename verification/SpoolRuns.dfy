/** One writer, unique names, no peers and no refusals: the running total is exact over whole runs. */
module SpoolRuns {
  import opened Common
  import opened SpoolPass
  import opened SpoolNames

  const CALM: Turn := Turn([], [], false)

  ghost predicate Calm(turns: nat -> Turn) {
    forall i :: turns(i) == CALM
  }

  // ---------------------------------------------------------------------------------------------
  // The bytes of a directory
  // ---------------------------------------------------------------------------------------------

  ghost function Bytes(files: map<File, Meta>): nat
    decreases |files|
  {
    if files == map[] then 0
    else
      var f :| f in files;
      assert (files - {f}).Keys == files.Keys - {f};
      files[f].size + Bytes(files - {f})
  }

  lemma {:induction false} BytesRemove(files: map<File, Meta>, f: File)
    requires f in files
    ensures Bytes(files) == files[f].size + Bytes(files - {f})
    decreases |files|
  {
    var g :| g in files && Bytes(files) == files[g].size + Bytes(files - {g});
    if g != f {
      assert (files - {g}).Keys == files.Keys - {g};
      assert (files - {f}).Keys == files.Keys - {f};
      BytesRemove(files - {g}, f);
      BytesRemove(files - {f}, g);
      assert files - {g} - {f} == files - {f} - {g};
    }
  }

  lemma BytesAdd(files: map<File, Meta>, f: File, meta: Meta)
    requires f !in files
    ensures Bytes(files[f := meta]) == meta.size + Bytes(files)
  {
    BytesRemove(files[f := meta], f);
    assert files[f := meta] - {f} == files;
  }

  // ---------------------------------------------------------------------------------------------
  // The scan
  // ---------------------------------------------------------------------------------------------

  ghost predicate SortedByName(q: seq<Entry>) {
    forall i, j | 0 <= i < j < |q| :: Less(FileName(q[i].file.name), FileName(q[j].file.name))
  }

  ghost predicate DistinctFiles(q: seq<Entry>) {
    forall i, j | 0 <= i < j < |q| :: q[i].file != q[j].file
  }

  function FilesOf(q: seq<Entry>): set<File> {
    set e | e in q :: e.file
  }

  /** A scan of an unchanging directory: every sealed batch in name order, and every temporary file. */
  ghost predicate IsScan(d: Disk, scan: Scan) {
    && Lists(d, scan)
    && DistinctFiles(scan.batches) && DistinctFiles(scan.tmps) && SortedByName(scan.batches)
    && FilesOf(scan.batches) + FilesOf(scan.tmps) == d.files.Keys
  }

  lemma {:induction false} SumIsBytes(q: seq<Entry>, files: map<File, Meta>)
    requires DistinctFiles(q) && forall e | e in q :: e.file in files && files[e.file].size == e.size
    ensures Bytes(files) == SumSizes(q) + Bytes(files - FilesOf(q))
  {
    if q == [] {
      assert files - FilesOf(q) == files;
    } else {
      BytesRemove(files, q[0].file);
      forall e | e in q[1..]
        ensures e.file in files - {q[0].file}
      {
        var i :| 1 <= i < |q| && q[i] == e;
      }
      SumIsBytes(q[1..], files - {q[0].file});
      FilesOfHead(q);
      assert files - {q[0].file} - FilesOf(q[1..]) == files - FilesOf(q);
    }
  }

  lemma FilesOfHead(q: seq<Entry>)
    requires q != []
    ensures FilesOf(q) == {q[0].file} + FilesOf(q[1..])
  {
    assert forall e | e in q :: e == q[0] || e in q[1..];
    assert q[0] in q;
  }

  lemma ScanTotal(d: Disk, scan: Scan)
    requires IsScan(d, scan)
    ensures Total(scan) == Bytes(d.files)
  {
    SumIsBytes(scan.batches, d.files);
    var rest := d.files - FilesOf(scan.batches);
    forall e | e in scan.tmps
      ensures e.file in rest
    {
      assert e.file.Temp?;
    }
    SumIsBytes(scan.tmps, rest);
    assert rest - FilesOf(scan.tmps) == map[];
  }

  // ---------------------------------------------------------------------------------------------
  // A calm sweep and a calm eviction
  // ---------------------------------------------------------------------------------------------

  /** The listed files from position i on, all of them or only those older than the cutoff. */
  function FilesIn(q: seq<Entry>, i: nat, j: nat): set<File>
    requires i <= j <= |q|
    decreases j - i
  {
    if i == j then {} else {q[i].file} + FilesIn(q, i + 1, j)
  }

  function StaleIn(cutoff: int, q: seq<Entry>, i: nat): set<File>
    requires i <= |q|
    decreases |q| - i
  {
    if i == |q| then {}
    else (if q[i].mtime <= cutoff then {q[i].file} else {}) + StaleIn(cutoff, q, i + 1)
  }

  function SizesIn(q: seq<Entry>, i: nat, j: nat): nat
    requires i <= j <= |q|
    decreases j - i
  {
    if i == j then 0 else q[i].size + SizesIn(q, i + 1, j)
  }

  ghost predicate OnDisk(files: map<File, Meta>, q: seq<Entry>, i: nat) {
    forall j | i <= j < |q| :: q[j].file in files && files[q[j].file].size == q[j].size
  }

  lemma {:induction false} CalmSweep(cutoff: int, q: seq<Entry>, i: nat, turns: nat -> Turn, w: Sweeping)
    requires Calm(turns) && i <= |q| && DistinctFiles(q) && OnDisk(w.disk.files, q, i)
    ensures var w' := Sweep(cutoff, q, i, turns, w);
      && w'.disk == w.disk.(files := w.disk.files - StaleIn(cutoff, q, i))
      && Bytes(w'.disk.files) + (w'.reclaimed - w.reclaimed) == Bytes(w.disk.files)
    decreases |q| - i
  {
    if i == |q| {
      assert w.disk.files - {} == w.disk.files;
    } else {
      var w1 := SweepOne(cutoff, q[i], turns(i), w);
      assert turns(i) == CALM;
      BytesRemove(w.disk.files, q[i].file);
      CalmSweep(cutoff, q, i + 1, turns, w1);
      assert w1.disk.files - StaleIn(cutoff, q, i + 1) == w.disk.files - StaleIn(cutoff, q, i);
    }
  }

  /** One calm eviction step removes its file and its bytes. */
  lemma CalmEvictOne(q: seq<Entry>, i: nat, turn: Turn, v: Evicting)
    requires turn == CALM && i < |q| && DistinctFiles(q) && OnDisk(v.disk.files, q, i)
    ensures var v1 := EvictOne(q[i], turn, v);
      && v1 == Evicting(v.disk.(files := v.disk.files - {q[i].file}), v.total - q[i].size,
                        v.own + [(q[i].file, v.total)], v.refused)
      && Bytes(v1.disk.files) - v1.total == Bytes(v.disk.files) - v.total
      && OnDisk(v1.disk.files, q, i + 1)
  {
    BytesRemove(v.disk.files, q[i].file);
  }

  /** The first k files from i on leave, and k is the least number that suffices, or all there are. */
  ghost predicate ShortestPrefix(max: nat, q: seq<Entry>, i: nat, k: nat, total: int) {
    && i + k <= |q|
    && (total - SizesIn(q, i, i + k) <= max || i + k == |q|)
    && (forall j | i <= j < i + k :: total - SizesIn(q, i, j) > max)
  }

  lemma ShortestPrefixStep(max: nat, q: seq<Entry>, i: nat, k: nat, total: int)
    requires i < |q| && total > max && ShortestPrefix(max, q, i + 1, k, total - q[i].size)
    ensures ShortestPrefix(max, q, i, k + 1, total)
  {
    forall j | i <= j < i + 1 + k
      ensures total - SizesIn(q, i, j) > max
    {
      assert j > i ==> SizesIn(q, i, j) == q[i].size + SizesIn(q, i + 1, j);
    }
  }

  lemma {:induction false} CalmEvict(max: nat, q: seq<Entry>, i: nat, turns: nat -> Turn, v: Evicting) returns (k: nat)
    requires Calm(turns) && i <= |q| && DistinctFiles(q) && OnDisk(v.disk.files, q, i)
    ensures ShortestPrefix(max, q, i, k, v.total)
    ensures var v' := Evict(max, q, i, turns, v);
      && |v'.own| == |v.own| + k && v'.refused == v.refused
      && v'.disk == v.disk.(files := v.disk.files - FilesIn(q, i, i + k))
      && v'.total == v.total - SizesIn(q, i, i + k)
      && Bytes(v'.disk.files) - v'.total == Bytes(v.disk.files) - v.total
    decreases |q| - i
  {
    if i == |q| || v.total <= max {
      k := 0;
      assert v.disk.files - {} == v.disk.files;
    } else {
      assert turns(i) == CALM;
      var v1 := EvictOne(q[i], turns(i), v);
      CalmEvictOne(q, i, turns(i), v);
      var k1 := CalmEvict(max, q, i + 1, turns, v1);
      k := k1 + 1;
      ShortestPrefixStep(max, q, i, k1, v.total);
      assert v1.disk.files - FilesIn(q, i + 1, i + k) == v.disk.files - FilesIn(q, i, i + k);
    }
  }

  lemma CalmPassSweeps(y: Spool, scan: Scan, now: int, sweeps: nat -> Turn)
    requires IsScan(y.disk, scan) && Calm(sweeps)
    ensures var w := Swept(y, scan, now, sweeps); var stale := StaleIn(now - TMP_STALE_SEC, scan.tmps, 0);
      && w.disk == y.disk.(files := y.disk.files - stale)
      && Total(scan) - w.reclaimed == Bytes(w.disk.files)
      && OnDisk(w.disk.files, scan.batches, 0)
  {
    ScanTotal(y.disk, scan);
    assert OnDisk(y.disk.files, scan.tmps, 0);
    CalmSweep(now - TMP_STALE_SEC, scan.tmps, 0, sweeps, Sweeping(y.disk, 0, 0));
    StaleAreTmps(now - TMP_STALE_SEC, scan.tmps, 0);
  }

  lemma {:induction false} StaleAreTmps(cutoff: int, q: seq<Entry>, i: nat)
    requires i <= |q| && forall e | e in q :: e.file.Temp?
    ensures forall f | f in StaleIn(cutoff, q, i) :: f.Temp?
    decreases |q| - i
  {
    if i < |q| {
      StaleAreTmps(cutoff, q, i + 1);
    }
  }

  /** The bytes of the temp files young enough to be a peer's write in flight. */
  function FreshBytes(q: seq<Entry>, now: int): nat {
    if q == [] then 0 else (if now - q[0].mtime < 3600 then q[0].size else 0) + FreshBytes(q[1..], now)
  }

  lemma {:induction false} SweptIsStale(cutoff: int, now: int, q: seq<Entry>, i: nat, turns: nat -> Turn, w: Sweeping)
    requires Calm(turns) && i <= |q| && DistinctFiles(q) && OnDisk(w.disk.files, q, i) && cutoff == now - 3600
    ensures Sweep(cutoff, q, i, turns, w).reclaimed - w.reclaimed + FreshBytes(q[i..], now) == SumSizes(q[i..])
    decreases |q| - i
  {
    if i < |q| {
      assert turns(i) == CALM;
      assert q[i..][1..] == q[i + 1..] && q[i..][0] == q[i];
      SweptIsStale(cutoff, now, q, i + 1, turns, SweepOne(cutoff, q[i], turns(i), w));
    }
  }

  /** A calm pass blocks exactly when the fresh temp files alone meet the cap. */
  lemma BlockedExactlyWhen(y: Spool, scan: Scan, now: int, sweeps: nat -> Turn, turns: nat -> Turn)
    requires IsScan(y.disk, scan) && Calm(sweeps)
    ensures Enforce(y, scan, now, sweeps, turns).blocked <==> FreshBytes(scan.tmps, now) >= y.max
  {
    assert scan.tmps[0..] == scan.tmps;
    SweptIsStale(now - 3600, now, scan.tmps, 0, sweeps, Sweeping(y.disk, 0, 0));
    PassStarts(y, scan, now, sweeps, turns);
  }

  /**
   A calm pass leaves the total equal to the bytes on disk. It first removes exactly the stale temporary files;
   then either these alone still meet the cap and nothing is evicted, or exactly the shortest oldest-first
   prefix of the batches that suffices is, and the total ends within the cap.
   */
  lemma CalmPass(y: Spool, scan: Scan, now: int, sweeps: nat -> Turn, turns: nat -> Turn) returns (k: nat)
    requires IsScan(y.disk, scan) && Calm(sweeps) && Calm(turns)
    ensures var y' := Enforce(y, scan, now, sweeps, turns);
            var swept := y.disk.files - StaleIn(now - TMP_STALE_SEC, scan.tmps, 0);
      && y'.total == Bytes(y'.disk.files) && y'.sinceScan == 0 && y'.disk.names == y.disk.names
      && k <= |scan.batches|
      && y'.disk.files == swept - FilesIn(scan.batches, 0, k)
      && y'.drops == y.drops + k
      && (y'.blocked ==> k == 0)
      && (!y'.blocked ==> y'.total <= y.max && ShortestPrefix(y.max, scan.batches, 0, k, Bytes(swept)))
  {
    hide Sweep, Evict, StaleIn, Bytes, Lists, DistinctFiles, SortedByName, ShortestPrefix, OnDisk, Calm;
    var w := Swept(y, scan, now, sweeps);
    CalmPassSweeps(y, scan, now, sweeps);
    CapIsReached(y, scan, now, sweeps, turns);
    var v0 := Evicting(w.disk, Total(scan) as int - w.reclaimed as int, [], 0);
    k := CalmEvict(y.max, scan.batches, 0, turns, v0);
    if Blocked(y, scan, now, sweeps) {
      k := 0;
      assert w.disk.files - {} == w.disk.files;
    }
  }

  lemma {:induction false} LessAsymmetric(a: string, b: string)
    requires Less(a, b)
    ensures !Less(b, a)
  {
    if a != "" && a[0] == b[0] {
      LessAsymmetric(a[1..], b[1..]);
    }
  }

  /** Name order is age order: whatever precedes a batch in the scan was created no later than it. */
  lemma EarlierNameIsOlder(q: seq<Entry>, i: nat, j: nat, ni: nat, nj: nat, x: string, z: string)
    requires SortedByName(q) && i < j < |q| && ni < Pow10(WIDTH) && nj < Pow10(WIDTH)
    requires q[i].file.name == Stem(ni, x) && q[j].file.name == Stem(nj, z)
    ensures ni <= nj
  {
    hide Pow10, Less, Stem, FileName;
    if nj < ni {
      NameOrder(nj, ni, z, x);
      LessAsymmetric(FileName(q[j].file.name), FileName(q[i].file.name));
    }
  }

  // ---------------------------------------------------------------------------------------------
  // Oldest first, by creation time
  // ---------------------------------------------------------------------------------------------

  ghost predicate CreatedAt(name: string, ns: nat) {
    ns < Pow10(WIDTH) && exists id: string :: name == Stem(ns, id)
  }

  /** Every sealed batch that left was created no later than any that stayed. */
  ghost predicate OldestFirst(before: map<File, Meta>, after: map<File, Meta>) {
    forall f, g, n: nat, m: nat |
      f in before && f !in after && g in after &&
      f.Sealed? && g.Sealed? && CreatedAt(f.name, n) && CreatedAt(g.name, m) ::
      n <= m
  }

  lemma {:induction false} FilesInAre(q: seq<Entry>, i: nat, j: nat)
    requires i <= j <= |q|
    ensures forall f :: f in FilesIn(q, i, j) <==> exists k :: i <= k < j && q[k].file == f
    decreases j - i
  {
    if i < j { FilesInAre(q, i + 1, j); }
  }

  lemma CalmPassOldestFirst(y: Spool, scan: Scan, now: int, sweeps: nat -> Turn, turns: nat -> Turn)
    requires IsScan(y.disk, scan) && Calm(sweeps) && Calm(turns)
    ensures OldestFirst(y.disk.files, Enforce(y, scan, now, sweeps, turns).disk.files)
  {
    var k := CalmPass(y, scan, now, sweeps, turns);
    var stale := StaleIn(now - TMP_STALE_SEC, scan.tmps, 0);
    StaleAreTmps(now - TMP_STALE_SEC, scan.tmps, 0);
    hide Enforce, StaleIn, FilesIn, Calm, CreatedAt, SortedByName, DistinctFiles;
    PrefixIsOldest(y.disk, scan, stale, k);
  }

  lemma PrefixIsOldest(d: Disk, scan: Scan, stale: set<File>, k: nat)
    requires IsScan(d, scan) && k <= |scan.batches| && forall f | f in stale :: f.Temp?
    ensures OldestFirst(d.files, d.files - stale - FilesIn(scan.batches, 0, k))
  {
    hide CreatedAt, SortedByName, DistinctFiles, FilesIn;
    FilesInAre(scan.batches, 0, k);
    var after := d.files - stale - FilesIn(scan.batches, 0, k);
    forall f, g, n: nat, m: nat |
      f in d.files && f !in after && g in after &&
      f.Sealed? && g.Sealed? && CreatedAt(f.name, n) && CreatedAt(g.name, m)
      ensures n <= m
    {
      var i :| 0 <= i < k && scan.batches[i].file == f;
      var j := BatchOf(d, scan, g);
      Older(scan.batches, i, j, n, m);
    }
  }

  lemma BatchOf(d: Disk, scan: Scan, f: File) returns (j: nat)
    requires IsScan(d, scan) && f in d.files && f.Sealed?
    ensures j < |scan.batches| && scan.batches[j].file == f
  {
    assert f !in FilesOf(scan.tmps);
    assert f in FilesOf(scan.batches);
    var e :| e in scan.batches && e.file == f;
    j :| j < |scan.batches| && scan.batches[j] == e;
  }

  lemma Older(q: seq<Entry>, i: nat, j: nat, n: nat, m: nat)
    requires SortedByName(q) && i < j < |q| && CreatedAt(q[i].file.name, n) && CreatedAt(q[j].file.name, m)
    ensures n <= m
  {
    hide SortedByName, Pow10, Stem;
    var x: string :| q[i].file.name == Stem(n, x);
    var z: string :| q[j].file.name == Stem(m, z);
    EarlierNameIsOlder(q, i, j, n, m, x, z);
  }

  // ---------------------------------------------------------------------------------------------
  // Runs of writes
  // ---------------------------------------------------------------------------------------------

  /** One call of write: a new batch, and what a pass would see if one is due. */
  datatype WriteStep = WriteStep(name: string, meta: Meta, now: int, scan: Scan,
                                 sweeps: nat -> Turn, turns: nat -> Turn)

  function Write(y: Spool, s: WriteStep): Spool {
    var c := Credit(y, s.name, s.meta);
    if NeedsPass(c) then Enforce(c, s.scan, s.now, s.sweeps, s.turns) else c
  }

  /** The name is new, nobody interferes, and the scan of a due pass is truthful. */
  ghost predicate CalmWrite(y: Spool, s: WriteStep) {
    && s.name !in y.disk.names && Calm(s.sweeps) && Calm(s.turns)
    && (NeedsPass(Credit(y, s.name, s.meta)) ==> IsScan(Credit(y, s.name, s.meta).disk, s.scan))
  }

  ghost predicate CalmRun(y: Spool, steps: seq<WriteStep>)
    decreases |steps|
  {
    steps == [] || (CalmWrite(y, steps[0]) && CalmRun(Write(y, steps[0]), steps[1..]))
  }

  function Writes(y: Spool, steps: seq<WriteStep>): Spool
    decreases |steps|
  {
    if steps == [] then y else Writes(Write(y, steps[0]), steps[1..])
  }

  ghost predicate Exact(y: Spool) {
    y.total == Bytes(y.disk.files) && y.sinceScan < RESCAN_EVERY_WRITES
    && forall f | f in y.disk.files :: f.name in y.disk.names
  }

  lemma CalmWriteExact(y: Spool, s: WriteStep)
    requires Exact(y) && CalmWrite(y, s)
    ensures Exact(Write(y, s)) && (Write(y, s).total <= y.max || Write(y, s).blocked)
  {
    var c := Credit(y, s.name, s.meta);
    BytesAdd(y.disk.files, Sealed(s.name), s.meta);
    if NeedsPass(c) {
      var k := CalmPass(c, s.scan, s.now, s.sweeps, s.turns);
    }
  }

  /** What construction leaves: a seed scan, nothing deleted. */
  function Seed(max: nat, d: Disk, scan: Scan): Spool {
    Spool(max, Total(scan), 0, false, 0, d)
  }

  /**
   Over every run of one writer on a directory it found in any state: the running total is the directory's
   byte count, a scan is never 256 writes old, and after each write the total is within the cap unless the
   latest pass found itself blocked by temporary files.
   */
  lemma RunningTotalIsExact(max: nat, d: Disk, scan: Scan, steps: seq<WriteStep>)
    requires DiskOk(d) && IsScan(d, scan) && CalmRun(Seed(max, d, scan), steps)
    ensures var y := Writes(Seed(max, d, scan), steps);
      y.total == Bytes(y.disk.files) && y.sinceScan < RESCAN_EVERY_WRITES
      && (steps != [] ==> y.total <= max || y.blocked)
  {
    ScanTotal(d, scan);
    WritesExact(Seed(max, d, scan), steps);
  }

  lemma {:induction false} WritesExact(y: Spool, steps: seq<WriteStep>)
    requires Exact(y) && CalmRun(y, steps)
    ensures var y' := Writes(y, steps);
      Exact(y') && y'.max == y.max && (steps != [] ==> y'.total <= y.max || y'.blocked)
    decreases |steps|
  {
    if steps != [] {
      CalmWriteExact(y, steps[0]);
      WritesExact(Write(y, steps[0]), steps[1..]);
    }
  }

  /** Each write of the run evicts oldest first. */
  ghost predicate EvictsOldestFirst(y: Spool, steps: seq<WriteStep>)
    decreases |steps|
  {
    steps == [] || (
      && OldestFirst(Credit(y, steps[0].name, steps[0].meta).disk.files, Write(y, steps[0]).disk.files)
      && EvictsOldestFirst(Write(y, steps[0]), steps[1..]))
  }

  /** Over every run of one writer, whatever else the directory holds, batches are evicted in creation order. */
  lemma {:induction false} RunEvictsOldestFirst(y: Spool, steps: seq<WriteStep>)
    requires CalmRun(y, steps)
    ensures EvictsOldestFirst(y, steps)
    decreases |steps|
  {
    hide OldestFirst, Enforce, IsScan;
    if steps != [] {
      WriteOldestFirst(y, steps[0]);
      RunEvictsOldestFirst(Write(y, steps[0]), steps[1..]);
    }
  }

  lemma WriteOldestFirst(y: Spool, s: WriteStep)
    requires CalmWrite(y, s)
    ensures OldestFirst(Credit(y, s.name, s.meta).disk.files, Write(y, s).disk.files)
  {
    hide IsScan, Calm, Enforce;
    var c := Credit(y, s.name, s.meta);
    if NeedsPass(c) { CalmPassOldestFirst(c, s.scan, s.now, s.sweeps, s.turns); }
  }
}
