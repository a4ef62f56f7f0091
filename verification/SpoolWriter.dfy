/** The spool writer as an object: its counters change in place, and the directory with them. */
module SpoolWriting {
  import opened SpoolPass
  import opened SpoolNames
  import R = SpoolRuns

  /** Insert an entry into a list sorted by name. */
  function Insert(q: seq<Entry>, e: Entry): seq<Entry> {
    if q == [] then [e]
    else if Less(FileName(e.file.name), FileName(q[0].file.name)) then [e] + q
    else [q[0]] + Insert(q[1..], e)
  }

  lemma {:induction false} LessTotal(a: string, b: string)
    ensures a == b || Less(a, b) || Less(b, a)
  {
    if a != "" && b != "" && a[0] == b[0] {
      LessTotal(a[1..], b[1..]);
      assert a == [a[0]] + a[1..] && b == [b[0]] + b[1..];
    }
  }

  lemma {:induction false} LessTransitive(a: string, b: string, c: string)
    requires Less(a, b) && Less(b, c)
    ensures Less(a, c)
  {
    if a != "" && a[0] == b[0] && b[0] == c[0] {
      LessTransitive(a[1..], b[1..], c[1..]);
    }
  }

  lemma FileNameInjective(a: string, b: string)
    requires FileName(a) == FileName(b)
    ensures a == b
  {
    assert a == FileName(a)[..|FileName(a)| - 5] && b == FileName(b)[..|FileName(b)| - 5];
  }

  lemma {:induction false} InsertSorted(q: seq<Entry>, e: Entry)
    requires R.SortedByName(q) && forall x | x in q :: x.file.name != e.file.name
    ensures R.SortedByName(Insert(q, e))
    ensures forall x :: x in Insert(q, e) <==> x == e || x in q
  {
    if q != [] {
      var n, n0 := FileName(e.file.name), FileName(q[0].file.name);
      assert q[0] in q;
      assert forall x | x in q[1..] :: x in q;
      InsertSorted(q[1..], e);
      LessTotal(n, n0);
      if n == n0 {
        FileNameInjective(e.file.name, q[0].file.name);
      }
      InsertAt(q, e);
    }
  }

  lemma InsertAt(q: seq<Entry>, e: Entry)
    requires q != [] && R.SortedByName(q) && R.SortedByName(Insert(q[1..], e))
    requires forall x :: x in Insert(q[1..], e) <==> x == e || x in q[1..]
    requires Less(FileName(e.file.name), FileName(q[0].file.name))
      || Less(FileName(q[0].file.name), FileName(e.file.name))
    ensures R.SortedByName(Insert(q, e))
    ensures forall x :: x in Insert(q, e) <==> x == e || x in q
  {
    var n, n0 := FileName(e.file.name), FileName(q[0].file.name);
    var r := Insert(q, e);
    if Less(n, n0) {
      forall j | 1 <= j < |r|
        ensures Less(n, FileName(r[j].file.name))
      {
        if j > 1 {
          LessTransitive(n, n0, FileName(q[j - 1].file.name));
        }
      }
    } else {
      var s := Insert(q[1..], e);
      forall j | 0 <= j < |s|
        ensures Less(n0, FileName(s[j].file.name))
      {
        assert s[j] in s;
        if s[j] != e {
          var k :| 0 <= k < |q[1..]| && q[1..][k] == s[j];
          assert q[k + 1] == s[j];
        }
      }
    }
  }

  class SpoolWriter {
    const maxBytes: nat
    var totalBytes: int
    var writesSinceScan: nat
    var capBlockedByTmp: bool
    var dropCount: nat
    /** The directory, shared with the peers, who change it only through the turns given to a pass. */
    var disk: Disk

    function View(): Spool
      reads this
    {
      Spool(maxBytes, totalBytes, writesSinceScan, capBlockedByTmp, dropCount, disk)
    }

    /** Construction only seeds the total; it deletes nothing. */
    constructor (maxBytes: nat, disk: Disk)
      ensures View() == R.Seed(maxBytes, disk, Scan([], [])).(total := totalBytes)
      ensures totalBytes == R.Bytes(disk.files)
    {
      this.maxBytes, this.disk := maxBytes, disk;
      writesSinceScan, capBlockedByTmp, dropCount, totalBytes := 0, false, 0, 0;
      new;
      var scan := ScanLocked();
      totalBytes := Total(scan);
      R.ScanTotal(disk, scan);
    }

    /** One pass over the directory, classifying and measuring every file, batches in name order. */
    method ScanLocked() returns (scan: Scan)
      ensures R.IsScan(disk, scan)
    {
      var batches, tmps := [], [];
      var todo := disk.files.Keys;
      while todo != {}
        invariant todo <= disk.files.Keys
        invariant Lists(disk, Scan(batches, tmps)) && R.SortedByName(batches)
        invariant R.DistinctFiles(tmps)
        invariant R.FilesOf(batches) + R.FilesOf(tmps) == disk.files.Keys - todo
        decreases todo
      {
        var f :| f in todo;
        var e := Entry(f, disk.files[f].size, disk.files[f].mtime);
        if f.Sealed? {
          forall x | x in batches
            ensures x.file.name != f.name
          {
            assert x.file in R.FilesOf(batches);
          }
          InsertSorted(batches, e);
          assert R.FilesOf(Insert(batches, e)) == R.FilesOf(batches) + {f};
          batches := Insert(batches, e);
        } else {
          forall x | x in tmps
            ensures x.file != f
          {
            assert x.file in R.FilesOf(tmps);
          }
          assert R.FilesOf(tmps + [e]) == R.FilesOf(tmps) + {f};
          tmps := tmps + [e];
        }
        todo := todo - {f};
      }
      scan := Scan(batches, tmps);
      SortedDistinct(batches);
    }

    static lemma SortedDistinct(q: seq<Entry>)
      requires R.SortedByName(q)
      ensures R.DistinctFiles(q)
    {
      forall i, j | 0 <= i < j < |q|
        ensures q[i].file != q[j].file
      {
        if q[i].file == q[j].file {
          R.LessAsymmetric(FileName(q[i].file.name), FileName(q[j].file.name));
        }
      }
    }

    /** Delete temporary files older than the limit; a peer's completed rename is not credited. */
    method SweepStaleTmps(tmps: seq<Entry>, now: int, turns: nat -> Turn) returns (swept: nat, reclaimed: nat)
      modifies this`disk
      ensures Sweeping(disk, reclaimed, swept)
           == Sweep(now - TMP_STALE_SEC, tmps, 0, turns, Sweeping(old(disk), 0, 0))
    {
      var cutoff := now - TMP_STALE_SEC;
      swept, reclaimed := 0, 0;
      for i := 0 to |tmps|
        invariant Sweep(cutoff, tmps, i, turns, Sweeping(disk, reclaimed, swept))
               == Sweep(cutoff, tmps, 0, turns, Sweeping(old(disk), 0, 0))
      {
        var e := tmps[i];
        if e.mtime <= cutoff {
          disk := Acts(disk, turns(i).before);
          if e.file !in disk.files {
            disk := Acts(disk, turns(i).between);
            if Sealed(e.file.name) !in disk.files {
              reclaimed := reclaimed + e.size;
            }
          } else if !turns(i).denied {
            disk := Unlink(disk, e.file);
            reclaimed := reclaimed + e.size;
            swept := swept + 1;
          }
        }
      }
    }

    /** Bring the total within the cap, oldest batches first, after sweeping what costs no data. */
    method EnforceCap(now: int, sweeps: nat -> Turn, turns: nat -> Turn) returns (dropped: nat, ghost scan: Scan)
      modifies this
      ensures R.IsScan(old(disk), scan) && View() == Enforce(old(View()), scan, now, sweeps, turns)
      ensures dropped == dropCount - old(dropCount) && writesSinceScan == 0
    {
      hide Sweep, Evict, SumSizes;
      var found := ScanLocked();
      scan := found;
      var total: int := 0;
      var tmpBytes: int := 0;
      total, tmpBytes := Measure(found);
      var _, reclaimed := SweepStaleTmps(found.tmps, now, sweeps);
      total := total - reclaimed;
      tmpBytes := tmpBytes - reclaimed;
      dropped := 0;
      if tmpBytes >= maxBytes {
        capBlockedByTmp, totalBytes, writesSinceScan := true, total, 0;
        return;
      }
      capBlockedByTmp := false;
      total, dropped := EvictBatches(found.batches, total, turns);
      totalBytes, writesSinceScan, dropCount := total, 0, dropCount + dropped;
    }

    method Measure(scan: Scan) returns (total: nat, tmpBytes: nat)
      ensures total == Total(scan) && tmpBytes == SumSizes(scan.tmps)
    {
      total, tmpBytes := 0, 0;
      for i := 0 to |scan.batches|
        invariant total + SumSizes(scan.batches[i..]) == SumSizes(scan.batches)
      {
        total := total + scan.batches[i].size;
      }
      for i := 0 to |scan.tmps|
        invariant tmpBytes + SumSizes(scan.tmps[i..]) == SumSizes(scan.tmps)
      {
        tmpBytes := tmpBytes + scan.tmps[i].size;
      }
      total := total + tmpBytes;
    }

    method EvictBatches(batches: seq<Entry>, start: int, turns: nat -> Turn) returns (total: int, dropped: nat)
      modifies this`disk
      ensures var v := Evict(maxBytes, batches, 0, turns, Evicting(old(disk), start, [], 0));
        disk == v.disk && total == v.total && dropped == |v.own|
    {
      total, dropped := start, 0;
      ghost var v := Evicting(disk, start, [], 0);
      var i := 0;
      while i < |batches| && total > maxBytes
        invariant i <= |batches| && disk == v.disk && total == v.total && dropped == |v.own|
        invariant Evict(maxBytes, batches, i, turns, v)
               == Evict(maxBytes, batches, 0, turns, Evicting(old(disk), start, [], 0))
      {
        var e := batches[i];
        v := EvictOne(e, turns(i), v);
        disk := Acts(disk, turns(i).before);
        if e.file !in disk.files {
          total := total - e.size;
        } else if !turns(i).denied {
          disk := Unlink(disk, e.file);
          total := total - e.size;
          dropped := dropped + 1;
        }
        i := i + 1;
      }
    }

    /** Write one batch, credit it once it is in place, and run a cap pass when one is due. */
    method Write(createdNs: nat, id: string, meta: Meta, now: int, sweeps: nat -> Turn, turns: nat -> Turn)
      returns (ghost scan: Scan)
      modifies this
      ensures View() == R.Write(old(View()), R.WriteStep(Stem(createdNs, id), meta, now, scan, sweeps, turns))
      ensures var c := Credit(old(View()), Stem(createdNs, id), meta); NeedsPass(c) ==> R.IsScan(c.disk, scan)
      ensures if (old(totalBytes) + meta.size > maxBytes && !old(capBlockedByTmp)) || old(writesSinceScan) + 1 >= 256
        then writesSinceScan == 0
        else
          && writesSinceScan == old(writesSinceScan) + 1 && totalBytes == old(totalBytes) + meta.size
          && disk.files == old(disk).files[Sealed(Stem(createdNs, id)) := meta]
          && capBlockedByTmp == old(capBlockedByTmp) && dropCount == old(dropCount)
    {
      hide R.IsScan, Enforce, Stem;
      var name := Stem(createdNs, id);
      disk := Disk(disk.files[Sealed(name) := meta], disk.names + {name});
      totalBytes := totalBytes + meta.size;
      writesSinceScan := writesSinceScan + 1;
      if (totalBytes > maxBytes && !capBlockedByTmp) || writesSinceScan >= RESCAN_EVERY_WRITES {
        var _, s := EnforceCap(now, sweeps, turns);
        scan := s;
      } else {
        scan := Scan([], []);
      }
    }
  }
}
