/**
 The flush supervisor: a sliding window of worker deaths, the latch to spool-only, the backoff.
 */
module Supervisor {
  import opened Common

  const MAX_DEATHS: nat := 3
  const WINDOW_SEC: real := 60.0
  const MAX_BACKOFF: real := 30.0

  // ---------------------------------------------------------------------------------------------
  // The log of all deaths and what it means
  // ---------------------------------------------------------------------------------------------

  /** Death times under a clock that never steps back. */
  ghost predicate Monotone(log: seq<real>) {
    forall i, j | 0 <= i < j < |log| :: log[i] <= log[j]
  }

  /** The deaths of the trailing window that ends at `now`. */
  function Within(log: seq<real>, now: real): seq<real> {
    if log == [] then []
    else Within(log[..|log| - 1], now) + if now - log[|log| - 1] <= WINDOW_SEC then [log[|log| - 1]] else []
  }

  /** The window that ends at the last death. */
  function Recent(log: seq<real>): seq<real> {
    if log == [] then [] else Within(log, log[|log| - 1])
  }

  /** Some death so far had enough deaths in its window, itself included. */
  ghost predicate Latched(log: seq<real>) {
    exists i :: 0 < i <= |log| && |Recent(log[..i])| >= MAX_DEATHS
  }

  /** Dropping a head that has left the window does not change the window. */
  lemma {:induction false} WithinDrops(log: seq<real>, now: real)
    requires log != [] && now - log[0] > WINDOW_SEC
    ensures Within(log, now) == Within(log[1..], now)
  {
    if |log| > 1 {
      var init := log[..|log| - 1];
      WithinDrops(init, now);
      assert init[1..] == log[1..][..|log[1..]| - 1];
    }
  }

  lemma {:induction false} WithinAll(log: seq<real>, now: real)
    requires forall i | 0 <= i < |log| :: now - log[i] <= WINDOW_SEC
    ensures Within(log, now) == log
  {
    if log != [] {
      WithinAll(log[..|log| - 1], now);
      assert log == log[..|log| - 1] + [log[|log| - 1]];
    }
  }

  /** Narrowing to an earlier window first loses nothing, because time only moves on. */
  lemma {:induction false} WithinTwice(log: seq<real>, before: real, now: real)
    requires before <= now
    ensures Within(Within(log, before), now) == Within(log, now)
  {
    if log != [] {
      var init, t := log[..|log| - 1], log[|log| - 1];
      var w := Within(init, before);
      WithinTwice(init, before, now);
      WithinSnoc(w, t, now);
      assert w + [] == w && Within(init, now) + [] == Within(init, now);
    }
  }

  lemma WithinSnoc(log: seq<real>, t: real, now: real)
    ensures Within(log + [t], now) == Within(log, now) + if now - t <= WINDOW_SEC then [t] else []
  {
    assert (log + [t])[..|log|] == log;
  }

  /** The deque before the trim is the old window and the new death. */
  lemma RecentNext(log: seq<real>, now: real)
    requires Monotone(log + [now])
    ensures Recent(log + [now]) == Within(Recent(log) + [now], now)
  {
    if log != [] {
      var last := log[|log| - 1];
      assert (log + [now])[|log| - 1] == last && (log + [now])[|log|] == now;
      WithinTwice(log, last, now);
      WithinSnoc(Within(log, last), now, now);
      WithinSnoc(log, now, now);
    }
  }

  lemma {:induction false} WithinIn(log: seq<real>, now: real)
    requires Monotone(log)
    ensures Monotone(Within(log, now)) && |Within(log, now)| <= |log|
    ensures forall x | x in Within(log, now) :: x in log && now - x <= 60.0
    ensures forall x | x in log && now - x <= 60.0 :: x in Within(log, now)
    decreases |log|
  {
    if log != [] {
      var init, t := log[..|log| - 1], log[|log| - 1];
      WithinIn(init, now);
      assert forall x | x in init :: x <= t;
      var w := Within(init, now);
      assert forall k | 0 <= k < |w| :: w[k] in w;
    }
  }

  lemma RecentIsMonotone(log: seq<real>, now: real)
    requires Monotone(log + [now])
    ensures Monotone(Recent(log) + [now])
  {
    assert forall i | 0 <= i < |log| :: (log + [now])[i] == log[i];
    if log != [] {
      WithinIn(log, log[|log| - 1]);
      var r := Recent(log);
      assert forall x | x in log :: x <= now by {
        forall i | 0 <= i < |log| ensures log[i] <= now { assert (log + [now])[i] <= (log + [now])[|log|]; }
      }
      assert forall k | 0 <= k < |r| :: r[k] in r;
    }
  }

  lemma LatchedNext(log: seq<real>, now: real)
    ensures Latched(log + [now]) <==> Latched(log) || |Recent(log + [now])| >= MAX_DEATHS
  {
    hide Recent;
    assert (log + [now])[..|log| + 1] == log + [now];
    forall i | 0 < i <= |log| ensures (log + [now])[..i] == log[..i] {}
    if Latched(log) {
      var i :| 0 < i <= |log| && |Recent(log[..i])| >= MAX_DEATHS;
      assert (log + [now])[..i] == log[..i];
    }
  }

  /** Once latched, latched for good. */
  lemma LatchedForGood(log: seq<real>, more: seq<real>)
    requires Latched(log)
    ensures Latched(log + more)
  {
    var i :| 0 < i <= |log| && |Recent(log[..i])| >= MAX_DEATHS;
    assert (log + more)[..i] == log[..i];
  }

  lemma SuffixSnoc(s: seq<real>, t: real, k: nat)
    requires k <= |s|
    ensures (s + [t])[k..] == s[k..] + [t]
  {
  }

  /** A window is a suffix of the log, so three deaths in one are the last three. */
  lemma {:induction false} WindowIsSuffix(log: seq<real>, now: real) returns (k: nat)
    requires Monotone(log)
    ensures k <= |log| && Within(log, now) == log[k..]
    ensures forall i | 0 <= i < |log| :: i >= k <==> now - log[i] <= WINDOW_SEC
    decreases |log|
  {
    if log == [] {
      k := 0;
    } else {
      var init, t := log[..|log| - 1], log[|log| - 1];
      k := WindowIsSuffix(init, now);
      if now - t > WINDOW_SEC {
        forall i | 0 <= i < |init| ensures now - init[i] > WINDOW_SEC { assert log[i] <= log[|log| - 1]; }
        k := |log|;
      } else {
        assert log == init + [t];
        SuffixSnoc(init, t, k);
      }
    }
  }

  lemma CrowdedAt(log: seq<real>, i: nat)
    requires Monotone(log) && i < |log|
    ensures |Recent(log[..i + 1])| >= MAX_DEATHS <==> i >= 2 && log[i] - log[i - 2] <= WINDOW_SEC
  {
    var upto := log[..i + 1];
    var k := WindowIsSuffix(upto, log[i]);
    hide Within;
    if i >= 2 { assert upto[i - 2] == log[i - 2]; }
  }

  /** The latch in plain terms: three deaths, the first and third at most a minute apart. */
  lemma LatchedMeans(log: seq<real>)
    requires Monotone(log)
    ensures Latched(log) <==> exists i :: 2 <= i < |log| && log[i] - log[i - 2] <= 60.0
  {
    hide Recent, Monotone;
    if Latched(log) {
      var i :| 0 < i <= |log| && |Recent(log[..i])| >= MAX_DEATHS;
      CrowdedAt(log, i - 1);
    }
    if i :| 2 <= i < |log| && log[i] - log[i - 2] <= WINDOW_SEC {
      CrowdedAt(log, i);
      assert |Recent(log[..i + 1])| >= MAX_DEATHS;
    }
  }

  // ---------------------------------------------------------------------------------------------
  // Backoff
  // ---------------------------------------------------------------------------------------------

  function Power(n: nat): real { if n == 0 then 1.0 else 2.0 * Power(n - 1) }

  function Backoff(recent: nat): real
    requires recent >= 1
  {
    if Power(recent - 1) <= MAX_BACKOFF then Power(recent - 1) else MAX_BACKOFF
  }

  lemma {:induction false} PowerGrows(n: nat)
    ensures Power(n) >= 1.0 && (n >= 5 ==> Power(n) >= 32.0)
  {
    if n == 5 {
      assert Power(1) == 2.0 && Power(2) == 4.0 && Power(3) == 8.0 && Power(4) == 16.0;
    } else if n > 0 {
      PowerGrows(n - 1);
    }
  }

  /** Doubling from one second, capped from the sixth death on. */
  lemma BackoffBounds(recent: nat)
    requires recent >= 1
    ensures 1.0 <= Backoff(recent) <= MAX_BACKOFF
    ensures Backoff(recent) == MAX_BACKOFF <==> recent >= 6
  {
    PowerGrows(recent - 1);
    if recent < 6 { assert Power(1) == 2.0 && Power(2) == 4.0 && Power(3) == 8.0 && Power(4) == 16.0; }
  }

  /** One second first; then always the lesser of twice the last and half a minute. */
  lemma BackoffDoubles(recent: nat)
    requires recent >= 1
    ensures Backoff(1) == 1.0
    ensures Backoff(recent + 1) == if 2.0 * Backoff(recent) <= 30.0 then 2.0 * Backoff(recent) else 30.0
  {
    PowerGrows(recent - 1);
  }

  /** Each death came at least the shortest backoff after the one before. */
  ghost predicate Spaced(log: seq<real>) {
    forall i | 0 < i < |log| :: log[i] - log[i - 1] >= 1.0
  }

  /** A sleep of at least a second between two deaths keeps them spaced. */
  lemma SleepSpaces(log: seq<real>, slept: real, now: real)
    requires Spaced(log) && slept >= 1.0 && (log != [] ==> now >= log[|log| - 1] + slept)
    ensures Spaced(log + [now])
  {
  }

  /** Deaths at least a second apart, as the backoff enforces, never crowd the window. */
  lemma SpacedWindow(log: seq<real>)
    requires Monotone(log)
    requires Spaced(log)
    ensures |Recent(log)| <= 61
  {
    if log != [] {
      var k := WindowIsSuffix(log, log[|log| - 1]);
      if k < |log| { Apart(log, k, |log| - 1); }
    }
  }

  lemma {:induction false} Apart(log: seq<real>, i: nat, j: nat)
    requires i <= j < |log| && forall k | 0 < k < |log| :: log[k] - log[k - 1] >= 1.0
    ensures log[j] - log[i] >= (j - i) as real
    decreases j
  {
    if i < j { Apart(log, i, j - 1); }
  }

  // ---------------------------------------------------------------------------------------------
  // The supervisor
  // ---------------------------------------------------------------------------------------------

  /** A transport object, by identity. */
  type Transport = nat

  /** A worker start: how many deaths came before it, and the transport it was handed. */
  datatype Start = Start(deaths: nat, transport: Option<Transport>)

  class Supervisor {
    const transport: Option<Transport>
    var deaths: seq<real>
    var spoolOnly: bool
    var restarts: nat
    var worker: Option<Transport>
    ghost var log: seq<real>
    ghost var starts: seq<Start>

    ghost predicate Valid()
      reads this
    {
      && Monotone(log)
      && deaths == Recent(log)
      && (spoolOnly <==> Latched(log))
      && StartsHonour(starts, log, transport)
    }

    constructor (transport: Option<Transport>)
      ensures Valid() && log == [] && starts == [] && this.transport == transport
    {
      this.transport := transport;
      deaths, spoolOnly, restarts, worker := [], false, 0, None;
      log, starts := [], [];
    }

    /** `_spawn`: no transport once latched. */
    method Spawn()
      requires Valid()
      modifies this`worker, this`starts
      ensures Valid() && worker == (if Latched(log) then None else transport)
      ensures starts == old(starts) + [Start(|log|, worker)]
    {
      worker := if spoolOnly then None else transport;
      SpawnHonours(starts, log, transport, worker);
      starts := starts + [Start(|log|, worker)];
    }

    /** `_record_death`: trim the window, latch, and compute the backoff. */
    method RecordDeath(now: real) returns (backoff: real)
      requires Valid() && (log == [] || log[|log| - 1] <= now)
      modifies this`deaths, this`spoolOnly, this`log
      ensures Valid() && log == old(log) + [now]
      ensures |Recent(log)| >= 1 && backoff == Backoff(|Recent(log)|)
      ensures 1.0 <= backoff <= MAX_BACKOFF
    {
      hide Recent, Within, Latched, Power, Backoff;
      ghost var log' := log + [now];
      RecentNext(log, now);
      RecentIsMonotone(log, now);
      LatchedNext(log, now);
      LogHonours(starts, log, now, transport);
      RecentHasNow(log, now);
      deaths := deaths + [now];
      while deaths != [] && now - deaths[0] > WINDOW_SEC
        invariant Within(deaths, now) == Recent(log') && Monotone(deaths)
        invariant spoolOnly == old(spoolOnly) && log == old(log)
        decreases |deaths|
      {
        WithinDrops(deaths, now);
        deaths := deaths[1..];
      }
      WithinAll(deaths, now);
      var recent := |deaths|;
      if recent >= MAX_DEATHS && !spoolOnly { spoolOnly := true; }
      log := log';
      BackoffBounds(recent);
      BackoffIs(recent);
      var p := TwoTo(recent - 1);
      backoff := if p <= MAX_BACKOFF then p else MAX_BACKOFF;
    }

    /**
     One death as the watcher handles it; a stop may arrive before or during the sleep. If each death so far,
     this one included, came after the sleep that followed the one before, at most 61 share a window.
     */
    method HandleDeath(now: real, stopBefore: bool, stopAfter: bool) returns (slept: real)
      requires Valid() && (log == [] || log[|log| - 1] <= now)
      modifies this
      ensures Valid() && log == old(log) + [now]
      ensures slept == if stopBefore then 0.0 else Backoff(|Recent(log)|)
      ensures !stopBefore ==> slept >= 1.0
      ensures restarts == old(restarts) + if stopBefore || stopAfter then 0 else 1
      ensures starts == if stopBefore || stopAfter then old(starts) else old(starts) + [Start(|log|, worker)]
      ensures Spaced(log) ==> |deaths| <= 61
    {
      var backoff := RecordDeath(now);
      if Spaced(log) { SpacedWindow(log); }
      if stopBefore { return 0.0; }
      if stopAfter { return backoff; }
      restarts := restarts + 1;
      Spawn();
      return backoff;
    }
  }

  method TwoTo(n: nat) returns (p: real)
    ensures p == Power(n)
  {
    p := 1.0;
    for i := 0 to n
      invariant p == Power(i)
    {
      p := 2.0 * p;
    }
  }

  lemma BackoffIs(recent: nat)
    requires recent >= 1
    ensures Backoff(recent) == if Power(recent - 1) <= MAX_BACKOFF then Power(recent - 1) else MAX_BACKOFF
  {}

  lemma RecentHasNow(log: seq<real>, now: real)
    ensures |Recent(log + [now])| >= 1
  {
    WithinSnoc(log, now, now);
  }

  /** Every start followed the latch as it stood at that time. */
  ghost predicate StartsHonour(starts: seq<Start>, log: seq<real>, transport: Option<Transport>) {
    forall s | s in starts :: s.deaths <= |log| && s.transport == if Latched(log[..s.deaths]) then None else transport
  }

  lemma SpawnHonours(starts: seq<Start>, log: seq<real>, transport: Option<Transport>, handed: Option<Transport>)
    requires StartsHonour(starts, log, transport) && handed == if Latched(log) then None else transport
    ensures StartsHonour(starts + [Start(|log|, handed)], log, transport)
  {
    assert log[..|log|] == log;
  }

  lemma LogHonours(starts: seq<Start>, log: seq<real>, now: real, transport: Option<Transport>)
    requires StartsHonour(starts, log, transport)
    ensures StartsHonour(starts, log + [now], transport)
  {
    forall s | s in starts ensures (log + [now])[..s.deaths] == log[..s.deaths] {}
  }

  /** After the latch, no worker ever gets a transport. */
  lemma NoTransportAfterLatch(starts: seq<Start>, log: seq<real>, transport: Option<Transport>,
    s: Start, latchedAt: nat)
    requires StartsHonour(starts, log, transport) && s in starts
    requires latchedAt <= s.deaths && Latched(log[..latchedAt])
    ensures s.transport == None
  {
    hide Latched;
    LatchedForGood(log[..latchedAt], log[latchedAt..s.deaths]);
    assert log[..latchedAt] + log[latchedAt..s.deaths] == log[..s.deaths];
  }
}
