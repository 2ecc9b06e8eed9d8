/** The sliding-window rate limit: in memory, over a deque, and durable, over a state file. */
module RateLimit {

  type Time = real

  // ---- One decision ----------------------------------------------------

  /** Pops expired attempts off the front; stops at the first live one. */
  function PopExpired(attempts: seq<Time>, cutoff: Time): seq<Time> {
    if attempts != [] && attempts[0] <= cutoff then PopExpired(attempts[1..], cutoff) else attempts
  }

  /** Keeps the live attempts, wherever they stand. */
  function Live(attempts: seq<Time>, cutoff: Time): (live: seq<Time>)
    ensures |live| <= |attempts|
  {
    if attempts == [] then []
    else
      var n := |attempts| - 1;
      Live(attempts[..n], cutoff) + if attempts[n] > cutoff then [attempts[n]] else []
  }

  /** Allows and records the attempt unless the window is full. */
  function Admit(live: seq<Time>, maxCalls: nat, now: Time): (seq<Time>, bool) {
    if |live| >= maxCalls then (live, false) else (live + [now], true)
  }

  class RateLimitProvider {
    const maxCalls: nat
    const window: Time
    var attempts: seq<Time>

    constructor (maxCalls: nat, window: Time)
      requires maxCalls > 0 && window > 0.0
      ensures this.maxCalls == maxCalls && this.window == window && attempts == []
    {
      this.maxCalls, this.window, attempts := maxCalls, window, [];
    }

    method Decide(now: Time) returns (allowed: bool)
      modifies this
      ensures (attempts, allowed) == Admit(PopExpired(old(attempts), now - window), maxCalls, now)
    {
      var cutoff := now - window;
      while attempts != [] && attempts[0] <= cutoff
        invariant PopExpired(attempts, cutoff) == PopExpired(old(attempts), cutoff)
        decreases |attempts|
      {
        attempts := attempts[1..];
      }
      if |attempts| >= maxCalls {
        return false;
      }
      attempts := attempts + [now];
      allowed := true;
    }
  }

  /** The state file: absent, not readable as a list of numbers, or the attempts. */
  datatype StateFile = Missing | Corrupt | Attempts(times: seq<Time>)

  function Loaded(file: StateFile): seq<Time>
    requires !file.Corrupt?
  {
    if file.Missing? then [] else file.times
  }

  class FileRateLimitProvider {
    const maxCalls: nat
    const window: Time
    var file: StateFile

    constructor (maxCalls: nat, window: Time, file: StateFile)
      requires maxCalls > 0 && window > 0.0
      ensures this.maxCalls == maxCalls && this.window == window && this.file == file
    {
      this.maxCalls, this.window, this.file := maxCalls, window, file;
    }

    /** Anything wrong with the state fails closed; `writable` is whether the replace succeeds. */
    method Decide(now: Time, writable: bool) returns (allowed: bool)
      modifies this
      ensures old(file).Corrupt? || !writable ==> !allowed && file == old(file)
      ensures !old(file).Corrupt? && writable ==>
        var (times, ok) := Admit(Live(Loaded(old(file)), now - window), maxCalls, now);
        file == Attempts(times) && allowed == ok
    {
      if file.Corrupt? {
        return false;
      }
      var stored, cutoff := Loaded(file), now - window;
      var live: seq<Time> := [];
      for i := 0 to |stored|
        invariant live == Live(stored[..i], cutoff)
      {
        assert stored[..i + 1][..i] == stored[..i];
        if stored[i] > cutoff {
          live := live + [stored[i]];
        }
      }
      assert stored[..|stored|] == stored;
      if !writable {
        return false;
      }
      if |live| >= maxCalls {
        file := Attempts(live);
        return false;
      }
      file := Attempts(live + [now]);
      allowed := true;
    }
  }

  // ---- Whole runs ------------------------------------------------------

  /** The clock never goes back in lock order. */
  predicate Ascends(times: seq<Time>) {
    forall i, j :: 0 <= i < j < |times| ==> times[i] <= times[j]
  }

  /** The deque after the first `n` decisions, and the times of the allowed ones. */
  function DequeRun(maxCalls: nat, window: Time, times: seq<Time>, n: nat): (seq<Time>, seq<Time>)
    requires n <= |times|
  {
    if n == 0 then ([], [])
    else
      var (attempts, log) := DequeRun(maxCalls, window, times, n - 1);
      var (after, ok) := Admit(PopExpired(attempts, times[n - 1] - window), maxCalls, times[n - 1]);
      (after, if ok then log + [times[n - 1]] else log)
  }

  /** The state file likewise; a decision whose replace fails denies and leaves the file. */
  function FileRun(maxCalls: nat, window: Time, times: seq<Time>, writable: seq<bool>, n: nat): (seq<Time>, seq<Time>)
    requires n <= |times| == |writable|
  {
    if n == 0 then ([], [])
    else
      var (attempts, log) := FileRun(maxCalls, window, times, writable, n - 1);
      var (after, ok) := Admit(Live(attempts, times[n - 1] - window), maxCalls, times[n - 1]);
      if !writable[n - 1] then (attempts, log) else (after, if ok then log + [times[n - 1]] else log)
  }

  /** The times of the decisions whose replace succeeded. */
  function Replaced(times: seq<Time>, writable: seq<bool>, n: nat): (kept: seq<Time>)
    requires n <= |times| == |writable|
    ensures |kept| <= n && forall t :: t in kept ==> t in times[..n]
  {
    if n == 0 then []
    else
      assert forall t :: t in times[..n - 1] ==> t in times[..n];
      var before := Replaced(times, writable, n - 1);
      if writable[n - 1] then before + [times[n - 1]] else before
  }

  /** The decision taken at step `n`. */
  predicate AllowedAt(maxCalls: nat, window: Time, times: seq<Time>, n: nat)
    requires n < |times|
  {
    Admit(PopExpired(DequeRun(maxCalls, window, times, n).0, times[n] - window), maxCalls, times[n]).1
  }

  /** Popping removes a prefix of expired attempts and leaves no expired one in front. */
  lemma {:induction false} PopsPrefix(attempts: seq<Time>, cutoff: Time) returns (k: nat)
    ensures k <= |attempts| && PopExpired(attempts, cutoff) == attempts[k..]
    ensures forall i :: 0 <= i < k ==> attempts[i] <= cutoff
    ensures k < |attempts| ==> attempts[k] > cutoff
  {
    if attempts != [] && attempts[0] <= cutoff {
      var j := PopsPrefix(attempts[1..], cutoff);
      k := j + 1;
      assert attempts[1..][j..] == attempts[k..];
    } else {
      k := 0;
    }
  }

  /** On attempts in order, popping from the front keeps exactly the live ones. */
  lemma {:induction false} PopKeepsLive(attempts: seq<Time>, cutoff: Time)
    requires Ascends(attempts)
    ensures PopExpired(attempts, cutoff) == Live(attempts, cutoff)
  {
    var k := PopsPrefix(attempts, cutoff);
    LiveFrom(attempts, cutoff, k);
  }

  lemma {:induction false} LiveFrom(attempts: seq<Time>, cutoff: Time, k: nat)
    requires k <= |attempts|
    requires forall i :: 0 <= i < k ==> attempts[i] <= cutoff
    requires forall i :: k <= i < |attempts| ==> attempts[i] > cutoff
    ensures Live(attempts, cutoff) == attempts[k..]
  {
    if attempts != [] {
      var n := |attempts| - 1;
      if k <= n {
        LiveFrom(attempts[..n], cutoff, k);
        assert attempts[k..] == attempts[..n][k..] + [attempts[n]];
      } else {
        LiveFrom(attempts[..n], cutoff, n);
      }
    }
  }

  /** Any `maxCalls` consecutive allowances span a whole window before the next one. */
  predicate Spread(maxCalls: nat, window: Time, log: seq<Time>) {
    forall i :: 0 <= i < |log| - maxCalls ==> log[i] + window <= log[i + maxCalls]
  }

  /** The deque is the tail of the log that has not expired at `now`. */
  predicate IsTail(maxCalls: nat, window: Time, attempts: seq<Time>, log: seq<Time>, now: Time, k: nat) {
    && k <= |log| && attempts == log[k..] && |attempts| <= maxCalls
    && Ascends(log) && (forall i :: 0 <= i < |log| ==> log[i] <= now)
    && (forall i :: 0 <= i < k ==> log[i] <= now - window)
    && Spread(maxCalls, window, log)
  }

  lemma PopKeepsTail(maxCalls: nat, window: Time, attempts: seq<Time>, log: seq<Time>, last: Time, j: nat, now: Time) returns (k: nat)
    requires IsTail(maxCalls, window, attempts, log, last, j) && last <= now
    ensures IsTail(maxCalls, window, PopExpired(attempts, now - window), log, now, k)
  {
    var m := PopsPrefix(attempts, now - window);
    k := j + m;
    assert attempts[m..] == log[k..];
    forall i | 0 <= i < k ensures log[i] <= now - window {
      if i >= j {
        assert log[i] == attempts[i - j];
      }
    }
  }

  lemma AdmitKeepsTail(maxCalls: nat, window: Time, live: seq<Time>, log: seq<Time>, now: Time, k: nat)
    requires IsTail(maxCalls, window, live, log, now, k) && |live| < maxCalls && window > 0.0
    ensures IsTail(maxCalls, window, live + [now], log + [now], now, k)
  {
    var longer := log + [now];
    assert longer[k..] == log[k..] + [now];
    forall i | 0 <= i < |longer| - maxCalls ensures longer[i] + window <= longer[i + maxCalls] {
      if i + maxCalls < |log| {
        assert log[i] + window <= log[i + maxCalls];
      } else {
        assert i < k;
      }
    }
  }

  /** What the deque is at every moment of a run. */
  lemma {:induction false} DequeIsTail(maxCalls: nat, window: Time, times: seq<Time>, n: nat) returns (k: nat)
    requires maxCalls > 0 && window > 0.0 && Ascends(times) && 0 < n <= |times|
    ensures var (attempts, log) := DequeRun(maxCalls, window, times, n);
      IsTail(maxCalls, window, attempts, log, times[n - 1], k)
  {
    hide IsTail, PopExpired;
    var (attempts, log) := DequeRun(maxCalls, window, times, n - 1);
    var j := 0;
    var last := times[n - 1];
    if n == 1 {
      EmptyIsTail(maxCalls, window, last);
    } else {
      j := DequeIsTail(maxCalls, window, times, n - 1);
      last := times[n - 2];
    }
    k := PopKeepsTail(maxCalls, window, attempts, log, last, j, times[n - 1]);
    var live := PopExpired(attempts, times[n - 1] - window);
    if |live| < maxCalls {
      AdmitKeepsTail(maxCalls, window, live, log, times[n - 1], k);
    }
  }

  lemma EmptyIsTail(maxCalls: nat, window: Time, now: Time)
    ensures IsTail(maxCalls, window, [], [], now, 0)
  {
  }

  // ---- What the limit means --------------------------------------------

  /** How many times of the log fall in the window that ends at `end`. */
  function CountIn(log: seq<Time>, start: Time, end: Time): (count: nat)
    ensures count <= |log|
  {
    if log == [] then 0
    else CountIn(log[..|log| - 1], start, end) + if start < log[|log| - 1] <= end then 1 else 0
  }

  lemma {:induction false} CountOutside(log: seq<Time>, start: Time, end: Time, k: nat)
    requires k <= |log| && forall i :: 0 <= i < k ==> log[i] <= start
    ensures CountIn(log, start, end) <= |log| - k
  {
    if |log| > k {
      CountOutside(log[..|log| - 1], start, end, k);
    } else if log != [] {
      CountOutside(log[..|log| - 1], start, end, k - 1);
    }
  }

  /** Spread allowances never crowd a window. */
  lemma {:induction false} SpreadIsSparse(maxCalls: nat, window: Time, log: seq<Time>, start: Time)
    requires Ascends(log) && Spread(maxCalls, window, log)
    ensures CountIn(log, start, start + window) <= maxCalls
  {
    if log != [] {
      var n := |log| - 1;
      if !(start < log[n] <= start + window) {
        SpreadIsSparse(maxCalls, window, log[..n], start);
      } else if n >= maxCalls {
        assert log[n - maxCalls] + window <= log[n];
        forall i | 0 <= i <= n - maxCalls ensures log[i] <= start {
        }
        CountOutside(log, start, start + window, n - maxCalls + 1);
      }
    }
  }

  /** Over every run with a clock that does not go back, every window of the configured
      length holds at most `maxCalls` allowances. */
  lemma WindowsHoldAtMostMaxCalls(maxCalls: nat, window: Time, times: seq<Time>, n: nat, start: Time)
    requires maxCalls > 0 && window > 0.0 && Ascends(times) && n <= |times|
    ensures CountIn(DequeRun(maxCalls, window, times, n).1, start, start + window) <= maxCalls
  {
    if n > 0 {
      var k := DequeIsTail(maxCalls, window, times, n);
      SpreadIsSparse(maxCalls, window, DequeRun(maxCalls, window, times, n).1, start);
    }
  }

  lemma {:induction false} CountTail(log: seq<Time>, start: Time, end: Time, k: nat)
    requires k <= |log|
    requires forall i :: 0 <= i < k ==> log[i] <= start
    requires forall i :: k <= i < |log| ==> start < log[i] <= end
    ensures CountIn(log, start, end) == |log| - k
  {
    if |log| > k {
      CountTail(log[..|log| - 1], start, end, k);
    } else if log != [] {
      CountTail(log[..|log| - 1], start, end, k - 1);
    }
  }

  /** What survives popping from a deque in order is all in the window. */
  lemma SurvivorsAreLive(maxCalls: nat, window: Time, attempts: seq<Time>, log: seq<Time>, last: Time, j: nat, now: Time, live: seq<Time>)
    requires IsTail(maxCalls, window, attempts, log, last, j) && live == PopExpired(attempts, now - window)
    ensures Ascends(attempts)
    ensures forall i :: 0 <= i < |live| ==> live[i] > now - window
  {
    assert Ascends(attempts);
    var m := PopsPrefix(attempts, now - window);
  }

  lemma WindowCountsTail(maxCalls: nat, window: Time, live: seq<Time>, log: seq<Time>, now: Time, k: nat)
    requires IsTail(maxCalls, window, live, log, now, k)
    requires forall i :: 0 <= i < |live| ==> live[i] > now - window
    ensures CountIn(log, now - window, now) == |live|
  {
    forall i | k <= i < |log| ensures now - window < log[i] <= now {
      assert log[i] == live[i - k];
    }
    CountTail(log, now - window, now, k);
  }

  /** An attempt is denied exactly when the window that ends with it is full. */
  lemma DeniedExactlyWhenFull(maxCalls: nat, window: Time, times: seq<Time>, n: nat)
    requires maxCalls > 0 && window > 0.0 && Ascends(times) && n < |times|
    ensures var log := DequeRun(maxCalls, window, times, n).1;
      !AllowedAt(maxCalls, window, times, n) <==> CountIn(log, times[n] - window, times[n]) == maxCalls
  {
    hide IsTail, CountIn;
    var (attempts, log) := DequeRun(maxCalls, window, times, n);
    var now := times[n];
    var live := PopExpired(attempts, now - window);
    var j, last := 0, now;
    if n == 0 {
      EmptyIsTail(maxCalls, window, now);
    } else {
      j := DequeIsTail(maxCalls, window, times, n);
      last := times[n - 1];
    }
    var k := PopKeepsTail(maxCalls, window, attempts, log, last, j, now);
    SurvivorsAreLive(maxCalls, window, attempts, log, last, j, now, live);
    WindowCountsTail(maxCalls, window, live, log, now, k);
    TailIsShort(maxCalls, window, live, log, now, k);
  }

  lemma TailIsShort(maxCalls: nat, window: Time, live: seq<Time>, log: seq<Time>, now: Time, k: nat)
    requires IsTail(maxCalls, window, live, log, now, k)
    ensures |live| <= maxCalls
  {
  }

  lemma {:induction false} ReplacedAscends(times: seq<Time>, writable: seq<bool>, n: nat)
    requires n <= |times| == |writable| && Ascends(times)
    ensures Ascends(Replaced(times, writable, n))
  {
    if n > 0 {
      ReplacedAscends(times, writable, n - 1);
      var kept := Replaced(times, writable, n - 1);
      forall i | 0 <= i < |kept| ensures kept[i] <= times[n - 1] {
        var prefix := times[..n - 1];
        assert kept[i] in prefix;
        var k :| 0 <= k < |prefix| && prefix[k] == kept[i];
      }
    }
  }

  lemma DequePrefix(maxCalls: nat, window: Time, times: seq<Time>, more: seq<Time>, n: nat)
    requires n <= |times| && times <= more
    ensures DequeRun(maxCalls, window, times, n) == DequeRun(maxCalls, window, more, n)
  {
    hide Admit, PopExpired;
    if n > 0 {
      DequePrefix(maxCalls, window, times, more, n - 1);
    }
  }

  /** What one more successful decision does, in both versions. */
  lemma NextAlike(maxCalls: nat, window: Time, times: seq<Time>)
    requires maxCalls > 0 && window > 0.0 && Ascends(times) && times != []
    ensures var n := |times| - 1;
      var attempts := DequeRun(maxCalls, window, times, n).0;
      PopExpired(attempts, times[n] - window) == Live(attempts, times[n] - window)
  {
    hide IsTail, PopExpired, Live, Admit;
    var n := |times| - 1;
    var (attempts, log) := DequeRun(maxCalls, window, times, n);
    if n > 0 {
      var k := DequeIsTail(maxCalls, window, times, n);
      SurvivorsAreLive(maxCalls, window, attempts, log, times[n - 1], k, times[n], PopExpired(attempts, times[n] - window));
    }
    PopKeepsLive(attempts, times[n] - window);
  }

  /** The file version keeps the same attempts and takes the same decisions as a deque
      that never saw the decisions whose replace failed. */
  lemma {:induction false} FileRunsAlike(maxCalls: nat, window: Time, times: seq<Time>, writable: seq<bool>, n: nat)
    requires maxCalls > 0 && window > 0.0 && Ascends(times) && n <= |times| == |writable|
    ensures var kept := Replaced(times, writable, n);
      FileRun(maxCalls, window, times, writable, n) == DequeRun(maxCalls, window, kept, |kept|)
  {
    hide IsTail, PopExpired, Live, Admit;
    if n > 0 {
      FileRunsAlike(maxCalls, window, times, writable, n - 1);
      if writable[n - 1] {
        var before, kept := Replaced(times, writable, n - 1), Replaced(times, writable, n);
        ReplacedAscends(times, writable, n);
        DequePrefix(maxCalls, window, before, kept, |before|);
        NextAlike(maxCalls, window, kept);
      }
    }
  }

  /** So its windows hold at most `maxCalls` allowances too, whichever replaces fail. */
  lemma FileWindowsHold(maxCalls: nat, window: Time, times: seq<Time>, writable: seq<bool>, n: nat, start: Time)
    requires maxCalls > 0 && window > 0.0 && Ascends(times) && n <= |times| == |writable|
    ensures CountIn(FileRun(maxCalls, window, times, writable, n).1, start, start + window) <= maxCalls
  {
    hide FileRun, DequeRun;
    var kept := Replaced(times, writable, n);
    FileRunsAlike(maxCalls, window, times, writable, n);
    ReplacedAscends(times, writable, n);
    WindowsHoldAtMostMaxCalls(maxCalls, window, kept, |kept|, start);
  }

  // ---- Why the clock must not go back ----------------------------------

  const STALE: seq<Time> := [5.0, 6.0, 16.5, 14.0]

  lemma DequeStep(maxCalls: nat, window: Time, times: seq<Time>, n: nat, attempts: seq<Time>, log: seq<Time>, live: seq<Time>)
    requires n < |times| && DequeRun(maxCalls, window, times, n) == (attempts, log)
    requires PopExpired(attempts, times[n] - window) == live && |live| < maxCalls
    ensures DequeRun(maxCalls, window, times, n + 1) == (live + [times[n]], log + [times[n]])
  {
  }

  /** With one stale reading, three allowances fall into one window of ten seconds that
      should hold two. */
  lemma StaleClockOverAllows()
    ensures DequeRun(2, 10.0, STALE, 4).1 == [5.0, 6.0, 16.5, 14.0]
    ensures CountIn(DequeRun(2, 10.0, STALE, 4).1, 4.5, 14.5) == 3
  {
    StaleCount();
    hide CountIn;
    DequeStep(2, 10.0, STALE, 0, [], [], []);
    assert [] + [STALE[0]] == [5.0];
    DequeStep(2, 10.0, STALE, 1, [5.0], [5.0], [5.0]);
    assert [5.0] + [STALE[1]] == [5.0, 6.0] && [] + [STALE[2]] == [16.5];
    assert [5.0, 6.0] + [STALE[2]] == [5.0, 6.0, 16.5] && [5.0, 6.0, 16.5] + [STALE[3]] == [5.0, 6.0, 16.5, 14.0];
    assert [5.0, 6.0][1..] == [6.0] && [6.0][1..] == [];
    assert PopExpired([5.0, 6.0], 6.5) == PopExpired([6.0], 6.5) == PopExpired([], 6.5);
    DequeStep(2, 10.0, STALE, 2, [5.0, 6.0], [5.0, 6.0], []);
    DequeStep(2, 10.0, STALE, 3, [16.5], [5.0, 6.0, 16.5], [16.5]);
  }

  lemma StaleCount()
    ensures CountIn([5.0, 6.0, 16.5, 14.0], 4.5, 14.5) == 3
  {
    var log := [5.0, 6.0, 16.5, 14.0];
    assert log[..3] == [5.0, 6.0, 16.5] && log[..3][..2] == [5.0, 6.0] && log[..2][..1] == [5.0];
    assert CountIn([5.0], 4.5, 14.5) == 1;
    assert CountIn([5.0, 6.0], 4.5, 14.5) == 2;
    assert CountIn([5.0, 6.0, 16.5], 4.5, 14.5) == 2;
  }

  /** Out of order, popping keeps an expired attempt that filtering drops. */
  lemma StaleClockSplitsTheVersions()
    ensures PopExpired([16.5, 14.0], 15.0) == [16.5, 14.0] && Live([16.5, 14.0], 15.0) == [16.5]
  {
    assert [16.5, 14.0][..1] == [16.5];
    assert Live([16.5], 15.0) == [16.5];
  }
}
