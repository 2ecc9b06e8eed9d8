/** The rate limits under any clock: exactly which readings, taken in lock order, keep
    every window within the limit, and exactly which keep both versions alike. */
module RateLimitClock {
  import opened RateLimit

  // ---- Readings --------------------------------------------------------

  /** Attempts made at the readings `at`, in order; some readings may see several
      attempts and some none. */
  predicate Made(at: seq<nat>, times: seq<Time>) {
    && (forall x :: 0 <= x < |at| ==> at[x] < |times|)
    && forall x, y :: 0 <= x < y < |at| ==> at[x] <= at[y]
  }

  function Readings(times: seq<Time>, at: seq<nat>): (readings: seq<Time>)
    requires Made(at, times)
    ensures |readings| == |at| && forall x :: 0 <= x < |at| ==> readings[x] == times[at[x]]
  {
    seq(|at|, x requires 0 <= x < |at| => times[at[x]])
  }

  predicate Close(a: Time, b: Time, window: Time) {
    a - window < b < a + window
  }

  /** After some reading saw an attempt expired, no later reading falls back to within a
      window of it. */
  predicate NoRelapse(times: seq<Time>, window: Time) {
    forall i, j, k :: 0 <= i < j < k < |times| && times[i] + window <= times[j] ==> !Close(times[i], times[k], window)
  }

  lemma ReadingsKeepNoRelapse(times: seq<Time>, at: seq<nat>, window: Time)
    requires Made(at, times) && NoRelapse(times, window) && window > 0.0
    ensures NoRelapse(Readings(times, at), window)
  {
    var r := Readings(times, at);
    forall i, j, k | 0 <= i < j < k < |r| && r[i] + window <= r[j] ensures !Close(r[i], r[k], window) {
      assert at[i] <= at[j] <= at[k];
    }
  }

  lemma OrderedNeverRelapses(times: seq<Time>, window: Time)
    requires Ascends(times)
    ensures NoRelapse(times, window)
  {
  }

  // ---- The limit -------------------------------------------------------

  function CountFrom(log: seq<Time>, start: Time, window: Time): nat {
    CountIn(log, start, start + window)
  }

  ghost predicate WithinLimit(maxCalls: nat, window: Time, log: seq<Time>) {
    forall start :: CountFrom(log, start, window) <= maxCalls
  }

  lemma CountMore(log: seq<Time>, v: Time, start: Time, window: Time)
    ensures CountFrom(log + [v], start, window) == CountFrom(log, start, window) + if start < v <= start + window then 1 else 0
  {
    assert (log + [v])[..|log|] == log;
  }

  /** In windows that hold a reading still to come, what is logged is what is kept. */
  ghost predicate Accounted(kept: seq<Time>, log: seq<Time>, times: seq<Time>, n: nat, window: Time) {
    forall x, start :: n <= x < |times| && start < times[x] <= start + window ==>
      CountFrom(log, start, window) == CountFrom(kept, start, window)
  }

  /** `live` is `kept` without times up to `cutoff`: windows without such times lose nothing. */
  ghost predicate Drops(kept: seq<Time>, live: seq<Time>, cutoff: Time, window: Time) {
    && (forall t :: t in live ==> t in kept)
    && forall start :: (forall d :: d in kept && d <= cutoff ==> !(start < d <= start + window)) ==>
         CountFrom(live, start, window) == CountFrom(kept, start, window)
  }

  lemma {:induction false} CountBound(log: seq<Time>, start: Time, window: Time)
    ensures CountFrom(log, start, window) <= |log|
  {
  }

  lemma {:induction false} LiveDrops(kept: seq<Time>, cutoff: Time, window: Time)
    ensures Drops(kept, Live(kept, cutoff), cutoff, window)
  {
    if kept != [] {
      var n := |kept| - 1;
      LiveDrops(kept[..n], cutoff, window);
      var before := Live(kept[..n], cutoff);
      assert kept[..n] + [kept[n]] == kept;
      forall start | forall d :: d in kept && d <= cutoff ==> !(start < d <= start + window)
        ensures CountFrom(Live(kept, cutoff), start, window) == CountFrom(kept, start, window)
      {
        assert kept[n] in kept && forall d :: d in kept[..n] ==> d in kept;
        assert Live(kept, cutoff) == if kept[n] > cutoff then before + [kept[n]] else before;
        CountMore(kept[..n], kept[n], start, window);
        CountMore(before, kept[n], start, window);
        assert CountFrom(before, start, window) == CountFrom(kept[..n], start, window);
      }
    }
  }

  lemma {:induction false} CountSuffix(log: seq<Time>, k: nat, start: Time, window: Time)
    requires k <= |log| && forall i :: 0 <= i < k ==> !(start < log[i] <= start + window)
    ensures CountFrom(log[k..], start, window) == CountFrom(log, start, window)
  {
    if k == |log| {
      NoneIn(log, start, window);
    } else {
      var n := |log| - 1;
      CountSuffix(log[..n], k, start, window);
      assert log[k..] == log[..n][k..] + [log[n]] && log == log[..n] + [log[n]];
      CountMore(log[..n][k..], log[n], start, window);
      CountMore(log[..n], log[n], start, window);
    }
  }

  lemma {:induction false} NoneIn(log: seq<Time>, start: Time, window: Time)
    requires forall i :: 0 <= i < |log| ==> !(start < log[i] <= start + window)
    ensures CountFrom(log, start, window) == 0
  {
    if log != [] {
      NoneIn(log[..|log| - 1], start, window);
    }
  }

  lemma PopDrops(kept: seq<Time>, cutoff: Time, window: Time)
    ensures Drops(kept, PopExpired(kept, cutoff), cutoff, window)
  {
    var k := PopsPrefix(kept, cutoff);
    forall start | forall d :: d in kept && d <= cutoff ==> !(start < d <= start + window)
      ensures CountFrom(kept[k..], start, window) == CountFrom(kept, start, window)
    {
      assert forall i :: 0 <= i < k ==> kept[i] in kept;
      CountSuffix(kept, k, start, window);
    }
  }

  ghost predicate Seen(kept: seq<Time>, times: seq<Time>, n: nat) {
    forall t :: t in kept ==> exists i :: 0 <= i < n && i < |times| && times[i] == t
  }

  /** One decision at reading `n`, whichever way expired attempts are dropped. */
  lemma DecisionStaysWithin(maxCalls: nat, window: Time, times: seq<Time>, n: nat, kept: seq<Time>, log: seq<Time>, live: seq<Time>)
    requires n < |times| && NoRelapse(times, window) && Seen(kept, times, n)
    requires Drops(kept, live, times[n] - window, window)
    requires Accounted(kept, log, times, n, window) && WithinLimit(maxCalls, window, log)
    ensures var (after, ok) := Admit(live, maxCalls, times[n]);
      var longer := if ok then log + [times[n]] else log;
      Seen(after, times, n + 1) && Accounted(after, longer, times, n + 1, window) && WithinLimit(maxCalls, window, longer)
  {
    hide CountFrom;
    var v := times[n];
    var (after, ok) := Admit(live, maxCalls, v);
    var longer := if ok then log + [v] else log;
    forall x, start | n + 1 <= x < |times| && start < times[x] <= start + window
      ensures CountFrom(longer, start, window) == CountFrom(after, start, window)
    {
      forall d | d in kept && d <= v - window ensures !(start < d <= start + window) {
        var i :| 0 <= i < n && i < |times| && times[i] == d;
        assert !Close(times[i], times[x], window);
      }
      CountMore(log, v, start, window);
      CountMore(live, v, start, window);
    }
    forall start ensures CountFrom(longer, start, window) <= maxCalls {
      CountMore(log, v, start, window);
      if start < v <= start + window {
        assert CountFrom(live, start, window) == CountFrom(kept, start, window) == CountFrom(log, start, window);
        CountBound(live, start, window);
      }
    }
    forall t | t in after ensures exists i :: 0 <= i < n + 1 && i < |times| && times[i] == t {
      if t in live {
        var i :| 0 <= i < n && i < |times| && times[i] == t;
      }
    }
  }

  lemma NothingAccounted(maxCalls: nat, window: Time, times: seq<Time>)
    ensures Seen([], times, 0) && Accounted([], [], times, 0, window) && WithinLimit(maxCalls, window, [])
  {
    assert forall start :: CountFrom([], start, window) == 0;
  }

  /** Without a relapse, every run stays within the limit: over a deque ... */
  lemma {:induction false} DequeStaysWithin(maxCalls: nat, window: Time, times: seq<Time>, n: nat)
    requires n <= |times| && NoRelapse(times, window)
    ensures var (kept, log) := DequeRun(maxCalls, window, times, n);
      Seen(kept, times, n) && Accounted(kept, log, times, n, window) && WithinLimit(maxCalls, window, log)
  {
    hide Seen, Accounted, WithinLimit, NoRelapse, PopExpired, Admit, Drops;
    if n == 0 {
      NothingAccounted(maxCalls, window, times);
    } else {
      DequeStaysWithin(maxCalls, window, times, n - 1);
      var (kept, log) := DequeRun(maxCalls, window, times, n - 1);
      PopDrops(kept, times[n - 1] - window, window);
      DecisionStaysWithin(maxCalls, window, times, n - 1, kept, log, PopExpired(kept, times[n - 1] - window));
    }
  }

  lemma FailedStaysWithin(times: seq<Time>, n: nat, kept: seq<Time>, log: seq<Time>, window: Time)
    requires Seen(kept, times, n) && Accounted(kept, log, times, n, window)
    ensures Seen(kept, times, n + 1) && Accounted(kept, log, times, n + 1, window)
  {
    forall t | t in kept ensures exists i :: 0 <= i < n + 1 && i < |times| && times[i] == t {
      var i :| 0 <= i < n && i < |times| && times[i] == t;
    }
  }

  /** ... and over a state file, whichever replaces fail. */
  lemma {:induction false} FileStaysWithin(maxCalls: nat, window: Time, times: seq<Time>, writable: seq<bool>, n: nat)
    requires n <= |times| == |writable| && NoRelapse(times, window)
    ensures var (kept, log) := FileRun(maxCalls, window, times, writable, n);
      Seen(kept, times, n) && Accounted(kept, log, times, n, window) && WithinLimit(maxCalls, window, log)
  {
    hide Seen, Accounted, WithinLimit, NoRelapse, Live, Admit, Drops;
    if n == 0 {
      NothingAccounted(maxCalls, window, times);
    } else {
      FileStaysWithin(maxCalls, window, times, writable, n - 1);
      var (kept, log) := FileRun(maxCalls, window, times, writable, n - 1);
      FailedStaysWithin(times, n - 1, kept, log, window);
      LiveDrops(kept, times[n - 1] - window, window);
      DecisionStaysWithin(maxCalls, window, times, n - 1, kept, log, Live(kept, times[n - 1] - window));
    }
  }

  // ---- A limit of one --------------------------------------------------

  /** With a limit of one, only the last allowance is kept, and allowances lie a window apart. */
  ghost predicate OneAtATime(kept: seq<Time>, log: seq<Time>, window: Time) {
    && kept == (if log == [] then [] else [log[|log| - 1]])
    && Ascends(log) && Spread(1, window, log)
  }

  lemma OneMore(kept: seq<Time>, log: seq<Time>, window: Time, v: Time, live: seq<Time>)
    requires OneAtATime(kept, log, window) && window > 0.0
    requires live == if kept != [] && kept[0] > v - window then kept else []
    ensures var (after, ok) := Admit(live, 1, v); OneAtATime(after, if ok then log + [v] else log, window)
  {
    if live == [] {
      var longer := log + [v];
      forall i, j | 0 <= i < j < |longer| ensures longer[i] <= longer[j] {
        if j == |log| && i < |log| - 1 {
          assert log[i] <= log[|log| - 1];
        }
      }
    }
  }

  lemma OneLive(kept: seq<Time>, cutoff: Time)
    requires |kept| <= 1
    ensures PopExpired(kept, cutoff) == Live(kept, cutoff) == if kept != [] && kept[0] > cutoff then kept else []
  {
    if kept != [] {
      assert kept == [kept[0]] && kept[..0] == [];
    }
  }

  lemma {:induction false} DequeOneAtATime(window: Time, times: seq<Time>, n: nat)
    requires n <= |times| && window > 0.0
    ensures var (kept, log) := DequeRun(1, window, times, n); OneAtATime(kept, log, window)
  {
    hide PopExpired, Live, Admit;
    if n > 0 {
      DequeOneAtATime(window, times, n - 1);
      var (kept, log) := DequeRun(1, window, times, n - 1);
      OneLive(kept, times[n - 1] - window);
      OneMore(kept, log, window, times[n - 1], PopExpired(kept, times[n - 1] - window));
    }
  }

  lemma {:induction false} FileOneAtATime(window: Time, times: seq<Time>, writable: seq<bool>, n: nat)
    requires n <= |times| == |writable| && window > 0.0
    ensures var (kept, log) := FileRun(1, window, times, writable, n); OneAtATime(kept, log, window)
  {
    hide PopExpired, Live, Admit;
    if n > 0 {
      FileOneAtATime(window, times, writable, n - 1);
      var (kept, log) := FileRun(1, window, times, writable, n - 1);
      OneLive(kept, times[n - 1] - window);
      OneMore(kept, log, window, times[n - 1], Live(kept, times[n - 1] - window));
    }
  }

  lemma OneIsWithin(kept: seq<Time>, log: seq<Time>, window: Time)
    requires OneAtATime(kept, log, window)
    ensures WithinLimit(1, window, log)
  {
    forall start ensures CountFrom(log, start, window) <= 1 {
      SpreadIsSparse(1, window, log, start);
    }
  }

  // ---- A relapse over-allows -------------------------------------------

  /** `maxCalls` attempts at one reading, one at a second and one at a third. */
  function Burst(maxCalls: nat, i: nat, j: nat, k: nat): (at: seq<nat>)
    ensures |at| == maxCalls + 2 && at[maxCalls] == j && at[maxCalls + 1] == k
    ensures forall x :: 0 <= x < maxCalls ==> at[x] == i
  {
    seq(maxCalls, x => i) + [j, k]
  }

  lemma {:induction false} PopsAll(attempts: seq<Time>, cutoff: Time)
    requires forall i :: 0 <= i < |attempts| ==> attempts[i] <= cutoff
    ensures PopExpired(attempts, cutoff) == [] && Live(attempts, cutoff) == []
  {
    var k := PopsPrefix(attempts, cutoff);
    LiveFrom(attempts, cutoff, |attempts|);
  }

  lemma PopsNone(attempts: seq<Time>, cutoff: Time)
    requires forall i :: 0 <= i < |attempts| ==> attempts[i] > cutoff
    ensures PopExpired(attempts, cutoff) == attempts && Live(attempts, cutoff) == attempts
  {
    LiveFrom(attempts, cutoff, 0);
  }

  function Always(n: nat): (writable: seq<bool>)
    ensures |writable| == n && forall i :: 0 <= i < n ==> writable[i]
  {
    seq(n, i => true)
  }

  /** The first `n` equal attempts fill the window. */
  lemma {:induction false} Fills(maxCalls: nat, window: Time, r: seq<Time>, n: nat, a: Time)
    requires n <= maxCalls && n <= |r| && window > 0.0 && forall x :: 0 <= x < n ==> r[x] == a
    ensures DequeRun(maxCalls, window, r, n) == (r[..n], r[..n])
    ensures FileRun(maxCalls, window, r, Always(|r|), n) == (r[..n], r[..n])
  {
    hide PopExpired, Live;
    if n > 0 {
      Fills(maxCalls, window, r, n - 1, a);
      PopsNone(r[..n - 1], r[n - 1] - window);
      assert r[..n] == r[..n - 1] + [r[n - 1]];
    }
  }

  lemma NextRun(maxCalls: nat, window: Time, r: seq<Time>, n: nat, kept: seq<Time>, log: seq<Time>, live: seq<Time>)
    requires n < |r| && |live| < maxCalls
    requires DequeRun(maxCalls, window, r, n) == FileRun(maxCalls, window, r, Always(|r|), n) == (kept, log)
    requires PopExpired(kept, r[n] - window) == Live(kept, r[n] - window) == live
    ensures DequeRun(maxCalls, window, r, n + 1) == FileRun(maxCalls, window, r, Always(|r|), n + 1) == (live + [r[n]], log + [r[n]])
  {
    hide PopExpired, Live;
  }

  lemma {:induction false} AllIn(log: seq<Time>, start: Time, window: Time)
    requires forall i :: 0 <= i < |log| ==> start < log[i] <= start + window
    ensures CountFrom(log, start, window) == |log|
  {
    if log != [] {
      AllIn(log[..|log| - 1], start, window);
    }
  }

  /** A full window, one reading past its expiry and one that falls back: one allowance
      too many, in both versions. */
  lemma RelapseOverAllows(maxCalls: nat, window: Time, r: seq<Time>, a: Time)
    requires maxCalls >= 2 && window > 0.0 && |r| == maxCalls + 2
    requires forall x :: 0 <= x < maxCalls ==> r[x] == a
    requires a + window <= r[maxCalls] && Close(a, r[maxCalls + 1], window)
    ensures DequeRun(maxCalls, window, r, |r|).1 == FileRun(maxCalls, window, r, Always(|r|), |r|).1 == r
    ensures !WithinLimit(maxCalls, window, r)
  {
    hide DequeRun, FileRun, PopExpired, Live, CountFrom;
    var m, b, c := maxCalls, r[maxCalls], r[maxCalls + 1];
    Fills(m, window, r, m, a);
    PopsAll(r[..m], b - window);
    NextRun(m, window, r, m, r[..m], r[..m], []);
    PopsNone([b], c - window);
    assert [] + [b] == [b];
    NextRun(m, window, r, m + 1, [b], r[..m] + [b], [b]);
    assert r == r[..m] + [b] + [c];
    var start := (if a < c then c else a) - window;
    AllIn(r[..m], start, window);
    CountMore(r[..m], b, start, window);
    CountMore(r[..m] + [b], c, start, window);
    assert CountFrom(r, start, window) > m;
  }

  lemma RelapseIsMade(maxCalls: nat, window: Time, times: seq<Time>) returns (at: seq<nat>)
    requires maxCalls >= 2 && window > 0.0 && !NoRelapse(times, window)
    ensures Made(at, times)
    ensures var r := Readings(times, at);
      && !WithinLimit(maxCalls, window, DequeRun(maxCalls, window, r, |at|).1)
      && !WithinLimit(maxCalls, window, FileRun(maxCalls, window, r, Always(|at|), |at|).1)
  {
    hide DequeRun, FileRun, WithinLimit;
    var i, j, k :| 0 <= i < j < k < |times| && times[i] + window <= times[j] && Close(times[i], times[k], window);
    at := Burst(maxCalls, i, j, k);
    RelapseOverAllows(maxCalls, window, Readings(times, at), times[i]);
  }

  /** Exactly when the limit in memory holds, however many attempts each reading sees:
      when it is one, or when no reading relapses. */
  lemma LimitHoldsExactly(maxCalls: nat, window: Time, times: seq<Time>)
    requires maxCalls > 0 && window > 0.0
    ensures (forall at :: Made(at, times) ==> WithinLimit(maxCalls, window, DequeRun(maxCalls, window, Readings(times, at), |at|).1))
            <==> maxCalls == 1 || NoRelapse(times, window)
  {
    hide DequeRun, WithinLimit, NoRelapse, OneAtATime;
    if maxCalls == 1 || NoRelapse(times, window) {
      forall at | Made(at, times)
        ensures WithinLimit(maxCalls, window, DequeRun(maxCalls, window, Readings(times, at), |at|).1)
      {
        var r := Readings(times, at);
        if maxCalls == 1 {
          DequeOneAtATime(window, r, |at|);
          OneIsWithin(DequeRun(1, window, r, |at|).0, DequeRun(1, window, r, |at|).1, window);
        } else {
          ReadingsKeepNoRelapse(times, at, window);
          DequeStaysWithin(maxCalls, window, r, |at|);
        }
      }
    } else {
      var at := RelapseIsMade(maxCalls, window, times);
    }
  }

  /** The durable limit holds exactly then too, whichever replaces fail. */
  lemma FileLimitHoldsExactly(maxCalls: nat, window: Time, times: seq<Time>)
    requires maxCalls > 0 && window > 0.0
    ensures (forall at, writable :: Made(at, times) && |writable| == |at| ==>
               WithinLimit(maxCalls, window, FileRun(maxCalls, window, Readings(times, at), writable, |at|).1))
            <==> maxCalls == 1 || NoRelapse(times, window)
  {
    hide FileRun, WithinLimit, NoRelapse, OneAtATime;
    if maxCalls == 1 || NoRelapse(times, window) {
      forall at, writable | Made(at, times) && |writable| == |at|
        ensures WithinLimit(maxCalls, window, FileRun(maxCalls, window, Readings(times, at), writable, |at|).1)
      {
        var r := Readings(times, at);
        if maxCalls == 1 {
          FileOneAtATime(window, r, writable, |at|);
          OneIsWithin(FileRun(1, window, r, writable, |at|).0, FileRun(1, window, r, writable, |at|).1, window);
        } else {
          ReadingsKeepNoRelapse(times, at, window);
          FileStaysWithin(maxCalls, window, r, writable, |at|);
        }
      }
    } else {
      var at := RelapseIsMade(maxCalls, window, times);
      assert |Always(|at|)| == |at|;
    }
  }

  /** So it holds under every clock exactly when the limit is one. */
  lemma AnyClockExactly(maxCalls: nat, window: Time)
    requires maxCalls > 0 && window > 0.0
    ensures (forall times :: WithinLimit(maxCalls, window, DequeRun(maxCalls, window, times, |times|).1)) <==> maxCalls == 1
  {
    hide DequeRun, WithinLimit, OneAtATime;
    if maxCalls == 1 {
      forall times ensures WithinLimit(maxCalls, window, DequeRun(maxCalls, window, times, |times|).1) {
        DequeOneAtATime(window, times, |times|);
        OneIsWithin(DequeRun(1, window, times, |times|).0, DequeRun(1, window, times, |times|).1, window);
      }
    } else {
      var times := [0.0, window, window / 2.0];
      assert !NoRelapse(times, window) by {
        assert times[0] + window <= times[1] && Close(times[0], times[2], window);
      }
      var at := RelapseIsMade(maxCalls, window, times);
      var r := Readings(times, at);
      assert |r| == |at|;
    }
  }

  // ---- When both versions keep the same attempts -----------------------

  /** Popping keeps what filtering keeps exactly when no expired attempt stands behind a live one. */
  lemma PopKeepsLiveExactly(attempts: seq<Time>, cutoff: Time)
    ensures PopExpired(attempts, cutoff) == Live(attempts, cutoff)
            <==> forall i, j :: 0 <= i < j < |attempts| && attempts[i] > cutoff ==> attempts[j] > cutoff
  {
    var k := PopsPrefix(attempts, cutoff);
    if forall i, j :: 0 <= i < j < |attempts| && attempts[i] > cutoff ==> attempts[j] > cutoff {
      LiveFrom(attempts, cutoff, k);
    }
    if PopExpired(attempts, cutoff) == Live(attempts, cutoff) {
      LiveIsLive(attempts, cutoff);
      forall i, j | 0 <= i < j < |attempts| && attempts[i] > cutoff ensures attempts[j] > cutoff {
        assert attempts[j] == attempts[k..][j - k];
      }
    }
  }

  lemma {:induction false} LiveIsLive(attempts: seq<Time>, cutoff: Time)
    ensures forall i :: 0 <= i < |Live(attempts, cutoff)| ==> Live(attempts, cutoff)[i] > cutoff
  {
    if attempts != [] {
      LiveIsLive(attempts[..|attempts| - 1], cutoff);
    }
  }

  /** No reading finds an attempt live and a later one expired. */
  predicate NoSplit(times: seq<Time>, window: Time) {
    forall i, j, k :: 0 <= i < j < k < |times| && times[i] > times[k] - window ==> times[j] > times[k] - window
  }

  lemma ReadingsKeepNoSplit(times: seq<Time>, at: seq<nat>, window: Time)
    requires Made(at, times) && NoSplit(times, window) && window > 0.0
    ensures NoSplit(Readings(times, at), window)
  {
    var r := Readings(times, at);
    forall i, j, k | 0 <= i < j < k < |r| && r[i] > r[k] - window ensures r[j] > r[k] - window {
      assert at[i] <= at[j] <= at[k];
    }
  }

  /** The deque holds attempts in the order they were made. */
  lemma {:induction false} DequeInOrder(maxCalls: nat, window: Time, times: seq<Time>, n: nat) returns (ix: seq<nat>)
    requires n <= |times|
    ensures var kept := DequeRun(maxCalls, window, times, n).0;
      && |ix| == |kept| && (forall x :: 0 <= x < |ix| ==> ix[x] < n && kept[x] == times[ix[x]])
      && forall x, y :: 0 <= x < y < |ix| ==> ix[x] < ix[y]
  {
    hide PopExpired;
    if n == 0 {
      ix := [];
    } else {
      var before := DequeInOrder(maxCalls, window, times, n - 1);
      var kept := DequeRun(maxCalls, window, times, n - 1).0;
      var k := PopsPrefix(kept, times[n - 1] - window);
      ix := before[k..];
      if |ix| < maxCalls {
        ix := ix + [n - 1];
      }
    }
  }

  lemma {:induction false} SameRun(maxCalls: nat, window: Time, times: seq<Time>, n: nat)
    requires n <= |times| && window > 0.0 && (maxCalls == 1 || NoSplit(times, window))
    ensures FileRun(maxCalls, window, times, Always(|times|), n) == DequeRun(maxCalls, window, times, n)
  {
    hide PopExpired, Live, Admit, OneAtATime;
    if n > 0 {
      SameRun(maxCalls, window, times, n - 1);
      var kept := DequeRun(maxCalls, window, times, n - 1).0;
      if maxCalls == 1 {
        DequeOneAtATime(window, times, n - 1);
        assert |kept| <= 1 by { KeepsOne(kept, DequeRun(1, window, times, n - 1).1, window); }
        OneLive(kept, times[n - 1] - window);
      } else {
        var ix := DequeInOrder(maxCalls, window, times, n - 1);
        PopKeepsLiveExactly(kept, times[n - 1] - window);
      }
    }
  }

  lemma KeepsOne(kept: seq<Time>, log: seq<Time>, window: Time)
    requires OneAtATime(kept, log, window)
    ensures |kept| <= 1
  {
  }

  /** A split shows in the third decision. */
  lemma SplitShows(maxCalls: nat, window: Time, r: seq<Time>)
    requires maxCalls >= 2 && window > 0.0 && |r| == 3 && r[0] > r[2] - window && r[1] <= r[2] - window
    ensures FileRun(maxCalls, window, r, Always(3), 3).0 != DequeRun(maxCalls, window, r, 3).0
  {
    hide PopExpired, Live;
    Fills(maxCalls, window, r, 1, r[0]);
    assert r[..1] == [r[0]];
    PopsNone([r[0]], r[1] - window);
    NextRun(maxCalls, window, r, 1, [r[0]], [r[0]], [r[0]]);
    assert [r[0]] + [r[1]] == [r[0], r[1]];
    Splits(r[0], r[1], r[2] - window);
    assert [r[0], r[1]] + [r[2]] == [r[0], r[1], r[2]] && [r[0]] + [r[2]] == [r[0], r[2]];
    assert [r[0], r[1]][1] != [r[0], r[2]][1];
  }

  lemma Splits(a: Time, b: Time, cutoff: Time)
    requires a > cutoff >= b
    ensures PopExpired([a, b], cutoff) == [a, b] && Live([a, b], cutoff) == [a]
  {
    assert [a, b][..1] == [a] && [a][..0] == [];
    assert Live([a], cutoff) == [a];
  }

  /** Exactly when both versions keep the same attempts and take the same decisions: when
      the limit is one, or when no reading finds an attempt live and a later one expired. */
  lemma VersionsAgreeExactly(maxCalls: nat, window: Time, times: seq<Time>)
    requires maxCalls > 0 && window > 0.0
    ensures (forall at :: Made(at, times) ==>
               FileRun(maxCalls, window, Readings(times, at), Always(|at|), |at|)
               == DequeRun(maxCalls, window, Readings(times, at), |at|))
            <==> maxCalls == 1 || NoSplit(times, window)
  {
    hide DequeRun, FileRun, NoSplit;
    if maxCalls == 1 || NoSplit(times, window) {
      forall at | Made(at, times)
        ensures FileRun(maxCalls, window, Readings(times, at), Always(|at|), |at|)
                == DequeRun(maxCalls, window, Readings(times, at), |at|)
      {
        if maxCalls > 1 {
          ReadingsKeepNoSplit(times, at, window);
        }
        SameRun(maxCalls, window, Readings(times, at), |at|);
      }
    } else {
      var at := SplitIsMade(times, window);
      SplitShows(maxCalls, window, Readings(times, at));
    }
  }

  lemma SplitIsMade(times: seq<Time>, window: Time) returns (at: seq<nat>)
    requires !NoSplit(times, window)
    ensures |at| == 3 && Made(at, times)
    ensures var r := Readings(times, at); r[0] > r[2] - window && r[1] <= r[2] - window
  {
    var i, j, k :| 0 <= i < j < k < |times| && times[i] > times[k] - window && times[j] <= times[k] - window;
    at := [i, j, k];
  }
}
