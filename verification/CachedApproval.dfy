/** The approval cache: two critical sections, with the inner provider asked in between
    and other threads free to run between them. */
module CachedApproval {

  datatype Option<+T> = None | Some(value: T)

  /** Contract, redacted input, risk, approval mode and declared spend. */
  datatype Key = Key(contractHash: string, inputHash: string, risk: string, approvalMode: string, spendCents: Option<int>)

  type Time = real
  type Cache = map<Key, Time>

  // ---- The dictionary --------------------------------------------------

  /** A dictionary: what it maps, and its keys in insertion order. */
  ghost predicate Lists(order: seq<Key>, cache: Cache) {
    NoDups(order) && forall k :: k in cache <==> k in order
  }

  /** The keys that are not expired at `now`, in order. */
  function LiveKeys(order: seq<Key>, cache: Cache, now: Time): (live: seq<Key>)
    ensures |live| <= |order|
    ensures forall k :: k in live <==> k in order && k in cache && cache[k] > now
  {
    if order == [] then []
    else
      var n := |order| - 1;
      LiveKeys(order[..n], cache, now) + if order[n] in cache && cache[order[n]] > now then [order[n]] else []
  }

  function WithoutKey(order: seq<Key>, key: Key): (rest: seq<Key>)
    ensures |rest| <= |order|
    ensures forall k :: k in rest <==> k in order && k != key
  {
    if order == [] then []
    else
      var n := |order| - 1;
      WithoutKey(order[..n], key) + if order[n] != key then [order[n]] else []
  }

  predicate NoDups(order: seq<Key>) {
    forall i, j :: 0 <= i < j < |order| ==> order[i] != order[j]
  }

  lemma {:induction false} LiveNoDups(order: seq<Key>, cache: Cache, now: Time)
    requires NoDups(order)
    ensures NoDups(LiveKeys(order, cache, now))
  {
    if order != [] {
      var n := |order| - 1;
      LiveNoDups(order[..n], cache, now);
      assert order[n] !in order[..n];
    }
  }

  lemma {:induction false} WithoutNoDups(order: seq<Key>, key: Key)
    requires NoDups(order)
    ensures NoDups(WithoutKey(order, key))
    ensures key in order ==> |WithoutKey(order, key)| == |order| - 1
    ensures key !in order ==> WithoutKey(order, key) == order
  {
    if order != [] {
      var n := |order| - 1;
      WithoutNoDups(order[..n], key);
      assert order[n] !in order[..n];
      assert order == order[..n] + [order[n]];
    }
  }

  lemma {:induction false} LiveUnlessExpired(order: seq<Key>, cache: Cache, now: Time)
    requires forall k :: k in order ==> k in cache
    ensures (exists k :: k in order && cache[k] <= now) ==> |LiveKeys(order, cache, now)| < |order|
    ensures (forall k :: k in order ==> cache[k] > now) ==> LiveKeys(order, cache, now) == order
  {
    if order != [] {
      var n := |order| - 1;
      assert order == order[..n] + [order[n]];
      LiveUnlessExpired(order[..n], cache, now);
    }
  }

  /** `a` was inserted before `b`. */
  predicate Precedes(order: seq<Key>, a: Key, b: Key) {
    exists i, j :: 0 <= i < j < |order| && order[i] == a && order[j] == b
  }

  /** What is left stands in the order it stood in. */
  ghost predicate KeepsOrder(before: seq<Key>, after: seq<Key>) {
    forall a, b :: Precedes(after, a, b) ==> Precedes(before, a, b)
  }

  lemma PrecedesMore(order: seq<Key>, last: Key)
    ensures forall a, b :: Precedes(order + [last], a, b) <==> Precedes(order, a, b) || (a in order && b == last)
  {
    var more := order + [last];
    forall a, b ensures Precedes(more, a, b) <==> Precedes(order, a, b) || (a in order && b == last) {
      if Precedes(more, a, b) {
        var i, j :| 0 <= i < j < |more| && more[i] == a && more[j] == b;
        assert order[i] == a;
      }
      if Precedes(order, a, b) {
        var i, j :| 0 <= i < j < |order| && order[i] == a && order[j] == b;
        assert more[i] == a && more[j] == b;
      }
      if a in order && b == last {
        var i :| 0 <= i < |order| && order[i] == a;
        assert more[i] == a && more[|order|] == b;
      }
    }
  }

  lemma {:induction false} LiveKeepsOrder(order: seq<Key>, cache: Cache, now: Time)
    ensures KeepsOrder(order, LiveKeys(order, cache, now))
  {
    if order != [] {
      var n := |order| - 1;
      LiveKeepsOrder(order[..n], cache, now);
      hide Precedes;
      assert order == order[..n] + [order[n]];
      PrecedesMore(order[..n], order[n]);
      PrecedesMore(LiveKeys(order[..n], cache, now), order[n]);
    }
  }

  lemma {:induction false} WithoutKeepsOrder(order: seq<Key>, key: Key)
    ensures KeepsOrder(order, WithoutKey(order, key))
  {
    if order != [] {
      var n := |order| - 1;
      WithoutKeepsOrder(order[..n], key);
      hide Precedes;
      assert order == order[..n] + [order[n]];
      PrecedesMore(order[..n], order[n]);
      PrecedesMore(WithoutKey(order[..n], key), order[n]);
    }
  }

  lemma SuffixKeepsOrder(order: seq<Key>, n: nat)
    requires n <= |order|
    ensures KeepsOrder(order, order[n..])
  {
    var after := order[n..];
    forall a, b | Precedes(after, a, b) ensures Precedes(order, a, b) {
      var i, j :| 0 <= i < j < |after| && after[i] == a && after[j] == b;
      assert order[n + i] == a && order[n + j] == b;
    }
  }

  lemma OrderKeptTwice(before: seq<Key>, middle: seq<Key>, after: seq<Key>)
    requires KeepsOrder(before, middle) && KeepsOrder(middle, after)
    ensures KeepsOrder(before, after)
  {
    hide Precedes;
  }

  /** A full cache makes room for one entry: what has expired goes, and only when nothing
      has, the oldest entry does. */
  ghost predicate MakesRoom(before: Cache, oldest: Key, after: Cache, now: Time) {
    && (forall k :: k in after ==> k in before && after[k] == before[k])
    && if exists k :: k in before && before[k] <= now
       then forall k :: k in before ==> (k in after <==> before[k] > now)
       else forall k :: k in before ==> (k in after <==> k != oldest)
  }

  lemma SweptMakesRoom(order: seq<Key>, cache: Cache, now: Time, limit: nat, left: seq<Key>, after: Cache)
    requires Lists(order, cache) && |order| == limit + 1 && Lists(left, after)
    requires var live := LiveKeys(order, cache, now);
      && |left| == (if |live| <= limit then |live| else limit) && left == live[|live| - |left|..]
    requires forall k :: k in after ==> k in cache && after[k] == cache[k]
    ensures MakesRoom(cache, order[0], after, now) && KeepsOrder(order, left)
  {
    hide KeepsOrder, LiveKeys, Lists, MakesRoom;
    var live := LiveKeys(order, cache, now);
    ListedAreKeys(order, cache);
    ListedAreKeys(left, after);
    LiveUnlessExpired(order, cache, now);
    LiveKeepsOrder(order, cache, now);
    SuffixKeepsOrder(live, |live| - |left|);
    OrderKeptTwice(order, live, left);
    if exists k :: k in order && cache[k] <= now {
      assert left == live;
      ExpiredGo(order, cache, now, after);
    } else {
      assert left == order[1..];
      OldestGoes(order, cache, now, after);
    }
  }

  lemma ExpiredGo(order: seq<Key>, cache: Cache, now: Time, after: Cache)
    requires Lists(order, cache) && exists k :: k in order && cache[k] <= now
    requires forall k :: k in after <==> k in LiveKeys(order, cache, now)
    requires forall k :: k in after ==> k in cache && after[k] == cache[k]
    ensures MakesRoom(cache, order[0], after, now)
  {
    hide LiveKeys, NoDups;
  }

  lemma OldestGoes(order: seq<Key>, cache: Cache, now: Time, after: Cache)
    requires Lists(order, cache) && order != [] && Lists(order[1..], after) && forall k :: k in order ==> cache[k] > now
    requires forall k :: k in after ==> k in cache && after[k] == cache[k]
    ensures MakesRoom(cache, order[0], after, now)
  {
    RestIsListed(order, cache, after);
    hide NoDups;
  }

  lemma ListedAreKeys(order: seq<Key>, cache: Cache)
    requires Lists(order, cache)
    ensures forall k :: k in cache <==> k in order
  {
  }

  lemma RestIsListed(order: seq<Key>, cache: Cache, after: Cache)
    requires Lists(order, cache) && order != [] && Lists(order[1..], after)
    ensures forall k :: k in cache ==> (k in after <==> k != order[0])
  {
    forall k | k in cache ensures k in after <==> k != order[0] {
      var i :| 0 <= i < |order| && order[i] == k;
      assert i > 0 ==> order[1..][i - 1] == k;
    }
  }

  // ---- The sections ----------------------------------------------------

  /** An allowance of the inner provider, and when it was filed. */
  datatype Grant = Grant(key: Key, at: Time)

  /** A critical section of some thread: looking a key up, or filing one that the inner
      provider has just allowed. */
  datatype Section = Looking(key: Key, now: Time) | Filing(key: Key, now: Time, later: Time)

  /** Some allowance of this key was filed one TTL before `expires`. */
  predicate FiledFor(grants: seq<Grant>, ttl: Time, key: Key, expires: Time) {
    exists i :: 0 <= i < |grants| && grants[i].key == key && expires == grants[i].at + ttl
  }

  /** Every entry runs out one TTL after an inner allowance of its own key was filed. */
  ghost predicate Backed(cache: Cache, grants: seq<Grant>, ttl: Time) {
    forall k :: k in cache ==> FiledFor(grants, ttl, k, cache[k])
  }

  lemma FilingBacks(cache: Cache, grants: seq<Grant>, ttl: Time, key: Key, now: Time)
    requires Backed(cache, grants, ttl)
    ensures Backed(cache[key := now + ttl], grants + [Grant(key, now)], ttl)
  {
    var after, filed := grants + [Grant(key, now)], cache[key := now + ttl];
    forall k | k in filed ensures FiledFor(after, ttl, k, filed[k]) {
      if k == key {
        assert after[|grants|] == Grant(key, now);
      } else {
        var i :| 0 <= i < |grants| && grants[i].key == k && cache[k] == grants[i].at + ttl;
        assert after[i] == grants[i];
      }
    }
  }

  /** Dropping the first key of a duplicate-free list leaves its tail. */
  lemma {:induction false} WithoutFirst(order: seq<Key>)
    requires NoDups(order) && order != []
    ensures WithoutKey(order, order[0]) == order[1..]
  {
    var n := |order| - 1;
    if n > 0 {
      WithoutFirst(order[..n]);
      assert order[1..] == order[..n][1..] + [order[n]];
    }
  }

  lemma ListsWithout(order: seq<Key>, cache: Cache, key: Key)
    requires Lists(order, cache)
    ensures Lists(WithoutKey(order, key), cache - {key})
    ensures key in order ==> |WithoutKey(order, key)| < |order|
  {
    WithoutNoDups(order, key);
  }

  function LiveEntries(cache: Cache, now: Time): Cache {
    map k | k in cache && cache[k] > now :: cache[k]
  }

  lemma ListsLive(order: seq<Key>, cache: Cache, now: Time)
    requires Lists(order, cache)
    ensures Lists(LiveKeys(order, cache, now), LiveEntries(cache, now))
  {
    LiveNoDups(order, cache, now);
  }

  lemma KeptAsIs(order: seq<Key>)
    ensures KeepsOrder(order, order)
  {
  }

  lemma MissingIsLeftOut(order: seq<Key>, cache: Cache, key: Key)
    requires Lists(order, cache)
    ensures key !in cache ==> cache == cache - {key} && WithoutKey(order, key) == order
    ensures key in cache ==> |WithoutKey(order, key)| == |order| - 1
  {
    WithoutNoDups(order, key);
  }

  lemma RoomIsMade(before: Cache, oldest: Key, after: Cache, now: Time)
    requires MakesRoom(before, oldest, after, now)
    ensures forall k :: k in after ==> k in before && after[k] == before[k]
  {
  }

  class CachedApprovalProvider {
    const ttl: Time
    const maxEntries: nat
    var cache: Cache
    var order: seq<Key>
    /** Every allowance the inner provider gave, as it was filed. */
    ghost var grants: seq<Grant>

    ghost predicate Valid()
      reads this
    {
      Lists(order, cache) && |order| <= maxEntries && maxEntries > 0 && Backed(cache, grants, ttl)
    }

    constructor (ttl: Time, maxEntries: nat)
      requires ttl > 0.0 && maxEntries > 0
      ensures Valid() && cache == map[] && grants == [] && this.ttl == ttl && this.maxEntries == maxEntries
    {
      this.ttl, this.maxEntries, cache, order, grants := ttl, maxEntries, map[], [], [];
    }

    /** Some allowance of this key, filed before, has not run out at `now`. */
    ghost predicate Granted(key: Key, now: Time)
      reads this
    {
      exists i :: 0 <= i < |grants| && grants[i].key == key && now < grants[i].at + ttl
    }

    method Delete(key: Key)
      requires Lists(order, cache) && Backed(cache, grants, ttl)
      modifies `cache, `order
      ensures Lists(order, cache) && Backed(cache, grants, ttl)
      ensures cache == old(cache) - {key} && order == WithoutKey(old(order), key)
      ensures |order| <= |old(order)| && (key in old(order) ==> |order| < |old(order)|)
    {
      hide Lists, WithoutKey, FiledFor;
      ListsWithout(order, cache, key);
      cache, order := cache - {key}, WithoutKey(order, key);
    }

    /** Drops what has expired. */
    method Sweep(now: Time)
      requires Lists(order, cache) && Backed(cache, grants, ttl)
      modifies `cache, `order
      ensures Lists(order, cache) && Backed(cache, grants, ttl)
      ensures cache == LiveEntries(old(cache), now) && order == LiveKeys(old(order), old(cache), now)
      ensures forall k :: k in cache ==> k in old(cache) && cache[k] == old(cache)[k]
    {
      hide Lists, LiveKeys, FiledFor;
      ListsLive(order, cache, now);
      cache, order := LiveEntries(cache, now), LiveKeys(order, cache, now);
    }

    /** Evicts the oldest entries until at most `limit` are left. */
    method Evict(limit: nat)
      requires Lists(order, cache) && Backed(cache, grants, ttl)
      modifies `cache, `order
      ensures Lists(order, cache) && Backed(cache, grants, ttl)
      ensures |order| == if |old(order)| <= limit then |old(order)| else limit
      ensures order == old(order)[|old(order)| - |order|..]
      ensures forall k :: k in cache ==> k in old(cache) && cache[k] == old(cache)[k]
      ensures |old(order)| <= limit ==> cache == old(cache)
    {
      hide WithoutKey, FiledFor, NoDups;
      while |order| > limit
        invariant Lists(order, cache) && Backed(cache, grants, ttl)
        invariant |order| <= |old(order)| && order == old(order)[|old(order)| - |order|..]
        invariant |order| >= if |old(order)| <= limit then |old(order)| else limit
        invariant forall k :: k in cache ==> k in old(cache) && cache[k] == old(cache)[k]
        invariant |old(order)| <= limit ==> cache == old(cache)
        decreases |order|
      {
        WithoutFirst(order);
        Delete(order[0]);
      }
    }

    /** Cuts a cache that is one entry over its limit back. */
    method MakeRoom(now: Time, limit: nat)
      requires Lists(order, cache) && Backed(cache, grants, ttl) && |order| == limit + 1
      modifies `cache, `order
      ensures Lists(order, cache) && Backed(cache, grants, ttl) && |order| <= limit
      ensures MakesRoom(old(cache), old(order)[0], cache, now) && KeepsOrder(old(order), order)
    {
      hide Lists, LiveKeys, LiveEntries, FiledFor, MakesRoom, KeepsOrder, Backed;
      Sweep(now);
      Evict(limit);
      SweptMakesRoom(old(order), old(cache), now, limit, order, cache);
    }

    /** The first section: a hit is an inner allowance of the same key that has not run
        out. On a miss there is room for one more entry. */
    method Look(key: Key, now: Time) returns (hit: bool)
      requires Valid()
      modifies `cache, `order
      ensures Valid()
      ensures hit <==> key in old(cache) && old(cache)[key] > now
      ensures hit ==> Granted(key, now) && cache == old(cache)
      ensures !hit ==> key !in cache && |order| < maxEntries
      ensures !hit && (key in old(cache) || |old(order)| < maxEntries) ==> cache == old(cache) - {key}
      ensures !hit && key !in old(cache) && |old(order)| == maxEntries ==> MakesRoom(old(cache), old(order)[0], cache, now)
      ensures KeepsOrder(old(order), order)
    {
      hide Lists, LiveKeys, LiveEntries, WithoutKey, MakesRoom, NoDups, KeepsOrder;
      KeptAsIs(order);
      WithoutKeepsOrder(order, key);
      MissingIsLeftOut(order, cache, key);
      if key in cache && cache[key] > now {
        return true;
      }
      if key in cache {
        Delete(key);
      }
      if |order| < maxEntries {
        return false;
      }
      MakeRoom(now, maxEntries - 1);
      RoomIsMade(old(cache), old(order)[0], cache, now);
      hit := false;
    }

    /** The second section, after the inner provider allowed the key: the entry is filed,
        and the cache is cut back to its bound. */
    method File(key: Key, now: Time, later: Time)
      requires Valid()
      modifies this
      ensures Valid() && grants == old(grants) + [Grant(key, now)]
      ensures |old(order)| < maxEntries || key in old(cache) ==>
        && cache == old(cache)[key := now + ttl]
        && order == if key in old(cache) then old(order) else old(order) + [key]
      ensures |old(order)| == maxEntries && key !in old(cache) ==>
        && MakesRoom(old(cache)[key := now + ttl], old(order)[0], cache, later)
        && KeepsOrder(old(order) + [key], order)
    {
      hide FiledFor, LiveKeys, LiveEntries, MakesRoom, KeepsOrder, Backed;
      FilingBacks(cache, grants, ttl, key, now);
      grants := grants + [Grant(key, now)];
      order := if key in cache then order else order + [key];
      cache := cache[key := now + ttl];
      if |order| > maxEntries {
        MakeRoom(later, maxEntries);
      }
    }

    /** Any critical sections of other threads, in any order. */
    method Others(sections: seq<Section>)
      requires Valid()
      modifies this
      ensures Valid() && old(grants) <= grants
    {
      for i := 0 to |sections|
        invariant Valid() && old(grants) <= grants
      {
        match sections[i]
        case Looking(key, now) =>
          var hit := Look(key, now);
        case Filing(key, now, later) =>
          File(key, now, later);
      }
    }

    /** One decision. The inner provider is asked outside the lock, so `between` may run
        before the allowance is filed. */
    method Decide(key: Key, now: Time, inner: bool, between: seq<Section>, filedAt: Time, later: Time)
      returns (allowed: bool, cached: bool)
      requires Valid()
      modifies this
      ensures Valid() && old(grants) <= grants
      ensures allowed <==> cached || inner
      ensures cached <==> key in old(cache) && old(cache)[key] > now
      ensures cached ==> old(Granted(key, now)) && grants == old(grants) && cache == old(cache)
      ensures !cached && inner ==> grants != [] && grants[|grants| - 1] == Grant(key, filedAt)
    {
      cached := Look(key, now);
      if cached {
        return true, true;
      }
      Others(between);
      allowed := inner;
      if allowed {
        File(key, filedAt, later);
      }
    }
  }
}
