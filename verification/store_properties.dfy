/**
  What the store promises, stated over the functions of module `Store` that
  the methods of `KeyValueStore` are proved to follow.
 */
module StoreProperties {
  import opened Wrappers
  import opened Recency
  import opened Store

  // ----- Expiry -----

  /** Once expired, an entry stays expired: time only moves it further past its expiry. */
  lemma ExpiryIsPermanent(e: Entry, now: int, later: int)
    requires now <= later && IsExpired(e, now)
    ensures IsExpired(e, later)
  {
  }

  /**
    An entry written by `set` at `now` is expired at `at` exactly when it was
    given a TTL and `at` is strictly later than `now` plus the TTL; a TTL of
    zero therefore still shows the key at the very instant it was written.
   */
  lemma ExpiryOfSet(val: string, ttl: Option<int>, now: int, at: int)
    ensures IsExpired(Entry(val, Deadline(now, ttl)), at) <==>
      ttl.Some? && at > now + ttl.value * TicksPerSecond
  {
  }

  // ----- The recency list -----

  /** Every key has exactly one node, so the list is as long as the map is large. */
  lemma {:induction false} OrderLength(c: Cache)
    requires Inv(c)
    ensures |c.order| == |c.data|
  {
    DistinctCard(c.order);
    assert (set x | x in c.order) == c.data.Keys;
  }

  lemma {:induction false} DistinctCard(s: seq<string>)
    requires Distinct(s)
    ensures |set x | x in s| == |s|
  {
    if s != [] {
      DistinctCard(s[1..]);
      assert (set x | x in s) == {s[0]} + (set x | x in s[1..]);
      assert s[0] !in (set x | x in s[1..]);
    }
  }

  /** An entry's handle is unambiguous: its key sits at exactly one position of the list. */
  lemma HandleIsUnique(c: Cache, key: string, i: int)
    requires Inv(c) && key in c.data
    requires 0 <= i < |c.order| && c.order[i] == key
    ensures i == IndexOf(c.order, key)
  {
  }

  // ----- set -----

  /**
    `set` on a present key, expired or not, replaces its value and expiry and
    makes it the most recent; the size, the other entries and the relative
    order of the other keys stay as they were, and nothing is evicted.
   */
  lemma SetExisting(c: Cache, key: string, val: string, ttl: Option<int>, now: int)
    requires Inv(c) && key in c.data
    ensures var r := AfterSet(c, key, val, ttl, now);
      && r.data == c.data[key := Entry(val, Deadline(now, ttl))]
      && |r.data| == |c.data|
      && r.order == [key] + Erase(c.order, key)
      && Erase(r.order, key) == Erase(c.order, key)
  {
  }

  /**
    `set` of a new key on a full store evicts exactly the back of the recency
    list from both structures, then puts the new key at the front: the store
    stays exactly full and every other entry is untouched.
   */
  lemma SetWhenFull(c: Cache, key: string, val: string, ttl: Option<int>, now: int)
    requires Inv(c) && key !in c.data && |c.data| >= c.capacity
    ensures c.order != []
    ensures var r := AfterSet(c, key, val, ttl, now);
      var v := Victim(c);
      && v in c.data
      && r.data == (c.data - {v})[key := Entry(val, Deadline(now, ttl))]
      && |r.data| == c.capacity
      && r.order == [key] + c.order[..|c.order| - 1]
  {
    FullHasVictim(c);
    var room := Evicted(c);
    assert room.data == c.data - {Victim(c)};
    assert room.order == c.order[..|c.order| - 1] by {
      assert room.order + [Victim(c)] == c.order;
    }
  }

  /** `set` of a new key on a store with room adds it at the front and evicts nothing. */
  lemma SetWithRoom(c: Cache, key: string, val: string, ttl: Option<int>, now: int)
    requires Inv(c) && key !in c.data && |c.data| < c.capacity
    ensures var r := AfterSet(c, key, val, ttl, now);
      && r.data == c.data[key := Entry(val, Deadline(now, ttl))]
      && |r.data| == |c.data| + 1
      && r.order == [key] + c.order
  {
  }

  /** Reading a key right after writing it gives the written value, unless the new TTL has run out. */
  lemma SetThenGet(c: Cache, key: string, val: string, ttl: Option<int>, now: int, at: int)
    requires Inv(c)
    ensures Lookup(AfterSet(c, key, val, ttl, now), key, at) ==
      if IsExpired(Entry(val, Deadline(now, ttl)), at) then None else Some(val)
  {
  }

  // ----- get -----

  /** `get` of a missing or expired key returns none and leaves the state as it was. */
  lemma GetMiss(c: Cache, key: string, now: int)
    requires Inv(c) && !Visible(c, key, now)
    ensures Lookup(c, key, now) == None && AfterGet(c, key, now) == c
  {
  }

  /** `get` of a visible key returns its value, makes it the most recent and leaves the map alone. */
  lemma GetHit(c: Cache, key: string, now: int)
    requires Inv(c) && Visible(c, key, now)
    ensures Lookup(c, key, now) == Some(c.data[key].value)
    ensures var r := AfterGet(c, key, now);
      && r.data == c.data
      && r.order[0] == key
      && multiset(r.order) == multiset(c.order)
      && Erase(r.order, key) == Erase(c.order, key)
  {
  }

  /** A key just read is not the next one evicted, as long as the store holds another key. */
  lemma {:induction false} GetShieldsFromEviction(c: Cache, key: string, now: int)
    requires Inv(c) && Visible(c, key, now) && |c.data| >= 2
    ensures var r := AfterGet(c, key, now); r.order != [] && Victim(r) != key
  {
    OrderLength(c);
    var r := AfterGet(c, key, now);
    assert r.order[0] == key;
    assert Distinct(r.order) && |r.order| >= 2;
  }

  // ----- del -----

  /**
    `del` of a present key unlinks its node and erases its entry; every other
    key keeps its entry and its place in the recency order.
   */
  lemma {:induction false} DelPresent(c: Cache, key: string)
    requires Inv(c) && key in c.data
    ensures var r := AfterDel(c, key); var i := IndexOf(c.order, key);
      && r.data == c.data - {key}
      && |r.data| == |c.data| - 1
      && r.order == c.order[..i] + c.order[i + 1..]
  {
    EraseAt(c.order, key);
    OrderLength(c);
    OrderLength(AfterDel(c, key));
    assert |Erase(c.order, key)| == |c.order| - 1 by { EraseAt(c.order, key); }
  }

  /** `del` of an absent key changes nothing. */
  lemma DelAbsent(c: Cache, key: string)
    requires Inv(c) && key !in c.data
    ensures AfterDel(c, key) == c
  {
  }

  /** Deleting twice is deleting once, and a deleted key is invisible. */
  lemma DelIdempotent(c: Cache, key: string, now: int)
    requires Inv(c)
    ensures AfterDel(AfterDel(c, key), key) == AfterDel(c, key)
    ensures !Visible(AfterDel(c, key), key, now)
    ensures Lookup(AfterDel(c, key), key, now) == None
  {
  }

  // ----- the reaper's sweep -----

  /**
    A sweep keeps exactly the unexpired entries, unchanged, and keeps their
    relative recency order; no expired entry survives it.
   */
  lemma SweepRemovesExactlyExpired(c: Cache, now: int)
    requires Inv(c)
    ensures var r := AfterSweep(c, now);
      && (forall k :: k in r.data <==> k in c.data && !IsExpired(c.data[k], now))
      && (forall k :: k in r.data ==> r.data[k] == c.data[k])
      && (forall k :: k in r.data ==> !IsExpired(r.data[k], now))
      && r.order == Filter(c.order, r.data.Keys)
      && (forall i, j :: 0 <= i < j < |r.order| ==> IndexOf(c.order, r.order[i]) < IndexOf(c.order, r.order[j]))
  {
    assert AfterSweep(c, now).data.Keys == LiveKeys(c, now);
    FilterKeepsOrder(c.order, LiveKeys(c, now));
  }

  /**
    Whether the reaper has run or not, every read sees the same thing from
    the instant of the sweep on: lazy and proactive expiry agree.
   */
  lemma {:induction false} SweepPreservesVisibility(c: Cache, now: int, key: string, at: int)
    requires Inv(c) && now <= at
    ensures Visible(AfterSweep(c, now), key, at) <==> Visible(c, key, at)
    ensures Lookup(AfterSweep(c, now), key, at) == Lookup(c, key, at)
  {
    if key in c.data && IsExpired(c.data[key], now) {
      ExpiryIsPermanent(c.data[key], now, at);
    }
  }

  /**
    A pass whose clock reads run from `lo` to `hi` is, for every read from
    `hi` on, indistinguishable from no pass at all: an entry it erased was
    already expired, and an entry it kept is unchanged.
   */
  lemma SweptPreservesVisibility(c: Cache, r: Cache, lo: int, hi: int, key: string, at: int)
    requires Inv(c) && SweptBetween(c, r, lo, hi) && lo <= hi <= at
    ensures Visible(r, key, at) <==> Visible(c, key, at)
    ensures Lookup(r, key, at) == Lookup(c, key, at)
  {
    if key in c.data && !IsExpired(c.data[key], hi) {
      assert key in LiveKeys(c, hi);
    }
  }

  /** A second sweep at the same instant finds nothing more to remove. */
  lemma {:induction false} SweepIdempotent(c: Cache, now: int)
    requires Inv(c)
    ensures AfterSweep(AfterSweep(c, now), now) == AfterSweep(c, now)
  {
    SweepRemovesExactlyExpired(c, now);
    SweepNoExpired(AfterSweep(c, now), now);
  }

  /** A sweep on a store with no expired entry changes nothing. */
  lemma {:induction false} SweepNoExpired(c: Cache, now: int)
    requires Inv(c)
    requires forall k :: k in c.data ==> !IsExpired(c.data[k], now)
    ensures AfterSweep(c, now) == c
  {
    assert LiveKeys(c, now) == c.data.Keys;
    FilterKeepsAll(c.order, c.data.Keys);
  }
}
