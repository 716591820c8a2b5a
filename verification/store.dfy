/**
  The cache engine: a bounded map from keys to string values with
  least-recently-used eviction and per-entry expiry.

  The first half states what each operation does to the whole state, as
  functions on a `Cache` value; the class `KeyValueStore` is the object of the
  source, whose methods update its fields in place and are proved to move the
  state as those functions say.

  The clock is an explicit `now` argument counted in ticks of the steady
  clock (nanoseconds); a sweep, which reads the clock once per visited entry,
  takes the sequence of those reads.
 */
module Store {
  import opened Wrappers
  import opened Recency

  /** Ticks of the steady clock in one second of TTL. */
  const TicksPerSecond: int := 1_000_000_000

  /** One cached key: its value and, when it has a TTL, the instant after which it is expired. */
  datatype Entry = Entry(value: string, expiresAt: Option<int>)

  /** An entry without an expiry never expires; one with an expiry is expired once `now` is strictly past it. */
  predicate IsExpired(e: Entry, now: int) {
    match e.expiresAt
    case None => false
    case Some(t) => now > t
  }

  /** The expiry `set` records: `now` plus the TTL in seconds, or none without a TTL. */
  function Deadline(now: int, ttl: Option<int>): (r: Option<int>)
    ensures r.None? <==> ttl.None?
    ensures ttl.Some? ==> r.value - now == ttl.value * TicksPerSecond
  {
    match ttl
    case None => None
    case Some(seconds) => Some(now + seconds * TicksPerSecond)
  }

  /** The whole state of a store: its fixed capacity, the entries, and the recency list (most recent first). */
  datatype Cache = Cache(capacity: int, data: map<string, Entry>, order: seq<string>)

  /**
    The store's invariant: a positive capacity, one node per key, the recency
    list holding exactly the keys of the map, and no more entries than the
    capacity.
   */
  predicate Inv(c: Cache) {
    && c.capacity >= 1
    && Distinct(c.order)
    && (forall k :: k in c.order ==> k in c.data)
    && (forall k :: k in c.data ==> k in c.order)
    && |c.data| <= c.capacity
  }

  /** A key is visible when it is present and not expired; `exists` reports this. */
  predicate Visible(c: Cache, key: string, now: int) {
    key in c.data && !IsExpired(c.data[key], now)
  }

  /** The least recently used key: the back of the recency list. */
  function Victim(c: Cache): (k: string)
    requires c.order != []
    ensures k in c.order
  {
    c.order[|c.order| - 1]
  }

  /** The state after `evict_lru`: the back of the recency list is gone from both structures. */
  function Evicted(c: Cache): (r: Cache)
    requires Inv(c) && c.order != []
    ensures Inv(r) && r.capacity == c.capacity
    ensures r.data.Keys == c.data.Keys - {Victim(c)} && |r.data| == |c.data| - 1
    ensures forall k :: k in r.data ==> r.data[k] == c.data[k]
    ensures r.order + [Victim(c)] == c.order
  {
    var v := Victim(c);
    var order := c.order[..|c.order| - 1];
    assert c.order == order + [v];
    assert v !in order;
    var data := c.data - {v};
    assert data.Keys == c.data.Keys - {v};
    Cache(c.capacity, data, order)
  }

  /** A full store has a least recently used key to evict. */
  lemma FullHasVictim(c: Cache)
    requires Inv(c) && |c.data| >= c.capacity
    ensures c.order != []
  {
    var k :| k in c.data;
  }

  /**
    The state after `set(key, val, ttl)` at `now`: an existing key (expired or
    not) gets the new value and expiry and moves to the front; a new key first
    evicts the least recently used key when the store is full, then goes in
    at the front.
   */
  function AfterSet(c: Cache, key: string, val: string, ttl: Option<int>, now: int): (r: Cache)
    requires Inv(c)
    ensures Inv(r) && r.capacity == c.capacity
    ensures key in r.data && r.data[key] == Entry(val, Deadline(now, ttl))
    ensures r.order[0] == key
  {
    var e := Entry(val, Deadline(now, ttl));
    if key in c.data then
      Refresh(c, key, e)
    else if |c.data| >= c.capacity then
      FullHasVictim(c);
      Insert(Evicted(c), key, e)
    else
      Insert(c, key, e)
  }

  /** Replaces the entry of a present key and moves its node to the front. */
  function Refresh(c: Cache, key: string, e: Entry): (r: Cache)
    requires Inv(c) && key in c.data
    ensures Inv(r) && r.capacity == c.capacity
    ensures r.data == c.data[key := e] && r.order == Touch(c.order, key)
  {
    var data := c.data[key := e];
    assert data.Keys == c.data.Keys;
    Cache(c.capacity, data, Touch(c.order, key))
  }

  /** Links a new key at the front of the recency list and stores its entry, in a store with room for it. */
  function Insert(room: Cache, key: string, e: Entry): (r: Cache)
    requires Inv(room) && key !in room.data && |room.data| < room.capacity
    ensures Inv(r) && r.capacity == room.capacity
    ensures r.data == room.data[key := e] && r.order == [key] + room.order
  {
    assert key !in room.order;
    Cache(room.capacity, room.data[key := e], [key] + room.order)
  }

  /** What `get(key)` returns at `now`: the value of a visible key, none otherwise. */
  function Lookup(c: Cache, key: string, now: int): (r: Option<string>)
    ensures r.Some? <==> Visible(c, key, now)
    ensures r.Some? ==> r.value == c.data[key].value
  {
    if Visible(c, key, now) then Some(c.data[key].value) else None
  }

  /** The state after `get(key)` at `now`: a visible key moves to the front; otherwise nothing changes. */
  function AfterGet(c: Cache, key: string, now: int): (r: Cache)
    requires Inv(c)
    ensures Inv(r) && r.capacity == c.capacity && r.data == c.data
  {
    if Visible(c, key, now) then c.(order := Touch(c.order, key)) else c
  }

  /** The state after `del(key)`: the key leaves both structures; an absent key changes nothing. */
  function AfterDel(c: Cache, key: string): (r: Cache)
    requires Inv(c)
    ensures Inv(r) && r.capacity == c.capacity
    ensures key !in r.data
  {
    if key in c.data then
      var data := c.data - {key};
      assert data.Keys == c.data.Keys - {key};
      Cache(c.capacity, data, Erase(c.order, key))
    else c
  }

  /** The keys whose entries are not expired at `now`. */
  function LiveKeys(c: Cache, now: int): (live: set<string>)
    ensures forall k :: k in live <==> Visible(c, k, now)
  {
    set k | k in c.data && !IsExpired(c.data[k], now)
  }

  /** The state after one reaper sweep at `now`: every expired entry is gone from both structures. */
  function AfterSweep(c: Cache, now: int): (r: Cache)
    requires Inv(c)
    ensures Inv(r) && r.capacity == c.capacity
  {
    var live := LiveKeys(c, now);
    var data := map k | k in live :: c.data[k];
    assert data.Keys <= c.data.Keys;
    assert |data| <= |c.data| by {
      assert |data.Keys| <= |c.data.Keys| by { SubsetCard(data.Keys, c.data.Keys); }
    }
    Cache(c.capacity, data, Filter(c.order, live))
  }

  /**
    What a pass of the reaper may leave when its clock reads run from `lo` to
    `hi`: every entry kept is kept unchanged, none of them was already expired
    at `lo`, every entry still unexpired at `hi` is kept, and the recency list
    is the original one filtered to the kept keys. Which of the entries that
    expire between `lo` and `hi` go depends on when the pass reaches them.
   */
  ghost predicate SweptBetween(c: Cache, r: Cache, lo: int, hi: int) {
    && r.capacity == c.capacity
    && (forall k :: k in r.data ==> k in c.data && r.data[k] == c.data[k])
    && LiveKeys(c, hi) <= r.data.Keys <= LiveKeys(c, lo)
    && r.order == Filter(c.order, r.data.Keys)
  }

  /**
    Progress of a pass that started from `c`: the entries still to visit are
    `pending` and are kept so far; every visited entry that is kept was not
    expired at the first clock read `lo`, every visited entry not expired at
    the latest read `hi` is kept, kept entries are unchanged, and the recency
    list is the original one filtered to the kept keys.
   */
  ghost predicate SweepProgress(c: Cache, pending: set<string>, data: map<string, Entry>, order: seq<string>, lo: int, hi: int) {
    && pending <= data.Keys
    && (forall k :: k in data ==> k in c.data && data[k] == c.data[k])
    && (forall k :: k in data && k !in pending ==> !IsExpired(c.data[k], lo))
    && (forall k :: k in c.data && k !in pending && !IsExpired(c.data[k], hi) ==> k in data)
    && order == Filter(c.order, data.Keys)
  }

  /** Before the first visit every entry is pending and nothing has changed. */
  lemma SweepStart(c: Cache, lo: int)
    requires Inv(c)
    ensures SweepProgress(c, c.data.Keys, c.data, c.order, lo, lo)
  {
    FilterKeepsAll(c.order, c.data.Keys);
  }

  /** Erasing a pending entry that is expired at the instant `t` of its visit keeps the progress, with `t` as the latest read. */
  lemma SweepDrop(c: Cache, pending: set<string>, data: map<string, Entry>, order: seq<string>, lo: int, hi: int, t: int, k: string)
    requires Inv(c) && SweepProgress(c, pending, data, order, lo, hi) && k in pending
    requires lo <= t && hi <= t
    requires IsExpired(data[k], t)
    ensures SweepProgress(c, pending - {k}, data - {k}, Erase(order, k), lo, t)
  {
    var rest := data - {k};
    assert rest.Keys == data.Keys - {k};
    DropOrder(c.order, data.Keys, order, k);
    DropEntries(c, data, k);
    DropKeepsLive(c, pending, data, hi, t, k);
  }

  /** Erasing one entry leaves every other kept entry as it was. */
  lemma DropEntries(c: Cache, data: map<string, Entry>, k: string)
    requires forall x :: x in data ==> x in c.data && data[x] == c.data[x]
    ensures forall x :: x in data - {k} ==> x in c.data && (data - {k})[x] == c.data[x]
  {
  }

  /** Erasing an entry expired at `t` loses no visited entry that is still unexpired at `t`. */
  lemma DropKeepsLive(c: Cache, pending: set<string>, data: map<string, Entry>, hi: int, t: int, k: string)
    requires pending <= data.Keys && k in pending && hi <= t
    requires forall x :: x in data ==> x in c.data && data[x] == c.data[x]
    requires forall x :: x in c.data && x !in pending && !IsExpired(c.data[x], hi) ==> x in data
    requires IsExpired(data[k], t)
    ensures forall x :: x in c.data && x !in pending - {k} && !IsExpired(c.data[x], t) ==> x in data - {k}
  {
  }

  /** Unlinking a key from the filtered list is filtering without it. */
  lemma DropOrder(s: seq<string>, keys: set<string>, order: seq<string>, k: string)
    requires Distinct(s) && order == Filter(s, keys)
    ensures Erase(order, k) == Filter(s, keys - {k})
  {
    FilterErase(s, keys, k);
  }

  /** Passing over a pending entry that is not expired at the instant `t` of its visit keeps the progress. */
  lemma SweepKeep(c: Cache, pending: set<string>, data: map<string, Entry>, order: seq<string>, lo: int, hi: int, t: int, k: string)
    requires Inv(c) && SweepProgress(c, pending, data, order, lo, hi) && k in pending
    requires lo <= t && hi <= t
    requires !IsExpired(data[k], t)
    ensures SweepProgress(c, pending - {k}, data, order, lo, t)
  {
  }

  /** A finished pass keeps the invariant and leaves what `SweptBetween` allows. */
  lemma SweepDone(c: Cache, data: map<string, Entry>, order: seq<string>, lo: int, hi: int)
    requires Inv(c) && SweepProgress(c, {}, data, order, lo, hi)
    ensures Inv(Cache(c.capacity, data, order))
    ensures SweptBetween(c, Cache(c.capacity, data, order), lo, hi)
  {
    assert data.Keys <= c.data.Keys;
    SubsetCard(data.Keys, c.data.Keys);
  }

  /** A pass whose clock reads all give the same instant leaves exactly `AfterSweep`. */
  lemma SweptAtOneInstant(c: Cache, r: Cache, now: int)
    requires Inv(c) && SweptBetween(c, r, now, now)
    ensures r == AfterSweep(c, now)
  {
    var s := AfterSweep(c, now);
    assert r.data.Keys == LiveKeys(c, now);
    assert r.data == s.data;
  }

  lemma SubsetCard(a: set<string>, b: set<string>)
    requires a <= b
    ensures |a| <= |b|
  {
    assert b == a + (b - a);
  }

  /**
    The store object. `capacity` is fixed by the constructor; `data` and
    `lruOrder` are the map and the recency list that the operations update
    together.
   */
  class KeyValueStore {
    const capacity: int
    var data: map<string, Entry>
    var lruOrder: seq<string>

    /** The abstract value of the object. */
    function State(): Cache
      reads this
    {
      Cache(capacity, data, lruOrder)
    }

    ghost predicate Valid()
      reads this
    {
      Inv(State())
    }

    /** A store of capacity `cap`; a capacity below one is undefined behaviour in the source. */
    constructor (cap: int)
      requires cap >= 1
      ensures Valid() && State() == Cache(cap, map[], [])
    {
      capacity := cap;
      data := map[];
      lruOrder := [];
    }

    /** Splices the key's node to the front; the source looks the node up with `data[key]`, so the key must be present. */
    method MoveToFront(key: string)
      requires Valid() && key in data
      modifies this
      ensures Valid()
      ensures data == old(data) && lruOrder == Touch(old(lruOrder), key)
    {
      lruOrder := Touch(lruOrder, key);
    }

    method EvictLru()
      requires Valid() && lruOrder != []
      modifies this
      ensures Valid() && State() == Evicted(old(State()))
    {
      ghost var c := State();
      var lru := lruOrder[|lruOrder| - 1];
      data := data - {lru};
      lruOrder := lruOrder[..|lruOrder| - 1];
      assert State() == Evicted(c);
    }

    /**
      One pass of the reaper: visits every entry in the map's (unspecified)
      order and erases the ones that are expired. The source reads the clock
      anew for each entry it tests; `instants` holds those reads in visiting
      order, so they cannot go backwards.
     */
    method Sweep(instants: seq<int>)
      requires Valid()
      requires |instants| == |data|
      requires forall i, j :: 0 <= i <= j < |instants| ==> instants[i] <= instants[j]
      modifies this
      ensures Valid()
      ensures instants == [] ==> State() == old(State())
      ensures instants != [] ==> SweptBetween(old(State()), State(), instants[0], instants[|instants| - 1])
    {
      ghost var c := State();
      var pending := data.Keys;
      ghost var lo := if instants == [] then 0 else instants[0];
      var i := 0;
      SweepStart(c, lo);
      while pending != {}
        invariant 0 <= i <= |instants| && |pending| + i == |instants|
        invariant SweepProgress(c, pending, data, lruOrder, lo, if i == 0 then lo else instants[i - 1])
        decreases pending
      {
        var k :| k in pending;
        var now := instants[i];
        ghost var hi := if i == 0 then lo else instants[i - 1];
        if IsExpired(data[k], now) {
          SweepDrop(c, pending, data, lruOrder, lo, hi, now, k);
          lruOrder := Erase(lruOrder, k);
          data := data - {k};
        } else {
          SweepKeep(c, pending, data, lruOrder, lo, hi, now, k);
        }
        pending := pending - {k};
        i := i + 1;
      }
      SweepDone(c, data, lruOrder, lo, if i == 0 then lo else instants[i - 1]);
    }

    /** `set(key, val, ttl)` at `now`; `ttl` defaults to none, which means "never expires". */
    method Set(key: string, val: string, ttl: Option<int>, now: int)
      requires Valid()
      modifies this
      ensures Valid() && State() == AfterSet(old(State()), key, val, ttl, now)
    {
      ghost var c := State();
      var e := Entry(val, Deadline(now, ttl));
      if key in data {
        data := data[key := e];
        MoveToFront(key);
        assert State() == Refresh(c, key, e);
        assert State() == AfterSet(c, key, val, ttl, now);
        return;
      }
      if |data| >= capacity {
        FullHasVictim(c);
        EvictLru();
      }
      ghost var room := State();
      assert room == if |c.data| >= c.capacity then Evicted(c) else c;
      lruOrder := [key] + lruOrder;
      data := data[key := e];
      assert State() == Insert(room, key, e);
      assert State() == AfterSet(c, key, val, ttl, now);
    }

    /** `get(key)` at `now`: the value of a visible key, which it also makes the most recent. */
    method Get(key: string, now: int) returns (r: Option<string>)
      requires Valid()
      modifies this
      ensures Valid()
      ensures r == Lookup(old(State()), key, now)
      ensures State() == AfterGet(old(State()), key, now)
    {
      if key !in data {
        return None;
      }
      if IsExpired(data[key], now) {
        return None;
      }
      MoveToFront(key);
      return Some(data[key].value);
    }

    /** `del(key)`: erases the key from the recency list and the map; nothing happens when it is absent. */
    method Del(key: string)
      requires Valid()
      modifies this
      ensures Valid() && State() == AfterDel(old(State()), key)
    {
      if key !in data {
        return;
      }
      lruOrder := Erase(lruOrder, key);
      data := data - {key};
    }

    /** `exists(key)` at `now`: whether the key is present and not expired; it changes nothing. */
    method Exists(key: string, now: int) returns (b: bool)
      requires Valid()
      ensures b <==> key in data && !IsExpired(data[key], now)
    {
      if key !in data {
        return false;
      }
      if IsExpired(data[key], now) {
        return false;
      }
      return true;
    }
  }
}
