# Mini-Redis cache engine and command layer, in Dafny

This project models `KeyValueStore`, the in-memory key-value cache at the
centre of Mini-Redis. The cache holds string values under string keys and
has a fixed capacity. A write of a new key into a full store evicts the
least recently used key. An entry written with a time-to-live (TTL) expires
once the steady clock is strictly past its deadline. An expired entry is
hidden from `get` and `exists` at once ("lazy" expiry), and a background
reaper erases it on its next pass.

The store keeps two structures that must agree:
- `data`, a hash map from key to entry (value, optional deadline, and a
  handle into the recency list);
- `lru_order`, the recency list, with the most recently used key at the
  front.

The project also models the server's command layer:
- `parse`, the whitespace tokeniser built on `std::istringstream`;
- the dispatch chain of the client handler, which maps a token list to one
  store call and the reply text;
- `std::stoi`, which reads the TTL argument.

Files:
- `wrappers.dfy`: `Option`.
- `recency.dfy`: the recency list as a sequence of keys without duplicates.
  A key's index plays the part of the entry's `lru_pos` iterator. The file
  holds the list operations the store uses: unlink, splice to the front, and
  filter.
- `store.dfy`: the store's whole state as a `Cache` value, plus functions
  saying what each operation does to it (`AfterSet`, `AfterGet`, `AfterDel`,
  `AfterSweep`, `Lookup`, `Evicted`). It also holds the class
  `KeyValueStore`, whose methods update `data` and `lruOrder` in place.
  Every method is proved to keep the invariant `Valid()`. Every method except
  the sweep is proved to reach exactly the state those functions describe.
  The reaper's sweep is a loop over the map's keys in an unspecified order.
  It reads the clock once per visited entry, and it is proved to stay within
  the bounds `SweptBetween` sets. When all its clock reads give the same
  instant, it reaches exactly `AfterSweep`.
- `store_properties.dfy`: what the store promises, as lemmas over those
  functions. Topics: expiry, each branch of `set`, `get` hit and miss,
  `del`, and sweeps. For sweeps: exactness, kept order, idempotence, and
  agreement with lazy expiry, also for a pass whose clock reads advance.
- `protocol.dfy`: the tokeniser, `std::stoi`, and the dispatch.
  - `Parse` and `Extract` are loops proved against `Tokens`.
  - `TokensOfLayout` and `LayoutOfTokens` state that the tokens are exactly
    the maximal non-whitespace runs of the line.
  - `StoiOfDecimal` shows that `std::stoi` reads back every decimal `int`.
  - `Dispatch` ties every reply and every store change to the token list.
- `scenarios.dfy`: concrete runs against a fresh store, through the
  methods' contracts only: eviction order, a read refreshing recency, and
  TTL expiry through `SET x v 1` / `GET x`. It also holds one concrete pass
  of the reaper whose clock advances between two entries.

The clock is an explicit `now` argument, an integer count of steady-clock
ticks (nanoseconds, so one TTL second is 1 000 000 000 ticks). The sweep
instead takes a sequence of clock reads, one per visited entry. `src/test.cpp`
holds a verbatim copy of the store and of the command layer. This model
covers that copy too; the table cites the `src/store.cpp` and
`src/server.cpp` lines.

Points of the code the model follows as written:
- `get` reorders the recency list while holding only a shared lock
  (src/store.cpp:73-77). That is a data race under concurrent reads. Since
  the model is sequential, `get` is simply a modifying method.
- A TTL of zero still shows the key at the instant it was written, because
  `is_expired` compares with a strict `>` (src/store.cpp:6). `ExpiryOfSet`
  states this rule.
- A non-numeric TTL makes `std::stoi` throw inside the detached client
  thread (src/server.cpp:41). The uncaught exception calls
  `std::terminate`, which ends the server. `Dispatch` returns `Terminated`
  and leaves the store untouched. `std::stoi` also accepts a sign, leading
  whitespace and trailing junk, and the model does the same.

## Model

| member | source | states |
|---|---|---|
| Recency.IndexOf | include/store.h:17 | the handle of a key is a position holding that key, and no earlier position holds it |
| Recency.Erase | src/store.cpp:85 | unlinking a key leaves every other key's membership as it was, removes the key from a duplicate-free list, keeps the list duplicate-free, and changes nothing when the key is absent |
| Recency.EraseAt | src/store.cpp:85 | unlinking removes exactly the node at the key's position and keeps the nodes before and after it in order |
| Recency.EraseMultiset | src/store.cpp:85 | unlinking removes one occurrence of the key and nothing else |
| Recency.Touch | src/store.cpp:9-11 | splicing a node to the front keeps the length and the set of keys, puts the key first, is a permutation, and leaves the other keys in their relative order |
| Recency.Filter | src/store.cpp:24-31 | the filtered list holds exactly the listed keys that are kept, stays duplicate-free and is no longer |
| Recency.FilterKeepsOrder | src/store.cpp:24-31 | filtering keeps the surviving keys in their old order: of two kept keys, the one earlier in the filtered list is earlier in the original |
| Recency.FilterErase | src/store.cpp:26 | unlinking a kept key from a filtered list is the same as filtering without that key |
| Recency.FilterKeepsAll | src/store.cpp:24-31 | filtering with a set that holds every listed key changes nothing |
| Recency.FilterIdempotent | src/store.cpp:24-31 | filtering twice with the same set is filtering once |
| Store.Deadline | src/store.cpp:50-52 | reference definition of the recorded expiry. What it means for visibility is proved in `ExpiryOfSet` |
| Store.Victim | src/store.cpp:14 | the key evicted is one that is in the recency list |
| Store.Evicted | src/store.cpp:13-18 | eviction removes the back of the recency list from both structures, keeps the invariant, shrinks the map by one and keeps every other entry unchanged |
| Store.FullHasVictim | src/store.cpp:61-62 | a full store (capacity at least one) has a non-empty recency list, so `back()` is defined |
| Store.AfterSet | src/store.cpp:44-70 | after `set` the invariant and capacity hold, the key maps to the new value and expiry, and the key is the most recent |
| Store.Refresh | src/store.cpp:54-58 | overwriting a present key replaces its entry, moves its node to the front and keeps the invariant |
| Store.Insert | src/store.cpp:64-69 | inserting a new key into a store with room adds its entry and puts it at the front of the list, keeping the invariant |
| Store.Lookup | src/store.cpp:72-79 | reference definition of what `get` returns. The promises it supports are proved in `GetMiss`, `GetHit` and `SetThenGet` |
| Store.AfterGet | src/store.cpp:72-79 | `get` keeps the invariant, the capacity and the whole map |
| Store.AfterDel | src/store.cpp:81-87 | after `del` the key is absent and the invariant holds |
| Store.LiveKeys | src/store.cpp:24-31 | reference definition of the unexpired keys. The sweep's bounds and `SweepRemovesExactlyExpired` are stated in terms of it |
| Store.AfterSweep | src/store.cpp:24-31 | a sweep keeps the invariant and the capacity |
| Store.SweepStart | src/store.cpp:24 | before the first visit the sweep's progress holds with every key pending |
| Store.SweepDrop | src/store.cpp:25-27 | erasing a pending entry that is expired at the instant of its visit keeps the sweep's progress, with that instant as the latest clock read |
| Store.SweepKeep | src/store.cpp:28-29 | passing over a pending entry that is unexpired at the instant of its visit keeps the sweep's progress |
| Store.SweepDone | src/store.cpp:24-31 | a pass with nothing pending keeps the invariant and stays within `SweptBetween` for its first and last clock reads: kept entries are unchanged and were unexpired at the first read, every entry unexpired at the last read is kept, and the list is filtered to the kept keys |
| Store.SweptAtOneInstant | src/store.cpp:24-31 | a pass whose clock reads all give one instant leaves exactly `AfterSweep` at that instant |
| Store.KeyValueStore.constructor | src/store.cpp:35-37 | a new store has the given capacity, no entries and an empty recency list |
| Store.KeyValueStore.MoveToFront | src/store.cpp:9-11 | on a present key, splices its node to the front of the list, leaves the map as it was and keeps `Valid` |
| Store.KeyValueStore.EvictLru | src/store.cpp:13-18 | erases the back of the recency list from the map and the list, reaching `Evicted` and keeping `Valid` |
| Store.KeyValueStore.Sweep | src/store.cpp:24-31 | the loop over the map, in any order and with a fresh clock read per visited entry, keeps `Valid`. It changes nothing on an empty store and otherwise stays within `SweptBetween` for its first and last reads |
| Store.KeyValueStore.Set | src/store.cpp:44-70 | reaches exactly `AfterSet` and keeps `Valid` |
| Store.KeyValueStore.Get | src/store.cpp:72-79 | returns `Lookup`, reaches exactly `AfterGet` and keeps `Valid` |
| Store.KeyValueStore.Del | src/store.cpp:81-87 | reaches exactly `AfterDel` and keeps `Valid` |
| Store.KeyValueStore.Exists | src/store.cpp:89-95 | true exactly when the key is present and unexpired; it changes nothing |
| StoreProperties.ExpiryIsPermanent | src/store.cpp:4-7 | an expired entry stays expired at every later instant |
| StoreProperties.ExpiryOfSet | src/store.cpp:50-52 | an entry written by `set` is expired exactly when it has a TTL and the instant is strictly past write time plus TTL |
| StoreProperties.OrderLength | src/store.cpp:64-69 | the recency list is exactly as long as the map is large |
| StoreProperties.HandleIsUnique | include/store.h:17 | a key's node sits at one position only, the one its handle names |
| StoreProperties.SetExisting | src/store.cpp:54-59 | overwriting replaces value and expiry, keeps the size, moves the key to the front, keeps the other keys' relative order and evicts nothing |
| StoreProperties.SetWhenFull | src/store.cpp:61-69 | a new key into a full store removes exactly the back key from both structures, puts the new key at the front and leaves the size equal to the capacity |
| StoreProperties.SetWithRoom | src/store.cpp:61-69 | a new key into a store with room goes in at the front, grows the size by one and evicts nothing |
| StoreProperties.SetThenGet | src/store.cpp:44-79 | a read after a write returns the written value unless the new TTL has run out |
| StoreProperties.GetMiss | src/store.cpp:74-76 | `get` of a missing or expired key returns none and leaves the state unchanged |
| StoreProperties.GetHit | src/store.cpp:77-78 | `get` of a visible key returns its value, moves it to the front as a permutation of the list, keeps the other keys' relative order and leaves the map unchanged |
| StoreProperties.GetShieldsFromEviction | src/store.cpp:77 | a key just read is not the next victim while the store holds another key |
| StoreProperties.DelPresent | src/store.cpp:83-86 | `del` of a present key erases its entry and exactly its node, keeping the remaining keys' order |
| StoreProperties.DelAbsent | src/store.cpp:84 | `del` of an absent key changes nothing |
| StoreProperties.DelIdempotent | src/store.cpp:81-87 | deleting twice is deleting once, and a deleted key is invisible |
| StoreProperties.SweepRemovesExactlyExpired | src/store.cpp:24-31 | a sweep at one instant keeps exactly the unexpired entries, unchanged, in their relative recency order: of any two kept keys, the one earlier in the old list is earlier in the new one |
| StoreProperties.SweptPreservesVisibility | src/store.cpp:25-27 | for a pass whose clock reads advance from `lo` to `hi`, every read from `hi` on sees the same with or without the pass |
| StoreProperties.SweepPreservesVisibility | src/store.cpp:25-27 | from the sweep's instant on, every read sees the same with or without the sweep |
| StoreProperties.SweepIdempotent | src/store.cpp:24-31 | a second sweep at the same instant changes nothing |
| StoreProperties.SweepNoExpired | src/store.cpp:24-31 | a sweep of a store without expired entries changes nothing |
| Protocol.Skip | src/server.cpp:13 | the scan stops at the end or at the first character of the other kind |
| Protocol.SkipPrefix | src/server.cpp:13 | every character the scan passes over is of the kind asked for |
| Protocol.SkipIs | src/server.cpp:13 | the scan stops exactly where a run of one kind ends |
| Protocol.TokensAreTokens | src/server.cpp:13 | every token is non-empty and contains no whitespace |
| Protocol.TokensFromAreTokens | src/server.cpp:13 | every token read from any position is non-empty and contains no whitespace |
| Protocol.Extract | src/server.cpp:13 | one extraction fails exactly when only whitespace is left; otherwise it returns the next token and the position after it |
| Protocol.Parse | src/server.cpp:9-15 | the extraction loop returns exactly the tokens of the line |
| Protocol.NoTokensIffBlank | src/server.cpp:31-32 | a line has no tokens exactly when it is all whitespace |
| Protocol.SkipShift | src/server.cpp:13 | scanning inside a suffix gives the same run as scanning the suffix on its own |
| Protocol.TokensShift | src/server.cpp:13 | reading tokens inside a suffix gives the same tokens as reading the suffix on its own |
| Protocol.TokensCons | src/server.cpp:13 | whitespace, a token and then the end or whitespace: that token comes first, then the tokens of the rest |
| Protocol.GapThenToken | src/server.cpp:13 | on whitespace then a token, the two scans stop at the end of the gap and at the end of the token |
| Protocol.SkipBlank | src/server.cpp:13 | a whitespace gap followed by the end or a non-space character is what the first scan passes over |
| Protocol.SkipRun | src/server.cpp:13 | a token followed by the end or whitespace is what the token scan passes over |
| Protocol.TokensFromStep | src/server.cpp:13 | one extraction step: the first token is the run after the leading whitespace |
| Protocol.TokensOfLayout | src/server.cpp:9-15 | a line laid out from whitespace gaps and tokens parses back to exactly those tokens |
| Protocol.LayoutOfTokens | src/server.cpp:9-15 | every line is its tokens laid out with whitespace gaps, non-empty between two tokens |
| Protocol.LayoutFrom | src/server.cpp:9-15 | the part of a line from any position is its tokens laid out with whitespace gaps |
| Protocol.LayoutCons | src/server.cpp:9-15 | one more gap and token in front of a layout is still a layout |
| Protocol.DigitSpan | src/server.cpp:41 | the digit run `std::stoi` reads is all digits and is followed by the end or a non-digit |
| Protocol.DigitValue | src/server.cpp:41 | a digit's value is its distance from `0` |
| Protocol.Stoi | src/server.cpp:41 | a value read is always inside the 32-bit `int` range |
| Protocol.SignedValue | src/server.cpp:41 | a signed value read is always inside the 32-bit `int` range |
| Protocol.Digits | src/server.cpp:41 | the decimal digits of a number are non-empty, all digits, and denote the number |
| Protocol.StoiOfSignedDigits | src/server.cpp:41 | an optional sign, digits and a non-digit give the signed value when it fits in `int`, and a throw otherwise |
| Protocol.SignedValueOfDigits | src/server.cpp:41 | digits followed by a non-digit give their signed value when it fits in `int`, and none otherwise |
| Protocol.SignedValueIs | src/server.cpp:41 | a measured digit run gives its signed value when it fits in `int`, and none otherwise |
| Protocol.StoiOfSign | src/server.cpp:41 | a sign directly before a digit is taken as the sign of the number |
| Protocol.DigitSpanOfDigits | src/server.cpp:41 | the digit run of digits followed by a non-digit is those digits |
| Protocol.StoiOfDecimal | src/server.cpp:41 | `std::stoi` reads back every `int` written in decimal, whatever non-digit text follows |
| Protocol.DigitSpanIs | src/server.cpp:41 | the digit run is the one that ends at the end or at a non-digit |
| Protocol.StoiNeedsDigits | src/server.cpp:41 | a TTL token that starts with no digit, sign or whitespace makes `std::stoi` throw |
| Protocol.Dispatch | src/server.cpp:32-69 | each arity and verb gives the reply the handler sends and exactly the store call it makes; an empty list sends nothing, a usage error or unknown verb changes nothing, and a throwing TTL ends the server with the store untouched |
| Protocol.HandleLine | src/server.cpp:30-32 | a blank line sends nothing and changes nothing; any other line gets an outcome |
| Scenarios.FillTwo | src/store.cpp:64-69 | two writes into an empty store of capacity two hold both keys, the second one most recent |
| Scenarios.EvictionOrder | src/store.cpp:61-62 | with capacity two, writing a third key evicts the first one written |
| Scenarios.ReadFirst | src/store.cpp:77-78 | reading the older key returns its value and makes it the most recent |
| Scenarios.ReadRefreshesRecency | src/store.cpp:72-79 | after the older key is read, writing a third key evicts the other key instead |
| Scenarios.SweepAcrossTicks | src/store.cpp:24-31 | with an entry due at 12 visited at tick 10 and one due at 15 visited at tick 20, a pass may keep the first and erase the second, which no sweep at a single instant does |
| Scenarios.StoiOfOne | src/server.cpp:41 | the TTL token `1` reads as one |
| Scenarios.WriteWithTtl | src/server.cpp:40-42 | `SET x v 1` at instant zero answers `OK` and stores `v` expiring one second later |
| Scenarios.ReadBack | src/server.cpp:47-53 | `GET x` answers `v` up to the deadline and `(nil)` strictly after it, keeping the entries |
| Scenarios.TtlExpiry | src/server.cpp:37-53 | `SET x v 1`, then `GET x` at once gives `v`, and again 1.5 seconds later gives `(nil)` |

## Left out

- Threads and locks: the reaper thread, its one-second sleep, the `running` flag and the join in the destructor (src/store.cpp:20-23, 39-42), and every `shared_timed_mutex` acquisition. The model is sequential, and one sweep is an ordinary method.
- The data race in `get`, which reorders the list under a shared lock (src/store.cpp:73-77), is not modelled, because the model has no concurrency.
- The real clock: each `Clock::now()` read is a value the caller passes in. For `set`, `get` and `exists` it is one `now` argument. For the sweep it is one entry of `instants` per visited entry, in visiting order and nondecreasing, as a steady clock is.
- The value copy in each `lru_order` pair is never read and goes stale on overwrite, so the list holds keys only.
- The `[evict]` log line (src/store.cpp:15).
- A capacity of zero or less makes `evict_lru` call `back()` on an empty list, which is undefined behaviour. The constructor requires a capacity of at least one.
- Networking: `recv`, `send`, `close`, the 1024-byte buffer that frames one command per `recv`, `setup_server`, and the accept loop of `main`. `HandleLine` starts from the received line.
- `Store.Deadline`: overflow of the steady clock's 64-bit nanosecond count in `now + ttl` seconds is not modelled, because integers here are unbounded.
- The hash map's iteration order in the sweep is a nondeterministic choice of the next pending key. The sweep is proved for every order.
- `lru_pos` iterators are list positions, so the aliasing of a live iterator is not modelled.
- `Protocol.Stoi`: the model covers base-10 `std::stoi` on the characters the "C" locale treats as whitespace and digits. Locale-dependent behaviour is not modelled.
- `Protocol.HandleLine`: for a non-blank line it states only that an outcome is produced. What that outcome is, and what happens to the store, is stated by `Dispatch`.
