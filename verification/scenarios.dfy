/**
  Concrete runs of the store and the command handler against a fresh store,
  using only the contracts of its methods, of `Dispatch` and of the store's
  specification.
 */
module Scenarios {
  import opened Wrappers
  import opened Recency
  import opened Store
  import opened Protocol
  import opened StoreProperties

  /** A fresh store of capacity two after writing `a` and then `b`, neither with a TTL. */
  method FillTwo() returns (store: KeyValueStore)
    ensures fresh(store) && store.Valid()
    ensures store.State() == Cache(2, map["a" := Entry("1", None), "b" := Entry("2", None)], ["b", "a"])
  {
    store := new KeyValueStore(2);
    SetWithRoom(store.State(), "a", "1", None, 0);
    store.Set("a", "1", None, 0);
    SetWithRoom(store.State(), "b", "2", None, 0);
    store.Set("b", "2", None, 0);
  }

  /** Capacity two, three new keys: the first one written is evicted. */
  method EvictionOrder() returns (a: bool, b: bool, c: bool)
    ensures !a && b && c
  {
    var store := FillTwo();
    assert Victim(store.State()) == "a";
    OrderLength(store.State());
    SetWhenFull(store.State(), "c", "3", None, 0);
    store.Set("c", "3", None, 0);
    assert store.data.Keys == {"b", "c"};
    a := store.Exists("a", 0);
    b := store.Exists("b", 0);
    c := store.Exists("c", 0);
  }

  /** Reading `a` from the filled store returns its value and makes it the most recent key. */
  method ReadFirst(store: KeyValueStore) returns (v: Option<string>)
    requires store.Valid()
    requires store.State() == Cache(2, map["a" := Entry("1", None), "b" := Entry("2", None)], ["b", "a"])
    modifies store
    ensures store.Valid() && v == Some("1")
    ensures store.State() == Cache(2, map["a" := Entry("1", None), "b" := Entry("2", None)], ["a", "b"])
  {
    ghost var c := store.State();
    assert Visible(c, "a", 0);
    assert Touch(c.order, "a") == ["a", "b"] by {
      assert ["b", "a"][1..] == ["a"];
      assert Erase(["b", "a"], "a") == ["b"];
    }
    v := store.Get("a", 0);
  }

  /** Capacity two, but the first key is read before the third is written: the second key is evicted instead. */
  method ReadRefreshesRecency() returns (v: Option<string>, a: bool, b: bool)
    ensures v == Some("1") && a && !b
  {
    var store := FillTwo();
    v := ReadFirst(store);
    assert Victim(store.State()) == "b";
    OrderLength(store.State());
    SetWhenFull(store.State(), "c", "3", None, 0);
    store.Set("c", "3", None, 0);
    assert store.data.Keys == {"a", "c"};
    a := store.Exists("a", 0);
    b := store.Exists("b", 0);
  }

  /**
    The reaper reads the clock for each entry it visits. An entry due at 12
    seen at tick 10 stays, while one due at 15 seen at tick 20 goes; no sweep
    at a single instant leaves that state.
   */
  lemma SweepAcrossTicks()
    ensures var c := Cache(2, map["A" := Entry("a", Some(12)), "B" := Entry("b", Some(15))], ["B", "A"]);
      && Inv(c)
      && SweptBetween(c, Cache(2, map["A" := Entry("a", Some(12))], ["A"]), 10, 20)
      && forall now :: AfterSweep(c, now).data.Keys != {"A"}
  {
    var c := Cache(2, map["A" := Entry("a", Some(12)), "B" := Entry("b", Some(15))], ["B", "A"]);
    var r := Cache(2, map["A" := Entry("a", Some(12))], ["A"]);
    assert LiveKeys(c, 20) == {};
    assert LiveKeys(c, 10) == {"A", "B"};
    assert Filter(c.order, r.data.Keys) == ["A"] by {
      assert c.order[1..] == ["A"];
      assert ["A"][1..] == [];
    }
    forall now
      ensures AfterSweep(c, now).data.Keys != {"A"}
    {
      if now <= 12 {
        assert "B" in LiveKeys(c, now);
      } else {
        assert "A" !in LiveKeys(c, now);
      }
    }
  }

  /** The TTL token "1" reads as one second. */
  lemma StoiOfOne()
    ensures Stoi("1") == Some(1)
  {
    assert Decimal(1) == "1";
    StoiOfDecimal(1, "");
    assert Decimal(1) + "" == "1";
  }

  /** `SET x v 1` at instant zero stores `v` under `x`, expiring one second later. */
  method WriteWithTtl(store: KeyValueStore) returns (out: Outcome)
    requires store.Valid()
    modifies store
    ensures store.Valid() && out == Reply("OK\n")
    ensures "x" in store.data && store.data["x"] == Entry("v", Some(TicksPerSecond))
  {
    var tokens := ["SET", "x", "v", "1"];
    assert |tokens| == 4 && tokens[0] == "SET" && tokens[1] == "x" && tokens[2] == "v" && tokens[3] == "1";
    StoiOfOne();
    out := Dispatch(store, tokens, 0);
  }

  /** `GET x` at `now` answers `v` up to the expiry instant and `(nil)` after it, and keeps the entries. */
  method ReadBack(store: KeyValueStore, now: int) returns (out: Outcome)
    requires store.Valid()
    requires "x" in store.data && store.data["x"] == Entry("v", Some(TicksPerSecond))
    modifies store
    ensures store.Valid() && store.data == old(store.data)
    ensures out == Reply(if now > TicksPerSecond then "(nil)\n" else "v\n")
  {
    var tokens := ["GET", "x"];
    assert |tokens| == 2 && tokens[0] == "GET" && tokens[1] == "x";
    var found := Lookup(store.State(), "x", now);
    assert found == if now > TicksPerSecond then None else Some("v");
    assert GetReply(found) == if now > TicksPerSecond then "(nil)\n" else "v\n";
    out := Dispatch(store, tokens, now);
  }

  /** A key written with a TTL of one second is read back at once and is gone one and a half seconds later. */
  method TtlExpiry() returns (early: Outcome, late: Outcome)
    ensures early == Reply("v\n") && late == Reply("(nil)\n")
  {
    var store := new KeyValueStore(10);
    var r := WriteWithTtl(store);
    early := ReadBack(store, 0);
    late := ReadBack(store, 3 * TicksPerSecond / 2);
  }
}
