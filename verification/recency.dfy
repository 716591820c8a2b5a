/**
  The recency list of the store (`lru_order`), as a sequence of keys with the
  most recently used key at index 0 and the least recently used one at the end.

  In the source every entry keeps an iterator into this list; here a key's
  handle is its index in the sequence, which is unique because no key occurs
  twice (`Distinct`).
 */
module Recency {

  /** No key has two nodes in the list. */
  predicate Distinct(s: seq<string>) {
    forall i, j :: 0 <= i < j < |s| ==> s[i] != s[j]
  }

  /** The position of the node that holds `key`: what an entry's `lru_pos` points at. */
  function IndexOf(s: seq<string>, key: string): (i: nat)
    requires key in s
    ensures i < |s| && s[i] == key
    ensures key !in s[..i]
  {
    if s[0] == key then 0
    else
      var j := IndexOf(s[1..], key);
      assert s[..j + 1] == [s[0]] + s[1..][..j];
      1 + j
  }

  /**
    Unlinks the node that holds `key` (`lru_order.erase(lru_pos)`); the list is
    left as it is when no node holds `key`.
   */
  function Erase(s: seq<string>, key: string): (r: seq<string>)
    ensures key !in s ==> r == s
    ensures forall x :: x != key ==> (x in r <==> x in s)
    ensures Distinct(s) ==> Distinct(r) && key !in r
  {
    if s == [] then []
    else if s[0] == key then s[1..]
    else
      var rest := Erase(s[1..], key);
      assert Distinct(s) ==> s[0] !in s[1..];
      [s[0]] + rest
  }

  /** Unlinking removes exactly the node at the key's position and keeps the others in order. */
  lemma {:induction false} EraseAt(s: seq<string>, key: string)
    requires key in s
    ensures Erase(s, key) == s[..IndexOf(s, key)] + s[IndexOf(s, key) + 1..]
  {
    if s[0] != key {
      EraseAt(s[1..], key);
      var j := IndexOf(s[1..], key);
      assert s[1..][..j] == s[1..j + 1];
      assert s[1..][j + 1..] == s[j + 2..];
      assert [s[0]] + s[1..j + 1] == s[..j + 1];
    }
  }

  /** Unlinking removes one occurrence of the key and nothing else. */
  lemma {:induction false} EraseMultiset(s: seq<string>, key: string)
    requires key in s
    ensures multiset(Erase(s, key)) + multiset{key} == multiset(s)
  {
    assert s == [s[0]] + s[1..];
    if s[0] != key {
      EraseMultiset(s[1..], key);
    }
  }

  /**
    Moves the node that holds `key` to the front (`splice` to `begin()`):
    the list is permuted, `key` comes first and the other keys keep their
    relative order.
   */
  function Touch(s: seq<string>, key: string): (r: seq<string>)
    requires key in s
    ensures |r| == |s| && r[0] == key
    ensures forall x :: x in r <==> x in s
    ensures multiset(r) == multiset(s)
    ensures Distinct(s) ==> Distinct(r) && Erase(r, key) == Erase(s, key)
  {
    var rest := Erase(s, key);
    EraseMultiset(s, key);
    assert |multiset(s)| == |multiset(rest)| + 1;
    assert multiset([key] + rest) == multiset(s);
    [key] + rest
  }

  /** The keys of `s` that are in `keep`, in their original relative order. */
  function Filter(s: seq<string>, keep: set<string>): (r: seq<string>)
    ensures forall x :: x in r <==> x in s && x in keep
    ensures Distinct(s) ==> Distinct(r)
    ensures |r| <= |s|
  {
    if s == [] then []
    else
      var rest := Filter(s[1..], keep);
      if s[0] in keep then
        assert Distinct(s) ==> s[0] !in s[1..];
        [s[0]] + rest
      else rest
  }

  /** Filtering keeps the surviving keys in the order they had: an earlier key stays earlier. */
  lemma {:induction false} FilterKeepsOrder(s: seq<string>, keep: set<string>)
    requires Distinct(s)
    ensures forall i, j :: 0 <= i < j < |Filter(s, keep)| ==>
      IndexOf(s, Filter(s, keep)[i]) < IndexOf(s, Filter(s, keep)[j])
  {
    if s != [] {
      FilterKeepsOrder(s[1..], keep);
      var rest := Filter(s[1..], keep);
      var r := Filter(s, keep);
      var d := if s[0] in keep then 1 else 0;
      assert r == if s[0] in keep then [s[0]] + rest else rest;
      assert s[0] !in s[1..];
      forall i, j | 0 <= i < j < |r|
        ensures IndexOf(s, r[i]) < IndexOf(s, r[j])
      {
        assert r[j] == rest[j - d] && r[j] in s[1..] && r[j] != s[0];
        assert IndexOf(s, r[j]) == 1 + IndexOf(s[1..], r[j]);
        if i >= d {
          assert r[i] == rest[i - d] && r[i] in s[1..] && r[i] != s[0];
          assert IndexOf(s, r[i]) == 1 + IndexOf(s[1..], r[i]);
          assert IndexOf(s[1..], rest[i - d]) < IndexOf(s[1..], rest[j - d]);
        } else {
          assert r[i] == s[0];
        }
      }
    }
  }

  /** Unlinking one kept key from a filtered list is filtering without that key. */
  lemma {:induction false} FilterErase(s: seq<string>, keep: set<string>, key: string)
    requires Distinct(s)
    ensures Erase(Filter(s, keep), key) == Filter(s, keep - {key})
  {
    if s != [] {
      FilterErase(s[1..], keep, key);
    }
  }

  /** Filtering with a set that holds every key changes nothing. */
  lemma {:induction false} FilterKeepsAll(s: seq<string>, keep: set<string>)
    requires forall x :: x in s ==> x in keep
    ensures Filter(s, keep) == s
  {
    if s != [] {
      FilterKeepsAll(s[1..], keep);
    }
  }

  /** Filtering twice with the same set is filtering once. */
  lemma {:induction false} FilterIdempotent(s: seq<string>, keep: set<string>)
    ensures Filter(Filter(s, keep), keep) == Filter(s, keep)
  {
    FilterKeepsAll(Filter(s, keep), keep);
  }
}
