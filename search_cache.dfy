/**
  The search-result cache of the knowledge-base server: a capacity-bounded map
  from a (query, category) key to a rendered result, kept in recency order
  (least recently used first), with hit and miss counters.

  The ordered dictionary of the source is modelled as a key sequence `order`
  (least recent first, no duplicates) next to a `map` from keys to results.
 */
module SearchCache {
  import opened Wrappers
  import opened Seqs

  /** The text the cache key is derived from. The source keeps the first 16 hex
      digits of its SHA-256 digest; the model uses the text itself. */
  function KeyText(query: string, category: string): (k: string)
    ensures |k| == |query| + 1 + |category| && k[|query|] == ':'
    ensures k[..|query|] == query && k[|query| + 1..] == category
  {
    query + ":" + category
  }

  /** Only the joined text counts: a colon may move between query and category. */
  lemma {:induction false} KeyTextAmbiguous(q: string, c1: string, c2: string)
    ensures KeyText(q + ":" + c1, c2) == KeyText(q, c1 + ":" + c2)
    ensures (q + ":" + c1, c2) != (q, c1 + ":" + c2)
  {
    assert (q + ":" + c1) + ":" + c2 == q + ":" + (c1 + ":" + c2);
    assert |q + ":" + c1| != |q|;
  }

  // ---------------------------------------------------------------- recency order

  /** `order` without `k`. */
  function Remove(s: seq<string>, k: string): (r: seq<string>)
    ensures k !in r && |r| <= |s|
    ensures forall x :: x in r <==> x in s && x != k
    ensures NoDups(s) ==> NoDups(r)
    ensures NoDups(s) && k in s ==> |r| == |s| - 1
    ensures k !in s ==> r == s
  {
    if s == [] then []
    else
      var rest := Remove(s[1..], k);
      assert NoDups(s) ==> s[0] !in s[1..] by {
        if NoDups(s) { forall i | 1 <= i < |s| ensures s[i] != s[0] { assert s[0] != s[i]; } }
      }
      if s[0] == k then rest
      else [s[0]] + rest
  }

  /** `move_to_end(k)`: `k` becomes the most recently used key. */
  function MoveToEnd(s: seq<string>, k: string): seq<string>
    requires k in s
  {
    Remove(s, k) + [k]
  }

  /** The key `set` evicts: the least recently used one, when `k` is new and
      the cache is full. */
  function Evicted(s: seq<string>, k: string, maxSize: int): Option<string> {
    if k !in s && |s| >= maxSize && s != [] then Some(s[0]) else None
  }

  /** `set` fails (`popitem` on an empty dictionary) exactly when a new key
      meets an empty cache whose capacity is not positive. */
  predicate SetFails(s: seq<string>, k: string, maxSize: int) {
    k !in s && |s| >= maxSize && s == []
  }

  /** The recency order after a successful `set` of `k`. */
  function OrderAfterSet(s: seq<string>, k: string, maxSize: int): seq<string>
    requires !SetFails(s, k, maxSize)
  {
    if k in s then MoveToEnd(s, k)
    else if |s| >= maxSize then s[1..] + [k]
    else s + [k]
  }

  /** Promoting a present key keeps the same keys, puts `k` last and keeps the
      relative order of all the other keys. */
  lemma MoveToEndPromotes(s: seq<string>, k: string)
    requires NoDups(s) && k in s
    ensures |MoveToEnd(s, k)| == |s| && NoDups(MoveToEnd(s, k))
    ensures MoveToEnd(s, k)[|s| - 1] == k
    ensures forall x :: x in MoveToEnd(s, k) <==> x in s
    ensures Remove(MoveToEnd(s, k), k) == Remove(s, k)
  {
    var r := Remove(s, k);
    RemoveAbsent(r, k);
    RemoveAppend(r, k);
  }

  lemma {:induction false} RemoveAbsent(s: seq<string>, k: string)
    requires k !in s
    ensures Remove(s, k) == s
  {
    if s != [] {
      RemoveAbsent(s[1..], k);
    }
  }

  lemma {:induction false} RemoveAppend(s: seq<string>, k: string)
    ensures Remove(s + [k], k) == Remove(s, k)
  {
    if s != [] {
      assert (s + [k])[1..] == s[1..] + [k];
      RemoveAppend(s[1..], k);
    }
  }

  /** A successful `set` keeps the order duplicate-free, never grows the cache
      beyond a positive capacity, puts `k` last and keeps exactly the old keys
      minus the evicted one. */
  lemma {:induction false} SetKeepsInvariant(s: seq<string>, k: string, maxSize: int)
    requires NoDups(s) && (|s| <= maxSize || s == [])
    requires !SetFails(s, k, maxSize)
    ensures var r := OrderAfterSet(s, k, maxSize);
      && NoDups(r) && r[|r| - 1] == k
      && (|r| <= maxSize || r == [])
      && (forall x :: x in r <==> x == k || (x in s && Some(x) != Evicted(s, k, maxSize)))
  {
    var r := OrderAfterSet(s, k, maxSize);
    if k in s {
      MoveToEndPromotes(s, k);
    } else if |s| >= maxSize {
      assert s == [s[0]] + s[1..];
      forall x | x in s[1..] ensures x != s[0] {
        var i :| 0 <= i < |s[1..]| && s[1..][i] == x;
        assert s[i + 1] == x;
      }
    }
  }

  /** When the cache is full, a new key evicts exactly the least recently used
      entry, and the remaining keys keep their relative order. */
  lemma FullSetEvictsOldest(s: seq<string>, k: string, maxSize: int)
    requires NoDups(s) && |s| == maxSize >= 1 && k !in s
    ensures Evicted(s, k, maxSize) == Some(s[0])
    ensures OrderAfterSet(s, k, maxSize) == s[1..] + [k]
    ensures s[0] !in OrderAfterSet(s, k, maxSize)
    ensures |OrderAfterSet(s, k, maxSize)| == maxSize
  {
    SetKeepsInvariant(s, k, maxSize);
  }

  // ---------------------------------------------------------------- the cache

  datatype CacheStats = CacheStats(size: nat, maxSize: int, hits: nat, misses: nat, hitRate: real)

  class LruCache {
    var order: seq<string>
    var entries: map<string, string>
    const maxSize: int
    var hits: nat
    var misses: nat

    ghost predicate Valid()
      reads this
    {
      && NoDups(order)
      && entries.Keys == (set x | x in order)
      && (|order| <= maxSize || order == [])
    }

    constructor (maxSize: int)
      ensures Valid()
      ensures this.maxSize == maxSize
      ensures order == [] && entries == map[] && hits == 0 && misses == 0
    {
      this.maxSize := maxSize;
      order := [];
      entries := map[];
      hits := 0;
      misses := 0;
    }

    /** `get`: a hit returns the stored result and promotes the key; a miss
        only counts. Neither adds nor removes entries. */
    method Get(query: string, category: string) returns (r: Option<string>)
      requires Valid()
      modifies this
      ensures Valid()
      ensures entries == old(entries)
      ensures var key := KeyText(query, category);
        if key in old(entries) then
          && r == Some(old(entries)[key])
          && order == MoveToEnd(old(order), key)
          && hits == old(hits) + 1 && misses == old(misses)
        else
          && r == None
          && order == old(order)
          && hits == old(hits) && misses == old(misses) + 1
    {
      var key := KeyText(query, category);
      if key in entries {
        assert key in order;
        MoveToEndPromotes(order, key);
        order := MoveToEnd(order, key);
        hits := hits + 1;
        return Some(entries[key]);
      }
      misses := misses + 1;
      return None;
    }

    /** `set`: store `results` under the key, promoting an existing key or
        evicting the least recently used entry when the cache is full.
        `ok` is false when the source raises (`popitem` on an empty
        dictionary, which happens only when the capacity is not positive);
        the cache is then unchanged. */
    method Set(query: string, category: string, results: string) returns (ok: bool)
      requires Valid()
      modifies this
      ensures Valid()
      ensures hits == old(hits) && misses == old(misses)
      ensures var key := KeyText(query, category);
        ok == !SetFails(old(order), key, maxSize)
      ensures var key := KeyText(query, category);
        if ok then
          && order == OrderAfterSet(old(order), key, maxSize)
          && entries == (match Evicted(old(order), key, maxSize)
                         case Some(e) => old(entries) - {e}
                         case None => old(entries))[key := results]
        else
          order == old(order) && entries == old(entries)
    {
      var key := KeyText(query, category);
      ok := !SetFails(order, key, maxSize);
      if !ok {
        return;
      }
      SetKeepsInvariant(order, key, maxSize);
      var newOrder := OrderAfterSet(order, key, maxSize);
      if key in entries {
        assert key in order;
      } else if |order| >= maxSize {
        entries := entries - {order[0]};
      }
      entries := entries[key := results];
      order := newOrder;
    }

    /** `clear`: no entries and zeroed counters; the capacity stays. */
    method Clear()
      requires Valid()
      modifies this
      ensures Valid()
      ensures order == [] && entries == map[] && hits == 0 && misses == 0
    {
      order := [];
      entries := map[];
      hits := 0;
      misses := 0;
    }

    /** `stats`: the size, capacity, counters and the hit rate (hits over
        lookups, 0 before the first lookup). */
    method Stats() returns (s: CacheStats)
      requires Valid()
      ensures s.size == |entries| && s.maxSize == maxSize
      ensures s.hits == hits && s.misses == misses
      ensures s.size <= maxSize || s.size == 0
      ensures hits + misses > 0 ==> s.hitRate * (hits + misses) as real == hits as real
      ensures hits + misses == 0 ==> s.hitRate == 0.0
      ensures 0.0 <= s.hitRate <= 1.0
      ensures s.hitRate == 0.0 <==> hits == 0
      ensures s.hitRate == 1.0 <==> hits > 0 && misses == 0
    {
      SizeIsOrderLength();
      var total := hits + misses;
      var rate := if total > 0 then hits as real / total as real else 0.0;
      s := CacheStats(|entries|, maxSize, hits, misses, rate);
    }

    lemma SizeIsOrderLength()
      requires Valid()
      ensures |entries| == |order|
    {
      DistinctCard(order);
    }
  }

  lemma {:induction false} DistinctCard(s: seq<string>)
    requires NoDups(s)
    ensures |(set x | x in s)| == |s|
  {
    if s != [] {
      var t := s[1..];
      assert NoDups(t);
      DistinctCard(t);
      assert (set x | x in s) == (set x | x in t) + {s[0]};
      assert s[0] !in t by {
        forall i | 0 <= i < |t| ensures t[i] != s[0] { assert s[i + 1] == t[i]; }
      }
    }
  }

  /** The recency orders while three distinct keys fill a cache of capacity 3. */
  lemma FillOrders(k1: string, k2: string, k3: string)
    requires k1 != k2 && k1 != k3 && k2 != k3
    ensures OrderAfterSet([], k1, 3) == [k1]
    ensures OrderAfterSet([k1], k2, 3) == [k1, k2]
    ensures OrderAfterSet([k1, k2], k3, 3) == [k1, k2, k3]
  {
  }

  /** The recency orders of the rest of the example run with capacity 3,
      for any four distinct keys. */
  lemma ScenarioOrders(k1: string, k2: string, k3: string, k4: string)
    requires k1 != k2 && k1 != k3 && k1 != k4 && k2 != k3 && k2 != k4 && k3 != k4
    ensures MoveToEnd([k1, k2, k3], k1) == [k2, k3, k1]
    ensures Evicted([k2, k3, k1], k4, 3) == Some(k2)
    ensures OrderAfterSet([k2, k3, k1], k4, 3) == [k3, k1, k4]
  {
    assert Remove([k1, k2, k3], k1) == Remove([k2, k3], k1);
    assert Remove([k2, k3], k1) == [k2] + Remove([k3], k1);
    assert Remove([k3], k1) == [k3] + Remove([], k1);
  }

  /** Three stores into an empty cache of capacity 3. */
  method FillThree(q1: string, q2: string, q3: string, c: string) returns (cache: LruCache)
    requires KeyText(q1, c) != KeyText(q2, c) && KeyText(q1, c) != KeyText(q3, c) && KeyText(q2, c) != KeyText(q3, c)
    ensures fresh(cache) && cache.Valid() && cache.maxSize == 3
    ensures cache.order == [KeyText(q1, c), KeyText(q2, c), KeyText(q3, c)]
    ensures cache.entries == map[KeyText(q1, c) := "結果1", KeyText(q2, c) := "結果2", KeyText(q3, c) := "結果3"]
  {
    var k1, k2, k3 := KeyText(q1, c), KeyText(q2, c), KeyText(q3, c);
    FillOrders(k1, k2, k3);
    cache := new LruCache(3);
    var ok := cache.Set(q1, c, "結果1");
    ok := cache.Set(q2, c, "結果2");
    ok := cache.Set(q3, c, "結果3");
  }

  /** The four keys of the example run are distinct. */
  predicate ScenarioKeys(q1: string, q2: string, q3: string, q4: string, c: string) {
    var k1, k2, k3, k4 := KeyText(q1, c), KeyText(q2, c), KeyText(q3, c), KeyText(q4, c);
    k1 != k2 && k1 != k3 && k1 != k4 && k2 != k3 && k2 != k4 && k3 != k4
  }

  /** The example run on any four distinct keys: after storing three and
      reading the first, a fourth store evicts the second while the third
      is still cached. */
  method EvictionScenario(q1: string, q2: string, q3: string, q4: string, c: string)
    returns (second: Option<string>, third: Option<string>)
    requires ScenarioKeys(q1, q2, q3, q4, c)
    ensures second == None && third == Some("結果3")
  {
    var k1, k2, k3, k4 := KeyText(q1, c), KeyText(q2, c), KeyText(q3, c), KeyText(q4, c);
    ScenarioOrders(k1, k2, k3, k4);
    var cache := FillThree(q1, q2, q3, c);
    var first := cache.Get(q1, c);
    var ok := cache.Set(q4, c, "結果4");
    assert cache.order == [k3, k1, k4];
    assert k3 in cache.entries && cache.entries[k3] == "結果3" && k2 !in cache.entries;
    second := cache.Get(q2, c);
    third := cache.Get(q3, c);
  }

  /** The example run of the source with capacity 3: after storing three
      queries and reading the first, a fourth store evicts the second query,
      while the third is still cached. */
  method CapacityThreeScenario() returns (second: Option<string>, third: Option<string>)
    ensures second == None && third == Some("結果3")
  {
    var k1, k2, k3, k4 := KeyText("Phase 1", "all"), KeyText("Phase 2", "all"),
                          KeyText("補助金額", "all"), KeyText("創新性", "all");
    assert k1[6] != k2[6] && k1[0] != k3[0] && k1[0] != k4[0] && k2[0] != k3[0];
    assert k2[0] != k4[0] && k3[0] != k4[0];
    second, third := EvictionScenario("Phase 1", "Phase 2", "補助金額", "創新性", "all");
  }
}
