/** The in-memory cache as a recency list, most recently used entry first: the specification of
  * class LruCache, its invariants and its eviction rule. */
module Lru {
  import opened Bytes

  type Key = string

  datatype Entry<V> = Entry(
    key: Key, value: V, expiresAt: Option<int>, createdAt: int, accessedAt: int, accessCount: nat, size: nat, tags: seq<string>)

  // A maxSize that is not positive means no byte limit.
  datatype Config = Config(capacity: int, maxSize: int, ttl: int)

  predicate IsExpired<V>(e: Entry<V>, now: int) {
    e.expiresAt.Some? && now > e.expiresAt.value
  }

  // ---- the recency list ----

  predicate HasKey<V>(s: seq<Entry<V>>, key: Key) {
    s != [] && (s[0].key == key || HasKey(s[1..], key))
  }

  function Find<V>(s: seq<Entry<V>>, key: Key): (e: Entry<V>)
    requires HasKey(s, key)
    ensures e.key == key && e in s
  {
    if s[0].key == key then s[0] else Find(s[1..], key)
  }

  predicate DistinctKeys<V>(s: seq<Entry<V>>) {
    s == [] || (!HasKey(s[1..], s[0].key) && DistinctKeys(s[1..]))
  }

  // The entries that pass a test, in order.
  function Filter<V>(s: seq<Entry<V>>, keep: Entry<V> -> bool): (r: seq<Entry<V>>)
    ensures |r| <= |s|
  {
    if s == [] then [] else (if keep(s[0]) then [s[0]] else []) + Filter(s[1..], keep)
  }

  function Without<V>(s: seq<Entry<V>>, key: Key): seq<Entry<V>> {
    Filter(s, (e: Entry<V>) => e.key != key)
  }

  function TotalSize<V>(s: seq<Entry<V>>): nat {
    if s == [] then 0 else s[0].size + TotalSize(s[1..])
  }

  // ---- operations ----

  // What a Get makes of a hit.
  function Touched<V>(e: Entry<V>, now: int): Entry<V> {
    e.(accessedAt := now, accessCount := e.accessCount + 1)
  }

  function Get<V>(s: seq<Entry<V>>, key: Key, now: int): (Option<V>, seq<Entry<V>>) {
    if !HasKey(s, key) then (None, s)
    else
      var e := Find(s, key);
      if IsExpired(e, now) then (None, Without(s, key))
      else (Some(e.value), [Touched(e, now)] + Without(s, key))
  }

  predicate MustEvict<V>(c: Config, s: seq<Entry<V>>, size: nat) {
    |s| >= c.capacity || (c.maxSize > 0 && TotalSize(s) + size > c.maxSize)
  }

  // An entry of this size fits an empty cache.
  predicate Fits(c: Config, size: nat) {
    c.capacity >= 1 && (c.maxSize > 0 ==> size <= c.maxSize)
  }

  // Least recently used entries go until the new one fits.
  function Evicted<V>(c: Config, s: seq<Entry<V>>, size: nat): seq<Entry<V>>
    requires Fits(c, size)
    decreases |s|
  {
    if MustEvict(c, s, size) then Evicted(c, s[..|s| - 1], size) else s
  }

  function Set<V>(c: Config, s: seq<Entry<V>>, e: Entry<V>): seq<Entry<V>>
    requires HasKey(s, e.key) || Fits(c, e.size)
  {
    [e] + if HasKey(s, e.key) then Without(s, e.key) else Evicted(c, s, e.size)
  }

  // The entry a Set stores; a ttl of 0 asks for the default, a negative one for no expiry.
  function NewEntry<V>(c: Config, key: Key, value: V, size: nat, ttl: int, tags: seq<string>, now: int): Entry<V> {
    var t := if ttl == 0 then c.ttl else ttl;
    Entry(key, value, if t > 0 then Some(now + t) else None, now, now, 0, size, tags)
  }

  function DeleteByTag<V>(s: seq<Entry<V>>, tag: string): seq<Entry<V>> {
    Filter(s, (e: Entry<V>) => tag !in e.tags)
  }

  function Sweep<V>(s: seq<Entry<V>>, now: int): seq<Entry<V>> {
    Filter(s, (e: Entry<V>) => !IsExpired(e, now))
  }

  // ---- facts about lists ----

  lemma {:induction false} FilterHas<V>(s: seq<Entry<V>>, keep: Entry<V> -> bool, key: Key)
    requires HasKey(Filter(s, keep), key)
    ensures HasKey(s, key)
  {
    if s != [] {
      var r := Filter(s[1..], keep);
      if keep(s[0]) {
        assert ([s[0]] + r)[1..] == r;
        if s[0].key != key {
          FilterHas(s[1..], keep, key);
        }
      } else {
        assert [] + r == r;
        FilterHas(s[1..], keep, key);
      }
    }
  }

  lemma {:induction false} FilterDistinct<V>(s: seq<Entry<V>>, keep: Entry<V> -> bool)
    requires DistinctKeys(s)
    ensures DistinctKeys(Filter(s, keep)) && TotalSize(Filter(s, keep)) <= TotalSize(s)
  {
    if s != [] {
      FilterDistinct(s[1..], keep);
      var r := Filter(s[1..], keep);
      if keep(s[0]) {
        assert ([s[0]] + r)[1..] == r;
        if HasKey(r, s[0].key) {
          FilterHas(s[1..], keep, s[0].key);
        }
      } else {
        assert [] + r == r;
      }
    }
  }

  lemma {:induction false} WithoutNot<V>(s: seq<Entry<V>>, key: Key)
    ensures !HasKey(Without(s, key), key)
    ensures HasKey(s, key) ==> |Without(s, key)| < |s|
    ensures !HasKey(s, key) ==> Without(s, key) == s
  {
    if s != [] {
      WithoutNot(s[1..], key);
      var r := Without(s[1..], key);
      if s[0].key != key {
        assert ([s[0]] + r)[1..] == r;
      } else {
        assert [] + r == r;
      }
    }
  }

  lemma {:induction false} PrefixDistinct<V>(s: seq<Entry<V>>, n: nat)
    requires n <= |s| && DistinctKeys(s)
    ensures DistinctKeys(s[..n]) && forall k :: HasKey(s[..n], k) ==> HasKey(s, k)
  {
    if n > 0 {
      assert s[..n][1..] == s[1..][..n - 1];
      PrefixDistinct(s[1..], n - 1);
    }
  }

  // ---- eviction ----

  // Eviction keeps the longest front part of the list beside which the new entry fits: it drops
  // only least recently used entries, and no more of them than needed.
  lemma {:induction false} EvictedIsLongest<V>(c: Config, s: seq<Entry<V>>, size: nat)
    requires Fits(c, size)
    ensures var n := |Evicted(c, s, size)|;
            && n <= |s| && Evicted(c, s, size) == s[..n] && !MustEvict(c, s[..n], size)
            && forall k | n < k <= |s| :: MustEvict(c, s[..k], size)
    decreases |s|
  {
    assert s[..|s|] == s;
    if MustEvict(c, s, size) {
      var front := s[..|s| - 1];
      EvictedIsLongest(c, front, size);
      var n := |Evicted(c, front, size)|;
      assert forall k | 0 <= k < |s| :: front[..k] == s[..k];
    }
  }

  // With a capacity or a byte limit the entry cannot meet, evicting would go on for ever: not even
  // the empty list is short enough. Fits is exactly what makes it end.
  lemma NeverFits<V>(c: Config, size: nat)
    ensures (forall s: seq<Entry<V>> :: MustEvict(c, s, size)) <==> !Fits(c, size)
  {
    if Fits(c, size) {
      var none: seq<Entry<V>> := [];
      assert !MustEvict(c, none, size);
    }
  }

  // ---- invariants ----

  ghost predicate Good<V>(c: Config, s: seq<Entry<V>>) {
    DistinctKeys(s) && |s| <= c.capacity
  }

  lemma SetGood<V>(c: Config, s: seq<Entry<V>>, e: Entry<V>)
    requires Good(c, s) && (HasKey(s, e.key) || Fits(c, e.size))
    ensures Good(c, Set(c, s, e))
    ensures !HasKey(s, e.key) && c.maxSize > 0 ==> TotalSize(Set(c, s, e)) <= c.maxSize
  {
    var r := if HasKey(s, e.key) then Without(s, e.key) else Evicted(c, s, e.size);
    assert ([e] + r)[1..] == r;
    if HasKey(s, e.key) {
      FilterDistinct(s, (x: Entry<V>) => x.key != e.key);
      WithoutNot(s, e.key);
    } else {
      EvictedIsLongest(c, s, e.size);
      PrefixDistinct(s, |r|);
    }
  }

  lemma GetGood<V>(c: Config, s: seq<Entry<V>>, key: Key, now: int)
    requires Good(c, s)
    ensures Good(c, Get(s, key, now).1)
  {
    if HasKey(s, key) {
      FilterDistinct(s, (x: Entry<V>) => x.key != key);
      WithoutNot(s, key);
      var r := Without(s, key);
      assert ([Touched(Find(s, key), now)] + r)[1..] == r;
    }
  }

  lemma FilterGood<V>(c: Config, s: seq<Entry<V>>, keep: Entry<V> -> bool)
    requires Good(c, s)
    ensures Good(c, Filter(s, keep))
  {
    FilterDistinct(s, keep);
  }

  // Storing a larger value under an existing key can break the byte limit: that path never evicts.
  lemma UpdateOverflows<V>(c: Config, s: seq<Entry<V>>, e: Entry<V>)
    requires DistinctKeys(s) && HasKey(s, e.key) && c.maxSize > 0
    ensures TotalSize(Set(c, s, e)) > c.maxSize <==> TotalSize(s) - Find(s, e.key).size + e.size > c.maxSize
  {
    WithoutSize(s, e.key);
    var r := Without(s, e.key);
    assert ([e] + r)[1..] == r;
  }

  lemma {:induction false} WithoutSize<V>(s: seq<Entry<V>>, key: Key)
    requires DistinctKeys(s) && HasKey(s, key)
    ensures TotalSize(Without(s, key)) == TotalSize(s) - Find(s, key).size
    ensures |Without(s, key)| == |s| - 1
  {
    var r := Without(s[1..], key);
    if s[0].key == key {
      WithoutNot(s[1..], key);
      assert [] + r == r;
    } else {
      WithoutSize(s[1..], key);
      assert ([s[0]] + r)[1..] == r;
    }
  }
}
