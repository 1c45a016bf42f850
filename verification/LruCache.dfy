/** The cache object: a map from keys to list elements, and the list they are linked in, most
  * recently used first. The clock and the size of a value are arguments. */
module LruCache {
  import opened Bytes
  import opened Lru

  // A list element; the map and the list share it.
  class Element<V> {
    var entry: Entry<V>

    constructor (entry: Entry<V>)
      ensures this.entry == entry
    {
      this.entry := entry;
    }
  }

  // The entries the elements hold now.
  ghost function Entries<V>(l: seq<Element<V>>): (s: seq<Entry<V>>)
    reads l
    ensures |s| == |l|
  {
    if l == [] then [] else [l[0].entry] + Entries(l[1..])
  }

  function ListRemove<V>(l: seq<Element<V>>, e: Element<V>): (r: seq<Element<V>>)
    ensures |r| <= |l|
  {
    if l == [] then [] else if l[0] == e then l[1..] else [l[0]] + ListRemove(l[1..], e)
  }

  ghost predicate NoDuplicates<V>(l: seq<Element<V>>) {
    forall i, j | 0 <= i < j < |l| :: l[i] != l[j]
  }

  lemma {:induction false} EntriesHas<V>(l: seq<Element<V>>, key: Key)
    ensures HasKey(Entries(l), key) <==> exists e :: e in l && e.entry.key == key
  {
    if l != [] {
      EntriesHas(l[1..], key);
      assert Entries(l)[1..] == Entries(l[1..]);
      if e :| e in l && e.entry.key == key {
        assert e == l[0] || e in l[1..];
      }
    }
  }

  lemma {:induction false} EntriesFind<V>(l: seq<Element<V>>, e: Element<V>)
    requires e in l && DistinctKeys(Entries(l))
    ensures HasKey(Entries(l), e.entry.key) && Find(Entries(l), e.entry.key) == e.entry
  {
    assert Entries(l)[1..] == Entries(l[1..]);
    if e != l[0] {
      assert e in l[1..];
      EntriesFind(l[1..], e);
    }
  }

  lemma {:induction false} EntriesUnique<V>(l: seq<Element<V>>, a: Element<V>, b: Element<V>)
    requires a in l && b in l && DistinctKeys(Entries(l)) && a.entry.key == b.entry.key
    ensures a == b
  {
    assert Entries(l)[1..] == Entries(l[1..]);
    EntriesHas(l[1..], l[0].entry.key);
    assert forall e | e in l :: e == l[0] || e in l[1..];
    if a != l[0] && b != l[0] {
      EntriesUnique(l[1..], a, b);
    }
  }

  // Unlinking an element removes its entry and nothing else.
  lemma {:induction false} RemoveEntries<V>(l: seq<Element<V>>, e: Element<V>)
    requires e in l && DistinctKeys(Entries(l))
    ensures Entries(ListRemove(l, e)) == Without(Entries(l), e.entry.key)
    ensures forall x :: x in ListRemove(l, e) <==> x in l && x != e
    ensures |ListRemove(l, e)| == |l| - 1
  {
    assert Entries(l)[1..] == Entries(l[1..]);
    assert forall x :: x in l <==> x == l[0] || x in l[1..];
    EntriesHas(l[1..], l[0].entry.key);
    var r := Without(Entries(l[1..]), e.entry.key);
    if l[0] == e {
      WithoutNot(Entries(l[1..]), e.entry.key);
      assert [] + r == r;
    } else {
      RemoveEntries(l[1..], e);
      assert l[0].entry.key != e.entry.key;
      var t := ListRemove(l[1..], e);
      assert ([l[0]] + t)[1..] == t;
      assert forall x :: x in [l[0]] + t <==> x == l[0] || x in t;
    }
  }

  lemma {:induction false} WithoutLast<V>(s: seq<Entry<V>>)
    requires s != [] && DistinctKeys(s)
    ensures Without(s, s[|s| - 1].key) == s[..|s| - 1]
  {
    var key := s[|s| - 1].key;
    var r := Without(s[1..], key);
    if |s| == 1 {
      assert [] + r == r;
    } else {
      assert s[1..][|s| - 2] == s[|s| - 1];
      LastHas(s[1..]);
      WithoutLast(s[1..]);
      assert s[..|s| - 1] == [s[0]] + s[1..][..|s| - 2];
    }
  }

  lemma {:induction false} LastHas<V>(s: seq<Entry<V>>)
    requires s != []
    ensures HasKey(s, s[|s| - 1].key)
  {
    if |s| > 1 {
      LastHas(s[1..]);
    }
  }

  lemma {:induction false} EntriesAt<V>(l: seq<Element<V>>, i: nat)
    requires i < |l|
    ensures Entries(l)[i] == l[i].entry
  {
    if i > 0 {
      EntriesAt(l[1..], i - 1);
    }
  }

  lemma {:induction false} FilterSame<V>(s: seq<Entry<V>>, p: Entry<V> -> bool, q: Entry<V> -> bool)
    requires forall e | e in s :: p(e) == q(e)
    ensures Filter(s, p) == Filter(s, q)
  {
    if s != [] {
      FilterSame(s[1..], p, q);
    }
  }

  function WithoutKeys<V>(s: seq<Entry<V>>, keys: set<Key>): seq<Entry<V>> {
    Filter(s, (e: Entry<V>) => e.key !in keys)
  }

  // Removing one more key.
  lemma {:induction false} FilterOneMore<V>(s: seq<Entry<V>>, keys: set<Key>, key: Key)
    ensures Without(WithoutKeys(s, keys), key) == WithoutKeys(s, keys + {key})
  {
    var p := (e: Entry<V>) => e.key !in keys;
    var q := (e: Entry<V>) => e.key !in keys + {key};
    if s != [] {
      FilterOneMore(s[1..], keys, key);
      var r := Filter(s[1..], p);
      if p(s[0]) {
        assert ([s[0]] + r)[1..] == r;
      } else {
        assert [] + r == r;
      }
    }
  }

  lemma {:induction false} FilterAll<V>(s: seq<Entry<V>>)
    ensures WithoutKeys(s, {}) == s
  {
    if s != [] {
      FilterAll(s[1..]);
    }
  }

  lemma EntriesCons<V>(e: Element<V>, l: seq<Element<V>>)
    ensures Entries([e] + l) == [e.entry] + Entries(l)
  {
    assert ([e] + l)[1..] == l;
  }

  lemma ConsFacts<V>(e: Entry<V>, s: seq<Entry<V>>)
    ensures TotalSize([e] + s) == e.size + TotalSize(s)
    ensures DistinctKeys([e] + s) <==> !HasKey(s, e.key) && DistinctKeys(s)
  {
    assert ([e] + s)[1..] == s;
  }

  lemma EmptyFits<V>(c: Config, size: nat)
    requires Fits(c, size)
    ensures !MustEvict<V>(c, [], size)
  {
  }

  // The elements that stay have other keys.
  lemma RemoveUnique<V>(l: seq<Element<V>>, e: Element<V>)
    requires e in l && DistinctKeys(Entries(l))
    ensures forall x | x in l && x != e :: x.entry.key != e.entry.key
  {
    forall x | x in l && x != e ensures x.entry.key != e.entry.key {
      if x.entry.key == e.entry.key {
        EntriesUnique(l, x, e);
      }
    }
  }

  class LruCache<V> {
    const capacity: int
    const maxSize: int
    const ttl: int
    var items: map<Key, Element<V>>
    var evictList: seq<Element<V>>
    var currentSize: int
    var hits: nat
    var misses: nat
    var sets: nat
    var deletes: nat
    var evictions: nat
    var entryCount: int

    ghost function Options(): Config {
      Config(capacity, maxSize, ttl)
    }

    ghost function Contents(): seq<Entry<V>>
      reads this, evictList
    {
      Entries(evictList)
    }

    // The map and the list hold the same elements, each under its own key; the size and the count
    // are those of the list.
    ghost predicate Valid()
      reads this, evictList
    {
      && (forall e | e in evictList :: e.entry.key in items && items[e.entry.key] == e)
      && (forall k | k in items :: items[k] in evictList && items[k].entry.key == k)
      && DistinctKeys(Contents())
      && currentSize == TotalSize(Contents()) && entryCount == |evictList|
    }

    constructor (capacity: int, maxSize: int, ttl: int)
      ensures Valid() && Contents() == [] && Options() == Config(capacity, maxSize, ttl)
      ensures hits == misses == sets == deletes == evictions == 0
    {
      this.capacity, this.maxSize, this.ttl := capacity, maxSize, ttl;
      items, evictList, currentSize, entryCount := map[], [], 0, 0;
      hits, misses, sets, deletes, evictions := 0, 0, 0, 0, 0;
    }

    lemma ItemsAreKeys(key: Key)
      requires Valid()
      ensures key in items <==> HasKey(Contents(), key)
      ensures key in items ==> Find(Contents(), key) == items[key].entry
    {
      EntriesHas(evictList, key);
      if key in items {
        EntriesFind(evictList, items[key]);
      }
    }

    method RemoveElement(elem: Element<V>)
      requires Valid() && elem in evictList
      modifies this`items, this`evictList, this`currentSize, this`entryCount
      ensures Valid() && Contents() == Without(old(Contents()), elem.entry.key)
      ensures forall e :: e in evictList <==> e in old(evictList) && e != elem
      ensures |evictList| == |old(evictList)| - 1
    {
      hide Filter, TotalSize, DistinctKeys, HasKey, Find, Entries, ListRemove;
      RemoveEntries(evictList, elem);
      EntriesFind(evictList, elem);
      RemoveUnique(evictList, elem);
      var key := elem.entry.key;
      FilterDistinct(Contents(), (x: Entry<V>) => x.key != key);
      WithoutSize(Contents(), elem.entry.key);
      evictList := ListRemove(evictList, elem);
      items := items - {elem.entry.key};
      currentSize := currentSize - elem.entry.size;
      entryCount := entryCount - 1;
    }

    // Drops the least recently used entry, if there is one.
    method EvictOldest()
      requires Valid()
      modifies this`items, this`evictList, this`currentSize, this`entryCount, this`evictions
      ensures Valid()
      ensures old(evictList) == [] ==> Contents() == [] && evictions == old(evictions)
      ensures old(evictList) != [] ==>
                && Contents() == old(Contents())[..|old(evictList)| - 1]
                && evictions == old(evictions) + 1
      ensures forall e | e in evictList :: e in old(evictList)
    {
      hide Filter, TotalSize, DistinctKeys, HasKey, Find, Entries, ListRemove, Without;
      if evictList != [] {
        EntriesAt(evictList, |evictList| - 1);
        WithoutLast(Contents());
        RemoveElement(evictList[|evictList| - 1]);
        evictions := evictions + 1;
      }
    }

    method Get(key: Key, now: int) returns (r: Option<V>)
      requires Valid()
      modifies this`items, this`evictList, this`currentSize, this`entryCount, this`hits, this`misses, evictList
      ensures Valid() && (r, Contents()) == Lru.Get(old(Contents()), key, now)
      ensures hits == old(hits) + (if r.Some? then 1 else 0) && misses == old(misses) + (if r.Some? then 0 else 1)
      ensures forall e | e in evictList :: e in old(evictList)
    {
      hide Filter, TotalSize, DistinctKeys, HasKey, Find, Entries, ListRemove;
      ItemsAreKeys(key);
      if key !in items {
        misses := misses + 1;
        return None;
      }
      var elem := items[key];
      if IsExpired(elem.entry, now) {
        RemoveElement(elem);
        misses := misses + 1;
        return None;
      }
      r := Some(elem.entry.value);
      MoveToFront(elem, Touched(elem.entry, now));
      hits := hits + 1;
    }

    // Makes an element the most recently used one, with a new entry for the same key.
    method MoveToFront(elem: Element<V>, entry: Entry<V>)
      requires Valid() && elem in evictList && entry.key == elem.entry.key
      modifies this`evictList, this`currentSize, elem
      ensures Valid() && Contents() == [entry] + Without(old(Contents()), entry.key)
      ensures forall e :: e in evictList <==> e in old(evictList)
    {
      hide Filter, TotalSize, DistinctKeys, HasKey, Find, ListRemove, Entries;
      RemoveEntries(evictList, elem);
      EntriesFind(evictList, elem);
      RemoveUnique(evictList, elem);
      FilterDistinct(Contents(), (x: Entry<V>) => x.key != entry.key);
      WithoutSize(Contents(), entry.key);
      WithoutNot(Contents(), entry.key);
      var rest := ListRemove(evictList, elem);
      ghost var kept := Entries(rest);
      currentSize := currentSize - elem.entry.size + entry.size;
      elem.entry := entry;
      assert Entries(rest) == kept;
      evictList := [elem] + rest;
      EntriesCons(elem, rest);
      ConsFacts(entry, kept);
    }

    // Common to Set and SetWithTags. A key already there is updated in place, without eviction.
    method Insert(entry: Entry<V>)
      requires Valid() && (entry.key in items || Fits(Options(), entry.size))
      modifies this`items, this`evictList, this`currentSize, this`entryCount, this`evictions, evictList
      ensures Valid() && (HasKey(old(Contents()), entry.key) || Fits(Options(), entry.size))
      ensures Contents() == Lru.Set(Options(), old(Contents()), entry)
      ensures evictions == old(evictions) + |old(Contents())| + (if HasKey(old(Contents()), entry.key) then 0 else 1) - |Contents()|
      ensures forall e | e in evictList :: e in old(evictList) || fresh(e)
    {
      hide Filter, TotalSize, DistinctKeys, HasKey, Find, Entries;
      ItemsAreKeys(entry.key);
      if entry.key in items {
        WithoutSize(Contents(), entry.key);
        MoveToFront(items[entry.key], entry);
        return;
      }
      ghost var s := Contents();
      while |evictList| >= capacity || (maxSize > 0 && currentSize + entry.size > maxSize)
        invariant Valid() && !HasKey(Contents(), entry.key)
        invariant Evicted(Options(), Contents(), entry.size) == Evicted(Options(), s, entry.size)
        invariant evictions == old(evictions) + |s| - |Contents()|
        invariant forall e | e in evictList :: e in old(evictList) && e.entry == old(e.entry)
        decreases |evictList|
      {
        assert MustEvict(Options(), Contents(), entry.size);
        EmptyFits<V>(Options(), entry.size);
        PrefixDistinct(Contents(), |evictList| - 1);
        EvictOldest();
      }
      assert !MustEvict(Options(), Contents(), entry.size);
      PushFront(entry);
    }

    method PushFront(entry: Entry<V>)
      requires Valid() && !HasKey(Contents(), entry.key)
      modifies this`items, this`evictList, this`currentSize, this`entryCount
      ensures Valid() && Contents() == [entry] + old(Contents())
      ensures forall e | e in evictList :: e in old(evictList) || fresh(e)
    {
      hide Filter, TotalSize, DistinctKeys, HasKey, Find, Entries;
      ItemsAreKeys(entry.key);
      ghost var rest := evictList;
      ghost var s := Contents();
      var elem := new Element(entry);
      evictList := [elem] + evictList;
      items := items[entry.key := elem];
      currentSize := currentSize + entry.size;
      entryCount := entryCount + 1;
      EntriesCons(elem, rest);
      ConsFacts(entry, s);
    }

    method Set(key: Key, value: V, size: nat, ttl: int, now: int)
      requires Valid() && (key in items || Fits(Options(), size))
      modifies this`items, this`evictList, this`currentSize, this`entryCount, this`evictions, this`sets, evictList
      ensures Valid() && (HasKey(old(Contents()), key) || Fits(Options(), size)) && sets == old(sets) + 1
      ensures Contents() == Lru.Set(Options(), old(Contents()), NewEntry(Options(), key, value, size, ttl, [], now))
      ensures forall e | e in evictList :: e in old(evictList) || fresh(e)
    {
      hide Lru.Set, TotalSize, DistinctKeys, HasKey, Fits, Entries;
      var t := if ttl == 0 then this.ttl else ttl;
      var expiresAt := if t > 0 then Some(now + t) else None;
      Insert(Entry(key, value, expiresAt, now, now, 0, size, []));
      sets := sets + 1;
    }

    // Unlike Set it does not count as a set in the statistics.
    method SetWithTags(key: Key, value: V, size: nat, ttl: int, tags: seq<string>, now: int)
      requires Valid() && (key in items || Fits(Options(), size))
      modifies this`items, this`evictList, this`currentSize, this`entryCount, this`evictions, evictList
      ensures Valid() && (HasKey(old(Contents()), key) || Fits(Options(), size))
      ensures Contents() == Lru.Set(Options(), old(Contents()), NewEntry(Options(), key, value, size, ttl, tags, now))
      ensures forall e | e in evictList :: e in old(evictList) || fresh(e)
    {
      hide Lru.Set, TotalSize, DistinctKeys, HasKey, Fits, Entries;
      var t := if ttl == 0 then this.ttl else ttl;
      var expiresAt := if t > 0 then Some(now + t) else None;
      Insert(Entry(key, value, expiresAt, now, now, 0, size, tags));
    }

    method Delete(key: Key)
      requires Valid()
      modifies this`items, this`evictList, this`currentSize, this`entryCount, this`deletes
      ensures Valid() && Contents() == Without(old(Contents()), key)
      ensures deletes == old(deletes) + (if HasKey(old(Contents()), key) then 1 else 0)
    {
      ItemsAreKeys(key);
      WithoutNot(Contents(), key);
      if key in items {
        RemoveElement(items[key]);
        deletes := deletes + 1;
      }
    }

    // The elements of the map whose entries pass the test; the order in which the map is visited
    // does not matter.
    method Collect(test: Entry<V> -> bool) returns (found: seq<Element<V>>)
      requires Valid()
      ensures forall e :: e in found <==> e in evictList && test(e.entry)
      ensures NoDuplicates(found)
    {
      found := [];
      var todo := items.Keys;
      while todo != {}
        invariant todo <= items.Keys && NoDuplicates(found)
        invariant forall e :: e in found <==> e in evictList && e.entry.key !in todo && test(e.entry)
        decreases |todo|
      {
        var key :| key in todo;
        var elem := items[key];
        if test(elem.entry) {
          found := found + [elem];
        }
        todo := todo - {key};
      }
    }

    method RemoveAll(found: seq<Element<V>>, ghost test: Entry<V> -> bool)
      requires Valid() && NoDuplicates(found)
      requires forall e :: e in found <==> e in evictList && test(e.entry)
      modifies this`items, this`evictList, this`currentSize, this`entryCount
      ensures Valid() && Contents() == Filter(old(Contents()), (e: Entry<V>) => !test(e))
      ensures |Contents()| == |old(Contents())| - |found|
    {
      hide Filter, TotalSize, DistinctKeys, HasKey, Find, Entries, WithoutKeys;
      ghost var s := Contents();
      ghost var keys: set<Key> := {};
      var i := 0;
      FilterAll(s);
      while i < |found|
        invariant i <= |found| && Valid() && |evictList| == |old(evictList)| - i
        invariant forall k :: k in keys <==> exists j :: 0 <= j < i && found[j].entry.key == k
        invariant Contents() == WithoutKeys(s, keys)
        invariant forall e :: e in evictList <==> e in old(evictList) && e !in found[..i]
      {
        var elem := found[i];
        assert elem in found && elem !in found[..i];
        FilterOneMore(s, keys, elem.entry.key);
        RemoveElement(elem);
        keys := keys + {elem.entry.key};
        assert found[..i + 1] == found[..i] + [elem];
        i := i + 1;
      }
      TestedByKey(old(evictList), found, keys, test);
    }

    method DeleteByTag(tag: string) returns (count: nat)
      requires Valid()
      modifies this`items, this`evictList, this`currentSize, this`entryCount
      ensures Valid() && Contents() == Lru.DeleteByTag(old(Contents()), tag)
      ensures count == |old(Contents())| - |Contents()|
    {
      var test := (e: Entry<V>) => tag in e.tags;
      var toRemove := Collect(test);
      FilterSame(Contents(), (e: Entry<V>) => !test(e), (e: Entry<V>) => tag !in e.tags);
      RemoveAll(toRemove, test);
      count := |toRemove|;
    }

    // One tick of the clean-up: everything expired goes.
    method Cleanup(now: int)
      requires Valid()
      modifies this`items, this`evictList, this`currentSize, this`entryCount
      ensures Valid() && Contents() == Sweep(old(Contents()), now)
    {
      var test := (e: Entry<V>) => IsExpired(e, now);
      var expired := Collect(test);
      FilterSame(Contents(), (e: Entry<V>) => !test(e), (e: Entry<V>) => !IsExpired(e, now));
      RemoveAll(expired, test);
    }

    method Clear()
      requires Valid()
      modifies this`items, this`evictList, this`currentSize, this`entryCount
      ensures Valid() && Contents() == []
    {
      items, evictList, currentSize, entryCount := map[], [], 0, 0;
    }
  }

  // Which entries go is decided by their keys.
  lemma TestedByKey<V>(l: seq<Element<V>>, found: seq<Element<V>>, keys: set<Key>, test: Entry<V> -> bool)
    requires DistinctKeys(Entries(l)) && forall e :: e in found <==> e in l && test(e.entry)
    requires forall k :: k in keys <==> exists j :: 0 <= j < |found| && found[j].entry.key == k
    ensures WithoutKeys(Entries(l), keys) == Filter(Entries(l), (e: Entry<V>) => !test(e))
  {
    forall e | e in Entries(l) ensures (e.key !in keys) == !test(e) {
      var i :| 0 <= i < |l| && Entries(l)[i] == e;
      EntriesAt(l, i);
      if e.key in keys {
        var j :| 0 <= j < |found| && found[j].entry.key == e.key;
        assert found[j] in found;
        EntriesUnique(l, found[j], l[i]);
      }
    }
    FilterSame(Entries(l), (e: Entry<V>) => e.key !in keys, (e: Entry<V>) => !test(e));
  }
}
