/** Two caches of different capacity fed the same operations: whatever the smaller one answers, the
  * larger one answers too. */
module LruInclusion {
  import opened Bytes
  import opened Lru

  datatype Op<V> =
    | Lookup(key: Key, now: int)
    | Store(key: Key, value: V, size: nat, ttl: int, tags: seq<string>, now: int)
    | Remove(key: Key)
    | RemoveTagged(tag: string)
    | Expire(now: int)
    | Reset

  // A capacity without a byte limit.
  function Cache(capacity: int, ttl: int): Config {
    Config(capacity, 0, ttl)
  }

  // A value larger than the byte limit of the whole cache would never let the eviction end.
  predicate Admits<V>(c: Config, op: Op<V>) {
    c.capacity >= 1 && (op.Store? && c.maxSize > 0 ==> op.size <= c.maxSize)
  }

  ghost predicate AdmitsAll<V>(c: Config, ops: seq<Op<V>>) {
    c.capacity >= 1 && forall op | op in ops :: Admits(c, op)
  }

  function Step<V>(c: Config, s: seq<Entry<V>>, op: Op<V>): (Option<V>, seq<Entry<V>>)
    requires Admits(c, op)
  {
    match op
    case Lookup(key, now) => Get(s, key, now)
    case Store(key, value, size, ttl, tags, now) => (None, Set(c, s, NewEntry(c, key, value, size, ttl, tags, now)))
    case Remove(key) => (None, Without(s, key))
    case RemoveTagged(tag) => (None, DeleteByTag(s, tag))
    case Expire(now) => (None, Sweep(s, now))
    case Reset => (None, [])
  }

  // The answers of a whole run and the list it ends with.
  function Run<V>(c: Config, s: seq<Entry<V>>, ops: seq<Op<V>>): (r: (seq<Option<V>>, seq<Entry<V>>))
    requires AdmitsAll(c, ops)
    ensures |r.0| == |ops|
    decreases |ops|
  {
    if ops == [] then ([], s)
    else
      var (answer, s1) := Step(c, s, ops[0]);
      var (answers, s2) := Run(c, s1, ops[1..]);
      ([answer] + answers, s2)
  }

  predicate Subseq<T(==)>(a: seq<T>, b: seq<T>)
    decreases |b|
  {
    a == [] || (b != [] && (if a[0] == b[0] then Subseq(a[1..], b[1..]) else Subseq(a, b[1..])))
  }

  lemma {:induction false} SubseqTail<T>(a: seq<T>, b: seq<T>)
    requires a != [] && Subseq(a, b)
    ensures Subseq(a[1..], b) && |a| <= |b|
    decreases |b|
  {
    if a[0] == b[0] {
      if |a| > 1 {
        SubseqTail(a[1..], b[1..]);
      }
    } else {
      SubseqTail(a, b[1..]);
      if |a| > 1 && a[1] == b[0] {
        SubseqTail(a[1..], b[1..]);
      }
    }
  }

  lemma SubseqLength<T>(a: seq<T>, b: seq<T>)
    requires Subseq(a, b)
    ensures |a| <= |b|
  {
    if a != [] {
      SubseqTail(a, b);
    }
  }

  lemma SubseqCons<T>(e: T, a: seq<T>, b: seq<T>)
    requires Subseq(a, b)
    ensures Subseq([e] + a, [e] + b)
  {
    assert ([e] + a)[1..] == a && ([e] + b)[1..] == b;
  }

  lemma SubseqSkip<T>(e: T, a: seq<T>, b: seq<T>)
    requires Subseq(a, b)
    ensures Subseq(a, [e] + b)
  {
    assert ([e] + b)[1..] == b;
    if a != [] {
      SubseqTail(a, b);
    }
  }

  // Dropping the last element on both sides, or on the shorter only.
  lemma {:induction false} SubseqDropLast<T>(a: seq<T>, b: seq<T>)
    requires a != [] && Subseq(a, b)
    ensures Subseq(a[..|a| - 1], b[..|b| - 1]) && Subseq(a[..|a| - 1], b)
    decreases |b|
  {
    if |a| > 1 || a[0] != b[0] {
      assert b[..|b| - 1][1..] == b[1..][..|b| - 2] || |b| == 1;
      if a[0] == b[0] {
        assert a[..|a| - 1][1..] == a[1..][..|a| - 2];
        SubseqLength(a[1..], b[1..]);
        SubseqDropLast(a[1..], b[1..]);
      } else {
        SubseqDropLast(a, b[1..]);
        SubseqLength(a, b[1..]);
      }
    }
  }

  lemma {:induction false} SubseqFilter<V>(a: seq<Entry<V>>, b: seq<Entry<V>>, keep: Entry<V> -> bool)
    requires Subseq(a, b)
    ensures Subseq(Filter(a, keep), Filter(b, keep))
    ensures |Filter(b, keep)| - |Filter(a, keep)| <= |b| - |a|
    decreases |b|
  {
    if b != [] {
      if a != [] && a[0] == b[0] {
        SubseqFilter(a[1..], b[1..], keep);
        SubseqCons(b[0], Filter(a[1..], keep), Filter(b[1..], keep));
        NoneBefore(Filter(a[1..], keep), Filter(b[1..], keep));
      } else {
        SubseqFilter(a, b[1..], keep);
        SubseqSkip(b[0], Filter(a, keep), Filter(b[1..], keep));
        NoneBefore(Filter(a, keep), Filter(b[1..], keep));
      }
    }
  }

  lemma NoneBefore<T>(a: seq<T>, b: seq<T>)
    ensures [] + a == a && [] + b == b
  {
  }

  lemma {:induction false} SubseqHas<V>(a: seq<Entry<V>>, b: seq<Entry<V>>, key: Key)
    requires Subseq(a, b) && DistinctKeys(b) && HasKey(a, key)
    ensures HasKey(b, key) && Find(a, key) == Find(b, key)
    decreases |b|
  {
    if a[0] == b[0] {
      if a[0].key != key {
        SubseqHas(a[1..], b[1..], key);
      }
    } else {
      SubseqHas(a, b[1..], key);
    }
  }

  // Without a byte limit a full cache gives up exactly its last entry.
  lemma EvictedOne<V>(c: Config, s: seq<Entry<V>>, size: nat)
    requires c.capacity >= 1 && c.maxSize <= 0 && |s| <= c.capacity
    ensures Evicted(c, s, size) == if |s| == c.capacity then s[..|s| - 1] else s
  {
    if |s| == c.capacity {
      assert Evicted(c, s[..|s| - 1], size) == s[..|s| - 1];
    }
  }

  // ---- inclusion ----

  // What holds between the two caches at every moment.
  ghost predicate Included<V>(n: int, m: int, small: seq<Entry<V>>, large: seq<Entry<V>>, ttl: int) {
    && 1 <= n <= m && Good(Cache(n, ttl), small) && Good(Cache(m, ttl), large)
    && Subseq(small, large) && |large| - |small| <= m - n
  }

  lemma GetIncluded<V>(n: int, m: int, small: seq<Entry<V>>, large: seq<Entry<V>>, ttl: int, key: Key, now: int)
    requires 1 <= n <= m && Included(n, m, small, large, ttl)
    ensures Included(n, m, Get(small, key, now).1, Get(large, key, now).1, ttl)
    ensures Get(small, key, now).0.Some? ==> Get(large, key, now).0 == Get(small, key, now).0
  {
    hide Filter, TotalSize;
    GetGood(Cache(n, ttl), small, key, now);
    GetGood(Cache(m, ttl), large, key, now);
    if HasKey(large, key) {
      SubseqFilter(small, large, (x: Entry<V>) => x.key != key);
      WithoutSize(large, key);
      var e := Touched(Find(large, key), now);
      if HasKey(small, key) {
        SubseqHas(small, large, key);
        WithoutSize(small, key);
        SubseqCons(e, Without(small, key), Without(large, key));
      } else {
        WithoutNot(small, key);
        SubseqSkip(e, Without(small, key), Without(large, key));
      }
    } else if HasKey(small, key) {
      SubseqHas(small, large, key);
    }
  }

  lemma SetIncluded<V>(n: int, m: int, small: seq<Entry<V>>, large: seq<Entry<V>>, ttl: int, e: Entry<V>)
    requires 1 <= n <= m && Included(n, m, small, large, ttl)
    ensures Included(n, m, Set(Cache(n, ttl), small, e), Set(Cache(m, ttl), large, e), ttl)
  {
    hide Filter, Evicted, TotalSize;
    SetGood(Cache(n, ttl), small, e);
    SetGood(Cache(m, ttl), large, e);
    EvictedOne(Cache(n, ttl), small, e.size);
    EvictedOne(Cache(m, ttl), large, e.size);
    if HasKey(small, e.key) {
      SubseqHas(small, large, e.key);
      WithoutSize(small, e.key);
    }
    if HasKey(large, e.key) {
      SubseqFilter(small, large, (x: Entry<V>) => x.key != e.key);
      WithoutSize(large, e.key);
      if !HasKey(small, e.key) {
        WithoutNot(small, e.key);
      }
    }
    var small' := if HasKey(small, e.key) then Without(small, e.key) else Evicted(Cache(n, ttl), small, e.size);
    var large' := if HasKey(large, e.key) then Without(large, e.key) else Evicted(Cache(m, ttl), large, e.size);
    if |small| > 0 {
      SubseqDropLast(small, large);
      if HasKey(large, e.key) && !HasKey(small, e.key) {
        SubseqDropLast(small, Without(large, e.key));
      }
    }
    SubseqCons(e, small', large');
  }

  lemma FilterIncluded<V>(n: int, m: int, small: seq<Entry<V>>, large: seq<Entry<V>>, ttl: int, keep: Entry<V> -> bool)
    requires 1 <= n <= m && Included(n, m, small, large, ttl)
    ensures Included(n, m, Filter(small, keep), Filter(large, keep), ttl)
  {
    hide Filter;
    FilterGood(Cache(n, ttl), small, keep);
    FilterGood(Cache(m, ttl), large, keep);
    SubseqFilter(small, large, keep);
  }

  // One operation: the caches stay included, and the smaller one's hit is the larger one's.
  lemma StepIncluded<V>(n: int, m: int, small: seq<Entry<V>>, large: seq<Entry<V>>, ttl: int, op: Op<V>)
    requires 1 <= n <= m && Included(n, m, small, large, ttl)
    ensures var (a, small') := Step(Cache(n, ttl), small, op);
            var (b, large') := Step(Cache(m, ttl), large, op);
            Included(n, m, small', large', ttl) && (a.Some? ==> b == a)
  {
    hide Get, Set, Filter, Good, Subseq;
    match op
    case Lookup(key, now) => GetIncluded(n, m, small, large, ttl, key, now);
    case Store(key, value, size, t, tags, now) =>
      SetIncluded(n, m, small, large, ttl, NewEntry(Cache(n, ttl), key, value, size, t, tags, now));
    case Remove(key) => FilterIncluded(n, m, small, large, ttl, (e: Entry<V>) => e.key != key);
    case RemoveTagged(tag) => FilterIncluded(n, m, small, large, ttl, (e: Entry<V>) => tag !in e.tags);
    case Expire(now) => FilterIncluded(n, m, small, large, ttl, (e: Entry<V>) => !IsExpired(e, now));
    case Reset => IncludedEmpty<V>(n, m, ttl);
  }

  lemma IncludedEmpty<V>(n: int, m: int, ttl: int)
    requires 1 <= n <= m
    ensures Included<V>(n, m, [], [], ttl)
  {
  }

  function Hits<V>(answers: seq<Option<V>>): nat {
    if answers == [] then 0 else (if answers[0].Some? then 1 else 0) + Hits(answers[1..])
  }

  // Inclusion over whole runs, from any included pair of lists: every hit of the smaller cache is
  // a hit of the larger one, with the same value, and so the hit count can only grow.
  lemma {:induction false} RunIncluded<V>(n: int, m: int, small: seq<Entry<V>>, large: seq<Entry<V>>, ttl: int, ops: seq<Op<V>>)
    requires 1 <= n <= m && Included(n, m, small, large, ttl)
    ensures var (answers, small') := Run(Cache(n, ttl), small, ops);
            var (answers', large') := Run(Cache(m, ttl), large, ops);
            && Included(n, m, small', large', ttl)
            && (forall i | 0 <= i < |ops| :: answers[i].Some? ==> answers'[i] == answers[i])
            && Hits(answers) <= Hits(answers')
    decreases |ops|
  {
    hide Step, Included;
    if ops != [] {
      StepIncluded(n, m, small, large, ttl, ops[0]);
      var (a, small1) := Step(Cache(n, ttl), small, ops[0]);
      var (b, large1) := Step(Cache(m, ttl), large, ops[0]);
      RunIncluded(n, m, small1, large1, ttl, ops[1..]);
      var answers := Run(Cache(n, ttl), small1, ops[1..]).0;
      var answers' := Run(Cache(m, ttl), large1, ops[1..]).0;
      assert ([a] + answers)[1..] == answers && ([b] + answers')[1..] == answers';
    }
  }

  // In particular from two new caches.
  lemma Inclusion<V>(n: int, m: int, ttl: int, ops: seq<Op<V>>)
    requires 1 <= n <= m
    ensures var answers := Run(Cache(n, ttl), [], ops).0;
            var answers' := Run(Cache(m, ttl), [], ops).0;
            forall i | 0 <= i < |ops| :: answers[i].Some? ==> answers'[i] == answers[i]
  {
    hide Run, Included;
    IncludedEmpty<V>(n, m, ttl);
    RunIncluded(n, m, [], [], ttl, ops);
  }
}
