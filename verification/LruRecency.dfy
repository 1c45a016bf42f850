/** What the cache holds and answers, read off the operations it was given: it is a map with expiry
  * that may only have lost the keys whose last use lies furthest back. */
module LruRecency {
  import opened Bytes
  import opened Lru
  import opened LruInclusion

  // ---- the reference: what the operations say about one key ----

  // A value stored at `now` is good up to this moment; a ttl of 0 asks for the default of the cache,
  // and no expiry follows from a ttl or a default that is not positive.
  function Until(c: Config, ttl: int, now: int): Option<int> {
    if ttl > 0 then Some(now + ttl)
    else if ttl == 0 && c.ttl > 0 then Some(now + c.ttl)
    else None
  }

  predicate Past(until: Option<int>, now: int) {
    until.Some? && until.value < now
  }

  // The entry a map without any limit would hold after these operations.
  ghost function Remembered<V>(c: Config, ops: seq<Op<V>>, key: Key): Option<Entry<V>>
    decreases |ops|
  {
    if ops == [] then None
    else
      var r := Remembered(c, ops[..|ops| - 1], key);
      match ops[|ops| - 1]
      case Lookup(k, now) =>
        if r.None? || k != key then r
        else if Past(r.value.expiresAt, now) then None
        else Some(r.value.(accessedAt := now, accessCount := r.value.accessCount + 1))
      case Store(k, value, size, ttl, tags, now) =>
        if k != key then r else Some(Entry(key, value, Until(c, ttl, now), now, now, 0, size, tags))
      case Remove(k) => if k == key then None else r
      case RemoveTagged(tag) => if r.Some? && tag in r.value.tags then None else r
      case Expire(now) => if r.Some? && Past(r.value.expiresAt, now) then None else r
      case Reset => None
  }

  // The list after these operations on a new cache.
  ghost function After<V>(c: Config, ops: seq<Op<V>>): seq<Entry<V>>
    requires AdmitsAll(c, ops)
  {
    Run(c, [], ops).1
  }

  ghost predicate Uses<V>(c: Config, before: seq<Op<V>>, op: Op<V>, key: Key)
    requires AdmitsAll(c, before) && Admits(c, op)
  {
    || (op.Store? && op.key == key)
    || (op.Lookup? && op.key == key && Step(c, After(c, before), op).0.Some?)
  }

  // Where the key was last stored or found, or -1.
  ghost function LastUse<V>(c: Config, ops: seq<Op<V>>, key: Key): (i: int)
    requires AdmitsAll(c, ops)
    ensures -1 <= i < |ops|
    decreases |ops|
  {
    var n := |ops| - 1;
    if ops == [] then -1
    else if Uses(c, ops[..n], ops[n], key) then n
    else LastUse(c, ops[..n], key)
  }

  ghost function Mentioned<V>(ops: seq<Op<V>>): set<Key>
    decreases |ops|
  {
    if ops == [] then {}
    else
      var op := ops[|ops| - 1];
      (if op.Store? || op.Lookup? then {op.key} else {}) + Mentioned(ops[..|ops| - 1])
  }

  // The keys used after the last use of this one.
  ghost function Newer<V>(c: Config, ops: seq<Op<V>>, key: Key): set<Key>
    requires AdmitsAll(c, ops)
  {
    set k | k in Mentioned(ops) && LastUse(c, ops, k) > LastUse(c, ops, key)
  }

  lemma {:induction false} UsedIsMentioned<V>(c: Config, ops: seq<Op<V>>, key: Key)
    requires AdmitsAll(c, ops) && LastUse(c, ops, key) >= 0
    ensures key in Mentioned(ops)
    decreases |ops|
  {
    var n := |ops| - 1;
    if !Uses(c, ops[..n], ops[n], key) {
      UsedIsMentioned(c, ops[..n], key);
    }
  }

  // ---- runs, one operation longer ----

  lemma {:induction false} RunSnoc<V>(c: Config, s: seq<Entry<V>>, ops: seq<Op<V>>, op: Op<V>)
    requires AdmitsAll(c, ops) && Admits(c, op)
    ensures Run(c, s, ops + [op]).1 == Step(c, Run(c, s, ops).1, op).1
    ensures Run(c, s, ops + [op]).0 == Run(c, s, ops).0 + [Step(c, Run(c, s, ops).1, op).0]
    decreases |ops|
  {
    hide Step;
    var all := ops + [op];
    if ops == [] {
      assert all[1..] == [];
      assert Run(c, Step(c, s, op).1, all[1..]) == ([], Step(c, s, op).1);
    } else {
      assert all[1..] == ops[1..] + [op];
      RunSnoc(c, Step(c, s, ops[0]).1, ops[1..], op);
    }
  }

  lemma AfterLast<V>(c: Config, ops: seq<Op<V>>)
    requires AdmitsAll(c, ops) && ops != []
    ensures AdmitsAll(c, ops[..|ops| - 1]) && Admits(c, ops[|ops| - 1])
    ensures After(c, ops) == Step(c, After(c, ops[..|ops| - 1]), ops[|ops| - 1]).1
  {
    hide Step, Run;
    RunSnoc(c, [], ops[..|ops| - 1], ops[|ops| - 1]);
    assert ops == ops[..|ops| - 1] + [ops[|ops| - 1]];
  }

  // The answers of a run are those of its single steps.
  lemma {:induction false} AnswerAt<V>(c: Config, ops: seq<Op<V>>, i: nat)
    requires AdmitsAll(c, ops) && i < |ops|
    ensures AdmitsAll(c, ops[..i]) && Admits(c, ops[i])
    ensures Run(c, [], ops).0[i] == Step(c, After(c, ops[..i]), ops[i]).0
    decreases |ops|
  {
    hide Step, Run;
    var n := |ops| - 1;
    assert ops == ops[..n] + [ops[n]];
    RunSnoc(c, [], ops[..n], ops[n]);
    if i < n {
      AnswerAt(c, ops[..n], i);
      assert ops[..n][..i] == ops[..i];
    }
  }

  // ---- lists ----

  lemma {:induction false} FilterIn<V>(s: seq<Entry<V>>, keep: Entry<V> -> bool, e: Entry<V>)
    ensures e in Filter(s, keep) <==> e in s && keep(e)
  {
    if s != [] {
      FilterIn(s[1..], keep, e);
    }
  }

  lemma {:induction false} HasKeyIn<V>(s: seq<Entry<V>>, key: Key)
    ensures HasKey(s, key) <==> exists e | e in s :: e.key == key
  {
    if s != [] {
      HasKeyIn(s[1..], key);
      assert s[0] in s;
      assert forall e :: e in s <==> e == s[0] || e in s[1..];
    }
  }

  lemma {:induction false} OneOfAKey<V>(s: seq<Entry<V>>, e: Entry<V>)
    requires DistinctKeys(s) && e in s
    ensures HasKey(s, e.key) && Find(s, e.key) == e
  {
    HasKeyIn(s, e.key);
    if s[0] != e {
      OneOfAKey(s[1..], e);
    }
  }

  ghost function KeysOf<V>(s: seq<Entry<V>>): set<Key> {
    set e | e in s :: e.key
  }

  lemma {:induction false} DistinctCount<V>(s: seq<Entry<V>>)
    requires DistinctKeys(s)
    ensures |KeysOf(s)| == |s|
  {
    if s != [] {
      DistinctCount(s[1..]);
      HasKeyIn(s[1..], s[0].key);
      assert forall e :: e in s <==> e == s[0] || e in s[1..];
      assert KeysOf(s) == {s[0].key} + KeysOf(s[1..]);
    }
  }

  // ---- order of use ----

  ghost predicate Ordered<V>(c: Config, ops: seq<Op<V>>, s: seq<Entry<V>>)
    requires AdmitsAll(c, ops)
  {
    s == [] || (&& LastUse(c, ops, s[0].key) >= 0
                && (forall e | e in s[1..] :: LastUse(c, ops, s[0].key) > LastUse(c, ops, e.key))
                && Ordered(c, ops, s[1..]))
  }

  lemma {:induction false} OrderedAt<V>(c: Config, ops: seq<Op<V>>, s: seq<Entry<V>>, i: nat, j: nat)
    requires AdmitsAll(c, ops) && Ordered(c, ops, s) && i <= j < |s|
    ensures LastUse(c, ops, s[j].key) >= 0
    ensures i < j ==> LastUse(c, ops, s[i].key) > LastUse(c, ops, s[j].key)
  {
    if i == 0 {
      if j > 0 {
        assert s[j] == s[1..][j - 1];
        OrderedAt(c, ops, s[1..], j - 1, j - 1);
      }
    } else {
      OrderedAt(c, ops, s[1..], i - 1, j - 1);
    }
  }

  lemma {:induction false} FilterOrdered<V>(c: Config, ops: seq<Op<V>>, s: seq<Entry<V>>, keep: Entry<V> -> bool)
    requires AdmitsAll(c, ops) && Ordered(c, ops, s)
    ensures Ordered(c, ops, Filter(s, keep))
  {
    if s != [] {
      FilterOrdered(c, ops, s[1..], keep);
      var r := Filter(s[1..], keep);
      if keep(s[0]) {
        assert ([s[0]] + r)[1..] == r;
        forall e | e in r ensures e in s[1..] {
          FilterIn(s[1..], keep, e);
        }
      } else {
        assert [] + r == r;
      }
    }
  }

  lemma {:induction false} PrefixOrdered<V>(c: Config, ops: seq<Op<V>>, s: seq<Entry<V>>, n: nat)
    requires AdmitsAll(c, ops) && Ordered(c, ops, s) && n <= |s|
    ensures Ordered(c, ops, s[..n])
  {
    if n > 0 {
      assert s[..n][1..] == s[1..][..n - 1];
      PrefixOrdered(c, ops, s[1..], n - 1);
    }
  }

  // An operation that uses none of these keys leaves their order as it is.
  lemma {:induction false} OrderKept<V>(c: Config, ops: seq<Op<V>>, s: seq<Entry<V>>)
    requires AdmitsAll(c, ops) && ops != [] && AdmitsAll(c, ops[..|ops| - 1]) && Admits(c, ops[|ops| - 1])
    requires Ordered(c, ops[..|ops| - 1], s)
    requires forall e | e in s :: !Uses(c, ops[..|ops| - 1], ops[|ops| - 1], e.key)
    ensures Ordered(c, ops, s)
  {
    if s != [] {
      OrderKept(c, ops, s[1..]);
    }
  }

  // A used entry in front of others.
  lemma UsedInFront<V>(c: Config, ops: seq<Op<V>>, e: Entry<V>, rest: seq<Entry<V>>)
    requires AdmitsAll(c, ops) && ops != [] && AdmitsAll(c, ops[..|ops| - 1]) && Admits(c, ops[|ops| - 1])
    requires Uses(c, ops[..|ops| - 1], ops[|ops| - 1], e.key)
    requires Ordered(c, ops[..|ops| - 1], rest) && forall x | x in rest :: x.key != e.key
    ensures Ordered(c, ops, [e] + rest)
  {
    OrderKept(c, ops, rest);
    assert ([e] + rest)[1..] == rest;
  }

  // Every entry of the list is the one the operations say, and the entries stand in the order of
  // their last use.
  ghost predicate Explained<V>(c: Config, ops: seq<Op<V>>, s: seq<Entry<V>>)
    requires AdmitsAll(c, ops)
  {
    && DistinctKeys(s) && |s| <= c.capacity && Ordered(c, ops, s)
    && forall e | e in s :: Remembered(c, ops, e.key) == Some(e)
  }

  lemma {:induction false} RunExplained<V>(c: Config, ops: seq<Op<V>>)
    requires AdmitsAll(c, ops)
    ensures Explained(c, ops, After(c, ops))
    decreases |ops|
  {
    if ops != [] {
      AfterLast(c, ops);
      var n := |ops| - 1;
      RunExplained(c, ops[..n]);
      StepExplained(c, ops, After(c, ops[..n]));
    }
  }

  lemma StepExplained<V>(c: Config, ops: seq<Op<V>>, s: seq<Entry<V>>)
    requires AdmitsAll(c, ops) && ops != [] && AdmitsAll(c, ops[..|ops| - 1]) && Admits(c, ops[|ops| - 1])
    requires s == After(c, ops[..|ops| - 1]) && Explained(c, ops[..|ops| - 1], s)
    ensures Explained(c, ops, Step(c, s, ops[|ops| - 1]).1)
  {
    hide Filter, Get, Set, LastUse, DistinctKeys, Ordered;
    match ops[|ops| - 1]
    case Lookup(key, now) => LookupExplained(c, ops, s);
    case Store(key, value, size, ttl, tags, now) => StoreExplained(c, ops, s);
    case Remove(key) => FilterExplained(c, ops, s, (e: Entry<V>) => e.key != key);
    case RemoveTagged(tag) => FilterExplained(c, ops, s, (e: Entry<V>) => tag !in e.tags);
    case Expire(now) => FilterExplained(c, ops, s, (e: Entry<V>) => !IsExpired(e, now));
    case Reset => NothingExplained(c, ops);
  }

  lemma NothingExplained<V>(c: Config, ops: seq<Op<V>>)
    requires AdmitsAll(c, ops)
    ensures Explained(c, ops, [])
  {
  }

  // An operation that uses no key and keeps the entries that pass a test, as the operation says.
  lemma FilterExplained<V>(c: Config, ops: seq<Op<V>>, s: seq<Entry<V>>, keep: Entry<V> -> bool)
    requires AdmitsAll(c, ops) && ops != [] && AdmitsAll(c, ops[..|ops| - 1]) && Admits(c, ops[|ops| - 1])
    requires Explained(c, ops[..|ops| - 1], s)
    requires forall e | e in s && keep(e) :: !Uses(c, ops[..|ops| - 1], ops[|ops| - 1], e.key)
    requires forall e | e in s && keep(e) :: Remembered(c, ops, e.key) == Remembered(c, ops[..|ops| - 1], e.key)
    ensures Explained(c, ops, Filter(s, keep))
  {
    hide Remembered, LastUse, Uses, Admits, AdmitsAll;
    var r := Filter(s, keep);
    FilterDistinct(s, keep);
    FilterOrdered(c, ops[..|ops| - 1], s, keep);
    forall e | e in r ensures e in s && keep(e) {
      FilterIn(s, keep, e);
    }
    OrderKept(c, ops, r);
  }

  // A used entry comes to the front and all others stay as they are.
  lemma FrontExplained<V>(c: Config, ops: seq<Op<V>>, e: Entry<V>, rest: seq<Entry<V>>)
    requires AdmitsAll(c, ops) && ops != [] && AdmitsAll(c, ops[..|ops| - 1]) && Admits(c, ops[|ops| - 1])
    requires Uses(c, ops[..|ops| - 1], ops[|ops| - 1], e.key) && Remembered(c, ops, e.key) == Some(e)
    requires Explained(c, ops[..|ops| - 1], rest) && |rest| < c.capacity && !HasKey(rest, e.key)
    requires forall x | x in rest :: Remembered(c, ops, x.key) == Remembered(c, ops[..|ops| - 1], x.key)
    ensures Explained(c, ops, [e] + rest)
  {
    hide Remembered, LastUse, Uses, Admits, AdmitsAll;
    HasKeyIn(rest, e.key);
    UsedInFront(c, ops, e, rest);
    assert ([e] + rest)[1..] == rest;
  }

  // Parts of an explained list are explained.
  lemma WithoutExplained<V>(c: Config, ops: seq<Op<V>>, s: seq<Entry<V>>, key: Key)
    requires AdmitsAll(c, ops) && Explained(c, ops, s)
    ensures Explained(c, ops, Without(s, key)) && !HasKey(Without(s, key), key)
    ensures HasKey(s, key) ==> |Without(s, key)| < c.capacity
    ensures forall e :: e in Without(s, key) <==> e in s && e.key != key
  {
    hide Remembered, LastUse, AdmitsAll;
    var keep := (e: Entry<V>) => e.key != key;
    var r := Filter(s, keep);
    assert r == Without(s, key);
    FilterDistinct(s, keep);
    FilterOrdered(c, ops, s, keep);
    WithoutNot(s, key);
    forall e ensures e in r <==> e in s && e.key != key {
      FilterIn(s, keep, e);
    }
    assert Explained(c, ops, r);
  }

  lemma PrefixExplained<V>(c: Config, ops: seq<Op<V>>, s: seq<Entry<V>>, n: nat)
    requires AdmitsAll(c, ops) && Explained(c, ops, s) && n <= |s|
    ensures Explained(c, ops, s[..n]) && forall k :: HasKey(s[..n], k) ==> HasKey(s, k)
  {
    hide Remembered, LastUse, AdmitsAll;
    PrefixDistinct(s, n);
    PrefixOrdered(c, ops, s, n);
  }

  lemma LookupExplained<V>(c: Config, ops: seq<Op<V>>, s: seq<Entry<V>>)
    requires AdmitsAll(c, ops) && ops != [] && AdmitsAll(c, ops[..|ops| - 1]) && Admits(c, ops[|ops| - 1])
    requires s == After(c, ops[..|ops| - 1]) && Explained(c, ops[..|ops| - 1], s)
    requires ops[|ops| - 1].Lookup?
    ensures Explained(c, ops, Get(s, ops[|ops| - 1].key, ops[|ops| - 1].now).1)
  {
    hide LastUse, Without, Admits, AdmitsAll, Ordered;
    var key, now := ops[|ops| - 1].key, ops[|ops| - 1].now;
    HasKeyIn(s, key);
    if HasKey(s, key) {
      var e := Find(s, key);
      WithoutExplained(c, ops[..|ops| - 1], s, key);
      if !IsExpired(e, now) {
        FrontExplained(c, ops, Touched(e, now), Without(s, key));
      } else {
        OrderKept(c, ops, Without(s, key));
      }
    } else {
      OrderKept(c, ops, s);
    }
  }

  lemma StoreExplained<V>(c: Config, ops: seq<Op<V>>, s: seq<Entry<V>>)
    requires AdmitsAll(c, ops) && ops != [] && AdmitsAll(c, ops[..|ops| - 1]) && Admits(c, ops[|ops| - 1])
    requires Explained(c, ops[..|ops| - 1], s) && ops[|ops| - 1].Store?
    ensures Explained(c, ops, Step(c, s, ops[|ops| - 1]).1)
  {
    hide LastUse, Without, Evicted, AdmitsAll, Ordered;
    var op := ops[|ops| - 1];
    var e := NewEntry(c, op.key, op.value, op.size, op.ttl, op.tags, op.now);
    if HasKey(s, op.key) {
      WithoutExplained(c, ops[..|ops| - 1], s, op.key);
      HasKeyIn(Without(s, op.key), op.key);
      FrontExplained(c, ops, e, Without(s, op.key));
    } else {
      EvictedIsLongest(c, s, op.size);
      var n := |Evicted(c, s, op.size)|;
      PrefixExplained(c, ops[..|ops| - 1], s, n);
      HasKeyIn(s[..n], op.key);
      FrontExplained(c, ops, e, s[..n]);
    }
  }

  // Over every run of a new cache, with or without a byte limit: a key is held only if the operations
  // say so, with the entry they say, and an entry stands behind all that were used after it.
  lemma ListByUse<V>(c: Config, ops: seq<Op<V>>)
    requires AdmitsAll(c, ops)
    ensures var s := Run(c, [], ops).1;
            && (forall i | 0 <= i < |s| :: Remembered(c, ops, s[i].key) == Some(s[i]))
            && (forall i, j | 0 <= i < j < |s| :: LastUse(c, ops, s[i].key) > LastUse(c, ops, s[j].key) >= 0)
  {
    hide Run, Remembered, LastUse;
    RunExplained(c, ops);
    var s := After(c, ops);
    forall i, j | 0 <= i < j < |s| ensures LastUse(c, ops, s[i].key) > LastUse(c, ops, s[j].key) >= 0 {
      OrderedAt(c, ops, s, i, j);
    }
  }

  // A key that makes room for another was used before every key that stays, and only the store of a
  // key that is not there takes room.
  lemma EvictedLeastRecent<V>(c: Config, ops: seq<Op<V>>, op: Op<V>, gone: Key)
    requires AdmitsAll(c, ops + [op]) && op.Store? && AdmitsAll(c, ops)
    requires HasKey(After(c, ops), gone) && !HasKey(After(c, ops + [op]), gone)
    ensures !HasKey(After(c, ops), op.key)
    ensures forall stays | HasKey(After(c, ops + [op]), stays) ::
              LastUse(c, ops + [op], gone) < LastUse(c, ops + [op], stays)
  {
    hide Run, Remembered, After, LastUse, Uses, AdmitsAll, NewEntry, Without;
    var s, all := After(c, ops), ops + [op];
    assert all[..|ops|] == ops && all[|ops|] == op;
    AfterLast(c, all);
    RunExplained(c, ops);
    RunExplained(c, all);
    NoRoomNeeded(c, s, op, gone);
    var n, j := EvictedBehind(c, s, op, gone);
    UsedByStore(c, ops, op);
    JustUsed(c, all, op.key);
    forall stays | HasKey(After(c, all), stays) ensures LastUse(c, all, gone) < LastUse(c, all, stays) {
      OlderThanHeld(c, ops, s, op, gone, stays, n, j);
    }
  }

  lemma JustUsed<V>(c: Config, ops: seq<Op<V>>, key: Key)
    requires AdmitsAll(c, ops) && ops != [] && AdmitsAll(c, ops[..|ops| - 1]) && Admits(c, ops[|ops| - 1])
    ensures LastUse(c, ops, key) == if Uses(c, ops[..|ops| - 1], ops[|ops| - 1], key) then |ops| - 1
                                    else LastUse(c, ops[..|ops| - 1], key)
  {
  }

  lemma UsedByStore<V>(c: Config, before: seq<Op<V>>, op: Op<V>)
    requires AdmitsAll(c, before) && Admits(c, op) && op.Store?
    ensures forall key :: Uses(c, before, op, key) <==> key == op.key
  {
  }

  // A key that is there already takes no room from another.
  lemma NoRoomNeeded<V>(c: Config, s: seq<Entry<V>>, op: Op<V>, key: Key)
    requires Admits(c, op) && op.Store? && HasKey(s, key)
    ensures HasKey(s, op.key) ==> HasKey(Step(c, s, op).1, key)
  {
    hide NewEntry, Evicted, Filter;
    if HasKey(s, op.key) {
      NewKey(c, op);
      var e := NewEntry(c, op.key, op.value, op.size, op.ttl, op.tags, op.now);
      HasKeyIn(s, key);
      var x: Entry<V> :| x in s && x.key == key;
      FilterIn(s, (y: Entry<V>) => y.key != op.key, x);
      var held := [e] + Without(s, op.key);
      HasKeyIn(held, key);
      assert (if key == op.key then e else x) in held;
    }
  }

  lemma NewKey<V>(c: Config, op: Op<V>)
    requires op.Store?
    ensures var e := NewEntry(c, op.key, op.value, op.size, op.ttl, op.tags, op.now);
            e.key == op.key && e.size == op.size
  {
  }

  // Where the part of the list that stays ends: the key that went stood behind it.
  lemma EvictedBehind<V>(c: Config, s: seq<Entry<V>>, op: Op<V>, gone: Key) returns (n: nat, j: nat)
    requires Admits(c, op) && op.Store? && !HasKey(s, op.key)
    requires HasKey(s, gone) && !HasKey(Step(c, s, op).1, gone)
    ensures n <= j < |s| && s[j].key == gone
    ensures forall k :: HasKey(Step(c, s, op).1, k) ==> k == op.key || exists i :: 0 <= i < n && s[i].key == k
  {
    hide NewEntry, Without, Evicted, HasKey, MustEvict;
    EvictedIsLongest(c, s, op.size);
    n := |Evicted(c, s, op.size)|;
    NewKey(c, op);
    var e := NewEntry(c, op.key, op.value, op.size, op.ttl, op.tags, op.now);
    assert Step(c, s, op).1 == [e] + s[..n];
    j := BehindFront(s, e, n, gone);
    InFront(s, e, n);
  }

  lemma BehindFront<V>(s: seq<Entry<V>>, e: Entry<V>, n: nat, gone: Key) returns (j: nat)
    requires n <= |s| && HasKey(s, gone) && !HasKey([e] + s[..n], gone)
    ensures n <= j < |s| && s[j].key == gone
  {
    hide HasKey;
    var held := [e] + s[..n];
    HasKeyIn(s, gone);
    var x: Entry<V> :| x in s && x.key == gone;
    j :| 0 <= j < |s| && s[j] == x;
    HasKeyIn(held, gone);
    assert x !in held;
    assert forall i :: 0 <= i < n ==> held[1 + i] == s[i];
  }

  lemma InFront<V>(s: seq<Entry<V>>, e: Entry<V>, n: nat)
    requires n <= |s|
    ensures forall k :: HasKey([e] + s[..n], k) ==> k == e.key || exists i :: 0 <= i < n && s[i].key == k
  {
    hide HasKey;
    var held := [e] + s[..n];
    forall k | HasKey(held, k) ensures k == e.key || exists i :: 0 <= i < n && s[i].key == k {
      HasKeyIn(held, k);
      var x: Entry<V> :| x in held && x.key == k;
      var i :| 0 <= i < |held| && held[i] == x;
      if i > 0 {
        assert s[i - 1].key == k;
      }
    }
  }

  lemma OlderThanHeld<V>(c: Config, ops: seq<Op<V>>, s: seq<Entry<V>>, op: Op<V>, gone: Key, stays: Key, n: nat,
                         j: nat)
    requires AdmitsAll(c, ops) && AdmitsAll(c, ops + [op]) && Admits(c, op) && op.Store?
    requires Ordered(c, ops, s) && n <= j < |s| && s[j].key == gone && gone != op.key
    requires stays == op.key || exists i :: 0 <= i < n && s[i].key == stays
    ensures LastUse(c, ops + [op], gone) < LastUse(c, ops + [op], stays)
  {
    hide AdmitsAll, LastUse, Uses, Ordered;
    var all := ops + [op];
    assert all[..|all| - 1] == ops && all[|all| - 1] == op;
    UsedByStore(c, ops, op);
    JustUsed(c, all, gone);
    JustUsed(c, all, stays);
    if stays != op.key {
      var i :| 0 <= i < n && s[i].key == stays;
      OrderedAt(c, ops, s, i, j);
    }
  }

  // ---- how long a key stays ----

  lemma NewerGrows<V>(c: Config, ops: seq<Op<V>>, key: Key)
    requires AdmitsAll(c, ops) && ops != [] && AdmitsAll(c, ops[..|ops| - 1]) && Admits(c, ops[|ops| - 1])
    requires !Uses(c, ops[..|ops| - 1], ops[|ops| - 1], key)
    ensures |Newer(c, ops[..|ops| - 1], key)| <= |Newer(c, ops, key)|
  {
    hide Uses;
    var before := ops[..|ops| - 1];
    forall k | k in Newer(c, before, key) ensures k in Newer(c, ops, key) {
    }
    Fewer(Newer(c, before, key), Newer(c, ops, key));
  }

  lemma Fewer<T>(a: set<T>, b: set<T>)
    requires a <= b
    ensures |a| <= |b|
  {
    assert b == a + (b - a);
  }

  // The keys of the list, all used after this one, are at most as many as the keys used after it.
  lemma ListIsNewer<V>(c: Config, ops: seq<Op<V>>, key: Key)
    requires AdmitsAll(c, ops)
    requires forall k | HasKey(After(c, ops), k) :: LastUse(c, ops, key) < LastUse(c, ops, k)
    ensures |Newer(c, ops, key)| >= |After(c, ops)|
  {
    hide Run, LastUse, Remembered, After;
    var s := After(c, ops);
    RunExplained(c, ops);
    DistinctCount(s);
    forall k | k in KeysOf(s) ensures k in Newer(c, ops, key) {
      HasKeyIn(s, k);
      UsedIsMentioned(c, ops, k);
    }
    Fewer(KeysOf(s), Newer(c, ops, key));
  }

  // What the operations still say of a key the cache still holds, unless as many other keys as fit
  // into it were used since the last use of this one. This is for a cache without a byte limit.
  lemma {:induction false} HeldUnlessCrowded<V>(c: Config, ops: seq<Op<V>>, key: Key)
    requires AdmitsAll(c, ops) && c.maxSize <= 0 && Remembered(c, ops, key).Some?
    ensures HasKey(After(c, ops), key) || |Newer(c, ops, key)| >= c.capacity
    decreases |ops|
  {
    hide Newer, After, LastUse, Step;
    var n := |ops| - 1;
    var op := ops[n];
    AfterLast(c, ops);
    var s := After(c, ops[..n]);
    if op.Store? && op.key == key {
      StoredIsHeld(c, s, op);
    } else {
      HeldUnlessCrowded(c, ops[..n], key);
      RunExplained(c, ops[..n]);
      if !HasKey(s, key) {
        NotUsed(c, ops, key);
        NewerGrows(c, ops, key);
      } else if op.Store? && !HasKey(After(c, ops), key) {
        assert ops == ops[..n] + [op];
        EvictedLeastRecent(c, ops[..n], op, key);
        ListIsNewer(c, ops, key);
        FullAfterEviction(c, s, op, key);
      } else if !op.Store? {
        HeldOn(c, ops, s, key);
      }
    }
  }

  lemma StoredIsHeld<V>(c: Config, s: seq<Entry<V>>, op: Op<V>)
    requires Admits(c, op) && op.Store?
    ensures HasKey(Step(c, s, op).1, op.key)
  {
  }

  lemma NotUsed<V>(c: Config, ops: seq<Op<V>>, key: Key)
    requires AdmitsAll(c, ops) && ops != [] && AdmitsAll(c, ops[..|ops| - 1]) && Admits(c, ops[|ops| - 1])
    requires !HasKey(After(c, ops[..|ops| - 1]), key)
    requires !(ops[|ops| - 1].Store? && ops[|ops| - 1].key == key)
    ensures !Uses(c, ops[..|ops| - 1], ops[|ops| - 1], key)
  {
  }

  // Without a byte limit room is made in a full cache only, and the cache is full afterwards.
  lemma FullAfterEviction<V>(c: Config, s: seq<Entry<V>>, op: Op<V>, gone: Key)
    requires Admits(c, op) && op.Store? && c.maxSize <= 0 && Good(c, s) && !HasKey(s, op.key)
    requires HasKey(s, gone) && !HasKey(Step(c, s, op).1, gone)
    ensures |Step(c, s, op).1| == c.capacity
  {
    hide Evicted;
    EvictedOne(c, s, op.size);
    var e := NewEntry(c, op.key, op.value, op.size, op.ttl, op.tags, op.now);
    if |s| != c.capacity {
      HasKeyIn(s, gone);
      HasKeyIn([e] + s, gone);
    }
  }

  // Nothing but a store makes room: an entry the operations still tell of stays in the list.
  lemma HeldOn<V>(c: Config, ops: seq<Op<V>>, s: seq<Entry<V>>, key: Key)
    requires AdmitsAll(c, ops) && ops != [] && AdmitsAll(c, ops[..|ops| - 1]) && Admits(c, ops[|ops| - 1])
    requires Explained(c, ops[..|ops| - 1], s) && HasKey(s, key)
    requires !ops[|ops| - 1].Store? && Remembered(c, ops, key).Some?
    ensures HasKey(Step(c, s, ops[|ops| - 1]).1, key)
  {
    hide LastUse, Ordered, Filter, AdmitsAll;
    HasKeyIn(s, key);
    var e: Entry<V> :| e in s && e.key == key;
    OneOfAKey(s, e);
    match ops[|ops| - 1]
    case Lookup(k, now) => {
      FilterHolds(s, (x: Entry<V>) => x.key != k, e);
      if HasKey(s, k) {
        HasKeyIn([Touched(Find(s, k), now)] + Without(s, k), key);
      }
    }
    case Remove(k) => FilterHolds(s, (x: Entry<V>) => x.key != k, e);
    case RemoveTagged(tag) => FilterHolds(s, (x: Entry<V>) => tag !in x.tags, e);
    case Expire(now) => FilterHolds(s, (x: Entry<V>) => !IsExpired(x, now), e);
    case Reset =>
  }

  lemma FilterHolds<V>(s: seq<Entry<V>>, keep: Entry<V> -> bool, e: Entry<V>)
    requires e in s
    ensures keep(e) ==> e in Filter(s, keep) && HasKey(Filter(s, keep), e.key)
  {
    FilterIn(s, keep, e);
    HasKeyIn(Filter(s, keep), e.key);
  }

  // ---- answers ----

  // Every answer of every run: a value is the one the operations say, still good; and what they say,
  // still good, is answered unless as many other keys as fit were used since.
  lemma AnswersExplained<V>(c: Config, ops: seq<Op<V>>, i: nat)
    requires AdmitsAll(c, ops) && i < |ops| && ops[i].Lookup? && AdmitsAll(c, ops[..i])
    ensures var answer, r := Run(c, [], ops).0[i], Remembered(c, ops[..i], ops[i].key);
            answer.Some? ==> r.Some? && !Past(r.value.expiresAt, ops[i].now) && answer.value == r.value.value
    ensures var answer, r := Run(c, [], ops).0[i], Remembered(c, ops[..i], ops[i].key);
            var crowded := c.maxSize > 0 || |Newer(c, ops[..i], ops[i].key)| >= c.capacity;
            r.Some? && !Past(r.value.expiresAt, ops[i].now) && !crowded ==> answer == Some(r.value.value)
  {
    hide Run, Newer, LastUse, Ordered;
    var key := ops[i].key;
    var r := Remembered(c, ops[..i], key);
    AnswerAt(c, ops, i);
    RunExplained(c, ops[..i]);
    if c.maxSize <= 0 && r.Some? {
      HeldUnlessCrowded(c, ops[..i], key);
    }
  }

  // Leaves a value stored under a key as it is.
  predicate Spares<V>(op: Op<V>, key: Key, until: Option<int>, tags: seq<string>) {
    match op
    case Lookup(k, now) => k == key ==> !Past(until, now)
    case Store(k, _, _, _, _, _) => k != key
    case Remove(k) => k != key
    case RemoveTagged(tag) => tag !in tags
    case Expire(now) => !Past(until, now)
    case Reset => false
  }

  lemma {:induction false} SparedIsRemembered<V>(c: Config, ops: seq<Op<V>>, i: nat)
    requires AdmitsAll(c, ops) && i < |ops| && ops[i].Store?
    requires forall j | i < j < |ops| ::
               Spares(ops[j], ops[i].key, Until(c, ops[i].ttl, ops[i].now), ops[i].tags)
    ensures var r := Remembered(c, ops, ops[i].key);
            && r.Some? && r.value.value == ops[i].value && r.value.tags == ops[i].tags
            && r.value.expiresAt == Until(c, ops[i].ttl, ops[i].now)
    ensures LastUse(c, ops, ops[i].key) >= i
    decreases |ops|
  {
    hide Until, Uses;
    var n := |ops| - 1;
    if i < n {
      assert ops[..n][i] == ops[i];
      assert forall j | i < j < n :: ops[..n][j] == ops[j];
      SparedIsRemembered(c, ops[..n], i);
      assert Spares(ops[n], ops[i].key, Until(c, ops[i].ttl, ops[i].now), ops[i].tags);
    } else {
      assert Uses(c, ops[..n], ops[n], ops[i].key) by { UsedByStore(c, ops[..n], ops[n]); }
    }
  }

  lemma {:induction false} UsedLate<V>(c: Config, ops: seq<Op<V>>, i: nat, key: Key)
    requires AdmitsAll(c, ops) && i <= |ops| && LastUse(c, ops, key) >= i
    ensures key in Mentioned(ops[i..])
    decreases |ops|
  {
    var n := |ops| - 1;
    assert ops[i..][..n - i] == ops[..n][i..];
    if !Uses(c, ops[..n], ops[n], key) {
      UsedLate(c, ops[..n], i, key);
    }
  }

  // A value stored and then spared is what a look-up answers that comes in time, if fewer other keys
  // than the cache has places for were stored or looked up in between.
  lemma StoredIsAnswered<V>(c: Config, ops: seq<Op<V>>, i: nat, j: nat)
    requires AdmitsAll(c, ops) && c.maxSize <= 0
    requires i < j < |ops| && ops[i].Store? && ops[j].Lookup? && ops[j].key == ops[i].key
    requires forall k | i < k <= j ::
               Spares(ops[k], ops[i].key, Until(c, ops[i].ttl, ops[i].now), ops[i].tags)
    requires |Mentioned(ops[i + 1..j]) - {ops[i].key}| < c.capacity
    ensures Run(c, [], ops).0[j] == Some(ops[i].value)
  {
    hide Run, Remembered, LastUse, Until, Ordered, Mentioned;
    var key, before := ops[i].key, ops[..j];
    assert forall k | 0 <= k < j :: before[k] == ops[k];
    assert before[i + 1..] == ops[i + 1..j];
    SparedIsRemembered(c, before, i);
    AnswersExplained(c, ops, j);
    forall k | k in Newer(c, before, key) ensures k in Mentioned(ops[i + 1..j]) - {key} {
      UsedLate(c, before, i + 1, k);
    }
    Fewer(Newer(c, before, key), Mentioned(ops[i + 1..j]) - {key});
  }

  // ---- runs of stores and look-ups alone ----

  // Nothing is removed and nothing found expired.
  ghost predicate Lasting<V>(c: Config, ops: seq<Op<V>>)
    decreases |ops|
  {
    ops == []
    || (&& Lasting(c, ops[..|ops| - 1])
        && match ops[|ops| - 1]
           case Store(_, _, _, _, _, _) => true
           case Lookup(key, now) =>
             var r := Remembered(c, ops[..|ops| - 1], key);
             r.Some? ==> !Past(r.value.expiresAt, now)
           case Remove(_) => false
           case RemoveTagged(_) => false
           case Expire(_) => false
           case Reset => false)
  }

  lemma {:induction false} UsedIsRemembered<V>(c: Config, ops: seq<Op<V>>, key: Key)
    requires AdmitsAll(c, ops) && Lasting(c, ops) && LastUse(c, ops, key) >= 0
    ensures Remembered(c, ops, key).Some?
    decreases |ops|
  {
    hide Step, Run;
    var n := |ops| - 1;
    if Uses(c, ops[..n], ops[n], key) {
      if ops[n].Lookup? {
        RunExplained(c, ops[..n]);
        FoundIsHeld(c, After(c, ops[..n]), ops[n]);
      }
    } else {
      UsedIsRemembered(c, ops[..n], key);
    }
  }

  lemma FoundIsHeld<V>(c: Config, s: seq<Entry<V>>, op: Op<V>)
    requires Admits(c, op) && op.Lookup? && Step(c, s, op).0.Some?
    ensures exists e :: e in s && e.key == op.key
  {
    HasKeyIn(s, op.key);
  }

  // What is not in the list any more was used before all that is.
  lemma {:induction false} AbsentIsOlder<V>(c: Config, ops: seq<Op<V>>, gone: Key, held: Key)
    requires AdmitsAll(c, ops) && Lasting(c, ops) && LastUse(c, ops, gone) >= 0
    requires !HasKey(After(c, ops), gone) && HasKey(After(c, ops), held)
    ensures LastUse(c, ops, gone) < LastUse(c, ops, held)
    decreases |ops|
  {
    hide Run, Step, After, Remembered, Newer;
    var n := |ops| - 1;
    var op := ops[n];
    AfterLast(c, ops);
    UsedIsHeld(c, ops, gone);
    if HasKey(After(c, ops[..n]), gone) {
      assert ops == ops[..n] + [op];
      LookupHolds(c, ops, gone);
      EvictedLeastRecent(c, ops[..n], op, gone);
    } else if !Uses(c, ops[..n], op, held) {
      UnusedWasHeld(c, ops, held);
      AbsentIsOlder(c, ops[..n], gone, held);
    }
  }

  // A key just used is in the list.
  lemma UsedIsHeld<V>(c: Config, ops: seq<Op<V>>, key: Key)
    requires AdmitsAll(c, ops) && ops != [] && AdmitsAll(c, ops[..|ops| - 1]) && Admits(c, ops[|ops| - 1])
    requires After(c, ops) == Step(c, After(c, ops[..|ops| - 1]), ops[|ops| - 1]).1
    ensures Uses(c, ops[..|ops| - 1], ops[|ops| - 1], key) ==> HasKey(After(c, ops), key)
  {
    hide After;
  }

  // A look-up that finds nothing expired loses no key.
  lemma LookupHolds<V>(c: Config, ops: seq<Op<V>>, key: Key)
    requires AdmitsAll(c, ops) && Lasting(c, ops) && ops != []
    requires AdmitsAll(c, ops[..|ops| - 1]) && Admits(c, ops[|ops| - 1])
    requires After(c, ops) == Step(c, After(c, ops[..|ops| - 1]), ops[|ops| - 1]).1
    requires HasKey(After(c, ops[..|ops| - 1]), key) && !HasKey(After(c, ops), key)
    ensures ops[|ops| - 1].Store?
  {
    hide After, LastUse, Ordered;
    var n := |ops| - 1;
    var s := After(c, ops[..n]);
    RunExplained(c, ops[..n]);
    HasKeyIn(s, key);
    var e: Entry<V> :| e in s && e.key == key;
    if ops[n].Lookup? {
      HeldOn(c, ops, s, key);
    }
  }

  lemma UnusedWasHeld<V>(c: Config, ops: seq<Op<V>>, key: Key)
    requires AdmitsAll(c, ops) && Lasting(c, ops) && ops != []
    requires AdmitsAll(c, ops[..|ops| - 1]) && Admits(c, ops[|ops| - 1])
    requires After(c, ops) == Step(c, After(c, ops[..|ops| - 1]), ops[|ops| - 1]).1
    requires HasKey(After(c, ops), key) && !Uses(c, ops[..|ops| - 1], ops[|ops| - 1], key)
    ensures HasKey(After(c, ops[..|ops| - 1]), key)
  {
    hide After, Evicted;
    var n := |ops| - 1;
    var s := After(c, ops[..n]);
    HasKeyIn(s, key);
    HasKeyIn(After(c, ops), key);
    var e: Entry<V> :| e in After(c, ops) && e.key == key;
    match ops[n]
    case Store(k, value, size, ttl, tags, now) => {
      FilterIn(s, (x: Entry<V>) => x.key != k, e);
      if !HasKey(s, k) {
        EvictedIsLongest(c, s, size);
      }
    }
    case Lookup(k, now) =>
      FilterIn(s, (x: Entry<V>) => x.key != k, e);
    case Remove(_) =>
    case RemoveTagged(_) =>
    case Expire(_) =>
    case Reset =>
  }

  // In such a run the cache holds exactly the keys behind whose last use fewer other keys were used
  // than it has places for.
  lemma HeldExactly<V>(c: Config, ops: seq<Op<V>>, key: Key)
    requires AdmitsAll(c, ops) && c.maxSize <= 0 && Lasting(c, ops)
    ensures HasKey(After(c, ops), key) <==> LastUse(c, ops, key) >= 0 && |Newer(c, ops, key)| < c.capacity
  {
    hide Run, After, LastUse, Remembered, Lasting;
    var s := After(c, ops);
    RunExplained(c, ops);
    HasKeyIn(s, key);
    if HasKey(s, key) {
      var e: Entry<V> :| e in s && e.key == key;
      var j :| 0 <= j < |s| && s[j] == e;
      OrderedAt(c, ops, s, j, j);
      DistinctCount(s);
      forall k | k in Newer(c, ops, key) ensures k in KeysOf(s) - {key} {
        if !HasKey(s, k) {
          AbsentIsOlder(c, ops, k, key);
        }
        HasKeyIn(s, k);
      }
      Fewer(Newer(c, ops, key), KeysOf(s) - {key});
    } else if LastUse(c, ops, key) >= 0 {
      UsedIsRemembered(c, ops, key);
      HeldUnlessCrowded(c, ops, key);
    }
  }
}
