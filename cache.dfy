/**
  The in-memory TTL cache (infraestructure/cache/memory_cache.go): a recency list of
  items, front = least recently read, and an index from key to list element. Instants
  and durations are integers in one unit (Go counts nanoseconds); `now` is passed in.
*/
module Cache {
  import opened Wrappers

  /** memoryCacheItem: a key, its value and the instant after which it has expired. */
  datatype Item<V> = Item(key: string, value: V, expireAfter: int)

  /**
    A list element. `id` stands for the element's identity (the *list.Element pointer):
    two pushes of equal items are still two elements.
  */
  datatype Element<V> = Element(id: nat, item: Item<V>)

  /** The cache as a value: the recency list front to back, the index, and the next fresh id. */
  datatype State<V> = State(mostRecentlyRead: seq<Element<V>>, elementsByKey: map<string, Element<V>>, nextId: nat)

  /** The number of keys the index may hold before Set starts evicting. */
  const EvictAbove: nat := 100

  predicate DistinctIds<V(==,!new)>(s: seq<Element<V>>)
  {
    forall i, j :: 0 <= i < j < |s| ==> s[i].id != s[j].id
  }

  /**
    What every operation keeps: list elements are distinct and older than nextId, and
    each indexed element is in the list and carries its own key. The list may hold
    more elements than the index: an overwritten key leaves its old element behind.
  */
  predicate Coherent<V(==,!new)>(st: State<V>)
  {
    DistinctIds(st.mostRecentlyRead)
    && (forall e :: e in st.mostRecentlyRead ==> e.id < st.nextId)
    && (forall k :: k in st.elementsByKey ==>
          st.elementsByKey[k] in st.mostRecentlyRead && st.elementsByKey[k].item.key == k)
  }

  function Empty<V(==,!new)>(): (st: State<V>)
    ensures Coherent(st)
  {
    State([], map[], 0)
  }

  // ---------------------------------------------------------------- list operations

  /** The list with the element of identity `id` removed (list.Remove). */
  function Without<V(==,!new)>(s: seq<Element<V>>, id: nat): (r: seq<Element<V>>)
    ensures forall e :: e in r <==> e in s && e.id != id
    ensures |r| <= |s|
  {
    if s == [] then []
    else Without(s[..|s| - 1], id) + (if s[|s| - 1].id == id then [] else [s[|s| - 1]])
  }

  lemma DistinctAppend<V(!new)>(s: seq<Element<V>>, e: Element<V>)
    requires DistinctIds(s)
    requires forall x :: x in s ==> x.id != e.id
    ensures DistinctIds(s + [e])
  {
    var t := s + [e];
    forall i, j | 0 <= i < j < |t|
      ensures t[i].id != t[j].id
    {
      if j == |s| {
        assert t[i] in s;
      }
    }
  }

  lemma {:induction false} WithoutDistinct<V(!new)>(s: seq<Element<V>>, id: nat)
    requires DistinctIds(s)
    ensures DistinctIds(Without(s, id))
  {
    if s != [] {
      var init, last := s[..|s| - 1], s[|s| - 1];
      assert DistinctIds(init);
      WithoutDistinct(init, id);
      if last.id != id {
        forall x | x in Without(init, id)
          ensures x.id != last.id
        {
          var i :| 0 <= i < |init| && init[i] == x;
          assert s[i] == x;
        }
        DistinctAppend(Without(init, id), last);
      }
    }
  }

  lemma {:induction false} WithoutAbsent<V(!new)>(s: seq<Element<V>>, id: nat)
    requires forall x :: x in s ==> x.id != id
    ensures Without(s, id) == s
  {
    if s != [] {
      var init, last := s[..|s| - 1], s[|s| - 1];
      assert s == init + [last];
      assert last in s;
      WithoutAbsent(init, id);
      assert Without(s, id) == Without(init, id) + [last];
    }
  }

  /** Removing an element that is in a list of distinct elements takes out exactly that one. */
  lemma {:induction false} WithoutRemovesOne<V(!new)>(s: seq<Element<V>>, e: Element<V>)
    requires DistinctIds(s) && e in s
    ensures multiset(Without(s, e.id)) + multiset{e} == multiset(s)
    ensures |Without(s, e.id)| + 1 == |s|
  {
    var init, last := s[..|s| - 1], s[|s| - 1];
    assert s == init + [last];
    if last == e {
      WithoutRemovesLast(init, e);
    } else {
      assert e in init && last.id != e.id by {
        var i :| 0 <= i < |s| && s[i] == e;
        assert i < |init| && init[i] == e;
      }
      assert DistinctIds(init);
      WithoutRemovesOne(init, e);
      WithoutKeepsLast(init, last, e);
    }
  }

  /** The element to remove is the last one: the rest is left as it is. */
  lemma WithoutRemovesLast<V(!new)>(init: seq<Element<V>>, e: Element<V>)
    requires DistinctIds(init + [e])
    ensures Without(init + [e], e.id) == init
    ensures multiset(init) + multiset{e} == multiset(init + [e])
  {
    var s := init + [e];
    assert s[..|s| - 1] == init;
    forall x | x in init
      ensures x.id != e.id
    {
      var i :| 0 <= i < |init| && init[i] == x;
      assert s[i] == x && s[|init|] == e;
    }
    WithoutAbsent(init, e.id);
  }

  /** The element to remove is earlier: the last one is kept. */
  lemma WithoutKeepsLast<V(!new)>(init: seq<Element<V>>, last: Element<V>, e: Element<V>)
    requires last.id != e.id
    requires multiset(Without(init, e.id)) + multiset{e} == multiset(init)
    requires |Without(init, e.id)| + 1 == |init|
    ensures multiset(Without(init + [last], e.id)) + multiset{e} == multiset(init + [last])
    ensures |Without(init + [last], e.id)| + 1 == |init + [last]|
  {
    WithoutSnoc(init, last, e.id);
    assert multiset(Without(init, e.id) + [last]) == multiset(Without(init, e.id)) + multiset{last};
    assert multiset(init + [last]) == multiset(init) + multiset{last};
  }

  /**
    In a list of distinct elements, removing the one at position i keeps every other
    element in its order (list.Remove unlinks one node and leaves its neighbours linked).
  */
  lemma {:induction false} WithoutAt<V(!new)>(s: seq<Element<V>>, i: nat)
    requires DistinctIds(s) && i < |s|
    ensures Without(s, s[i].id) == s[..i] + s[i + 1..]
  {
    var init, last := s[..|s| - 1], s[|s| - 1];
    assert s == init + [last];
    if i == |s| - 1 {
      WithoutRemovesLast(init, last);
      assert s[..i] == init && s[i + 1..] == [];
    } else {
      assert DistinctIds(init);
      assert init[i] == s[i] && last.id != s[i].id;
      WithoutAt(init, i);
      WithoutAtEarlier(init, last, i);
    }
  }

  /** The inductive step of WithoutAt when the removed element is not the last one. */
  lemma WithoutAtEarlier<V(!new)>(init: seq<Element<V>>, last: Element<V>, i: nat)
    requires i < |init| && last.id != init[i].id
    requires Without(init, init[i].id) == init[..i] + init[i + 1..]
    ensures Without(init + [last], init[i].id) == (init + [last])[..i] + (init + [last])[i + 1..]
  {
    WithoutSnoc(init, last, init[i].id);
    SnocSlices(init, last, i);
    assert (init[..i] + init[i + 1..]) + [last] == init[..i] + (init[i + 1..] + [last]);
  }

  /** Removal from a list that ends in an element with another identity keeps that element last. */
  lemma WithoutSnoc<V(!new)>(init: seq<Element<V>>, last: Element<V>, id: nat)
    requires last.id != id
    ensures Without(init + [last], id) == Without(init, id) + [last]
  {
    assert (init + [last])[..|init + [last]| - 1] == init;
  }

  /** Slicing a list with one more element at the end, around a position of the shorter list. */
  lemma SnocSlices<T>(init: seq<T>, last: T, i: nat)
    requires i < |init|
    ensures (init + [last])[..i] == init[..i]
    ensures (init + [last])[i + 1..] == init[i + 1..] + [last]
  {
  }

  lemma CoherentNonEmpty<V(!new)>(st: State<V>)
    requires Coherent(st) && |st.elementsByKey| > 0
    ensures |st.mostRecentlyRead| > 0
  {
    var k :| k in st.elementsByKey;
    assert st.elementsByKey[k] in st.mostRecentlyRead;
  }

  // ---------------------------------------------------------------- Clear

  /** What Clear reports: whether the key was indexed. */
  function Cleared<V(==,!new)>(st: State<V>, key: string): bool
  {
    key in st.elementsByKey
  }

  /** The state after Clear(key): the key's element leaves the list and the key leaves the index. */
  function AfterClear<V(==,!new)>(st: State<V>, key: string): (r: State<V>)
    requires Coherent(st)
    ensures Coherent(r)
  {
    if key !in st.elementsByKey then st
    else
      var r := st.(mostRecentlyRead := Without(st.mostRecentlyRead, st.elementsByKey[key].id),
                   elementsByKey := st.elementsByKey - {key});
      RemovedCoherent(st, key, r);
      r
  }

  lemma RemovedCoherent<V(!new)>(st: State<V>, key: string, r: State<V>)
    requires Coherent(st) && key in st.elementsByKey
    requires r.mostRecentlyRead == Without(st.mostRecentlyRead, st.elementsByKey[key].id)
    requires r.elementsByKey == st.elementsByKey - {key}
    requires r.nextId == st.nextId
    ensures Coherent(r)
  {
    var e := st.elementsByKey[key];
    WithoutDistinct(st.mostRecentlyRead, e.id);
    forall k | k in r.elementsByKey
      ensures r.elementsByKey[k] in r.mostRecentlyRead
    {
      assert st.elementsByKey[k].item.key == k != key == e.item.key;
    }
  }

  /**
    Clear reports true and removes the key and its element, leaving the other elements in
    their order, or reports false and changes nothing.
  */
  lemma ClearSpec<V(!new)>(st: State<V>, key: string)
    requires Coherent(st)
    ensures Cleared(st, key) <==> key in st.elementsByKey
    ensures key !in AfterClear(st, key).elementsByKey
    ensures !Cleared(st, key) ==> AfterClear(st, key) == st
    ensures Cleared(st, key) ==>
      var e := st.elementsByKey[key];
      && AfterClear(st, key).elementsByKey == st.elementsByKey - {key}
      && AfterClear(st, key).nextId == st.nextId
      && e in st.mostRecentlyRead
      && e !in AfterClear(st, key).mostRecentlyRead
      && multiset(AfterClear(st, key).mostRecentlyRead) + multiset{e} == multiset(st.mostRecentlyRead)
      && (forall i :: 0 <= i < |st.mostRecentlyRead| && st.mostRecentlyRead[i] == e ==>
            AfterClear(st, key).mostRecentlyRead == st.mostRecentlyRead[..i] + st.mostRecentlyRead[i + 1..])
  {
    if key in st.elementsByKey {
      var e := st.elementsByKey[key];
      WithoutRemovesOne(st.mostRecentlyRead, e);
      forall i | 0 <= i < |st.mostRecentlyRead| && st.mostRecentlyRead[i] == e
        ensures AfterClear(st, key).mostRecentlyRead == st.mostRecentlyRead[..i] + st.mostRecentlyRead[i + 1..]
      {
        WithoutAt(st.mostRecentlyRead, i);
      }
    }
  }

  // ---------------------------------------------------------------- Get

  /** An indexed entry is live at `now` unless now is strictly after its expiry. */
  predicate Live<V(==,!new)>(e: Element<V>, now: int)
  {
    !(now > e.item.expireAfter)
  }

  /** What Get returns: the value of a live indexed entry, otherwise nothing. */
  function Found<V(==,!new)>(st: State<V>, key: string, now: int): Option<V>
  {
    if key !in st.elementsByKey then None
    else if !Live(st.elementsByKey[key], now) then None
    else Some(st.elementsByKey[key].item.value)
  }

  /** The state after Get(key) at `now`: expired entries are cleared, live hits move to the back. */
  function AfterGet<V(==,!new)>(st: State<V>, key: string, now: int): (r: State<V>)
    requires Coherent(st)
    ensures Coherent(r)
  {
    if key !in st.elementsByKey then st
    else if !Live(st.elementsByKey[key], now) then AfterClear(st, key)
    else
      var e := st.elementsByKey[key];
      var r := st.(mostRecentlyRead := Without(st.mostRecentlyRead, e.id) + [e]);
      MovedToBackCoherent(st, e, r);
      r
  }

  lemma MovedToBackCoherent<V(!new)>(st: State<V>, e: Element<V>, r: State<V>)
    requires Coherent(st) && e in st.mostRecentlyRead
    requires r == st.(mostRecentlyRead := Without(st.mostRecentlyRead, e.id) + [e])
    ensures Coherent(r)
  {
    var rest := Without(st.mostRecentlyRead, e.id);
    WithoutDistinct(st.mostRecentlyRead, e.id);
    DistinctAppend(rest, e);
    forall k | k in r.elementsByKey
      ensures r.elementsByKey[k] in r.mostRecentlyRead
    {
      var x := st.elementsByKey[k];
      if x != e {
        assert x.id != e.id by {
          var i :| 0 <= i < |st.mostRecentlyRead| && st.mostRecentlyRead[i] == x;
          var j :| 0 <= j < |st.mostRecentlyRead| && st.mostRecentlyRead[j] == e;
          assert i != j;
        }
        assert x in rest;
      }
    }
  }

  /** A key that is not indexed: not found, and nothing changes. */
  lemma GetMiss<V(!new)>(st: State<V>, key: string, now: int)
    requires Coherent(st) && key !in st.elementsByKey
    ensures Found(st, key, now) == None && AfterGet(st, key, now) == st
  {
  }

  /** An expired entry (now strictly after its expiry) is never returned and is removed. */
  lemma GetExpired<V(!new)>(st: State<V>, key: string, now: int)
    requires Coherent(st)
    requires key in st.elementsByKey && now > st.elementsByKey[key].item.expireAfter
    ensures Found(st, key, now) == None
    ensures AfterGet(st, key, now) == AfterClear(st, key)
    ensures key !in AfterGet(st, key, now).elementsByKey
    ensures st.elementsByKey[key] !in AfterGet(st, key, now).mostRecentlyRead
  {
  }

  /**
    A live entry is returned and its element moves to the back; the other elements keep
    their order (MoveToBack) and the index is unchanged.
  */
  lemma GetHit<V(!new)>(st: State<V>, key: string, now: int)
    requires Coherent(st)
    requires key in st.elementsByKey && now <= st.elementsByKey[key].item.expireAfter
    ensures Found(st, key, now) == Some(st.elementsByKey[key].item.value)
    ensures AfterGet(st, key, now).elementsByKey == st.elementsByKey
    ensures AfterGet(st, key, now).nextId == st.nextId
    ensures var list := AfterGet(st, key, now).mostRecentlyRead;
      && |list| == |st.mostRecentlyRead|
      && list[|list| - 1] == st.elementsByKey[key]
      && multiset(list) == multiset(st.mostRecentlyRead)
      && (forall i :: 0 <= i < |st.mostRecentlyRead| && st.mostRecentlyRead[i] == st.elementsByKey[key] ==>
            list == st.mostRecentlyRead[..i] + st.mostRecentlyRead[i + 1..] + [st.elementsByKey[key]])
  {
    var e := st.elementsByKey[key];
    WithoutRemovesOne(st.mostRecentlyRead, e);
    forall i | 0 <= i < |st.mostRecentlyRead| && st.mostRecentlyRead[i] == e
      ensures AfterGet(st, key, now).mostRecentlyRead == st.mostRecentlyRead[..i] + st.mostRecentlyRead[i + 1..] + [e]
    {
      WithoutAt(st.mostRecentlyRead, i);
    }
  }

  /** Whatever the state and the time, a value Get returns belongs to a live indexed entry with that key. */
  lemma FoundMeansLive<V(!new)>(st: State<V>, key: string, now: int, v: V)
    requires Coherent(st)
    requires Found(st, key, now) == Some(v)
    ensures key in st.elementsByKey
    ensures now <= st.elementsByKey[key].item.expireAfter
    ensures st.elementsByKey[key] in st.mostRecentlyRead
    ensures st.elementsByKey[key].item == Item(key, v, st.elementsByKey[key].item.expireAfter)
  {
  }

  // ---------------------------------------------------------------- Set

  /** The eviction step of Set: the list front and its key go once the index holds more than 100 keys. */
  function Evicted<V(==,!new)>(st: State<V>): (r: State<V>)
    requires Coherent(st)
    ensures Coherent(r)
    ensures |st.elementsByKey| <= EvictAbove ==> r == st
    ensures |st.elementsByKey| > EvictAbove ==>
      && |st.mostRecentlyRead| > 0
      && r.mostRecentlyRead == st.mostRecentlyRead[1..]
      && r.elementsByKey == st.elementsByKey - {st.mostRecentlyRead[0].item.key}
      && r.nextId == st.nextId
  {
    if |st.elementsByKey| > EvictAbove then
      CoherentNonEmpty(st);
      var oldest := st.mostRecentlyRead[0];
      var r := st.(mostRecentlyRead := st.mostRecentlyRead[1..],
                   elementsByKey := st.elementsByKey - {oldest.item.key});
      EvictedCoherent(st, r);
      r
    else st
  }

  lemma EvictedCoherent<V(!new)>(st: State<V>, r: State<V>)
    requires Coherent(st) && |st.mostRecentlyRead| > 0
    requires r.mostRecentlyRead == st.mostRecentlyRead[1..]
    requires r.elementsByKey == st.elementsByKey - {st.mostRecentlyRead[0].item.key}
    requires r.nextId == st.nextId
    ensures Coherent(r)
  {
    var s := st.mostRecentlyRead;
    forall i, j | 0 <= i < j < |s[1..]|
      ensures s[1..][i].id != s[1..][j].id
    {
      assert s[1..][i] == s[i + 1] && s[1..][j] == s[j + 1];
    }
    forall k | k in r.elementsByKey
      ensures r.elementsByKey[k] in s[1..]
    {
      var x := st.elementsByKey[k];
      var i :| 0 <= i < |s| && s[i] == x;
      assert i != 0;
      assert s[1..][i - 1] == x;
    }
  }

  /** The state after Set(key, val, ttl) at `now`: maybe one eviction, then a fresh element at the back. */
  function AfterSet<V(==,!new)>(st: State<V>, key: string, val: V, now: int, ttl: int): (r: State<V>)
    requires Coherent(st)
    ensures Coherent(r)
  {
    var trimmed := Evicted(st);
    var elmt := Element(trimmed.nextId, Item(key, val, now + ttl));
    DistinctAppend(trimmed.mostRecentlyRead, elmt);
    State(trimmed.mostRecentlyRead + [elmt], trimmed.elementsByKey[key := elmt], trimmed.nextId + 1)
  }

  /**
    After Set the key is indexed by the newly pushed back element, and a Get at any time
    up to now + ttl returns the value; after that instant Get no longer returns it.
  */
  lemma SetThenGet<V(!new)>(st: State<V>, key: string, val: V, now: int, ttl: int, t: int)
    requires Coherent(st)
    ensures var r := AfterSet(st, key, val, now, ttl);
      && key in r.elementsByKey
      && r.elementsByKey[key] == r.mostRecentlyRead[|r.mostRecentlyRead| - 1]
      && r.elementsByKey[key].item == Item(key, val, now + ttl)
      && r.elementsByKey[key] !in st.mostRecentlyRead
      && (t <= now + ttl ==> Found(r, key, t) == Some(val))
      && (t > now + ttl ==> Found(r, key, t) == None)
  {
  }

  /** Without eviction Set only appends: the old element of a re-set key stays in the list. */
  lemma SetWithoutEviction<V(!new)>(st: State<V>, key: string, val: V, now: int, ttl: int)
    requires Coherent(st) && |st.elementsByKey| <= EvictAbove
    ensures var r := AfterSet(st, key, val, now, ttl);
      && r.mostRecentlyRead == st.mostRecentlyRead + [r.elementsByKey[key]]
      && r.elementsByKey == st.elementsByKey[key := r.elementsByKey[key]]
  {
  }

  /** With more than 100 keys, Set removes exactly the list front and the key it carries, then appends. */
  lemma SetWithEviction<V(!new)>(st: State<V>, key: string, val: V, now: int, ttl: int)
    requires Coherent(st) && |st.elementsByKey| > EvictAbove
    ensures |st.mostRecentlyRead| > 0
    ensures var r := AfterSet(st, key, val, now, ttl);
      var oldest := st.mostRecentlyRead[0];
      && r.mostRecentlyRead == st.mostRecentlyRead[1..] + [r.elementsByKey[key]]
      && r.elementsByKey == (st.elementsByKey - {oldest.item.key})[key := r.elementsByKey[key]]
  {
  }

  /**
    The size bound Set does keep: from at most 101 keys, Set stays within 101 keys
    whenever the front it would evict is the element its key indexes.
  */
  lemma SetKeepsBoundWhenFrontIsIndexed<V(!new)>(st: State<V>, key: string, val: V, now: int, ttl: int)
    requires Coherent(st) && |st.elementsByKey| <= EvictAbove + 1
    requires |st.elementsByKey| > EvictAbove ==>
      var front := st.mostRecentlyRead[0];
      front.item.key in st.elementsByKey && st.elementsByKey[front.item.key] == front
    ensures |AfterSet(st, key, val, now, ttl).elementsByKey| <= EvictAbove + 1
  {
    var trimmed := Evicted(st);
    assert |trimmed.elementsByKey| <= EvictAbove;
  }

  // ---------------------------------------------------------------- sequences of operations

  predicate DistinctKeys(keys: seq<string>)
  {
    forall i, j :: 0 <= i < j < |keys| ==> keys[i] != keys[j]
  }

  /** Set every key in turn, with one value, instant and ttl. */
  function SetAll<V(==,!new)>(st: State<V>, keys: seq<string>, val: V, now: int, ttl: int): (r: State<V>)
    requires Coherent(st)
    ensures Coherent(r)
    decreases |keys|
  {
    if keys == [] then st else SetAll(AfterSet(st, keys[0], val, now, ttl), keys[1..], val, now, ttl)
  }

  /** One Set of a fresh key below the eviction threshold: one more key, one more element at the back. */
  lemma SetFreshKey<V(!new)>(st: State<V>, key: string, val: V, now: int, ttl: int)
    requires Coherent(st) && key !in st.elementsByKey && |st.elementsByKey| <= EvictAbove
    ensures var r := AfterSet(st, key, val, now, ttl);
      && r.mostRecentlyRead == st.mostRecentlyRead + [Element(st.nextId, Item(key, val, now + ttl))]
      && r.elementsByKey.Keys == st.elementsByKey.Keys + {key}
      && |r.elementsByKey| == |st.elementsByKey| + 1
  {
  }

  lemma DistinctKeysTail(keys: seq<string>)
    requires DistinctKeys(keys) && |keys| > 0
    ensures DistinctKeys(keys[1..])
    ensures keys[0] !in keys[1..]
  {
    var rest := keys[1..];
    forall i, j | 0 <= i < j < |rest|
      ensures rest[i] != rest[j]
    {
      assert rest[i] == keys[i + 1] && rest[j] == keys[j + 1];
    }
    forall i | 0 <= i < |rest|
      ensures rest[i] != keys[0]
    {
      assert rest[i] == keys[i + 1];
    }
  }

  /** The keys the list elements carry, front to back. */
  function KeysOf<V>(s: seq<Element<V>>): (r: seq<string>)
    ensures |r| == |s|
  {
    seq(|s|, i requires 0 <= i < |s| => s[i].item.key)
  }

  lemma KeysOfAppend<V>(s: seq<Element<V>>, e: Element<V>)
    ensures KeysOf(s + [e]) == KeysOf(s) + [e.item.key]
  {
    assert forall i :: 0 <= i < |s| ==> (s + [e])[i] == s[i];
  }

  lemma AppendThenTail(a: seq<string>, keys: seq<string>)
    requires |keys| > 0
    ensures a + [keys[0]] + keys[1..] == a + keys
  {
    assert [keys[0]] + keys[1..] == keys;
  }

  lemma InTail(keys: seq<string>)
    requires |keys| > 0
    ensures forall k :: k in keys <==> k == keys[0] || k in keys[1..]
  {
    assert keys == [keys[0]] + keys[1..];
  }

  /**
    Fresh distinct keys that keep the index within 101 keys cause no eviction: each
    lands in the index and at the back of the list, in order.
  */
  lemma {:induction false} SetAllFresh<V(!new)>(st: State<V>, keys: seq<string>, val: V, now: int, ttl: int)
    requires Coherent(st) && DistinctKeys(keys)
    requires forall k :: k in keys ==> k !in st.elementsByKey
    requires |st.elementsByKey| + |keys| <= EvictAbove + 1
    ensures var r := SetAll(st, keys, val, now, ttl);
      && KeysOf(r.mostRecentlyRead) == KeysOf(st.mostRecentlyRead) + keys
      && (forall k :: k in r.elementsByKey <==> k in st.elementsByKey || k in keys)
      && |r.elementsByKey| == |st.elementsByKey| + |keys|
    decreases |keys|
  {
    if keys != [] {
      var k0, rest := keys[0], keys[1..];
      var next := AfterSet(st, k0, val, now, ttl);
      SetFreshKey(st, k0, val, now, ttl);
      KeysOfAppend(st.mostRecentlyRead, Element(st.nextId, Item(k0, val, now + ttl)));
      DistinctKeysTail(keys);
      assert forall k :: k in rest ==> k in keys;
      SetAllFresh(next, rest, val, now, ttl);
      var r := SetAll(next, rest, val, now, ttl);
      assert r == SetAll(st, keys, val, now, ttl);
      AppendThenTail(KeysOf(st.mostRecentlyRead), keys);
      InTail(keys);
    }
  }

  /** A Set of a new key on a full index evicts the front key and keeps the index full. */
  lemma SetOnFullIndex<V(!new)>(st: State<V>, key: string, val: V, now: int, ttl: int)
    requires Coherent(st) && |st.elementsByKey| == EvictAbove + 1 && key !in st.elementsByKey
    requires |st.mostRecentlyRead| > 0 && st.mostRecentlyRead[0].item.key in st.elementsByKey
    ensures var r := AfterSet(st, key, val, now, ttl);
      && st.mostRecentlyRead[0].item.key !in r.elementsByKey
      && key in r.elementsByKey
      && |r.elementsByKey| == EvictAbove + 1
  {
    SetWithEviction(st, key, val, now, ttl);
    var front := st.mostRecentlyRead[0].item.key;
    var r := AfterSet(st, key, val, now, ttl);
    var trimmed := st.elementsByKey - {front};
    assert |trimmed| == EvictAbove;
    assert key !in trimmed && key != front;
    assert r.elementsByKey == trimmed[key := r.elementsByKey[key]];
  }

  /**
    From an empty cache, 101 distinct keys all stay indexed: eviction starts only with
    the 102nd, which removes the first key and leaves 101 keys.
  */
  lemma CapacityIs101<V(!new)>(keys: seq<string>, extra: string, val: V, now: int, ttl: int)
    requires |keys| == EvictAbove + 1 && DistinctKeys(keys) && extra !in keys
    ensures var full := SetAll(Empty(), keys, val, now, ttl);
      && |full.elementsByKey| == EvictAbove + 1
      && (forall k :: k in full.elementsByKey <==> k in keys)
      && var after := AfterSet(full, extra, val, now, ttl);
      && keys[0] !in after.elementsByKey
      && extra in after.elementsByKey
      && |after.elementsByKey| == EvictAbove + 1
  {
    var st: State<V> := Empty();
    SetAllFresh(st, keys, val, now, ttl);
    var full := SetAll(st, keys, val, now, ttl);
    assert full.mostRecentlyRead[0].item.key == keys[0] by {
      var before := KeysOf(st.mostRecentlyRead);
      assert |before| == 0;
      assert (before + keys)[0] == keys[0];
      assert KeysOf(full.mostRecentlyRead)[0] == full.mostRecentlyRead[0].item.key;
    }
    assert keys[0] in full.elementsByKey;
    assert extra !in full.elementsByKey;
    SetOnFullIndex(full, extra, val, now, ttl);
  }

  /** Below the eviction threshold, Set only appends a fresh element and indexes it. */
  lemma SetBelowThreshold<V(!new)>(st: State<V>, key: string, val: V, now: int, ttl: int)
    requires Coherent(st) && |st.elementsByKey| <= EvictAbove
    ensures var elmt := Element(st.nextId, Item(key, val, now + ttl));
      AfterSet(st, key, val, now, ttl) == State(st.mostRecentlyRead + [elmt], st.elementsByKey[key := elmt], st.nextId + 1)
  {
  }

  /** The first Set on an empty cache. */
  lemma SetOnEmpty<V(!new)>(key: string, val: V, now: int, ttl: int)
    ensures var e := Element(0, Item(key, val, now + ttl));
      AfterSet(Empty(), key, val, now, ttl) == State([e], map[key := e], 1)
  {
    var s0: State<V> := Empty();
    SetBelowThreshold(s0, key, val, now, ttl);
  }

  /** A second Set of the same key appends a new element and re-indexes the key. */
  lemma SetSameKeyAgain<V(!new)>(st: State<V>, key: string, val: V, now: int, ttl: int)
    requires st == State([Element(0, Item(key, val, now + ttl))], map[key := Element(0, Item(key, val, now + ttl))], 1)
    ensures Coherent(st)
    ensures var e0, e1 := Element(0, Item(key, val, now + ttl)), Element(1, Item(key, val, now + ttl));
      AfterSet(st, key, val, now, ttl) == State([e0, e1], map[key := e1], 2)
  {
    var e0, e1 := Element(0, Item(key, val, now + ttl)), Element(1, Item(key, val, now + ttl));
    assert |st.elementsByKey| == 1;
    SetBelowThreshold(st, key, val, now, ttl);
    assert st.elementsByKey[key := e1] == map[key := e1];
  }

  /** Clearing the key after the second Set removes only the indexed element. */
  lemma ClearAfterOverwrite<V(!new)>(st: State<V>, key: string, item: Item<V>)
    requires item.key == key
    requires st == State([Element(0, item), Element(1, item)], map[key := Element(1, item)], 2)
    ensures Coherent(st)
    ensures AfterClear(st, key) == State([Element(0, item)], map[], 2)
  {
    var e0, e1 := Element(0, item), Element(1, item);
    assert Without([e0, e1], 1) == [e0] by {
      assert [e0, e1][..1] == [e0];
      assert [e0][..0] == [];
    }
    assert st.elementsByKey - {key} == map[];
  }

  /** Set twice and Clear once: the first element stays in the list, indexed by no key. */
  lemma OverwriteLeavesOrphan<V(!new)>(key: string, val: V, now: int, ttl: int)
    ensures var s1 := AfterSet(Empty(), key, val, now, ttl);
      var s2 := AfterSet(s1, key, val, now, ttl);
      var s3 := AfterClear(s2, key);
      && |s2.mostRecentlyRead| == 2 && |s2.elementsByKey| == 1
      && s3.mostRecentlyRead == [Element(0, Item(key, val, now + ttl))]
      && s3.elementsByKey == map[]
  {
    var item := Item(key, val, now + ttl);
    SetOnEmpty(key, val, now, ttl);
    var s1 := AfterSet(Empty(), key, val, now, ttl);
    SetSameKeyAgain(s1, key, val, now, ttl);
    var s2 := AfterSet(s1, key, val, now, ttl);
    assert |s2.elementsByKey| == 1 by {
      assert s2.elementsByKey.Keys == {key};
    }
    ClearAfterOverwrite(s2, key, item);
  }

  /**
    With an unindexed element at the front, 101 fresh keys fill the index without
    eviction; the next Set evicts that element, which removes no key, and the index
    reaches 102 keys.
  */
  lemma StaleFrontGrowsIndex<V(!new)>(st: State<V>, keys: seq<string>, extra: string, val: V, now: int, ttl: int)
    requires Coherent(st) && st.elementsByKey == map[] && |st.mostRecentlyRead| > 0
    requires |keys| == EvictAbove + 1 && DistinctKeys(keys)
    requires st.mostRecentlyRead[0].item.key !in keys && extra !in keys
    ensures |AfterSet(SetAll(st, keys, val, now, ttl), extra, val, now, ttl).elementsByKey| == EvictAbove + 2
  {
    var front := st.mostRecentlyRead[0].item.key;
    SetAllFresh(st, keys, val, now, ttl);
    var full := SetAll(st, keys, val, now, ttl);
    assert full.mostRecentlyRead[0].item.key == front by {
      assert KeysOf(full.mostRecentlyRead) == KeysOf(st.mostRecentlyRead) + keys;
      assert KeysOf(full.mostRecentlyRead)[0] == front;
    }
    EvictUnindexedFront(full, extra, val, now, ttl);
  }

  /** Evicting a front element that no key indexes removes no key. */
  lemma EvictUnindexedFront<V(!new)>(st: State<V>, extra: string, val: V, now: int, ttl: int)
    requires Coherent(st) && |st.elementsByKey| > EvictAbove
    requires st.mostRecentlyRead[0].item.key !in st.elementsByKey && extra !in st.elementsByKey
    ensures |AfterSet(st, extra, val, now, ttl).elementsByKey| == |st.elementsByKey| + 1
  {
    SetWithEviction(st, extra, val, now, ttl);
    var r := AfterSet(st, extra, val, now, ttl);
    MinusAbsent(st.elementsByKey, st.mostRecentlyRead[0].item.key);
    UpdateAbsent(st.elementsByKey, extra, r.elementsByKey[extra]);
  }

  lemma MinusAbsent<K, W>(m: map<K, W>, k: K)
    requires k !in m
    ensures m - {k} == m
  {
  }

  lemma UpdateAbsent<K, W>(m: map<K, W>, k: K, w: W)
    requires k !in m
    ensures |m[k := w]| == |m| + 1
  {
  }

  /**
    The index is not bounded by 101 keys: Set "a" twice, Clear "a", then Set 102
    further distinct keys, and the index holds 102 keys.
  */
  lemma IndexOutgrowsCapacity<V(!new)>(keys: seq<string>, extra: string, val: V, now: int, ttl: int)
    requires |keys| == EvictAbove + 1 && DistinctKeys(keys)
    requires "a" !in keys && extra !in keys
    ensures var s3 := AfterClear(AfterSet(AfterSet(Empty(), "a", val, now, ttl), "a", val, now, ttl), "a");
      |AfterSet(SetAll(s3, keys, val, now, ttl), extra, val, now, ttl).elementsByKey| == EvictAbove + 2
  {
    OverwriteLeavesOrphan("a", val, now, ttl);
    var s3 := AfterClear(AfterSet(AfterSet(Empty(), "a", val, now, ttl), "a", val, now, ttl), "a");
    StaleFrontGrowsIndex(s3, keys, extra, val, now, ttl);
  }

  // ---------------------------------------------------------------- the object

  /** MemoryCache: the list and the index are fields that Get, Set and Clear reassign. */
  class MemoryCache<V(==,!new)> {
    var mostRecentlyRead: seq<Element<V>>
    var elementsByKey: map<string, Element<V>>
    var nextId: nat

    ghost function Snapshot(): State<V>
      reads this
    {
      State(mostRecentlyRead, elementsByKey, nextId)
    }

    ghost predicate Valid()
      reads this
    {
      Coherent(Snapshot())
    }

    /** NewMemoryCache: an empty list and an empty index. */
    constructor ()
      ensures Valid() && Snapshot() == Empty()
    {
      mostRecentlyRead := [];
      elementsByKey := map[];
      nextId := 0;
    }

    /** Get(key) at `now`. The Go method's error result is always nil. */
    method Get(key: string, now: int) returns (value: Option<V>, err: Option<string>)
      requires Valid()
      modifies this
      ensures value == Found(old(Snapshot()), key, now)
      ensures Snapshot() == AfterGet(old(Snapshot()), key, now)
      ensures Valid()
      ensures err == None
    {
      if key !in elementsByKey {
        return None, None;
      }
      var elmt := elementsByKey[key];
      var item := elmt.item;
      if now > item.expireAfter {
        var _, _ := Clear(key);
        return None, None;
      }
      mostRecentlyRead := Without(mostRecentlyRead, elmt.id) + [elmt];
      return Some(item.value), None;
    }

    /** Set(key, val, expireAfter) at `now`: the item expires at now + expireAfter. */
    method Set(key: string, val: V, now: int, expireAfter: int) returns (err: Option<string>)
      requires Valid()
      modifies this
      ensures Snapshot() == AfterSet(old(Snapshot()), key, val, now, expireAfter)
      ensures Valid()
      ensures err == None
    {
      var item := Item(key, val, now + expireAfter);
      if |elementsByKey| > EvictAbove {
        CoherentNonEmpty(Snapshot());
        var oldest := mostRecentlyRead[0];
        mostRecentlyRead := mostRecentlyRead[1..];
        elementsByKey := elementsByKey - {oldest.item.key};
      }
      var elmt := Element(nextId, item);
      mostRecentlyRead := mostRecentlyRead + [elmt];
      elementsByKey := elementsByKey[key := elmt];
      nextId := nextId + 1;
      err := None;
    }

    /** Clear(key): whether the key was present; if so its element and index entry are gone. */
    method Clear(key: string) returns (removed: bool, err: Option<string>)
      requires Valid()
      modifies this
      ensures removed == Cleared(old(Snapshot()), key)
      ensures Snapshot() == AfterClear(old(Snapshot()), key)
      ensures Valid()
      ensures err == None
    {
      if key !in elementsByKey {
        return false, None;
      }
      var elmt := elementsByKey[key];
      mostRecentlyRead := Without(mostRecentlyRead, elmt.id);
      elementsByKey := elementsByKey - {key};
      return true, None;
    }
  }
}
