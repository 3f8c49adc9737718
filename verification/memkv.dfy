/** The in-memory key/value store with expiry and a secondary index (memkv/store.go): when the index
    agrees with a scan of the entries, and which calls keep it so. */
module MemKV {
  import opened Wrappers

  datatype Key = Key(token: int)
  datatype Value = Value(token: int)

  /** NONE is the empty secondary key. */
  datatype Secondary = NONE | Secondary(token: int)

  /** expiration is 0 for an entry that never expires. */
  datatype Entry = Entry(value: Value, expiration: int, secondary: Secondary)

  type Entries = map<Key, Entry>
  type Index = map<Secondary, set<Key>>

  predicate Expired(e: Entry, now: int) { e.expiration != 0 && now > e.expiration }

  /** A key is in a bucket exactly when its entry names that secondary key, and no bucket is empty. */
  ghost predicate Agree(store: Entries, index: Index) {
    && (forall s, k {:trigger k in index[s]} :: s in index && k in index[s] ==>
        s != NONE && k in store && store[k].secondary == s)
    && (forall k :: k in store && store[k].secondary != NONE ==>
        store[k].secondary in index && k in index[store[k].secondary])
    && (forall s :: s in index ==> index[s] != {})
  }

  /** unindexLocked. */
  function Unindexed(index: Index, key: Key, s: Secondary): Index {
    if s !in index then index
    else if index[s] - {key} == {} then index - {s}
    else index[s := index[s] - {key}]
  }

  function Indexed(index: Index, key: Key, s: Secondary): Index {
    if s == NONE then index else index[s := (if s in index then index[s] else {}) + {key}]
  }

  /** Unlinking what the store holds under key, if it is linked. */
  function Unlinked(store: Entries, index: Index, key: Key): Index {
    if key in store && store[key].secondary != NONE then Unindexed(index, key, store[key].secondary) else index
  }

  lemma {:induction false} PutAgrees(store: Entries, index: Index, key: Key, e: Entry)
    requires Agree(store, index)
    ensures Agree(store[key := e], Indexed(Unlinked(store, index, key), key, e.secondary))
  {
    UnlinkAgrees(store, index, key);
    LinkAgrees(store - {key}, Unlinked(store, index, key), key, e);
    assert (store - {key})[key := e] == store[key := e];
  }

  lemma {:induction false} LinkAgrees(store: Entries, index: Index, key: Key, e: Entry)
    requires Agree(store, index) && key !in store
    ensures Agree(store[key := e], Indexed(index, key, e.secondary))
  {
    var index' := Indexed(index, key, e.secondary);
    forall s | s in index'
      ensures index'[s] != {}
    {
      assert s in index || (s == e.secondary && key in index'[s]);
      assert s in index ==> index[s] <= index'[s];
    }
  }

  lemma {:induction false} UnlinkAgrees(store: Entries, index: Index, key: Key)
    requires Agree(store, index)
    ensures Agree(store - {key}, Unlinked(store, index, key))
  {
    var s := if key in store then store[key].secondary else NONE;
    if s in index && index[s] - {key} == {} {
      assert forall k :: k in index[s] && k != key ==> k in index[s] - {key};
    }
  }

  function ExpirationAt(now: int, ttl: int): int { if ttl > 0 then now + ttl else 0 }

  /** What Set leaves; a negative ttl stores nothing. */
  function AfterSet(store: Entries, index: Index, key: Key, value: Value, ttl: int, now: int): (Entries, Index) {
    if ttl < 0 then (store, index)
    else (store[key := Entry(value, ExpirationAt(now, ttl), NONE)], Unlinked(store, index, key))
  }

  /** What SetWithSecondaryKey leaves, for any ttl. */
  function AfterSetWithSecondaryKey(store: Entries, index: Index, key: Key, value: Value, ttl: int, s: Secondary,
          now: int): (Entries, Index)
  {
    (store[key := Entry(value, ExpirationAt(now, ttl), s)], Indexed(Unlinked(store, index, key), key, s))
  }

  /** An empty secondary key is equivalent to Set exactly if the ttl is not negative, or the entry
      that never expires is what the key holds already. */
  lemma {:induction false} EmptySecondaryIsSet(store: Entries, index: Index, key: Key, value: Value, ttl: int, now: int)
    ensures AfterSetWithSecondaryKey(store, index, key, value, ttl, NONE, now)
         == AfterSet(store, index, key, value, ttl, now)
       <==> ttl >= 0 || (key in store && store[key] == Entry(value, 0, NONE))
  {
    var e := Entry(value, ExpirationAt(now, ttl), NONE);
    if key in store && store[key] == e {
      assert store[key := e] == store;
    } else {
      assert key in store[key := e] && store[key := e][key] == e;
    }
  }

  /** An entry that is expired but still linked. */
  predicate StaleLink(store: Entries, key: Key, now: int) {
    key in store && Expired(store[key], now) && store[key].secondary != NONE
  }

  /** What SetWhere leaves when pred approves: the link is dropped only for an unexpired occupant. */
  function AfterSetWhere(store: Entries, index: Index, key: Key, e: Entry, now: int): (Entries, Index) {
    (store[key := e], if key in store && !Expired(store[key], now) then Unlinked(store, index, key) else index)
  }

  /** A write through SetWhere keeps the index in agreement exactly when it does not replace an
      expired entry that is still linked. */
  lemma {:induction false} SetWhereAgrees(store: Entries, index: Index, key: Key, e: Entry, now: int)
    requires Agree(store, index) && e.secondary == NONE
    ensures Agree(AfterSetWhere(store, index, key, e, now).0, AfterSetWhere(store, index, key, e, now).1)
       <==> !StaleLink(store, key, now)
  {
    if StaleLink(store, key, now) {
      assert key in index[store[key].secondary];
      assert store[key := e][key].secondary == NONE;
    } else {
      PutAgrees(store, index, key, e);
    }
  }

  /** What a scan of all entries would delete for s. */
  ghost function Named(store: Entries, s: Secondary): set<Key> { set k | k in store && store[k].secondary == s }

  /** DeleteBySecondaryKey deletes what a full scan would when the index agrees... */
  lemma {:induction false} BucketIsScan(store: Entries, index: Index, s: Secondary)
    requires Agree(store, index) && s != NONE
    ensures (if s in index then index[s] else {}) == Named(store, s)
    ensures Agree(store - Named(store, s), index - {s})
  {
  }

  /** ... and after SetWhere over an expired linked entry it deletes the new one as well. */
  lemma {:induction false} StaleLinkDeletesFresh(store: Entries, index: Index, key: Key, e: Entry, now: int)
    requires Agree(store, index) && StaleLink(store, key, now) && e.secondary == NONE
    ensures var after := AfterSetWhere(store, index, key, e, now);
      var s := store[key].secondary;
      s in after.1 && key in after.1[s] && key !in Named(after.0, s)
  {
  }

  function Occupant(store: Entries, key: Key, now: int): Option<Value> {
    if key in store && !Expired(store[key], now) then Some(store[key].value) else None
  }

  /** Until when what Set has stored at now with this ttl is there to be read: for good with ttl 0, and
      otherwise up to and including now + ttl. */
  lemma {:induction false} SetThenGet(store: Entries, index: Index, key: Key, value: Value, ttl: int, now: int,
          later: int, other: Key)
    requires 0 <= now <= later
    ensures var after := AfterSet(store, index, key, value, ttl, now).0;
      && Occupant(after, key, later) == (
        if ttl < 0 then Occupant(store, key, later)
        else if ttl == 0 || later <= now + ttl then Some(value) else None)
      && (other != key ==> Occupant(after, other, later) == Occupant(store, other, later))
  {
  }

  /** With a secondary key a ttl that is not positive is for good; and the key is in the bucket of its
      secondary key, and in no other. */
  lemma {:induction false} SetWithSecondaryThenGet(store: Entries, index: Index, key: Key, value: Value, ttl: int,
          s: Secondary, now: int, later: int, other: Key)
    requires 0 <= now <= later && Agree(store, index)
    ensures var after := AfterSetWithSecondaryKey(store, index, key, value, ttl, s, now);
      && Occupant(after.0, key, later) == (if ttl <= 0 || later <= now + ttl then Some(value) else None)
      && (other != key ==> Occupant(after.0, other, later) == Occupant(store, other, later))
      && (forall u :: u in after.1 && key in after.1[u] <==> u == s && s != NONE)
      && (forall u :: other != key ==> (u in after.1 && other in after.1[u] <==> u in index && other in index[u]))
  {
    PutAgrees(store, index, key, Entry(value, ExpirationAt(now, ttl), s));
  }

  /** The sweep is never noticed: whatever is read then or later is what would have been read without. */
  lemma {:induction false} SweepIsInvisible(store: Entries, key: Key, now: int, later: int)
    requires now <= later
    ensures Occupant(map k | k in store && !Expired(store[k], now) :: store[k], key, later) ==
        Occupant(store, key, later)
  {
  }

  class Store {
    var store: Entries
    var index: Index
    var now: int

    constructor (now: int)
      requires now >= 0
      ensures store == map[] && index == map[] && this.now == now
    {
      store, index, this.now := map[], map[], now;
    }

    function Expiration(ttl: int): int
      reads this`now
    {
      ExpirationAt(now, ttl)
    }

    method Unindex(key: Key, s: Secondary)
      modifies this`index
      ensures index == Unindexed(old(index), key, s)
    {
      if s !in index {
        return;
      }
      var bucket := index[s] - {key};
      if |bucket| == 0 {
        index := index - {s};
      } else {
        index := index[s := bucket];
      }
    }

    /** Set: a negative ttl stores nothing. */
    method Set(key: Key, value: Value, ttl: int)
      requires Agree(store, index)
      modifies this`store, this`index
      ensures Agree(store, index)
      ensures (store, index) == AfterSet(old(store), old(index), key, value, ttl, now)
    {
      if ttl < 0 {
        return;
      }
      PutAgrees(store, index, key, Entry(value, Expiration(ttl), NONE));
      if key in store && store[key].secondary != NONE {
        Unindex(key, store[key].secondary);
      }
      store := store[key := Entry(value, Expiration(ttl), NONE)];
    }

    /** SetWhere: pred sees the unexpired occupant, or that there is none.  The index stays in
        agreement if and only if no expired linked entry is replaced. */
    method SetWhere(key: Key, value: Value, ttl: int, pred: Option<Value> -> bool) returns (wrote: bool)
      requires Agree(store, index)
      modifies this`store, this`index
      ensures wrote <==> ttl >= 0 && pred(Occupant(old(store), key, now))
      ensures store == if wrote then old(store)[key := Entry(value, Expiration(ttl), NONE)] else old(store)
      ensures Agree(store, index) <==> !(wrote && StaleLink(old(store), key, now))
    {
      if ttl < 0 {
        return false;
      }
      var ok := key in store;
      if ok && Expired(store[key], now) {
        ok := false;
      }
      var existing: Option<Value> := if ok then Some(store[key].value) else None;
      if !pred(existing) {
        return false;
      }
      SetWhereAgrees(store, index, key, Entry(value, Expiration(ttl), NONE), now);
      if ok && store[key].secondary != NONE {
        Unindex(key, store[key].secondary);
      }
      store := store[key := Entry(value, Expiration(ttl), NONE)];
      wrote := true;
    }

    /** SetWithSecondaryKey: the link moves with the key.  Unlike Set it does not refuse a negative
        ttl, and then stores an entry that never expires. */
    method SetWithSecondaryKey(key: Key, value: Value, ttl: int, s: Secondary)
      requires Agree(store, index)
      modifies this`store, this`index
      ensures Agree(store, index)
      ensures (store, index) == AfterSetWithSecondaryKey(old(store), old(index), key, value, ttl, s, now)
      ensures ttl <= 0 ==> forall later :: !Expired(store[key], later)
    {
      var e := Entry(value, Expiration(ttl), s);
      PutAgrees(store, index, key, e);
      if key in store && store[key].secondary != NONE {
        Unindex(key, store[key].secondary);
      }
      store := store[key := e];
      if s != NONE {
        var bucket := if s in index then index[s] else {};
        index := index[s := bucket + {key}];
      }
    }

    method Get(key: Key) returns (r: Option<Value>)
      ensures r == Occupant(store, key, now)
    {
      if key !in store || Expired(store[key], now) {
        return None;
      }
      r := Some(store[key].value);
    }

    method Delete(key: Key)
      requires Agree(store, index)
      modifies this`store, this`index
      ensures Agree(store, index) && store == old(store) - {key}
    {
      UnlinkAgrees(store, index, key);
      if key in store && store[key].secondary != NONE {
        Unindex(key, store[key].secondary);
      }
      store := store - {key};
    }

    /** DeleteBySecondaryKey: exactly the entries a scan would find. */
    method DeleteBySecondaryKey(s: Secondary) returns (n: nat)
      requires Agree(store, index)
      modifies this`store, this`index
      ensures Agree(store, index)
      ensures s != NONE ==> store == old(store) - Named(old(store), s) && n == |Named(old(store), s)|
      ensures s == NONE ==> store == old(store) && n == 0
    {
      if s != NONE {
        BucketIsScan(store, index, s);
      }
      if s !in index {
        assert s != NONE ==> store == store - Named(store, s);
        return 0;
      }
      n := DeleteBucket(index[s]);
      index := index - {s};
    }

    method DeleteBucket(bucket: set<Key>) returns (n: nat)
      modifies this`store
      ensures store == old(store) - bucket && n == |bucket|
    {
      n := 0;
      var left := bucket;
      while left != {}
        invariant left <= bucket && n == |bucket| - |left|
        invariant store == old(store) - (bucket - left)
        decreases left
      {
        var key :| key in left;
        assert (bucket - left) + {key} == bucket - (left - {key});
        left := left - {key};
        store := store - {key};
        n := n + 1;
      }
      assert bucket - left == bucket;
    }

    /** DeleteWhere, and with the expiry test as pred the sweep of cleanupExpiredEntries. */
    method DeleteWhere(pred: (Key, Entry) -> bool) returns (n: nat)
      requires Agree(store, index)
      modifies this`store, this`index
      ensures Agree(store, index)
      ensures store == map k | k in old(store) && !pred(k, old(store)[k]) :: old(store)[k]
      ensures n == |set k | k in old(store) && pred(k, old(store)[k])|
    {
      n := 0;
      var left := store.Keys;
      ghost var gone: set<Key> := {};
      while left != {}
        invariant left <= old(store).Keys && Agree(store, index)
        invariant forall k :: k in store <==> k in old(store) && (k in left || !pred(k, old(store)[k]))
        invariant forall k :: k in store ==> store[k] == old(store)[k]
        invariant gone == (set k | k in old(store) && k !in left && pred(k, old(store)[k])) && n == |gone|
        decreases left
      {
        var key :| key in left;
        left := left - {key};
        if pred(key, store[key]) {
          Delete(key);
          gone := gone + {key};
          n := n + 1;
        }
      }
      assert gone == set k | k in old(store) && pred(k, old(store)[k]);
    }

    /** One tick of the cleanup goroutine. */
    method SweepExpired()
      requires Agree(store, index)
      modifies this`store, this`index
      ensures Agree(store, index)
      ensures store == map k | k in old(store) && !Expired(old(store)[k], now) :: old(store)[k]
    {
      var at := now;
      var n := DeleteWhere((_: Key, e: Entry) => Expired(e, at));
    }
  }
}
