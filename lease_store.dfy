/** The keyed lease store of `InMemoryDataStore.cs`: a map from key to
    (binary semaphore, value) whose entries are checked out exclusively
    through `DataLease` handles.

    The concurrent dictionary and the `SemaphoreSlim(1, 1)` of each entry are
    modelled as a sequential state machine. Each semaphore has an identity
    (`lock`), handed out from `nextLock` when the entry is created, and a
    state (`held`), kept in the entry. A semaphore is disposed exactly when
    its entry leaves the map, so a lease whose semaphore no longer belongs
    to any entry is holding a disposed one. An await on a held semaphore is
    the outcome `WouldBlock`. */
module LeaseStore {
  import opened Wrappers

  /** The failures reported by the store and its leases. */
  datatype StoreError =
    | NotFoundError   // TryGetLeaseAsync: the key is absent
    | KeyNotFound     // Update: KeyNotFoundException
    | LockNotHeld     // Update: InvalidOperationException, the semaphore is free
    | ObjectDisposed  // ObjectDisposedException: an expired lease, or a disposed semaphore
    | ArgumentNull    // the Data setter was given null

  /** The result of an operation that returns nothing but may throw. */
  datatype Outcome = Ok | Err(error: StoreError)

  /** One entry of the dictionary: its semaphore's identity and state, and the value. */
  datatype Entry<V> = Entry(lock: nat, held: bool, value: V)

  /** What a lease request leads to: a lease, `NotFoundError`, or an await
      on a semaphore that another lease holds. */
  datatype LeaseOutcome<K(==), V> = Leased(lease: DataLease<K, V>) | NotFound | WouldBlock

  /** Removing a key that was added to `m` gives back `m`. */
  lemma RemoveAdded<K, V>(m: map<K, V>, k: K, v: V)
    requires k !in m
    ensures m[k := v] - {k} == m
  {
  }

  /** A second write to the same key replaces the first. */
  lemma UpdateTwice<K, V>(m: map<K, V>, k: K, v1: V, v2: V)
    ensures m[k := v1][k := v2] == m[k := v2]
  {
  }

  class InMemoryDataStore<K(==), V> {
    var data: map<K, Entry<V>>
    /** The identity the next `new SemaphoreSlim(1, 1)` receives. */
    var nextLock: nat
    /** Every value handed to `Dispose`, in order. */
    var disposed: seq<V>
    /** Every lease this store has issued. */
    ghost var leases: set<DataLease<K, V>>

    /** The lease `l` holds the semaphore of the entry now stored under its key. */
    ghost predicate OnCurrentEntry(l: DataLease<K, V>)
      reads this
    {
      l.key in data && data[l.key].lock == l.lock
    }

    /** Semaphore identities are fresh, per entry, and tied to the key they were made for. */
    ghost predicate WellFormed()
      reads this, leases
    {
      && (forall k | k in data :: data[k].lock < nextLock)
      && (forall k1, k2 | k1 in data && k2 in data && data[k1].lock == data[k2].lock :: k1 == k2)
      && (forall l | l in leases :: l.store == this && l.lock < nextLock)
      && (forall l, k | l in leases && k in data && data[k].lock == l.lock :: k == l.key)
    }

    /** Mutual exclusion: a live lease on an entry holds that entry's
        semaphore, and no two live leases hold the same semaphore. */
    ghost predicate Valid()
      reads this, leases
    {
      && WellFormed()
      && (forall l | l in leases && !l.expired && OnCurrentEntry(l) :: data[l.key].held)
      && (forall l1, l2 | l1 in leases && l2 in leases && !l1.expired && !l2.expired && l1.lock == l2.lock :: l1 == l2)
    }

    constructor ()
      ensures Valid()
      ensures data == map[] && disposed == [] && leases == {}
    {
      data := map[];
      nextLock := 0;
      disposed := [];
      leases := {};
    }

    /** `TryAddValue`: insert with a fresh, free semaphore, only if the key is absent. */
    method TryAddValue(key: K, value: V) returns (added: bool)
      requires Valid()
      modifies this
      ensures Valid()
      ensures added <==> key !in old(data)
      ensures added ==> data == old(data)[key := Entry(old(nextLock), false, value)]
      ensures !added ==> data == old(data)
      ensures disposed == old(disposed) && leases == old(leases)
    {
      if key in data {
        added := false;
      } else {
        data := data[key := Entry(nextLock, false, value)];
        nextLock := nextLock + 1;
        added := true;
      }
    }

    /** `TryGetLeaseAsync`: an absent key fails at once; a free entry is
        locked and leased with a copy of its value; a held one blocks.
        It keeps mutual exclusion, and needs only well-formedness to run. */
    method TryGetLease(key: K) returns (r: LeaseOutcome<K, V>)
      requires WellFormed()
      modifies this
      ensures WellFormed()
      ensures old(Valid()) ==> Valid()
      ensures r.NotFound? <==> key !in old(data)
      ensures r.WouldBlock? <==> key in old(data) && old(data)[key].held
      ensures !r.Leased? ==> data == old(data) && leases == old(leases)
      ensures r.Leased? ==>
        && fresh(r.lease)
        && r.lease.store == this && r.lease.key == key && r.lease.lock == old(data)[key].lock
        && r.lease.value == old(data)[key].value
        && !r.lease.expired && !r.lease.marked
        && data == old(data)[key := old(data)[key].(held := true)]
        && leases == old(leases) + {r.lease}
      ensures nextLock == old(nextLock) && disposed == old(disposed)
    {
      if key !in data {
        return NotFound;
      }
      var e := data[key];
      if e.held {
        return WouldBlock;
      }
      var lease := new DataLease(this, e.lock, key, e.value);
      data := data[key := e.(held := true)];
      leases := leases + {lease};
      r := Leased(lease);
    }

    /** `DeleteAsync`: remove the entry, whoever holds it, and dispose its value. */
    method Delete(key: K) returns (removed: bool)
      requires Valid()
      modifies this
      ensures Valid()
      ensures removed <==> key in old(data)
      ensures data == old(data) - {key}
      ensures disposed == if removed then old(disposed) + [old(data)[key].value] else old(disposed)
      ensures nextLock == old(nextLock) && leases == old(leases)
    {
      if key !in data {
        return false;
      }
      disposed := disposed + [data[key].value];
      data := data - {key};
      removed := true;
    }

    /** `Update`: overwrite the value of a present entry whose semaphore is taken. */
    method Update(key: K, value: V) returns (r: Outcome)
      requires Valid()
      modifies this
      ensures Valid()
      ensures key !in old(data) ==> r == Err(KeyNotFound)
      ensures key in old(data) && !old(data)[key].held ==> r == Err(LockNotHeld)
      ensures r == Ok <==> key in old(data) && old(data)[key].held
      ensures data == if r == Ok then old(data)[key := old(data)[key].(value := value)] else old(data)
      ensures nextLock == old(nextLock) && disposed == old(disposed) && leases == old(leases)
    {
      if key !in data {
        return Err(KeyNotFound);
      }
      var existing := data[key];
      if !existing.held {
        return Err(LockNotHeld);
      }
      data := data[key := existing.(value := value)];
      r := Ok;
    }
  }

  /** `DataLease`: the handle to one leased value. */
  class DataLease<K(==), V> {
    const store: InMemoryDataStore<K, V>
    const key: K
    /** The semaphore this lease took (its `_waitHandle`). */
    const lock: nat
    var value: V
    var expired: bool
    var marked: bool

    constructor (store: InMemoryDataStore<K, V>, lock: nat, key: K, value: V)
      ensures this.store == store && this.lock == lock && this.key == key && this.value == value
      ensures !expired && !marked
    {
      this.store := store;
      this.lock := lock;
      this.key := key;
      this.value := value;
      expired := false;
      marked := false;
    }

    /** The `Data` getter: the leased value, until the lease expires. */
    function Data(): (r: Result<V, StoreError>)
      reads this
      ensures r.Success? <==> !expired
      ensures r.Success? ==> r.value == value
      ensures r.Failure? ==> r.error == ObjectDisposed
    {
      if expired then Failure(ObjectDisposed) else Success(value)
    }

    /** The `Data` setter; `None` stands for `null`. */
    method SetData(newValue: Option<V>) returns (r: Outcome)
      requires store.Valid() && this in store.leases
      modifies this`value
      ensures store.Valid()
      ensures old(expired) ==> r == Err(ObjectDisposed) && value == old(value)
      ensures !expired && newValue.None? ==> r == Err(ArgumentNull) && value == old(value)
      ensures !expired && newValue.Some? ==> r == Ok && value == newValue.value
    {
      if expired {
        return Err(ObjectDisposed);
      }
      if newValue.None? {
        return Err(ArgumentNull);
      }
      value := newValue.value;
      r := Ok;
    }

    /** `MarkForDeletion`: disposal will remove the entry instead of writing back.
        Like the source, it does not look at `expired`. */
    method MarkForDeletion()
      requires store.Valid() && this in store.leases
      modifies this`marked
      ensures store.Valid()
      ensures marked
    {
      marked := true;
    }

    /** `DisposeAsync` as written: it sets `expired` but never consults it,
        so every call commits again. Unmarked: `Update`, then release of this
        lease's semaphore (which throws when that semaphore was disposed).
        Marked: `DeleteAsync`; when the key was already gone the lease
        disposes its own value. */
    method DisposeAsWritten() returns (r: Outcome)
      requires store.Valid() && this in store.leases
      modifies this`expired, store
      ensures store.WellFormed() && expired
      ensures store.leases == old(store.leases) && store.nextLock == old(store.nextLock)
      ensures !marked ==>
        && store.disposed == old(store.disposed)
        && (key !in old(store.data) ==> r == Err(KeyNotFound) && store.data == old(store.data))
        && (key in old(store.data) && !old(store.data[key].held) ==>
              r == Err(LockNotHeld) && store.data == old(store.data))
        && (key in old(store.data) && old(store.data[key].held) ==>
              && store.data == old(store.data)[key := Entry(old(store.data[key].lock), old(store.data[key].lock) != lock, value)]
              && r == if old(store.data[key].lock) == lock then Ok else Err(ObjectDisposed))
      ensures marked ==>
        && r == Ok
        && store.data == old(store.data) - {key}
        && store.disposed == old(store.disposed) + [if key in old(store.data) then old(store.data[key].value) else value]
    {
      expired := true;
      assert store.Valid();
      if !marked {
        ghost var entries := store.data;
        r := store.Update(key, value);
        if r == Ok {
          // _waitHandle.Release()
          var e := store.data[key];
          if e.lock == lock {
            store.data := store.data[key := e.(held := false)];
            UpdateTwice(entries, key, e, e.(held := false));
          } else {
            r := Err(ObjectDisposed);
          }
        }
      } else {
        var deleted := store.Delete(key);
        if !deleted {
          store.disposed := store.disposed + [value];
        }
        r := Ok;
      }
    }

    /** `DisposeAsync` as evidently intended: a call on an expired lease is
        ignored, as .NET asks of repeated disposal. It keeps mutual exclusion. */
    method Dispose() returns (r: Outcome)
      requires store.Valid() && this in store.leases
      modifies this`expired, store
      ensures store.Valid() && expired
      ensures store.leases == old(store.leases) && store.nextLock == old(store.nextLock)
      ensures old(expired) ==> r == Ok && store.data == old(store.data) && store.disposed == old(store.disposed)
      ensures !old(expired) && !marked ==>
        && store.disposed == old(store.disposed)
        && (old(store.OnCurrentEntry(this)) ==> r == Ok && store.data == old(store.data)[key := Entry(lock, false, value)])
        && (key !in old(store.data) ==> r == Err(KeyNotFound) && store.data == old(store.data))
        && (key in old(store.data) && !old(store.data[key].held) ==>
              r == Err(LockNotHeld) && store.data == old(store.data))
        && (key in old(store.data) && old(store.data[key].held) && old(store.data[key].lock) != lock ==>
              r == Err(ObjectDisposed) && store.data == old(store.data)[key := old(store.data[key]).(value := value)])
      ensures !old(expired) && marked ==>
        && r == Ok
        && store.data == old(store.data) - {key}
        && store.disposed == old(store.disposed) + [if key in old(store.data) then old(store.data[key].value) else value]
    {
      if expired {
        return Ok;
      }
      // This lease is live, so no other live lease holds its semaphore.
      assert forall l | l in store.leases && !l.expired && l != this :: l.lock != lock;
      r := DisposeAsWritten();
    }
  }
}
