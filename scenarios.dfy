/** Sequences of store operations, each stated for all keys and values:
    the behaviour the store's tests check, and the effect of disposing a
    lease twice. */
module LeaseStoreScenarios {
  import opened Wrappers
  import opened LeaseStore

  /** A value just inserted can be leased, and the lease shows it. */
  method InsertThenLease<K(==), V>(key: K, value: V) returns (inserted: bool, observed: Result<V, StoreError>)
    ensures inserted && observed == Success(value)
  {
    var store := new InMemoryDataStore<K, V>();
    inserted := store.TryAddValue(key, value);
    var r := store.TryGetLease(key);
    observed := r.lease.Data();
  }

  /** Leasing a key that was never added fails with `NotFoundError` at once. */
  method LeaseOfAbsentKey<K(==), V>(other: K, value: V, key: K) returns (found: bool)
    requires other != key
    ensures !found
  {
    var store := new InMemoryDataStore<K, V>();
    var _ := store.TryAddValue(other, value);
    var r := store.TryGetLease(key);
    found := !r.NotFound?;
  }

  /** While a key is leased, a second lease request on it does not complete. */
  method SecondLeaseWaits<K(==), V>(key: K, value: V) returns (firstLeased: bool, secondBlocked: bool)
    ensures firstLeased && secondBlocked
  {
    var store := new InMemoryDataStore<K, V>();
    var _ := store.TryAddValue(key, value);
    var first := store.TryGetLease(key);
    firstLeased := first.Leased?;
    var second := store.TryGetLease(key);
    secondBlocked := second.WouldBlock?;
  }

  /** Disposing a lease frees the key for the next lease. */
  method DisposingLeaseReleasesLock<K(==), V>(key: K, value: V) returns (reacquired: bool)
    ensures reacquired
  {
    var store := new InMemoryDataStore<K, V>();
    var _ := store.TryAddValue(key, value);
    var first := store.TryGetLease(key);
    var _ := first.lease.Dispose();
    var second := store.TryGetLease(key);
    reacquired := second.Leased?;
  }

  /** Disposing a lease marked for deletion removes the key and disposes the
      stored value once; a later lease request finds nothing. */
  method DeleteRemovesKeyOnDisposal<K(==), V>(key: K, value: V) returns (found: bool, disposals: seq<V>)
    ensures !found && disposals == [value]
  {
    var store := new InMemoryDataStore<K, V>();
    var _ := store.TryAddValue(key, value);
    var r := store.TryGetLease(key);
    r.lease.MarkForDeletion();
    var _ := r.lease.Dispose();
    var after := store.TryGetLease(key);
    found := !after.NotFound?;
    disposals := store.disposed;
  }

  /** A value set through the lease is written back on disposal and seen by
      the next lease. */
  method UpdateReflectsOnDisposal<K(==), V>(key: K, value: V, newValue: V) returns (observed: Result<V, StoreError>)
    ensures observed == Success(newValue)
  {
    var store := new InMemoryDataStore<K, V>();
    var _ := store.TryAddValue(key, value);
    var r := store.TryGetLease(key);
    var _ := r.lease.SetData(Some(newValue));
    var _ := r.lease.Dispose();
    var again := store.TryGetLease(key);
    observed := again.lease.Data();
  }

  /** After disposal the lease refuses reads and writes, and a write of
      null is refused before that. */
  method ExpiredLeaseRefusesAccess<K(==), V>(key: K, value: V, newValue: V)
    returns (nullWrite: Outcome, read: Result<V, StoreError>, write: Outcome)
    ensures nullWrite == Err(ArgumentNull)
    ensures read == Failure(ObjectDisposed) && write == Err(ObjectDisposed)
  {
    var store := new InMemoryDataStore<K, V>();
    var _ := store.TryAddValue(key, value);
    var r := store.TryGetLease(key);
    nullWrite := r.lease.SetData(None);
    var _ := r.lease.Dispose();
    read := r.lease.Data();
    write := r.lease.SetData(Some(newValue));
  }

  /** `DeleteAsync` while a marked lease whose value was replaced is out,
      before that lease is disposed: the lease's own removal then finds the
      key gone, so the stored value and the replacement are each disposed
      once. (Disposed in the other order, the replacement is never disposed;
      see `MarkedDisposalDisposesStoredValue`.) */
  method DeletionRacesDisposal<K(==), V>(key: K, value: V, newValue: V)
    returns (deleted: bool, disposals: seq<V>, found: bool)
    ensures deleted && disposals == [value, newValue] && !found
  {
    var store := new InMemoryDataStore<K, V>();
    var _ := store.TryAddValue(key, value);
    var r := store.TryGetLease(key);
    var _ := r.lease.SetData(Some(newValue));
    r.lease.MarkForDeletion();
    deleted := store.Delete(key);
    var _ := r.lease.Dispose();
    disposals := store.disposed;
    var after := store.TryGetLease(key);
    found := !after.NotFound?;
  }

  /** Deleting while a marked lease that kept its value is out: `DeleteAsync`
      disposes the stored value, and the lease, finding the key gone,
      disposes its own copy of the same value a second time. */
  method DeletionRacesUnchangedLease<K(==), V>(key: K, value: V) returns (disposals: seq<V>)
    ensures disposals == [value, value]
  {
    var store := new InMemoryDataStore<K, V>();
    var _ := store.TryAddValue(key, value);
    var r := store.TryGetLease(key);
    r.lease.MarkForDeletion();
    var _ := store.Delete(key);
    var _ := r.lease.Dispose();
    disposals := store.disposed;
  }

  /** The entry removed while a lease on it is still out: the unmarked
      disposal that follows fails with `KeyNotFound` in `Update`. */
  method RemovalBeforeRelease<K(==), V>(key: K, value: V) returns (release: Outcome)
    ensures release == Err(KeyNotFound)
  {
    var store := new InMemoryDataStore<K, V>();
    var _ := store.TryAddValue(key, value);
    var r := store.TryGetLease(key);
    var _ := store.Delete(key);
    release := r.lease.Dispose();
  }

  /** A marked lease whose value was replaced: disposal removes the entry
      and disposes the value still stored, not the lease's new value. */
  method MarkedDisposalDisposesStoredValue<K(==), V>(key: K, value: V, newValue: V) returns (disposals: seq<V>)
    ensures disposals == [value]
  {
    var store := new InMemoryDataStore<K, V>();
    var _ := store.TryAddValue(key, value);
    var r := store.TryGetLease(key);
    var _ := r.lease.SetData(Some(newValue));
    r.lease.MarkForDeletion();
    var _ := r.lease.Dispose();
    disposals := store.disposed;
  }

  /** The source's `DisposeAsync`, called a second time after another lease
      was granted, writes the stale value over that lease's entry and frees
      the semaphore that lease still holds: a third lease is then granted
      while the second is live. */
  method DoubleDisposeAsWritten<K(==), V>(key: K, value: V) returns (twoLiveLeases: bool)
    ensures twoLiveLeases
  {
    var store := new InMemoryDataStore<K, V>();
    var _ := store.TryAddValue(key, value);
    var a := store.TryGetLease(key);
    var _ := a.lease.Dispose();
    var b := store.TryGetLease(key);
    var _ := a.lease.DisposeAsWritten();
    var c := store.TryGetLease(key);
    twoLiveLeases := c.Leased?
      && !b.lease.expired && !c.lease.expired
      && b.lease != c.lease && b.lease.lock == c.lease.lock;
  }

  /** With the repeated disposal ignored, the same sequence leaves the
      second lease in sole possession: the third request waits. */
  method DoubleDisposeIgnored<K(==), V>(key: K, value: V) returns (thirdBlocked: bool)
    ensures thirdBlocked
  {
    var store := new InMemoryDataStore<K, V>();
    var _ := store.TryAddValue(key, value);
    var a := store.TryGetLease(key);
    var _ := a.lease.Dispose();
    var b := store.TryGetLease(key);
    var _ := a.lease.Dispose();
    var c := store.TryGetLease(key);
    thirdBlocked := c.WouldBlock?;
  }
}
