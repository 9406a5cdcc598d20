/**
 * SafeTableTransferService: one lock per table 1..50, and table operations
 * that go through the deadlock-safe helpers of `Locks`. A table number with
 * no lock is IllegalArgumentException before any lock is touched.
 */
module TableTransfer {
  import opened Common
  import Reservations
  import Locks

  /** The constructor creates locks for tables 1 through TableCount. */
  const TableCount: int := 50

  /** reserveTableWithRetry allows this many attempts. */
  const TableRetries: int := 5

  /** reserveMultipleTables waits up to 2 seconds for each lock. */
  const MultiTableTimeoutMs: int := 2000

  /** The lock map the constructor builds: table t has its own lock. */
  function TableLockMap(): (m: map<int, Locks.LockId>)
    ensures forall t :: t in m <==> 1 <= t <= TableCount
  {
    map t | 1 <= t <= TableCount :: Locks.LockId(t)
  }

  predicate Ascending(s: seq<int>)
  {
    forall k, l :: 0 <= k < l < |s| ==> s[k] <= s[l]
  }

  /** The lock of each table, in the order given. */
  function LocksFor(tables: seq<int>): (locks: seq<Locks.LockId>)
    ensures |locks| == |tables| && forall i :: 0 <= i < |tables| ==> locks[i] == Locks.LockId(tables[i])
  {
    if |tables| == 0 then [] else [Locks.LockId(tables[0])] + LocksFor(tables[1..])
  }

  /**
   * Sorting first makes every multi-table reservation take its locks in
   * ascending table order, one global order, so two of them cannot deadlock.
   */
  lemma SortedTablesLockInGlobalOrder(tables: seq<int>)
    requires Ascending(tables)
    ensures forall k, l :: 0 <= k < l < |tables| ==> LocksFor(tables)[k].n <= LocksFor(tables)[l].n
  {
  }

  /** Exchanges a[j-1] and a[j]; the numbers in the array stay the same. */
  method SwapDown(a: array<int>, j: int)
    requires 0 < j < a.Length
    modifies a
    ensures a[j - 1] == old(a[j]) && a[j] == old(a[j - 1])
    ensures forall k :: 0 <= k < a.Length && k != j - 1 && k != j ==> a[k] == old(a[k])
    ensures multiset(a[..]) == multiset(old(a[..]))
  {
    a[j - 1], a[j] := a[j], a[j - 1];
  }

  /** Arrays.sort(tableNumbers): ascending, in place, the same numbers. */
  method SortTables(a: array<int>)
    modifies a
    ensures Ascending(a[..])
    ensures multiset(a[..]) == multiset(old(a[..]))
  {
    var i := 0;
    while i < a.Length
      invariant 0 <= i <= a.Length
      invariant forall k, l :: 0 <= k < l < i ==> a[k] <= a[l]
      invariant multiset(a[..]) == multiset(old(a[..]))
    {
      var j := i;
      while j > 0 && a[j - 1] > a[j]
        invariant 0 <= j <= i
        invariant forall k, l :: 0 <= k < l <= i && l != j ==> a[k] <= a[l]
        invariant 0 < j < i ==> a[j - 1] <= a[j + 1]
        invariant multiset(a[..]) == multiset(old(a[..]))
      {
        SwapDown(a, j);
        j := j - 1;
      }
      i := i + 1;
    }
  }

  class SafeTableTransferService {
    const registry: Locks.LockRegistry
    const tableLocks: map<int, Locks.LockId>

    /** The constructor's lock map is never changed. */
    predicate Valid()
    {
      tableLocks == TableLockMap()
    }

    /** Creates a fresh lock for each table 1..50, one table at a time. */
    constructor (registry: Locks.LockRegistry)
      ensures this.registry == registry
      ensures Valid()
    {
      var locks: map<int, Locks.LockId> := map[];
      var i := 1;
      while i <= TableCount
        invariant 1 <= i <= TableCount + 1
        invariant forall t :: t in locks <==> 1 <= t < i
        invariant forall t | t in locks :: locks[t] == Locks.LockId(t)
      {
        locks := locks[i := Locks.LockId(i)];
        i := i + 1;
      }
      this.registry := registry;
      this.tableLocks := locks;
    }

    /**
     * transferReservation: both tables must have a lock; then the lower
     * table's lock is taken first, the transfer runs with both held, and both
     * are released. The result is always true.
     */
    method TransferReservation(reservation: Reservations.Reservation, fromTable: int, toTable: int)
      returns (r: Result<bool>)
      requires Valid()
      modifies registry
      ensures r.Err? <==> !(1 <= fromTable <= TableCount && 1 <= toTable <= TableCount)
      ensures r.Err? ==> r.error == IllegalArgument && unchanged(registry)
      ensures r.Ok? ==> r.value && registry.held == old(registry.held)
      ensures r.Ok? ==>
                var low := Locks.LockId(if fromTable < toTable then fromTable else toTable);
                var high := Locks.LockId(if fromTable < toTable then toTable else fromTable);
                registry.trace == old(registry.trace) + [Locks.Acquired(low), Locks.Acquired(high),
                                                         Locks.Ran(old(registry.held) + multiset{low, high}),
                                                         Locks.Released(high), Locks.Released(low)]
    {
      if fromTable !in tableLocks || toTable !in tableLocks {
        return Err(IllegalArgument);
      }
      registry.WithOrderedTableLocks(fromTable, toTable, tableLocks[fromTable], tableLocks[toTable]);
      return Ok(true);
    }

    /** tryReserveTable: the table must have a lock; then one tryLock with the timeout in seconds. */
    method TryReserveTable(reservation: Reservations.Reservation, tableNumber: int, timeoutSeconds: int)
      returns (r: Result<bool>)
      requires Valid()
      modifies registry
      ensures r.Err? <==> !(1 <= tableNumber <= TableCount)
      ensures r.Err? ==> r.error == IllegalArgument && unchanged(registry)
      ensures r.Ok? ==> registry.held == old(registry.held)
      ensures r.Ok? && r.value ==>
                registry.trace == old(registry.trace) + [Locks.Acquired(Locks.LockId(tableNumber)),
                                                         Locks.Released(Locks.LockId(tableNumber))]
      ensures r.Ok? && !r.value ==>
                registry.trace == old(registry.trace) + [Locks.TimedOut(Locks.LockId(tableNumber), timeoutSeconds * 1000)]
    {
      if tableNumber !in tableLocks {
        return Err(IllegalArgument);
      }
      var ok := registry.TryReserveWithTimeout(reservation, tableLocks[tableNumber], timeoutSeconds * 1000);
      return Ok(ok);
    }

    /** reserveTableWithRetry: the table must have a lock; then reserveWithRetry with 5 attempts. */
    method ReserveTableWithRetry(reservation: Reservations.Reservation, tableNumber: int)
      returns (r: Result<bool>)
      requires Valid()
      modifies registry
      ensures r.Err? <==> !(1 <= tableNumber <= TableCount)
      ensures r.Err? ==> r.error == IllegalArgument && unchanged(registry)
      ensures r.Ok? ==> registry.held == old(registry.held)
      ensures r.Ok? ==> Locks.RetryTrace(old(registry.trace), registry.trace, Locks.LockId(tableNumber),
                                         TableRetries, r.value)
    {
      if tableNumber !in tableLocks {
        return Err(IllegalArgument);
      }
      var ok := registry.ReserveWithRetry(reservation, tableLocks[tableNumber], TableRetries);
      return Ok(ok);
    }

    /**
     * reserveMultipleTables: sorts the caller's array in place first; then
     * every table must have a lock (IllegalArgumentException otherwise, with no
     * lock touched); then tryLockAll over the locks in ascending table order
     * with a 2-second timeout each.
     */
    method ReserveMultipleTables(reservation: Reservations.Reservation, tableNumbers: array<int>)
      returns (r: Result<bool>)
      requires Valid()
      modifies registry, tableNumbers
      ensures Ascending(tableNumbers[..]) && multiset(tableNumbers[..]) == multiset(old(tableNumbers[..]))
      ensures r.Err? <==> exists i :: 0 <= i < tableNumbers.Length && !(1 <= tableNumbers[i] <= TableCount)
      ensures r.Err? ==> r.error == IllegalArgument && unchanged(registry)
      ensures r.Ok? ==> registry.held == old(registry.held)
      ensures r.Ok? ==> Locks.LockAllTrace(old(registry.trace), registry.trace, old(registry.held),
                                           LocksFor(tableNumbers[..]), MultiTableTimeoutMs, r.value)
    {
      SortTables(tableNumbers);
      var locks: seq<Locks.LockId> := [];
      var i := 0;
      while i < tableNumbers.Length
        invariant 0 <= i <= tableNumbers.Length
        invariant forall k :: 0 <= k < i ==> 1 <= tableNumbers[k] <= TableCount
        invariant locks == LocksFor(tableNumbers[..i])
      {
        if tableNumbers[i] !in tableLocks {
          return Err(IllegalArgument);
        }
        locks := locks + [tableLocks[tableNumbers[i]]];
        i := i + 1;
      }
      assert tableNumbers[..i] == tableNumbers[..];
      var ok := registry.TryLockAll(locks, MultiTableTimeoutMs);
      return Ok(ok);
    }
  }
}
