/**
 * The sequential skeleton of DeadlockSafeReservationService. Locks are
 * ReentrantLocks seen from one thread: `LockRegistry.held` counts how often
 * each lock is held, and the ghost `trace` records every acquisition, timed-out
 * attempt, release and run of the protected operation. Whether a tryLock on a
 * lock this thread does not hold succeeds within its timeout is decided by the
 * other threads, so the model leaves it open (a nondeterministic choice).
 */
module Locks {
  import Reservations

  datatype LockId = LockId(n: int)

  datatype LockEvent =
    | Acquired(lock: LockId)
    | TimedOut(lock: LockId, timeoutMs: int)
    | Released(lock: LockId)
    | Ran(heldDuringRun: multiset<LockId>)

  /** Acquisitions of the locks, in the given order. */
  function Acquisitions(locks: seq<LockId>): (events: seq<LockEvent>)
    ensures |events| == |locks|
  {
    if |locks| == 0 then [] else [Acquired(locks[0])] + Acquisitions(locks[1..])
  }

  /** Releases of the locks, last lock first. */
  function ReleasesInReverse(locks: seq<LockId>): (events: seq<LockEvent>)
    ensures |events| == |locks|
  {
    if |locks| == 0 then [] else ReleasesInReverse(locks[1..]) + [Released(locks[0])]
  }

  /** Acquiring locks[..i+1] is acquiring locks[..i] and then locks[i]. */
  lemma {:induction false} AcquisitionsStep(locks: seq<LockId>, i: int)
    requires 0 <= i < |locks|
    ensures Acquisitions(locks[..i + 1]) == Acquisitions(locks[..i]) + [Acquired(locks[i])]
  {
    if i > 0 {
      AcquisitionsStep(locks[1..], i - 1);
      assert locks[..i + 1][1..] == locks[1..][..i];
      assert locks[..i][1..] == locks[1..][..i - 1];
    }
  }

  /** Releasing locks[i..j] is releasing locks[i+1..j] and then locks[i]. */
  lemma ReleasesStep(locks: seq<LockId>, i: int, j: int)
    requires 0 <= i < j <= |locks|
    ensures ReleasesInReverse(locks[i..j]) == ReleasesInReverse(locks[i + 1..j]) + [Released(locks[i])]
  {
    assert locks[i..j][1..] == locks[i + 1..j];
  }

  /** The timeout of retry attempt k (counting from 0): 100 ms, doubled after every failure. */
  function Backoff(k: nat): (ms: nat)
    ensures ms >= 100
  {
    if k == 0 then 100 else 2 * Backoff(k - 1)
  }

  /** The first n attempts of reserveWithRetry, all timed out. */
  function RetryTimeouts(lock: LockId, n: nat): (events: seq<LockEvent>)
    ensures |events| == n && forall k :: 0 <= k < n ==> events[k] == TimedOut(lock, Backoff(k))
  {
    if n == 0 then [] else RetryTimeouts(lock, n - 1) + [TimedOut(lock, Backoff(n - 1))]
  }

  /**
   * What tryLockAll leaves in the trace: on success every lock acquired in
   * order, the operation run with all of them held, and every lock released
   * last first; on failure the acquired prefix, the attempt that timed out, and
   * that prefix released last first.
   */
  ghost predicate LockAllTrace(before: seq<LockEvent>, after: seq<LockEvent>, held: multiset<LockId>,
                               locks: seq<LockId>, timeoutMs: int, ok: bool)
  {
    if ok then
      after == before + Acquisitions(locks) + [Ran(held + multiset(locks))] + ReleasesInReverse(locks)
    else
      exists k :: (0 <= k < |locks| &&
        after == before + Acquisitions(locks[..k]) + [TimedOut(locks[k], timeoutMs)] + ReleasesInReverse(locks[..k]))
  }

  /**
   * What reserveWithRetry leaves in the trace: on success some attempts timed
   * out and the next one acquired the lock and released it; on failure every
   * attempt (maxRetries of them, none when maxRetries is negative) timed out.
   */
  ghost predicate RetryTrace(before: seq<LockEvent>, after: seq<LockEvent>, lock: LockId, maxRetries: int, ok: bool)
  {
    if ok then
      exists n :: (0 <= n < maxRetries &&
        after == before + RetryTimeouts(lock, n) + [Acquired(lock), Released(lock)])
    else
      after == before + RetryTimeouts(lock, if maxRetries < 0 then 0 else maxRetries)
  }

  /** String.compareTo: the difference of the first differing characters, else of the lengths. */
  function CompareTo(a: string, b: string): int
  {
    if |a| == 0 || |b| == 0 then |a| - |b|
    else if a[0] != b[0] then a[0] as int - b[0] as int
    else CompareTo(a[1..], b[1..])
  }

  /** compareTo is antisymmetric and is 0 exactly on equal strings. */
  lemma {:induction false} CompareToAntisymmetric(a: string, b: string)
    ensures CompareTo(b, a) == -CompareTo(a, b)
    ensures CompareTo(a, b) == 0 <==> a == b
  {
    if |a| > 0 && |b| > 0 && a[0] == b[0] {
      CompareToAntisymmetric(a[1..], b[1..]);
      if a[1..] == b[1..] {
        assert a == [a[0]] + a[1..] && b == [b[0]] + b[1..];
      }
    }
  }

  /**
   * transferReservation's choice: the lock of the reservation whose id string is
   * smaller comes first; on a tie the `to` lock does.
   */
  function TransferLockOrder(fromId: string, toId: string, fromLock: LockId, toLock: LockId): (LockId, LockId)
  {
    if CompareTo(fromId, toId) < 0 then (fromLock, toLock) else (toLock, fromLock)
  }

  /**
   * Two transfers between the same two reservations, in opposite directions,
   * take the two locks in the same order, so they cannot deadlock each other.
   */
  lemma TransferOrderIsGlobal(a: string, b: string, lockA: LockId, lockB: LockId)
    requires a != b
    ensures TransferLockOrder(a, b, lockA, lockB) == TransferLockOrder(b, a, lockB, lockA)
    ensures TransferLockOrder(a, b, lockA, lockB).0 == (if CompareTo(a, b) < 0 then lockA else lockB)
  {
    CompareToAntisymmetric(a, b);
  }

  /** withOrderedTableLocks's choice: the lock of the lower table number first; on a tie lock2 first. */
  function TableLockOrder(table1: int, table2: int, lock1: LockId, lock2: LockId): (LockId, LockId)
  {
    if table1 < table2 then (lock1, lock2) else (lock2, lock1)
  }

  /** Two operations on the same two distinct tables take their locks in the same order. */
  lemma TableOrderIsGlobal(t1: int, t2: int, lock1: LockId, lock2: LockId)
    requires t1 != t2
    ensures TableLockOrder(t1, t2, lock1, lock2) == TableLockOrder(t2, t1, lock2, lock1)
  {
  }

  /** Taking a lock and releasing it again leaves the held locks as they were. */
  lemma AddThenRemove(h: multiset<LockId>, l: LockId)
    ensures (h + multiset{l}) - multiset{l} == h
  {
  }

  /** Taking two locks one after the other holds both. */
  lemma AddTwo(h: multiset<LockId>, a: LockId, b: LockId)
    ensures h + multiset{a} + multiset{b} == h + multiset{a, b}
  {
  }

  class LockRegistry {
    var held: multiset<LockId>
    ghost var trace: seq<LockEvent>

    constructor ()
      ensures held == multiset{} && trace == []
    {
      held := multiset{};
      trace := [];
    }

    /** lock(): blocks until acquired; a reentrant lock may already be held. */
    method Lock(l: LockId)
      modifies this
      ensures held == old(held) + multiset{l}
      ensures trace == old(trace) + [Acquired(l)]
    {
      held := held + multiset{l};
      trace := trace + [Acquired(l)];
    }

    /**
     * tryLock(timeout): a lock this thread already holds is re-acquired at once
     * (ReentrantLock); any other is acquired or timed out, as the other threads decide.
     */
    method TryLock(l: LockId, timeoutMs: int) returns (ok: bool)
      modifies this
      ensures l in old(held) ==> ok
      ensures ok ==> held == old(held) + multiset{l} && trace == old(trace) + [Acquired(l)]
      ensures !ok ==> held == old(held) && trace == old(trace) + [TimedOut(l, timeoutMs)]
    {
      if l in held {
        ok := true;
      } else {
        ok := *;
      }
      if ok {
        held := held + multiset{l};
        trace := trace + [Acquired(l)];
      } else {
        trace := trace + [TimedOut(l, timeoutMs)];
      }
    }

    /** unlock(): only a held lock may be released (IllegalMonitorStateException otherwise). */
    method Unlock(l: LockId)
      requires l in held
      modifies this
      ensures held == old(held) - multiset{l}
      ensures held + multiset{l} == old(held)
      ensures trace == old(trace) + [Released(l)]
    {
      held := held - multiset{l};
      trace := trace + [Released(l)];
    }

    /** operation.run(): the protected operation, recorded with the locks held while it runs. */
    method Run()
      modifies this
      ensures held == old(held) && trace == old(trace) + [Ran(held)]
    {
      trace := trace + [Ran(held)];
    }

    /**
     * The finally block of tryLockAll: release locks[count-1] down to locks[0],
     * which were taken on top of `base`.
     */
    method ReleaseAll(locks: seq<LockId>, count: int, ghost base: multiset<LockId>)
      requires 0 <= count <= |locks| && held == base + multiset(locks[..count])
      modifies this
      ensures held == base
      ensures trace == old(trace) + ReleasesInReverse(locks[..count])
    {
      var n := count;
      while n > 0
        invariant 0 <= n <= count
        invariant held == base + multiset(locks[..n])
        invariant trace == old(trace) + ReleasesInReverse(locks[n..count])
      {
        assert locks[..n] == locks[..n - 1] + [locks[n - 1]];
        ReleasesStep(locks, n - 1, count);
        Unlock(locks[n - 1]);
        n := n - 1;
      }
      assert locks[..count] == locks[0..count];
    }

    /**
     * transferReservation: lock the smaller-id reservation's lock, then the
     * other, then release them in reverse; nothing stays held.
     */
    method TransferReservation(from: Reservations.Reservation, to: Reservations.Reservation,
                               fromLock: LockId, toLock: LockId)
      modifies this
      ensures held == old(held)
      ensures var (first, second) := TransferLockOrder(from.id, to.id, fromLock, toLock);
              trace == old(trace) + [Acquired(first), Acquired(second), Released(second), Released(first)]
    {
      var (first, second) := TransferLockOrder(from.id, to.id, fromLock, toLock);
      Lock(first);
      Lock(second);
      Unlock(second);
      Unlock(first);
    }

    /** Lock first, then second, run with both held, release in reverse. */
    method RunHoldingBoth(first: LockId, second: LockId)
      modifies this
      ensures held == old(held)
      ensures trace == old(trace) + [Acquired(first), Acquired(second),
                                     Ran(old(held) + multiset{first, second}),
                                     Released(second), Released(first)]
    {
      ghost var h0 := held;
      Lock(first);
      ghost var h1 := held;
      Lock(second);
      AddTwo(h0, first, second);
      Run();
      Unlock(second);
      AddThenRemove(h1, second);
      Unlock(first);
      AddThenRemove(h0, first);
    }

    /**
     * withOrderedTableLocks: lock the lower table's lock, then the other, run
     * the operation with both held, then release them in reverse.
     */
    method WithOrderedTableLocks(table1: int, table2: int, lock1: LockId, lock2: LockId)
      modifies this
      ensures held == old(held)
      ensures var (first, second) := TableLockOrder(table1, table2, lock1, lock2);
              trace == old(trace) + [Acquired(first), Acquired(second),
                                     Ran(old(held) + multiset{first, second}),
                                     Released(second), Released(first)]
    {
      var (first, second) := TableLockOrder(table1, table2, lock1, lock2);
      RunHoldingBoth(first, second);
    }

    /** tryReserveWithTimeout: true exactly when the lock was acquired, and then it is released again. */
    method TryReserveWithTimeout(reservation: Reservations.Reservation, lock: LockId, timeoutMs: int)
      returns (ok: bool)
      modifies this
      ensures held == old(held)
      ensures ok ==> trace == old(trace) + [Acquired(lock), Released(lock)]
      ensures !ok ==> trace == old(trace) + [TimedOut(lock, timeoutMs)]
    {
      ok := TryLock(lock, timeoutMs);
      if ok {
        Unlock(lock);
      }
    }

    /**
     * reserveWithRetry: at most maxRetries attempts with timeouts 100, 200,
     * 400, ... ms. True after the first attempt that acquires the lock (which
     * is released again); false when every attempt timed out.
     */
    method ReserveWithRetry(reservation: Reservations.Reservation, lock: LockId, maxRetries: int)
      returns (ok: bool)
      modifies this
      ensures held == old(held)
      ensures RetryTrace(old(trace), trace, lock, maxRetries, ok)
    {
      var attempts := 0;
      var backoffMs := 100;
      while attempts < maxRetries
        invariant 0 <= attempts && (0 <= maxRetries ==> attempts <= maxRetries)
        invariant maxRetries < 0 ==> attempts == 0
        invariant attempts > 0 ==> attempts <= maxRetries
        invariant backoffMs == Backoff(attempts)
        invariant held == old(held)
        invariant trace == old(trace) + RetryTimeouts(lock, attempts)
      {
        var acquired := TryLock(lock, backoffMs);
        if acquired {
          Unlock(lock);
          return true;
        }
        attempts := attempts + 1;
        backoffMs := backoffMs * 2;
      }
      return false;
    }

    /**
     * tryLockAll: take the locks in array order; if one times out, stop and
     * return false; otherwise run the operation and return true. Either way
     * exactly the acquired prefix is released, last first.
     */
    method TryLockAll(locks: seq<LockId>, timeoutMs: int) returns (ok: bool)
      modifies this
      ensures held == old(held)
      ensures LockAllTrace(old(trace), trace, old(held), locks, timeoutMs, ok)
    {
      var acquiredCount := 0;
      while acquiredCount < |locks|
        invariant 0 <= acquiredCount <= |locks|
        invariant held == old(held) + multiset(locks[..acquiredCount])
        invariant trace == old(trace) + Acquisitions(locks[..acquiredCount])
      {
        var got := TryLock(locks[acquiredCount], timeoutMs);
        if !got {
          ReleaseAll(locks, acquiredCount, old(held));
          assert 0 <= acquiredCount < |locks| &&
                 trace == old(trace) + Acquisitions(locks[..acquiredCount]) + [TimedOut(locks[acquiredCount], timeoutMs)]
                          + ReleasesInReverse(locks[..acquiredCount]);
          return false;
        }
        assert locks[..acquiredCount + 1] == locks[..acquiredCount] + [locks[acquiredCount]];
        AcquisitionsStep(locks, acquiredCount);
        acquiredCount := acquiredCount + 1;
      }
      assert locks[..acquiredCount] == locks;
      Run();
      ReleaseAll(locks, acquiredCount, old(held));
      return true;
    }
  }
}
