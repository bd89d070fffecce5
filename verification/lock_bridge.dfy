/**
 Model of the lock array that src/main/tls/global.c hands to OpenSSL releases
 before 1.1.0.  Those releases are not thread-safe by themselves.  The
 application allocates one mutex per lock the library reports needing,
 initialises them all, and then registers a thread-id callback and a locking
 callback.  Teardown undoes this in the opposite order.

 Mutexes are modelled sequentially, as one state per slot.  The setup and
 teardown steps go into a trace of `LockEvent`s so that their order can be
 stated.
 */
module LockBridge {
  import opened Wrappers

  /** One `pthread_mutex_t` of the array. */
  datatype Slot = Uninit | Free | Held | Destroyed

  /** The lock array, and whether the id and locking callbacks are
      registered with the library. */
  datatype Bridge = Bridge(slots: seq<Slot>, idCallback: bool, lockingCallback: bool)

  /** Steps of setup and teardown that other threads could observe. */
  datatype LockEvent =
    | MutexInit(index: nat)
    | MutexDestroy(index: nat)
    | SetIdCallback(installed: bool)
    | SetLockingCallback(installed: bool)

  /** How many guarded initialisations are written out before the catch-up
      loop: index 0 plus the 40 locks OpenSSL 1.0 names. */
  const NamedLocks: nat := 41

  /** `mode & CRYPTO_LOCK` is non-zero.  OpenSSL's `CRYPTO_LOCK` is 1, the
      lowest bit, and Euclidean `% 2` reads the lowest two's-complement bit
      of negative values too. */
  predicate LockRequested(mode: int) {
    mode % 2 == 1
  }

  // ---------------------------------------------------------------------
  // Reference traces and the orderings they must respect
  // ---------------------------------------------------------------------

  /** `MutexInit(0)`, ..., `MutexInit(n - 1)`. */
  function InitTrace(n: nat): (t: seq<LockEvent>)
    ensures |t| == n
    ensures forall j :: 0 <= j < n ==> t[j] == MutexInit(j)
  {
    if n == 0 then [] else InitTrace(n - 1) + [MutexInit(n - 1)]
  }

  /** `MutexDestroy(0)`, ..., `MutexDestroy(n - 1)`. */
  function DestroyTrace(n: nat): (t: seq<LockEvent>)
    ensures |t| == n
    ensures forall j :: 0 <= j < n ==> t[j] == MutexDestroy(j)
  {
    if n == 0 then [] else DestroyTrace(n - 1) + [MutexDestroy(n - 1)]
  }

  /** What a successful setup of `n` locks does. */
  function SetupTrace(n: nat): seq<LockEvent> {
    InitTrace(n) + [SetIdCallback(true), SetLockingCallback(true)]
  }

  /** What the teardown of an array of `n` locks does. */
  function TeardownTrace(n: nat): seq<LockEvent> {
    [SetIdCallback(false), SetLockingCallback(false)] + DestroyTrace(n)
  }

  /** The bridge a successful setup of `n` locks leaves behind. */
  function Installed(n: nat): Bridge {
    Bridge(seq(n, _ => Free), true, true)
  }

  /** Every index below `n` is initialised exactly once and no other index
      is initialised at all. */
  ghost predicate InitialisesEachOnce(t: seq<LockEvent>, n: nat) {
    && (forall j: nat :: j < n ==> multiset(t)[MutexInit(j)] == 1)
    && (forall k :: 0 <= k < |t| && t[k].MutexInit? ==> t[k].index < n)
  }

  /** Every index below `n` is destroyed exactly once and no other index is
      destroyed at all. */
  ghost predicate DestroysEachOnce(t: seq<LockEvent>, n: nat) {
    && (forall j: nat :: j < n ==> multiset(t)[MutexDestroy(j)] == 1)
    && (forall k :: 0 <= k < |t| && t[k].MutexDestroy? ==> t[k].index < n)
  }

  /** No callback is registered before every slot below `n` is initialised. */
  ghost predicate CallbacksAfterSlots(t: seq<LockEvent>, n: nat) {
    forall k, j :: 0 <= k < |t| && 0 <= j < n && t[k] in {SetIdCallback(true), SetLockingCallback(true)} ==>
      MutexInit(j) in t[..k]
  }

  /** No slot is destroyed while either callback may still be registered. */
  ghost predicate CallbacksClearedBeforeDestroy(t: seq<LockEvent>) {
    forall k :: 0 <= k < |t| && t[k].MutexDestroy? ==>
      SetIdCallback(false) in t[..k] && SetLockingCallback(false) in t[..k]
  }

  lemma {:induction false} InitTraceCount(n: nat, e: LockEvent)
    ensures multiset(InitTrace(n))[e] == if e.MutexInit? && e.index < n then 1 else 0
  {
    if n > 0 {
      InitTraceCount(n - 1, e);
      var t := InitTrace(n - 1);
      assert InitTrace(n) == t + [MutexInit(n - 1)];
      assert multiset(t + [MutexInit(n - 1)])[e] == multiset(t)[e] + multiset([MutexInit(n - 1)])[e];
    }
  }

  lemma {:induction false} DestroyTraceCount(n: nat, e: LockEvent)
    ensures multiset(DestroyTrace(n))[e] == if e.MutexDestroy? && e.index < n then 1 else 0
  {
    if n > 0 {
      DestroyTraceCount(n - 1, e);
      var t := DestroyTrace(n - 1);
      assert DestroyTrace(n) == t + [MutexDestroy(n - 1)];
      assert multiset(t + [MutexDestroy(n - 1)])[e] == multiset(t)[e] + multiset([MutexDestroy(n - 1)])[e];
    }
  }

  /** The setup trace initialises each of the `n` slots once, touches no
      other index, destroys nothing, and registers the callbacks last. */
  lemma SetupTraceOrdered(n: nat)
    ensures InitialisesEachOnce(SetupTrace(n), n)
    ensures CallbacksAfterSlots(SetupTrace(n), n)
    ensures forall e :: e in SetupTrace(n) ==> !e.MutexDestroy?
  {
    var t := SetupTrace(n);
    forall j: nat | j < n ensures multiset(t)[MutexInit(j)] == 1 {
      InitTraceCount(n, MutexInit(j));
    }
    forall k, j | 0 <= k < |t| && 0 <= j < n && t[k] in {SetIdCallback(true), SetLockingCallback(true)}
      ensures MutexInit(j) in t[..k]
    {
      assert k >= n;
      assert t[..k][j] == MutexInit(j);
    }
  }

  /** The teardown trace clears both callbacks before it destroys anything,
      then destroys each of the `n` slots once and initialises nothing. */
  lemma TeardownTraceOrdered(n: nat)
    ensures DestroysEachOnce(TeardownTrace(n), n)
    ensures CallbacksClearedBeforeDestroy(TeardownTrace(n))
    ensures forall e :: e in TeardownTrace(n) ==> !e.MutexInit?
  {
    TeardownTraceDestroysOnce(n);
    TeardownTraceClearsFirst(n);
    TeardownTraceInitsNothing(n);
  }

  lemma TeardownTraceInitsNothing(n: nat)
    ensures forall e :: e in TeardownTrace(n) ==> !e.MutexInit?
  {
    var t := TeardownTrace(n);
    forall e | e in t ensures !e.MutexInit? {
      var k :| 0 <= k < |t| && t[k] == e;
    }
  }

  lemma TeardownTraceDestroysOnce(n: nat)
    ensures DestroysEachOnce(TeardownTrace(n), n)
  {
    var t := TeardownTrace(n);
    forall j: nat | j < n ensures multiset(t)[MutexDestroy(j)] == 1 {
      DestroyTraceCount(n, MutexDestroy(j));
    }
  }

  lemma TeardownTraceClearsFirst(n: nat)
    ensures CallbacksClearedBeforeDestroy(TeardownTrace(n))
  {
    var t := TeardownTrace(n);
    forall k | 0 <= k < |t| && t[k].MutexDestroy?
      ensures SetIdCallback(false) in t[..k] && SetLockingCallback(false) in t[..k]
    {
      assert t[..k][0] == SetIdCallback(false);
      assert t[..k][1] == SetLockingCallback(false);
    }
  }

  // ---------------------------------------------------------------------
  // Setup
  // ---------------------------------------------------------------------

  /** The state of setup between two `SETUP_CRYPTO_LOCK` steps: the shared
      counter, the array, and what has happened so far. */
  datatype Progress = Progress(i: nat, slots: seq<Slot>, trace: seq<LockEvent>)

  /** Slots `[0, i)` are initialised, in order, and the rest are untouched. */
  ghost predicate SetUpTo(p: Progress, numLocks: nat) {
    && |p.slots| == numLocks
    && p.i <= numLocks
    && (forall j :: 0 <= j < numLocks ==> p.slots[j] == if j < p.i then Free else Uninit)
    && p.trace == InitTrace(p.i)
  }

  /** One `SETUP_CRYPTO_LOCK`: initialise slot `i` and advance `i`, but only
      while `i` is below the lock count. */
  function SetupCryptoLock(p: Progress, numLocks: nat): (q: Progress)
    requires SetUpTo(p, numLocks)
    ensures SetUpTo(q, numLocks)
    ensures q.i == if p.i < numLocks then p.i + 1 else p.i
  {
    if p.i < numLocks then
      Progress(p.i + 1, p.slots[p.i := Free], p.trace + [MutexInit(p.i)])
    else p
  }

  /** `global_mutexes_init`: allocate exactly `numLocks` slots (the value of
      `CRYPTO_num_locks()`), run the 41 guarded steps and the catch-up loop,
      then register both callbacks.  `allocOk` is whether the allocation
      succeeded; on failure nothing happens and no bridge is returned. */
  method GlobalMutexesInit(numLocks: nat, allocOk: bool) returns (r: Option<Bridge>, trace: seq<LockEvent>)
    ensures !allocOk ==> r == None && trace == []
    ensures allocOk ==> r == Some(Installed(numLocks)) && trace == SetupTrace(numLocks)
    ensures allocOk ==> |r.value.slots| == numLocks
    ensures allocOk ==> forall j :: 0 <= j < numLocks ==> r.value.slots[j] == Free
  {
    if !allocOk {
      return None, [];
    }
    var p := Progress(0, seq(numLocks, _ => Uninit), []);
    // The 41 SETUP_CRYPTO_LOCK lines, one per iteration.
    for step := 0 to NamedLocks
      invariant SetUpTo(p, numLocks)
      invariant p.i == if step < numLocks then step else numLocks
    {
      p := SetupCryptoLock(p, numLocks);
    }
    // In case the library needs more than the named locks.
    while p.i < numLocks
      invariant SetUpTo(p, numLocks)
      decreases numLocks - p.i
    {
      p := SetupCryptoLock(p, numLocks);
    }
    assert p.slots == seq(numLocks, _ => Free);
    r := Some(Bridge(p.slots, true, true));
    trace := p.trace + [SetIdCallback(true), SetLockingCallback(true)];
  }

  // ---------------------------------------------------------------------
  // The locking callback
  // ---------------------------------------------------------------------

  /** `_global_mutex`: lock slot `n` when the mode has the `CRYPTO_LOCK` bit,
      unlock it otherwise.  The source does not check `n`; the library
      promises an index below the count it reported. */
  function GlobalMutex(b: Bridge, mode: int, n: int): (r: Bridge)
    requires 0 <= n < |b.slots|
    ensures |r.slots| == |b.slots|
    ensures r.idCallback == b.idCallback && r.lockingCallback == b.lockingCallback
    ensures LockRequested(mode) ==> r.slots[n] == Held
    ensures !LockRequested(mode) ==> r.slots[n] == Free
    ensures forall j :: 0 <= j < |b.slots| && j != n ==> r.slots[j] == b.slots[j]
  {
    b.(slots := b.slots[n := if LockRequested(mode) then Held else Free])
  }

  /** Locking a free slot and then unlocking it restores the bridge. */
  lemma LockThenUnlock(b: Bridge, lockMode: int, unlockMode: int, n: int)
    requires 0 <= n < |b.slots| && b.slots[n] == Free
    requires LockRequested(lockMode) && !LockRequested(unlockMode)
    ensures GlobalMutex(GlobalMutex(b, lockMode, n), unlockMode, n) == b
  {
    assert GlobalMutex(GlobalMutex(b, lockMode, n), unlockMode, n).slots == b.slots;
  }

  /** Calls on different slots do not interfere: their order does not matter. */
  lemma DistinctSlotsCommute(b: Bridge, m1: int, n1: int, m2: int, n2: int)
    requires 0 <= n1 < |b.slots| && 0 <= n2 < |b.slots| && n1 != n2
    ensures GlobalMutex(GlobalMutex(b, m1, n1), m2, n2) == GlobalMutex(GlobalMutex(b, m2, n2), m1, n1)
  {
    assert GlobalMutex(GlobalMutex(b, m1, n1), m2, n2).slots == GlobalMutex(GlobalMutex(b, m2, n2), m1, n1).slots;
  }

  // ---------------------------------------------------------------------
  // Teardown
  // ---------------------------------------------------------------------

  /** `_global_mutexes_free`, the array's destructor: deregister both
      callbacks, then destroy every slot of the array, whatever its state. */
  method GlobalMutexesFree(b: Bridge) returns (r: Bridge, trace: seq<LockEvent>)
    ensures !r.idCallback && !r.lockingCallback
    ensures |r.slots| == |b.slots|
    ensures forall j :: 0 <= j < |r.slots| ==> r.slots[j] == Destroyed
    ensures trace == TeardownTrace(|b.slots|)
  {
    r := b.(idCallback := false);
    trace := [SetIdCallback(false)];
    r := r.(lockingCallback := false);
    trace := trace + [SetLockingCallback(false)];
    for i := 0 to |b.slots|
      invariant |r.slots| == |b.slots| && !r.idCallback && !r.lockingCallback
      invariant forall j :: 0 <= j < |b.slots| ==> r.slots[j] == if j < i then Destroyed else b.slots[j]
      invariant trace == [SetIdCallback(false), SetLockingCallback(false)] + DestroyTrace(i)
    {
      r := r.(slots := r.slots[i := Destroyed]);
      trace := trace + [MutexDestroy(i)];
    }
  }
}
