# FreeRADIUS TLS global setup, modelled in Dafny

This project models `src/main/tls/global.c`. That file does the process-wide
OpenSSL bootstrap for the FreeRADIUS server. Three of its parts are modelled:

- **Version gate** (`version_gate.dfy`, module `VersionGate`).
  `tls_global_version_check` compares the runtime libssl version with a
  static table of defective version ranges. The table is newest first and
  today holds only Heartbleed. The operator can silence the gate with `"yes"`
  or with the identifier of the newest table entry. Otherwise the whole table
  is scanned, and every entry whose inclusive range contains the version is
  reported. The table is a parameter, so the properties hold for any
  non-empty table; `LibsslDefects` is the shipped one.
- **Legacy lock bridge** (`lock_bridge.dfy`, module `LockBridge`). OpenSSL
  releases before 1.1.0 need the application to supply their locks.
  `global_mutexes_init` allocates exactly `CRYPTO_num_locks()` mutexes. It
  initialises them through 41 guarded `SETUP_CRYPTO_LOCK` steps plus a
  catch-up loop, and only then registers the id and locking callbacks.
  `_global_mutexes_free` deregisters both callbacks and then destroys every
  mutex. `_global_mutex` locks or unlocks one slot. Each mutex is one slot
  state (`Uninit`, `Free`, `Held`, `Destroyed`). Setup and teardown record
  their steps in a trace of `LockEvent`s, so that their order can be stated.
- **Lifecycle** (`lifecycle.dfy`, module `Lifecycle`). `tls_global_init` and
  `tls_global_cleanup` are guarded by the `tls_done_init` flag. Each OpenSSL
  call becomes an `Event` appended to the state's trace. Three things are
  parameters:
  - `Build`: the compile-time choices, namely `OPENSSL_VERSION_NUMBER` below
    `0x10100000` and `HAVE_OPENSSL_EVP_SHA256`.
  - `Env`: what the library and the allocator answer during one call, namely
    `CRYPTO_num_locks()`, whether the lock array was allocated, and the
    default RAND engine's id.
  - The runtime version (`SSLeay()`), which is a parameter of the gate.
- **Wrappers** (`wrappers.dfy`, module `Wrappers`) holds the `Option` type
  that the lock bridge and the lifecycle share.

The methods `GlobalMutexesInit` and `GlobalMutexesFree` are proved to produce
exactly `Installed(n)`/`SetupTrace(n)` and `TeardownTrace(n)`. The lifecycle
functions use those traces for the lock-array steps, which lets their
properties be stated as lemmas over pure functions.

The lock array has exactly `CRYPTO_num_locks()` slots
(src/main/tls/global.c:140). Index 0 is one of them and is initialised like
every other slot (src/main/tls/global.c:154-157), so the model's array has
exactly `numLocks` slots, numbered 0 to `numLocks - 1`.

## Model

| member | source | states |
|---|---|---|
| VersionGate.Matching | src/main/tls/global.c:229-240 | The records reported for a version are exactly those in the table whose range contains it, and there are never more of them than table entries. |
| VersionGate.Gate | src/main/tls/global.c:218-250 | The answer is 0 or -1. An acknowledgment equal to entry 0's id or to "yes" passes with nothing reported, whatever the version. Otherwise the gate refuses iff some record has low <= v <= high, and the reported records are exactly the affected ones. -1 goes with a non-empty report. |
| VersionGate.VersionCheck | src/main/tls/global.c:218-250 | The source's structure: acknowledgment test, then one loop over the whole table that appends each affected record. It returns exactly the declarative gate's verdict and report, and -1 iff the check was not acknowledged and some record covers the version. |
| VersionGate.MatchingAppend | src/main/tls/global.c:229-240 | The scan does not stop at the first hit. Scanning a concatenation reports the first part's matches followed by the second part's, so every match is reported, in table order. |
| VersionGate.MatchingCount | src/main/tls/global.c:229-240 | Each record is reported as many times as it occurs in the table if it affects the version, and never otherwise. |
| VersionGate.GateIgnoresOrderAfterNewest | src/main/tls/global.c:222-246 | Two tables with the same entry 0 and the same multiset of remaining entries give the same return code and the same multiset of reported records. |
| VersionGate.RangeBoundsInclusive | src/main/tls/global.c:232 | For a one-record table and without an acknowledgment, a version equal to low or to high is refused. low - 1 and high + 1 pass, where they are valid 64-bit versions. |
| VersionGate.HeartbleedGate | src/main/tls/global.c:54-63 | With the shipped table, the gate refuses exactly when the acknowledgment is neither "CVE-2014-0160" nor "yes" and the version is in 0x010001000..0x01000106f. |
| LockBridge.SetupCryptoLock | src/main/tls/global.c:138 | One guarded step. It initialises slot i and advances i only while i is below the lock count, so it never indexes past the array and keeps slots [0, i) initialised in order. |
| LockBridge.GlobalMutexesInit | src/main/tls/global.c:133-208 | If allocation fails, there is no bridge and no step. Otherwise there are exactly numLocks slots, all initialised and free, and both callbacks are registered. The steps are exactly the setup trace: slots 0 to numLocks - 1 in order, then the two registrations. This holds whether numLocks is below, equal to or above 41. |
| LockBridge.SetupTraceOrdered | src/main/tls/global.c:157-205 | The setup trace initialises each index below n exactly once and no other index. Every callback registration comes after all n initialisations, and nothing is destroyed. |
| LockBridge.GlobalMutex | src/main/tls/global.c:96-103 | Slot n becomes held when the mode has the CRYPTO_LOCK bit and free otherwise. Every other slot and both callback flags are unchanged. |
| LockBridge.LockThenUnlock | src/main/tls/global.c:96-103 | Locking a free slot and then unlocking it gives back the original bridge. |
| LockBridge.DistinctSlotsCommute | src/main/tls/global.c:96-103 | Lock and unlock calls on two different slots give the same result in either order, so each index is independently lockable. |
| LockBridge.GlobalMutexesFree | src/main/tls/global.c:108-124 | Both callbacks end deregistered, and every slot of the array ends destroyed, whatever its state was. The steps are exactly the teardown trace: the two deregistrations, then slots 0 to n - 1 in order. |
| LockBridge.TeardownTraceOrdered | src/main/tls/global.c:115-121 | The teardown trace clears the id and the locking callback before any destruction, destroys each index below n exactly once, and initialises nothing. |
| Lifecycle.InitStepsFacts | src/main/tls/global.c:282-301 | A first init whose lock allocation fails makes no lock, rdrand, register-all or config call. One that succeeds always registers all engines and loads the config, and unregisters rdrand iff the default RAND engine's id is "rdrand". |
| Lifecycle.TlsGlobalInit | src/main/tls/global.c:258-304 | An already-initialised state comes back unchanged with 0. -1 happens iff a legacy build's lock allocation fails; then the flag stays false, there is no lock array, and no lock, rdrand, register-all or config step is appended. On success the flag is set, register-all and config are appended, and rdrand is unregistered iff the default RAND engine's id is "rdrand". A legacy success installs exactly numLocks free slots. |
| Lifecycle.FirstInitLoads | src/main/tls/global.c:264-288 | On a legacy build a first init begins with the error-string, library, algorithm and engine loads in that order. It then adds SHA-256 iff built with it, and makes no load call afterwards. This holds whether or not the lock array is allocated, and when it is not, the loads are the only calls. On a modern build it begins with `OPENSSL_init_crypto` and makes no load and no lock call. |
| Lifecycle.FirstInitFinishes | src/main/tls/global.c:296-301 | A successful first init ends with register-all and then config. Directly before them, rdrand is unregistered when it is the default RAND engine. None of these three calls happens any earlier. On a modern build these calls and the single `OPENSSL_init_crypto` are all it makes. |
| Lifecycle.TlsGlobalCleanup | src/main/tls/global.c:311-324 | The flag is cleared and the lock array is gone. The five library cleanups come first. With no lock array there are no lock steps. Otherwise every slot's destruction is appended. Nothing else is appended: the five cleanups, plus the two deregistrations and one destruction per slot when there is an array. |
| Lifecycle.CleanupOrder | src/main/tls/global.c:311-324 | With a lock array of n slots, freeing it (the destructor at src/main/tls/global.c:108-124) follows right after the five library cleanups: the id callback is deregistered, then the locking callback, then slots 0 to n - 1 are destroyed in order. No other appended step destroys a slot, so each slot is destroyed exactly once and only after both callbacks are gone. |
| Lifecycle.LockCallback | src/main/tls/global.c:96-103 | A callback invocation changes only slot n of the installed array: the flag, the trace, the callback flags and every other slot stay as they were. |
| Lifecycle.StartConsistent | src/main/tls/global.c:66-80 | The process starts uninitialised without a lock array, which satisfies the invariant. |
| Lifecycle.OperationsPreserveConsistent | src/main/tls/global.c:258-324 | Init, cleanup and the locking callback keep the invariant. In a legacy build the lock array exists iff the flag is set, with both callbacks registered and every slot free or held. A modern build never has a lock array. |
| Lifecycle.InitIdempotent | src/main/tls/global.c:262 | A second init after a successful one returns the same result and state, whatever the library would answer. |
| Lifecycle.InitCleanupInit | src/main/tls/global.c:300-323 | Init, cleanup, init on a legacy build: both inits succeed, cleanup clears the flag, and the second init appends exactly the steps the first appended. |
| Lifecycle.LegacyInitStepsLayout | src/main/tls/global.c:264-298 | In a successful legacy first init, the lock steps start at offset |LoadSteps(build)|: every slot's initialisation in index order, then the id and the locking callback registrations. No lock step comes after them. |
| Lifecycle.LegacyInitOrder | src/main/tls/global.c:264-301 | A successful legacy first init appends exactly the load steps first, then every slot's initialisation in index order, then the id and locking callback registrations. Everything after those is the rdrand check, register-all and config, and none of it is a lock step. |

## Left out

- The OpenSSL calls themselves (`SSL_library_init`, `ENGINE_*`, `EVP_*`, `OPENSSL_init_crypto`, `OPENSSL_config`, `SSLeay`, `CRYPTO_num_locks`) are foreign code. They appear as trace events, or their answers are parameters (`Env`, the gate's version argument).
- `_thread_id` (src/main/tls/global.c:82-94) copies the bytes of a `pthread_t` into an `unsigned long`. That depends on the platform's sizes, and it promises nothing beyond "some integer". The id callback appears only as the `idCallback` flag.
- Real mutex semantics and concurrent callback calls are not modelled. A mutex is one sequential slot state: a lock call leaves the slot held and an unlock leaves it free. Blocking, and locking a held slot twice, are outside the model.
- `FR_TLS_REMOVE_THREAD_STATE` in `tls_global_cleanup` is defined outside `global.c` and is not part of this model.
- The `fr_tls_max_threads` global is not used by the modelled code.
- Log text (`ERROR`, `INFO`, `ssl_version`, `ssl_version_range`) is left out. The records the gate would log are returned as its report instead.
- talloc is left out: the array's destructor is `GlobalMutexesFree`, and a failed allocation is the `lockAllocOk` parameter. Allocating 0 slots is treated like any other count.
- `ENGINE_get_default_RAND` returns an engine reference that the source never releases. Reference counts are not modelled.
- `tls_global_init` sets the flag just before `OPENSSL_config`, not after it. With one thread this ordering is unobservable, so the model appends the config step and sets the flag together.
- LockBridge.GlobalMutex: `n` must be a valid index. The source does not check it and relies on OpenSSL passing an index below `CRYPTO_num_locks()`.
- Lifecycle.TlsGlobalCleanup: requires a legacy build, because the function is only compiled for OpenSSL before 1.1.0.
- Lifecycle.LockCallback: requires an installed lock array, because OpenSSL only calls the locking callback while one is registered.
- LockBridge.GlobalMutexesFree: destroying a held mutex is modelled as destroying it. POSIX makes that `EBUSY` or undefined, and the source ignores the return value of `pthread_mutex_destroy` (src/main/tls/global.c:121).
- `Env.numLocks` is read once per init. The source calls `CRYPTO_num_locks()` at every guarded setup step and for the allocation (src/main/tls/global.c:138, 140, 202), so the model assumes the answer does not change during one init. OpenSSL 1.0 returns the constant `CRYPTO_NUM_LOCKS`.
- Lifecycle.InitStepsFacts: states which of the rdrand, register-all and config calls a first init makes, not their order. Lifecycle.FirstInitFinishes states the order.
- Lifecycle.TlsGlobalInit: its contract states the flag, return code, lock array and which finishing calls occur. The order of the calls, the load calls and the absence of any other call are stated by Lifecycle.FirstInitLoads (including a failed legacy init), Lifecycle.FirstInitFinishes (including a modern init) and Lifecycle.LegacyInitOrder (a successful legacy init).
