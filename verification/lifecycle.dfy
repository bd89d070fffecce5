/**
 Model of `tls_global_init` and `tls_global_cleanup` of src/main/tls/global.c.
 These run the one-time, process-wide bootstrap of OpenSSL and its teardown,
 guarded by the `tls_done_init` flag.

 Calls into OpenSSL become `Event`s appended to a trace.  Two things are
 parameters:
 - `Build`: what was fixed when the code was compiled.
 - `Env`: what the library and the allocator answer during one call.
 The lock-array steps are the ones that `LockBridge.GlobalMutexesInit` and
 `LockBridge.GlobalMutexesFree` are proved to perform: `SetupTrace` and
 `TeardownTrace`.
 */
module Lifecycle {
  import opened Wrappers
  import opened LockBridge

  /** The first `OPENSSL_VERSION_NUMBER` that manages its own locking. */
  const ThreadSafeVersion: nat := 0x10100000

  /** The engine id that is taken out of service as the default RAND source. */
  const RdrandId: string := "rdrand"

  /** Compile-time facts: the OpenSSL headers' version number, and whether
      `HAVE_OPENSSL_EVP_SHA256` is defined. */
  datatype Build = Build(opensslVersion: nat, haveEvpSha256: bool)

  /** Built against a library that needs application-supplied locks (and
      has `tls_global_cleanup`). */
  predicate Legacy(build: Build) {
    build.opensslVersion < ThreadSafeVersion
  }

  /** What the outside world answers during one init call:
      `CRYPTO_num_locks()`, whether allocating the lock array succeeded, and
      the id of the default RAND engine, if there is one. */
  datatype Env = Env(numLocks: nat, lockAllocOk: bool, defaultRand: Option<string>)

  /** Calls into OpenSSL, in the order they are made. */
  datatype Event =
    | LoadErrorStrings
    | LibraryInit
    | AddAllAlgorithms
    | LoadBuiltinEngines
    | AddSha256Digest
    | Lock(step: LockEvent)
    | InitCrypto
    | UnregisterRand
    | RegisterAllComplete
    | LoadConfig
    | EngineCleanup
    | ConfModulesUnload
    | ErrFreeStrings
    | EvpCleanup
    | CleanupExData

  /** The engine and configuration steps that end a successful first init. */
  predicate Finishing(e: Event) {
    e == UnregisterRand || e == RegisterAllComplete || e == LoadConfig
  }

  /** The legacy library-loading calls. */
  predicate Loading(e: Event) {
    e == LoadErrorStrings || e == LibraryInit || e == AddAllAlgorithms || e == LoadBuiltinEngines
      || e == AddSha256Digest
  }

  /** The steps that may happen only after the lock array has been set up. */
  predicate AfterLockSetup(e: Event) {
    e.Lock? || Finishing(e)
  }

  /** Process-wide state: `tls_done_init`, `global_mutexes` and the trace of
      library calls made so far. */
  datatype Tls = Tls(doneInit: bool, mutexes: Option<Bridge>, trace: seq<Event>)

  /** The state at process start. */
  const Start: Tls := Tls(false, None, [])

  /** The return value of `tls_global_init` (0 or -1) and the state after it. */
  datatype InitResult = InitResult(code: int, state: Tls)

  /** The library calls made between two states. */
  function Appended(before: Tls, after: Tls): seq<Event>
    requires |before.trace| <= |after.trace|
  {
    after.trace[|before.trace|..]
  }

  /** Lock-bridge steps as library events. */
  function Lift(t: seq<LockEvent>): (r: seq<Event>)
    ensures |r| == |t|
    ensures forall k :: 0 <= k < |t| ==> r[k] == Lock(t[k])
  {
    seq(|t|, k requires 0 <= k < |t| => Lock(t[k]))
  }

  /** Error strings, library, algorithms, engines and, when built with it,
      SHA-256: the legacy steps before the lock array. */
  function LoadSteps(build: Build): seq<Event> {
    [LoadErrorStrings, LibraryInit, AddAllAlgorithms, LoadBuiltinEngines]
      + (if build.haveEvpSha256 then [AddSha256Digest] else [])
  }

  /** Unregister the default RAND engine when it is rdrand, then always
      re-register every engine's capabilities. */
  function RandSteps(env: Env): seq<Event> {
    (if env.defaultRand == Some(RdrandId) then [UnregisterRand] else []) + [RegisterAllComplete]
  }

  /** A first init gets past the lock array: always on a modern build, and
      on a legacy build when the array could be allocated. */
  predicate InitSucceeds(build: Build, env: Env) {
    !Legacy(build) || env.lockAllocOk
  }

  /** The library calls a first init makes.  A legacy build whose lock
      allocation fails stops right after the load steps. */
  function InitSteps(build: Build, env: Env): seq<Event> {
    if !Legacy(build) then [InitCrypto] + RandSteps(env) + [LoadConfig]
    else if !env.lockAllocOk then LoadSteps(build)
    else LoadSteps(build) + Lift(SetupTrace(env.numLocks)) + (RandSteps(env) + [LoadConfig])
  }

  /** Which steps a first init does and does not make; a proof step of
      `TlsGlobalInit`.  `FirstInitFinishes` states the order of the
      finishing steps as well. */
  lemma InitStepsFacts(build: Build, env: Env)
    ensures !InitSucceeds(build, env) ==> forall e :: e in InitSteps(build, env) ==> !AfterLockSetup(e)
    ensures InitSucceeds(build, env) ==>
              && RegisterAllComplete in InitSteps(build, env)
              && LoadConfig in InitSteps(build, env)
              && (UnregisterRand in InitSteps(build, env) <==> env.defaultRand == Some(RdrandId))
  {
    var tail := RandSteps(env) + [LoadConfig];
    assert RegisterAllComplete in tail && LoadConfig in tail;
    assert UnregisterRand in tail <==> env.defaultRand == Some(RdrandId);
    if Legacy(build) && env.lockAllocOk {
      var t := InitSteps(build, env);
      var pre := LoadSteps(build) + Lift(SetupTrace(env.numLocks));
      assert t == pre + tail;
      assert UnregisterRand !in pre by {
        forall k | 0 <= k < |pre| ensures pre[k] != UnregisterRand {
          if k >= |LoadSteps(build)| {
            assert pre[k] == Lift(SetupTrace(env.numLocks))[k - |LoadSteps(build)|];
          }
        }
      }
    }
  }

  /** The calls appended by one step of the model. */
  lemma AppendedSteps(before: Tls, after: Tls, steps: seq<Event>)
    requires after.trace == before.trace + steps
    ensures Appended(before, after) == steps
  {
  }

  /** `tls_global_init`. */
  function TlsGlobalInit(build: Build, env: Env, s: Tls): (r: InitResult)
    ensures s.doneInit ==> r == InitResult(0, s)
    ensures r.code == 0 || r.code == -1
    ensures r.code == -1 <==> !s.doneInit && Legacy(build) && !env.lockAllocOk
    ensures r.state.doneInit <==> r.code == 0
    ensures s.trace <= r.state.trace
    ensures r.code == -1 ==> r.state.mutexes == None
    ensures r.code == -1 ==> forall e :: e in Appended(s, r.state) ==> !AfterLockSetup(e)
    ensures !s.doneInit && r.code == 0 ==>
              && RegisterAllComplete in Appended(s, r.state)
              && LoadConfig in Appended(s, r.state)
              && (UnregisterRand in Appended(s, r.state) <==> env.defaultRand == Some(RdrandId))
    ensures !s.doneInit && r.code == 0 && Legacy(build) ==> r.state.mutexes == Some(Installed(env.numLocks))
    ensures !Legacy(build) ==> r.state.mutexes == s.mutexes
  {
    if s.doneInit then InitResult(0, s)
    else
      var ok := InitSucceeds(build, env);
      var mutexes := if !Legacy(build) then s.mutexes else if ok then Some(Installed(env.numLocks)) else None;
      var after := Tls(ok, mutexes, s.trace + InitSteps(build, env));
      AppendedSteps(s, after, InitSteps(build, env));
      InitStepsFacts(build, env);
      InitResult(if ok then 0 else -1, after)
  }

  /** The library-wide cleanup calls `tls_global_cleanup` makes before it
      frees the lock array. */
  const CleanupSteps: seq<Event> := [EngineCleanup, ConfModulesUnload, ErrFreeStrings, EvpCleanup, CleanupExData]

  /** `tls_global_cleanup`, which exists only in legacy builds.  Freeing the
      lock array runs its destructor; freeing an absent array does nothing. */
  function TlsGlobalCleanup(build: Build, s: Tls): (r: Tls)
    requires Legacy(build)
    ensures !r.doneInit && r.mutexes == None
    ensures s.trace <= r.trace
    ensures |r.trace| >= |s.trace| + |CleanupSteps|
    ensures Appended(s, r)[..|CleanupSteps|] == CleanupSteps
    ensures s.mutexes == None ==> forall e :: e in Appended(s, r) ==> !e.Lock?
    ensures s.mutexes.Some? ==>
              forall j :: 0 <= j < |s.mutexes.value.slots| ==> Lock(MutexDestroy(j)) in Appended(s, r)
    ensures |Appended(s, r)| == |CleanupSteps| + (if s.mutexes.Some? then 2 + |s.mutexes.value.slots| else 0)
  {
    var freed := match s.mutexes
      case None => []
      case Some(b) => Lift(TeardownTrace(|b.slots|));
    var t := s.trace + (CleanupSteps + freed);
    AppendedSteps(s, Tls(false, None, t), CleanupSteps + freed);
    assert s.mutexes.Some? ==>
             forall j :: 0 <= j < |s.mutexes.value.slots| ==> Lock(MutexDestroy(j)) in CleanupSteps + freed
    by {
      if s.mutexes.Some? {
        TeardownDestroysAll(CleanupSteps, |s.mutexes.value.slots|);
      }
    }
    Tls(false, None, t)
  }

  /** Every slot below `n` is destroyed by a teardown, whatever precedes it. */
  lemma TeardownDestroysAll(pre: seq<Event>, n: nat)
    ensures forall j :: 0 <= j < n ==> Lock(MutexDestroy(j)) in pre + Lift(TeardownTrace(n))
  {
    var t := TeardownTrace(n);
    var a := pre + Lift(t);
    forall j | 0 <= j < n ensures Lock(MutexDestroy(j)) in a {
      assert t[2 + j] == DestroyTrace(n)[j];
      assert a[|pre| + 2 + j] == Lock(t[2 + j]);
    }
  }

  /** The lock-array teardown as library events, starting at position `k`:
      both callbacks are deregistered first, then slots 0 to n - 1 are
      destroyed in order, and `a` destroys nothing anywhere else.  So each
      slot is destroyed exactly once, and only after both deregistrations. */
  ghost predicate TeardownAt(a: seq<Event>, k: nat, n: nat) {
    && |a| >= k + 2 + n
    && a[k] == Lock(SetIdCallback(false))
    && a[k + 1] == Lock(SetLockingCallback(false))
    && (forall j :: 0 <= j < n ==> a[k + 2 + j] == Lock(MutexDestroy(j)))
    && (forall i :: 0 <= i < |a| && !(k + 2 <= i < k + 2 + n) ==> !(a[i].Lock? && a[i].step.MutexDestroy?))
  }

  /** A sequence that is exactly the two deregistrations followed by the
      destruction of slots 0 to n - 1 is a teardown at position 0. */
  lemma TeardownAtStart(a: seq<Event>, n: nat)
    requires |a| == 2 + n
    requires a[0] == Lock(SetIdCallback(false)) && a[1] == Lock(SetLockingCallback(false))
    requires forall j :: 0 <= j < n ==> a[2 + j] == Lock(MutexDestroy(j))
    ensures TeardownAt(a, 0, n)
  {
  }

  /** The lifted teardown trace is a teardown at position 0. */
  lemma LiftedTeardown(n: nat)
    ensures TeardownAt(Lift(TeardownTrace(n)), 0, n)
  {
    var t := TeardownTrace(n);
    forall j | 0 <= j < n ensures t[2 + j] == MutexDestroy(j) {
      assert t[2 + j] == DestroyTrace(n)[j];
    }
    TeardownAtStart(Lift(t), n);
  }

  /** Lock-free steps in front of a teardown only shift its position. */
  lemma TeardownAtShift(pre: seq<Event>, b: seq<Event>, n: nat)
    requires forall e :: e in pre ==> !e.Lock?
    requires TeardownAt(b, 0, n)
    ensures TeardownAt(pre + b, |pre|, n)
  {
    var a := pre + b;
    forall j | 0 <= j < n ensures a[|pre| + 2 + j] == Lock(MutexDestroy(j)) {
      assert a[|pre| + 2 + j] == b[2 + j];
    }
    forall i | |pre| <= i < |a| ensures a[i] == b[i - |pre|] {
    }
  }

  /** Cleanup of an installed lock array, after the five library cleanups,
      deregisters the id and then the locking callback, and only then
      destroys slots 0 to n - 1 in order, each exactly once. */
  lemma CleanupOrder(build: Build, s: Tls)
    requires Legacy(build) && s.mutexes.Some?
    ensures TeardownAt(Appended(s, TlsGlobalCleanup(build, s)), |CleanupSteps|, |s.mutexes.value.slots|)
  {
    var n := |s.mutexes.value.slots|;
    var r := TlsGlobalCleanup(build, s);
    AppendedSteps(s, r, CleanupSteps + Lift(TeardownTrace(n)));
    LiftedTeardown(n);
    TeardownAtShift(CleanupSteps, Lift(TeardownTrace(n)), n);
  }

  /** The library calling the registered locking callback: only slot `n`
      of the array changes, and nothing else of the process state. */
  function LockCallback(s: Tls, mode: int, n: int): (r: Tls)
    requires s.mutexes.Some? && 0 <= n < |s.mutexes.value.slots|
    ensures r.doneInit == s.doneInit && r.trace == s.trace
    ensures r.mutexes.Some? && |r.mutexes.value.slots| == |s.mutexes.value.slots|
    ensures r.mutexes.value.idCallback == s.mutexes.value.idCallback
    ensures r.mutexes.value.lockingCallback == s.mutexes.value.lockingCallback
    ensures r.mutexes.value.slots[n] == if LockRequested(mode) then Held else Free
    ensures forall j :: 0 <= j < |s.mutexes.value.slots| && j != n ==>
              r.mutexes.value.slots[j] == s.mutexes.value.slots[j]
  {
    s.(mutexes := Some(GlobalMutex(s.mutexes.value, mode, n)))
  }

  /** What holds between calls: in legacy builds the lock array exists
      exactly while initialised, with both callbacks registered and every
      slot usable; modern builds never have one. */
  ghost predicate Consistent(build: Build, s: Tls) {
    && (Legacy(build) ==> (s.doneInit <==> s.mutexes.Some?))
    && (!Legacy(build) ==> s.mutexes == None)
    && (s.mutexes.Some? ==>
          && s.mutexes.value.idCallback
          && s.mutexes.value.lockingCallback
          && forall j :: 0 <= j < |s.mutexes.value.slots| ==> s.mutexes.value.slots[j] in {Free, Held})
  }

  lemma StartConsistent(build: Build)
    ensures Consistent(build, Start)
  {
  }

  /** Init, cleanup and the locking callback all keep `Consistent`. */
  lemma OperationsPreserveConsistent(build: Build, env: Env, s: Tls, mode: int, n: int)
    requires Consistent(build, s)
    ensures Consistent(build, TlsGlobalInit(build, env, s).state)
    ensures Legacy(build) ==> Consistent(build, TlsGlobalCleanup(build, s))
    ensures s.mutexes.Some? && 0 <= n < |s.mutexes.value.slots| ==> Consistent(build, LockCallback(s, mode, n))
  {
    var i := TlsGlobalInit(build, env, s);
    if i.state.mutexes.Some? && i.state.mutexes != s.mutexes {
      assert i.state.mutexes == Some(Installed(env.numLocks));
    }
    if s.mutexes.Some? && 0 <= n < |s.mutexes.value.slots| {
      var r := LockCallback(s, mode, n);
      forall j | 0 <= j < |r.mutexes.value.slots| ensures r.mutexes.value.slots[j] in {Free, Held} {
        if j != n {
          assert s.mutexes.value.slots[j] in {Free, Held};
        }
      }
    }
  }

  /** A second init after a successful one is a no-op, whatever the library
      would answer this time. */
  lemma InitIdempotent(build: Build, env1: Env, env2: Env, s: Tls)
    requires TlsGlobalInit(build, env1, s).code == 0
    ensures TlsGlobalInit(build, env2, TlsGlobalInit(build, env1, s).state)
              == TlsGlobalInit(build, env1, s)
  {
  }

  /** After cleanup the flag is clear again, so init then cleanup then init
      performs the whole setup a second time, call for call. */
  lemma InitCleanupInit(build: Build, env: Env, s: Tls)
    requires Legacy(build) && !s.doneInit && env.lockAllocOk
    ensures var r1 := TlsGlobalInit(build, env, s);
            var c := TlsGlobalCleanup(build, r1.state);
            var r2 := TlsGlobalInit(build, env, c);
            && r1.code == 0 && r1.state.doneInit
            && !c.doneInit
            && r2.code == 0 && r2.state.doneInit
            && Appended(c, r2.state) == Appended(s, r1.state)
  {
    var r1 := TlsGlobalInit(build, env, s);
    var c := TlsGlobalCleanup(build, r1.state);
    var r2 := TlsGlobalInit(build, env, c);
    AppendedSteps(s, r1.state, InitSteps(build, env));
    AppendedSteps(c, r2.state, InitSteps(build, env));
  }

  /** A first init appends exactly `InitSteps`. */
  lemma FirstInitAppends(build: Build, env: Env, s: Tls)
    requires !s.doneInit
    ensures Appended(s, TlsGlobalInit(build, env, s).state) == InitSteps(build, env)
  {
    AppendedSteps(s, TlsGlobalInit(build, env, s).state, InitSteps(build, env));
  }

  /** Steps that make no load call, placed after `pre`, leave `pre` as the
      prefix and add no load call after it. */
  lemma LoadsOnlyInPrefix(pre: seq<Event>, rest: seq<Event>)
    requires forall e :: e in rest ==> !Loading(e)
    ensures (pre + rest)[..|pre|] == pre
    ensures forall i :: |pre| <= i < |pre| + |rest| ==> !Loading((pre + rest)[i])
  {
    forall i | |pre| <= i < |pre| + |rest| ensures !Loading((pre + rest)[i]) {
      assert (pre + rest)[i] == rest[i - |pre|];
    }
  }

  /** The finishing steps of a successful init, after steps that are not
      finishing ones, end the sequence and occur nowhere before. */
  lemma FinishingOnlyAtEnd(pre: seq<Event>, env: Env)
    requires forall e :: e in pre ==> !Finishing(e)
    ensures var a := pre + (RandSteps(env) + [LoadConfig]);
            var t := if env.defaultRand == Some(RdrandId) then 3 else 2;
            && |a| >= t
            && a[|a| - 1] == LoadConfig
            && a[|a| - 2] == RegisterAllComplete
            && (t == 3 ==> a[|a| - 3] == UnregisterRand)
            && forall i :: 0 <= i < |a| - t ==> !Finishing(a[i])
  {
    var tail := RandSteps(env) + [LoadConfig];
    var a := pre + tail;
    forall i | 0 <= i < |pre| ensures !Finishing(a[i]) {
      assert a[i] == pre[i];
    }
  }

  /** The first calls of a legacy first init, stated over `InitSteps`. */
  lemma LegacyInitStepsLoads(build: Build, env: Env)
    requires Legacy(build)
    ensures var a := InitSteps(build, env);
            var k := |LoadSteps(build)|;
            && |a| >= k
            && a[..k] == LoadSteps(build)
            && forall i :: k <= i < |a| ==> !Loading(a[i])
  {
    if env.lockAllocOk {
      var locks := Lift(SetupTrace(env.numLocks));
      var rest := locks + (RandSteps(env) + [LoadConfig]);
      assert forall e :: e in rest ==> !Loading(e) by {
        forall e | e in rest ensures !Loading(e) {
          var i :| 0 <= i < |rest| && rest[i] == e;
          if i < |locks| {
            assert rest[i] == locks[i];
          }
        }
      }
      assert InitSteps(build, env) == LoadSteps(build) + rest;
      LoadsOnlyInPrefix(LoadSteps(build), rest);
    } else {
      LoadsOnlyInPrefix(LoadSteps(build), []);
      assert LoadSteps(build) + [] == LoadSteps(build);
    }
  }

  /** A modern first init starts with `OPENSSL_init_crypto` and makes no
      load and no lock call, stated over `InitSteps`. */
  lemma ModernInitStepsLoads(build: Build, env: Env)
    requires !Legacy(build)
    ensures |InitSteps(build, env)| > 0 && InitSteps(build, env)[0] == InitCrypto
    ensures forall e :: e in InitSteps(build, env) ==> !Loading(e) && !e.Lock?
  {
    var a := InitSteps(build, env);
    forall e | e in a ensures !Loading(e) && !e.Lock? {
      var i :| 0 <= i < |a| && a[i] == e;
    }
  }

  /** The last calls of a successful first init, stated over `InitSteps`. */
  lemma InitStepsFinish(build: Build, env: Env)
    requires InitSucceeds(build, env)
    ensures var a := InitSteps(build, env);
            var t := if env.defaultRand == Some(RdrandId) then 3 else 2;
            && |a| >= t
            && a[|a| - 1] == LoadConfig
            && a[|a| - 2] == RegisterAllComplete
            && (t == 3 ==> a[|a| - 3] == UnregisterRand)
            && forall i :: 0 <= i < |a| - t ==> !Finishing(a[i])
  {
    if Legacy(build) {
      var pre := LoadSteps(build) + Lift(SetupTrace(env.numLocks));
      forall e | e in pre ensures !Finishing(e) {
        if e !in LoadSteps(build) {
          var i :| 0 <= i < |pre| && pre[i] == e;
          assert pre[i] == Lift(SetupTrace(env.numLocks))[i - |LoadSteps(build)|];
        }
      }
      FinishingOnlyAtEnd(pre, env);
    } else {
      FinishingOnlyAtEnd([InitCrypto], env);
    }
  }

  /** How a first init begins.  A legacy build first makes the four load
      calls in source order, then adds SHA-256 exactly when built with it,
      and makes no load call afterwards; when the lock array cannot be
      allocated it makes nothing but the loads.  A modern build starts with
      `OPENSSL_init_crypto` and makes no load and no lock call. */
  lemma FirstInitLoads(build: Build, env: Env, s: Tls)
    requires !s.doneInit
    ensures var a := Appended(s, TlsGlobalInit(build, env, s).state);
            && (Legacy(build) ==>
                  && |a| >= 4
                  && a[..4] == [LoadErrorStrings, LibraryInit, AddAllAlgorithms, LoadBuiltinEngines]
                  && (build.haveEvpSha256 <==> |a| >= 5 && a[4] == AddSha256Digest)
                  && (forall i :: (if build.haveEvpSha256 then 5 else 4) <= i < |a| ==> !Loading(a[i]))
                  && (!env.lockAllocOk ==> |a| == if build.haveEvpSha256 then 5 else 4))
            && (!Legacy(build) ==>
                  && |a| > 0 && a[0] == InitCrypto
                  && forall e :: e in a ==> !Loading(e) && !e.Lock?)
  {
    FirstInitAppends(build, env, s);
    var a := InitSteps(build, env);
    if Legacy(build) {
      LegacyInitStepsLoads(build, env);
      var k := |LoadSteps(build)|;
      assert a[..4] == a[..k][..4];
      if !build.haveEvpSha256 && |a| >= 5 {
        assert !Loading(a[4]);
      }
    } else {
      ModernInitStepsLoads(build, env);
    }
  }

  /** How a successful first init ends: it unregisters rdrand when that is
      the default RAND engine, then registers all engines, then loads the
      configuration, and none of these three calls happens earlier.  A
      modern build makes `OPENSSL_init_crypto` and these calls only. */
  lemma FirstInitFinishes(build: Build, env: Env, s: Tls)
    requires !s.doneInit && InitSucceeds(build, env)
    ensures var a := Appended(s, TlsGlobalInit(build, env, s).state);
            var t := if env.defaultRand == Some(RdrandId) then 3 else 2;
            && |a| >= t
            && a[|a| - 1] == LoadConfig
            && a[|a| - 2] == RegisterAllComplete
            && (t == 3 ==> a[|a| - 3] == UnregisterRand)
            && (forall i :: 0 <= i < |a| - t ==> !Finishing(a[i]))
            && (!Legacy(build) ==> |a| == 1 + t)
  {
    FirstInitAppends(build, env, s);
    InitStepsFinish(build, env);
  }

  /** The lock steps of a successful setup of `n` locks, as library events:
      the `n` initialisations in index order, then the two registrations. */
  ghost predicate LockStepsAt(a: seq<Event>, k: nat, n: nat) {
    && |a| >= k + n + 2
    && (forall j :: 0 <= j < n ==> a[k + j] == Lock(MutexInit(j)))
    && a[k + n] == Lock(SetIdCallback(true))
    && a[k + n + 1] == Lock(SetLockingCallback(true))
  }

  lemma LockStepsAtConcat(pre: seq<Event>, mid: seq<Event>, tail: seq<Event>, n: nat)
    requires LockStepsAt(mid, 0, n)
    ensures LockStepsAt(pre + mid + tail, |pre|, n)
  {
    var a := pre + mid + tail;
    forall j | 0 <= j < n + 2 ensures a[|pre| + j] == mid[j] {
    }
  }

  /** Where the lock steps sit in a successful legacy first init, and that
      no lock step follows them. */
  lemma LegacyInitStepsLayout(build: Build, env: Env)
    requires Legacy(build) && env.lockAllocOk
    ensures LockStepsAt(InitSteps(build, env), |LoadSteps(build)|, env.numLocks)
    ensures forall i :: |LoadSteps(build)| + env.numLocks + 2 <= i < |InitSteps(build, env)| ==>
              !InitSteps(build, env)[i].Lock?
  {
    var k, n := |LoadSteps(build)|, env.numLocks;
    var locks := Lift(SetupTrace(n));
    var tail := RandSteps(env) + [LoadConfig];
    assert LockStepsAt(locks, 0, n) by {
      assert SetupTrace(n)[n] == SetIdCallback(true);
      assert SetupTrace(n)[n + 1] == SetLockingCallback(true);
    }
    LockStepsAtConcat(LoadSteps(build), locks, tail, n);
    var a := LoadSteps(build) + locks + tail;
    assert a == InitSteps(build, env);
    forall i | k + n + 2 <= i < |a| ensures !a[i].Lock? {
      assert a[i] == tail[i - k - n - 2];
    }
  }

  /** In a successful legacy first init, the engine and configuration steps
      fill everything after the two callback registrations. */
  lemma LegacyInitStepsTail(build: Build, env: Env)
    requires Legacy(build) && env.lockAllocOk
    ensures var k, n := |LoadSteps(build)|, env.numLocks;
            && |InitSteps(build, env)| >= k + n + 2
            && InitSteps(build, env)[k + n + 2..] == RandSteps(env) + [LoadConfig]
  {
    var pre := LoadSteps(build) + Lift(SetupTrace(env.numLocks));
    assert InitSteps(build, env) == pre + (RandSteps(env) + [LoadConfig]);
  }

  /** On a legacy build, a successful first init makes the load calls, then
      sets up every slot, then registers the callbacks, and only after that
      makes the engine and configuration steps, none of them a lock step. */
  lemma LegacyInitOrder(build: Build, env: Env, s: Tls)
    requires Legacy(build) && !s.doneInit && env.lockAllocOk
    ensures var a := Appended(s, TlsGlobalInit(build, env, s).state);
            var k := |LoadSteps(build)|;
            var n := env.numLocks;
            && |a| >= k + n + 2
            && a[..k] == LoadSteps(build)
            && LockStepsAt(a, k, n)
            && a[k + n + 2..] == RandSteps(env) + [LoadConfig]
            && (forall i :: k + n + 2 <= i < |a| ==> !a[i].Lock?)
  {
    FirstInitAppends(build, env, s);
    LegacyInitStepsLayout(build, env);
    LegacyInitStepsLoads(build, env);
    LegacyInitStepsTail(build, env);
  }
}
