/** The bake lock: exactly when every live owner keeps the lock file that it created, so that
    there is at most one, for all steps of the lock loop; and that writing the file as it is
    created, removing it as it is found stale and a truthful liveness probe see to that. */
module BakeExclusion {
  import opened Bytes
  import opened BakeProtocol
  import LockFile

  predicate LiveOwner(b: Build) { b.alive && b.owns }

  // ---------------------------------------------------------------- every owner has its own file

  /** The lock file that is present is the one that build `n` created. */
  predicate OwnLock(c: Cache, n: nat) { c.lock.Some? && c.lock.value.inode == n }

  ghost predicate OwnFile(s: State) {
    forall i :: 0 <= i < |s.builds| && LiveOwner(s.builds[i]) ==> OwnLock(s.cache, i)
  }

  ghost predicate NoLiveOwner(s: State) { forall i :: 0 <= i < |s.builds| ==> !LiveOwner(s.builds[i]) }

  /** The step removes a lock file as stale. */
  predicate Steals(s: State, e: Event) {
    e.Remove? || (e.Inspect? && LockFile.Stale(LockContents(s.cache), e.now, e.probe))
  }

  /** A build writes its pid while the file it created is still the lock file, and a lock file
      is stolen only when no live build owns the lock. */
  ghost predicate Guarded(s: State, e: Event) {
    && (e.Write? ==> OwnLock(s.cache, e.b))
    && (Steals(s, e) ==> NoLiveOwner(s))
  }

  lemma {:induction false} OneOwner(s: State, i: nat, j: nat)
    requires OwnFile(s) && i < |s.builds| && j < |s.builds|
    requires LiveOwner(s.builds[i]) && LiveOwner(s.builds[j])
    ensures i == j
  {
    assert s.cache.lock.value.inode == i;
  }

  lemma {:induction false} StealKeepsOwners(hash: Hash, s: State, e: Event, i: nat)
    requires Apply(hash, s, e).Some? && Steals(s, e) && i < |s.builds| && LiveOwner(s.builds[i])
    ensures var s' := Apply(hash, s, e).value; LiveOwner(s'.builds[i]) && s'.cache.lock.None?
  {
  }

  lemma {:induction false} OwnFileSteal(hash: Hash, s: State, e: Event)
    requires OwnFile(s) && Apply(hash, s, e).Some? && Steals(s, e)
    ensures OwnFile(Apply(hash, s, e).value) <==> NoLiveOwner(s)
  {
    var s' := Apply(hash, s, e).value;
    if !NoLiveOwner(s) {
      var i :| 0 <= i < |s.builds| && LiveOwner(s.builds[i]);
      StealKeepsOwners(hash, s, e, i);
    } else {
      assert forall i :: 0 <= i < |s.builds| && LiveOwner(s'.builds[i]) ==> LiveOwner(s.builds[i]);
    }
  }

  lemma {:induction false} OwnFileWrite(hash: Hash, s: State, e: Event)
    requires OwnFile(s) && Apply(hash, s, e).Some? && e.Write?
    ensures OwnFile(Apply(hash, s, e).value) <==> OwnLock(s.cache, e.b)
  {
    var s' := Apply(hash, s, e).value;
    assert LiveOwner(s'.builds[e.b]);
    assert forall i :: 0 <= i < |s.builds| && i != e.b ==> s'.builds[i] == s.builds[i];
  }

  lemma {:induction false} OwnFileLock(hash: Hash, s: State, e: Event)
    requires OwnFile(s) && Apply(hash, s, e).Some? && !IsOutside(e) && !IsPrivate(e) && !e.Publish? && !e.Stamp?
    requires !e.Write? && !Steals(s, e)
    ensures OwnFile(Apply(hash, s, e).value)
  {
    var s' := Apply(hash, s, e).value;
    assert forall i :: 0 <= i < |s.builds| && i != e.b ==> s'.builds[i] == s.builds[i];
    if e.Unlock? && s.builds[e.b].owns {
      assert OwnLock(s.cache, e.b);
    }
  }

  /** The exact condition, for any step whatever: the owners still have their own lock file
      afterwards if and only if the step was guarded. */
  lemma {:induction false} OwnFileStep(hash: Hash, s: State, e: Event)
    requires OwnFile(s) && Apply(hash, s, e).Some?
    ensures OwnFile(Apply(hash, s, e).value) <==> Guarded(s, e)
  {
    if IsOutside(e) {
    } else if IsPrivate(e) {
      ApplyPrivate(hash, s, e);
      PrivateIdentity(hash, s.order, s.cache, s.builds[e.b], e);
    } else if e.Publish? || e.Stamp? {
      SharedIdentity(hash, s.order, s.cache, e.b, s.builds[e.b], e);
    } else if e.Write? {
      OwnFileWrite(hash, s, e);
    } else if Steals(s, e) {
      OwnFileSteal(hash, s, e);
    } else {
      OwnFileLock(hash, s, e);
    }
  }

  ghost predicate GuardedRun(hash: Hash, s: State, events: seq<Event>)
    decreases |events|
  {
    events == [] ||
    (&& Guarded(s, events[0])
     && (Apply(hash, s, events[0]).Some? ==> GuardedRun(hash, Apply(hash, s, events[0]).value, events[1..])))
  }

  /** In the state where the run starts and in every state that it reaches. */
  ghost predicate OwnFileThroughout(hash: Hash, s: State, events: seq<Event>)
    decreases |events|
  {
    && OwnFile(s)
    && (events != [] && Apply(hash, s, events[0]).Some? ==>
          OwnFileThroughout(hash, Apply(hash, s, events[0]).value, events[1..]))
  }

  /** The same, for whole runs. */
  lemma {:induction false} OwnFileRun(hash: Hash, s: State, events: seq<Event>)
    requires OwnFile(s) && Run(hash, s, events).Some?
    ensures OwnFileThroughout(hash, s, events) <==> GuardedRun(hash, s, events)
    decreases |events|
  {
    if events != [] {
      OwnFileStep(hash, s, events[0]);
      if Guarded(s, events[0]) {
        OwnFileRun(hash, Apply(hash, s, events[0]).value, events[1..]);
      }
    }
  }

  lemma {:induction false} OwnFileAtEnd(hash: Hash, s: State, events: seq<Event>)
    requires OwnFileThroughout(hash, s, events) && Run(hash, s, events).Some?
    ensures OwnFile(Run(hash, s, events).value)
    decreases |events|
  {
    if events != [] {
      OwnFileAtEnd(hash, Apply(hash, s, events[0]).value, events[1..]);
    }
  }

  /** Mutual exclusion: after any guarded run, of the steps that the source takes or of larger
      ones, from any lock file left behind, at most one live build believes that it owns the
      bake lock. */
  lemma {:induction false} AtMostOneOwner(hash: Hash, s: State, events: seq<Event>, i: nat, j: nat)
    requires Init(hash, s) && GuardedRun(hash, s, events) && Run(hash, s, events).Some?
    requires i < |Run(hash, s, events).value.builds| && j < |Run(hash, s, events).value.builds|
    requires LiveOwner(Run(hash, s, events).value.builds[i]) && LiveOwner(Run(hash, s, events).value.builds[j])
    ensures i == j
  {
    OwnFileRun(hash, s, events);
    OwnFileAtEnd(hash, s, events);
    OneOwner(Run(hash, s, events).value, i, j);
  }

  /** What a theft from a live owner leads to: any other build at the lock may take it too. */
  lemma {:induction false} TheftMakesTwoOwners(hash: Hash, s: State, e: Event, i: nat, j: nat, now: nat)
    requires Apply(hash, s, e).Some? && Steals(s, e)
    requires i < |s.builds| && j < |s.builds| && i != j && LiveOwner(s.builds[i])
    requires s.builds[j].alive && s.builds[j].phase == Locking
    ensures var s' := Apply(hash, s, e).value;
      && Apply(hash, s', Acquire(j, now)).Some? && |Apply(hash, s', Acquire(j, now)).value.builds| == |s.builds|
      && LiveOwner(Apply(hash, s', Acquire(j, now)).value.builds[i])
      && LiveOwner(Apply(hash, s', Acquire(j, now)).value.builds[j])
  {
    var s' := Apply(hash, s, e).value;
    assert s'.builds[j].alive && s'.builds[j].phase == Locking && s'.cache.lock.None?;
  }

  /** And what it leads to that a build writes after its file was removed: it believes that it
      owns the lock, and any other build at the lock may take it too. */
  lemma {:induction false} StrayWriteMakesTwoOwners(hash: Hash, s: State, e: Event, j: nat, now: nat)
    requires Apply(hash, s, e).Some? && e.Write? && s.cache.lock.None?
    requires j < |s.builds| && e.b != j && s.builds[j].alive && s.builds[j].phase == Locking
    ensures var s' := Apply(hash, s, e).value;
      && Apply(hash, s', Acquire(j, now)).Some?
      && LiveOwner(Apply(hash, s', Acquire(j, now)).value.builds[e.b])
      && LiveOwner(Apply(hash, s', Acquire(j, now)).value.builds[j])
  {
    var s' := Apply(hash, s, e).value;
    assert LiveOwner(s'.builds[e.b]) && s'.builds[j] == s.builds[j] && s'.cache.lock.None?;
  }

  // ---------------------------------------------------------------- larger steps are guarded

  /** The probe answers for the process that the lock names, when it is one of the builds. */
  ghost predicate SoundProbe(s: State, probe: bool) {
    forall i :: 0 <= i < |s.builds| && LockFile.HolderPid(LockContents(s.cache)) == Some(s.builds[i].plan.pid)
      ==> probe == s.builds[i].alive
  }

  /** No step splits the lock operations; probes are sound; the clock fits in 64 bits. */
  ghost predicate Disciplined(s: State, e: Event) {
    && !e.Create? && !e.Write? && !e.Condemn? && !e.Remove?
    && (e.Inspect? ==> SoundProbe(s, e.probe))
    && (e.Acquire? ==> e.now < U64_LIMIT)
  }

  ghost predicate DisciplinedRun(hash: Hash, s: State, events: seq<Event>)
    decreases |events|
  {
    events == [] ||
    (&& Disciplined(s, events[0])
     && (Apply(hash, s, events[0]).Some? ==> DisciplinedRun(hash, Apply(hash, s, events[0]).value, events[1..])))
  }

  ghost predicate LockInv(s: State) {
    && Pids(s)
    && forall i :: 0 <= i < |s.builds| && LiveOwner(s.builds[i]) ==>
         s.cache.lock.Some? && LockFile.HolderPid(Some(s.cache.lock.value.text)) == Some(s.builds[i].plan.pid)
  }

  /** A lock whose owner lives is never found stale, whatever its age and whatever the clock. */
  lemma {:induction false} LiveOwnerKeepsLock(s: State, i: nat, now: nat, probe: bool)
    requires LockInv(s) && i < |s.builds| && LiveOwner(s.builds[i]) && SoundProbe(s, probe)
    ensures !LockFile.Stale(LockContents(s.cache), now, probe)
  {
  }

  /** The same, as a step: inspecting the lock of a live owner leaves it in place. */
  lemma {:induction false} InspectionSparesLiveOwner(hash: Hash, s: State, i: nat, e: Event)
    requires LockInv(s) && i < |s.builds| && LiveOwner(s.builds[i])
    requires e.Inspect? && SoundProbe(s, e.probe) && Apply(hash, s, e).Some?
    ensures Apply(hash, s, e).value.cache.lock == s.cache.lock
  {
    LiveOwnerKeepsLock(s, i, e.now, e.probe);
  }

  lemma {:induction false} NewOwner(s: State, n: nat, b: Build, text: ByteString)
    requires LockInv(s) && n < |s.builds| && s.cache.lock.None? && b.plan.pid == s.builds[n].plan.pid
    requires LockFile.HolderPid(Some(text)) == Some(b.plan.pid)
    ensures LockInv(s.(cache := s.cache.(lock := Some(Lock(n, text))), builds := s.builds[n := b]))
  {
  }

  /** Taking the lock: nobody owned it, and its text names the taker. */
  lemma {:induction false} LockInvAcquire(hash: Hash, s: State, e: Event)
    requires LockInv(s) && Disciplined(s, e) && e.Acquire? && Apply(hash, s, e).Some?
    ensures LockInv(Apply(hash, s, e).value)
  {
    var b := s.builds[e.b];
    LockFile.LockTextReads(b.plan.pid, e.now);
    NewOwner(s, e.b, b.(owns := true, phase := Checking(true, 0)), LockFile.LockText(b.plan.pid, e.now));
  }

  lemma {:induction false} LockInvInspect(hash: Hash, s: State, e: Event)
    requires LockInv(s) && Disciplined(s, e) && e.Inspect? && Apply(hash, s, e).Some?
    ensures LockInv(Apply(hash, s, e).value)
  {
    if LockFile.Stale(LockContents(s.cache), e.now, e.probe) {
      forall i | 0 <= i < |s.builds| ensures !LiveOwner(s.builds[i]) {
        if LiveOwner(s.builds[i]) {
          LiveOwnerKeepsLock(s, i, e.now, e.probe);
        }
      }
    }
  }

  /** Releasing the lock: the one that is removed is the owner's own. */
  lemma {:induction false} LockInvUnlock(hash: Hash, s: State, e: Event)
    requires LockInv(s) && e.Unlock? && Apply(hash, s, e).Some?
    ensures LockInv(Apply(hash, s, e).value)
  {
    if s.builds[e.b].owns {
      assert forall i :: 0 <= i < |s.builds| && LiveOwner(s.builds[i]) ==>
        s.builds[i].plan.pid == s.builds[e.b].plan.pid;
    }
  }

  lemma {:induction false} LockInvShared(hash: Hash, s: State, e: Event)
    requires LockInv(s) && Disciplined(s, e) && Apply(hash, s, e).Some?
    requires !IsOutside(e) && !IsPrivate(e)
    ensures LockInv(Apply(hash, s, e).value)
  {
    if e.Acquire? {
      LockInvAcquire(hash, s, e);
    } else if e.Inspect? {
      LockInvInspect(hash, s, e);
    } else if e.Unlock? {
      LockInvUnlock(hash, s, e);
    } else {
      assert e.Publish? || e.Stamp?;
    }
  }

  lemma {:induction false} LockInvStep(hash: Hash, s: State, e: Event)
    requires LockInv(s) && Disciplined(s, e) && Apply(hash, s, e).Some?
    ensures LockInv(Apply(hash, s, e).value)
  {
    if IsOutside(e) {
    } else if IsPrivate(e) {
      PrivateIdentity(hash, s.order, s.cache, s.builds[e.b], e);
    } else {
      LockInvShared(hash, s, e);
    }
  }

  lemma {:induction false} DisciplinedIsGuarded(s: State, e: Event)
    requires LockInv(s) && Disciplined(s, e)
    ensures Guarded(s, e)
  {
    if Steals(s, e) {
      forall i | 0 <= i < |s.builds| ensures !LiveOwner(s.builds[i]) {
        if LiveOwner(s.builds[i]) {
          LiveOwnerKeepsLock(s, i, e.now, e.probe);
        }
      }
    }
  }

  lemma {:induction false} DisciplinedRunIsGuarded(hash: Hash, s: State, events: seq<Event>)
    requires LockInv(s) && DisciplinedRun(hash, s, events) && Run(hash, s, events).Some?
    ensures GuardedRun(hash, s, events) && LockInv(Run(hash, s, events).value)
    decreases |events|
  {
    if events != [] {
      DisciplinedIsGuarded(s, events[0]);
      LockInvStep(hash, s, events[0]);
      DisciplinedRunIsGuarded(hash, Apply(hash, s, events[0]).value, events[1..]);
    }
  }

  /** With creation and writing in one step, inspection and removal in one step, and a sound
      probe, every run is guarded: at most one live owner. */
  lemma {:induction false} AtomicLockExcludes(hash: Hash, s: State, events: seq<Event>, i: nat, j: nat)
    requires Init(hash, s) && Pids(s)
    requires DisciplinedRun(hash, s, events) && Run(hash, s, events).Some?
    requires i < |Run(hash, s, events).value.builds| && j < |Run(hash, s, events).value.builds|
    requires LiveOwner(Run(hash, s, events).value.builds[i]) && LiveOwner(Run(hash, s, events).value.builds[j])
    ensures i == j
  {
    DisciplinedRunIsGuarded(hash, s, events);
    AtMostOneOwner(hash, s, events, i, j);
  }
}
