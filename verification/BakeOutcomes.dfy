/** How builds end: which of them embed and which fall back, what a failure does to a build,
    and the runs in which builds get to their end. */
module BakeOutcomes {
  import opened Bytes
  import opened Receipt
  import opened BakeProtocol
  import opened BakeExclusion
  import opened BakeOnce
  import opened BakeTraces
  import BakeIntegrity
  import LockFile
  import ModulePaths

  // ---------------------------------------------------------------- strict builds and the fallback

  /** Only a build that allows a stale library goes without the final check, and such a build
      never comes to it. */
  predicate AsPlanned(b: Build) {
    && (b.phase == Unverified ==> b.plan.fallback)
    && (b.phase.Copying? || b.phase == Verifying || b.phase == Embedded ==> !b.plan.fallback)
  }

  lemma {:induction false} PrivateAsPlanned(hash: Hash, order: Order, c: Cache, b: Build, e: Event)
    requires AsPlanned(b) && Private(hash, order, c, b, e).Some?
    ensures AsPlanned(Private(hash, order, c, b, e).value)
  {
    hide Verifies, Encode, Matches, VerifyFiles;
  }

  lemma {:induction false} SharedAsPlanned(hash: Hash, order: Order, c: Cache, n: nat, b: Build, e: Event)
    requires AsPlanned(b) && Shared(hash, order, c, n, b, e).Some?
    ensures AsPlanned(Shared(hash, order, c, n, b, e).value.0)
  {
    hide Verifies, Encode, StagedVerifies;
  }

  ghost predicate AllAsPlanned(s: State) { forall i :: 0 <= i < |s.builds| ==> AsPlanned(s.builds[i]) }

  lemma {:induction false} AsPlannedRun(hash: Hash, s: State, events: seq<Event>)
    requires AllAsPlanned(s) && Run(hash, s, events).Some?
    ensures AllAsPlanned(Run(hash, s, events).value)
    decreases |events|
  {
    if events != [] {
      AsPlannedStep(hash, s, events[0]);
      AsPlannedRun(hash, Apply(hash, s, events[0]).value, events[1..]);
    }
  }

  lemma {:induction false} AsPlannedStep(hash: Hash, s: State, e: Event)
    requires AllAsPlanned(s) && Apply(hash, s, e).Some?
    ensures AllAsPlanned(Apply(hash, s, e).value)
  {
    hide Private, Shared, AsPlanned;
    if IsPrivate(e) {
      PrivateAsPlanned(hash, s.order, s.cache, s.builds[e.b], e);
    } else if !IsOutside(e) {
      SharedAsPlanned(hash, s.order, s.cache, e.b, s.builds[e.b], e);
    }
  }

  /** In every run a build that ends without the final check had asked for the fallback, and a
      build that embeds verified copies had not. */
  lemma {:induction false} FallbackIsAskedFor(hash: Hash, s: State, events: seq<Event>, i: nat)
    requires Init(hash, s) && Run(hash, s, events).Some? && i < |Run(hash, s, events).value.builds|
    ensures var b := Run(hash, s, events).value.builds[i];
      && (b.phase == Unverified ==> b.plan.fallback)
      && (b.phase == Embedded ==> !b.plan.fallback)
  {
    AsPlannedRun(hash, s, events);
  }

  // ---------------------------------------------------------------- failures are final

  /** The events after which build `i` goes no further: a panic of its bake or publication, a
      failure of either without the fallback, its final check, its death. */
  predicate Ends(s: State, e: Event, i: nat)
    requires i < |s.builds|
  {
    && !IsOutside(e) && e.b == i
    && (|| ((e.BakeFails? || e.PublishFails?) && (e.panics || !s.builds[i].plan.fallback))
        || e.Verify? || e.Crash?)
  }

  predicate Over(b: Build) { !b.alive || b.phase == Embedded }

  lemma {:induction false} EndsStep(hash: Hash, s: State, e: Event, i: nat)
    requires s.order == CopyThenVerify && i < |s.builds| && Apply(hash, s, e).Some?
    requires Ends(s, e, i) || Over(s.builds[i])
    ensures var s' := Apply(hash, s, e).value;
      |s'.builds| == |s.builds| && s'.builds[i].plan == s.builds[i].plan && s'.order == s.order && Over(s'.builds[i])
  {
    hide Verifies, Encode, Matches, VerifyFiles, StagedVerifies;
  }

  lemma {:induction false} OverRun(hash: Hash, s: State, events: seq<Event>, i: nat)
    requires s.order == CopyThenVerify && i < |s.builds| && Run(hash, s, events).Some? && Over(s.builds[i])
    ensures i < |Run(hash, s, events).value.builds| && Over(Run(hash, s, events).value.builds[i])
    decreases |events|
  {
    if events != [] {
      EndsStep(hash, s, events[0], i);
      OverRun(hash, Apply(hash, s, events[0]).value, events[1..], i);
    }
  }

  /** After such an event a build is dead or has embedded, whatever happens later: nothing
      tries a failed bake, publication or check again. */
  lemma {:induction false} FailureIsFinal(hash: Hash, s: State, before: seq<Event>, e: Event, after: seq<Event>, i: nat)
    requires s.order == CopyThenVerify && Run(hash, s, before + [e] + after).Some?
    requires Run(hash, s, before).Some? ==> i < |Run(hash, s, before).value.builds|
    requires Run(hash, s, before).Some? ==> Ends(Run(hash, s, before).value, e, i)
    ensures var t := Run(hash, s, before + [e] + after).value; i < |t.builds| && Over(t.builds[i])
  {
    assert before + ([e] + after) == before + [e] + after;
    RunPrefix(hash, s, before, [e] + after);
    RunConcat(hash, s, before, [e] + after);
    var t := Run(hash, s, before).value;
    assert ([e] + after)[1..] == after;
    BakeIntegrity.OrderIsFixed(hash, s, before);
    EndsStep(hash, t, e, i);
    OverRun(hash, Apply(hash, t, e).value, after, i);
  }

  lemma {:induction false} RunPrefix(hash: Hash, s: State, a: seq<Event>, b: seq<Event>)
    requires Run(hash, s, a + b).Some?
    ensures Run(hash, s, a).Some?
    decreases |a|
  {
    if a != [] {
      assert (a + b)[1..] == a[1..] + b;
      RunPrefix(hash, Apply(hash, s, a[0]).value, a[1..], b);
    }
  }

  // ---------------------------------------------------------------- runs to the end

  ghost predicate LeadsTo(hash: Hash, s: State, t: State) { exists events :: Run(hash, s, events) == Some(t) }

  lemma {:induction false} StepLeads(hash: Hash, s: State, e: Event, t: State)
    requires Apply(hash, s, e) == Some(t)
    ensures LeadsTo(hash, s, t)
  {
    assert Run(hash, s, [e]) == Run(hash, t, [e][1..]);
  }

  lemma {:induction false} Onward(hash: Hash, s: State, t: State, u: State)
    requires LeadsTo(hash, s, t) && LeadsTo(hash, t, u)
    ensures LeadsTo(hash, s, u)
  {
    var a :| Run(hash, s, a) == Some(t);
    var b :| Run(hash, t, b) == Some(u);
    RunConcat(hash, s, a, b);
  }

  function Put(s: State, n: nat, b: Build): State
    requires n < |s.builds|
  {
    s.(builds := s.builds[n := b])
  }

  lemma {:induction false} PutTwice(s: State, t: State, n: nat, b: Build, b': Build)
    requires n < |s.builds| && t.builds == Put(s, n, b).builds
    ensures Put(t, n, b').builds == Put(s, n, b').builds
  {
  }

  lemma {:induction false} PutLeads(hash: Hash, s: State, n: nat, e: Event, b: Build)
    requires n < |s.builds| && s.builds[n].alive && IsPrivate(e) && e.b == n && !e.BakeDone?
    requires Private(hash, s.order, s.cache, s.builds[n], e) == Some(b)
    ensures LeadsTo(hash, s, Put(s, n, b))
  {
    StepLeads(hash, s, e, Put(s, n, b));
  }

  lemma {:induction false} ShareLeads(hash: Hash, s: State, n: nat, e: Event, b: Build, c: Cache)
    requires n < |s.builds| && s.builds[n].alive && !IsPrivate(e) && !IsOutside(e) && e.b == n
    requires Shared(hash, s.order, s.cache, n, s.builds[n], e) == Some((b, c))
    ensures LeadsTo(hash, s, Put(s, n, b).(cache := c))
  {
    StepLeads(hash, s, e, Put(s, n, b).(cache := c));
  }

  /** Where a check of the cache leads. */
  function AfterCheck(order: Order, b: Build, good: bool): Phase
    requires b.phase.Checking?
  {
    if b.phase.underLock then (if good then Unlocking else Baking)
    else if !good then Locking
    else if b.plan.fallback then Unverified
    else if order == CopyThenVerify then Copying(0) else Verifying
  }

  lemma {:induction false} ChecksOn(hash: Hash, s: State, n: nat) returns (b: Build)
    requires n < |s.builds| && s.builds[n].alive && s.builds[n].phase.Checking? && s.builds[n].phase.read == 0
    ensures LeadsTo(hash, s, Put(s, n, b))
    ensures b.alive && b.plan == s.builds[n].plan && b.owns == s.builds[n].owns && b.copies == s.builds[n].copies
    ensures b.phase == AfterCheck(s.order, s.builds[n],
                                  CacheGood(hash, s.cache, s.builds[n].plan.key, s.builds[n].plan.inputs))
  {
    hide Verifies, Encode;
    var b1 := ReadOn(hash, s, n, 5);
    CurrentMatches(hash, b1, s.cache);
    b := b1.(phase := AfterCheck(s.order, b1, CacheGood(hash, s.cache, b1.plan.key, b1.plan.inputs)));
    hide CacheGood, Matches, Current;
    PutLeads(hash, Put(s, n, b1), n, Decide(n), b);
    assert Put(Put(s, n, b1), n, b) == Put(s, n, b);
    Onward(hash, s, Put(s, n, b1), Put(s, n, b));
  }

  /** The lock of build `n`. */
  function LockOf(s: State, n: nat, now: nat): Option<Lock>
    requires n < |s.builds|
  {
    Some(Lock(n, LockFile.LockText(s.builds[n].plan.pid, now)))
  }

  lemma {:induction false} TakesLock(hash: Hash, s: State, n: nat, now: nat) returns (b: Build)
    requires n < |s.builds| && s.builds[n].alive && s.builds[n].phase == Locking && s.cache.lock.None?
    ensures LeadsTo(hash, s, Put(s, n, b).(cache := s.cache.(lock := LockOf(s, n, now))))
    ensures b == s.builds[n].(owns := true, phase := Checking(true, 0))
  {
    b := s.builds[n].(owns := true, phase := Checking(true, 0));
    ShareLeads(hash, s, n, Acquire(n, now), b, s.cache.(lock := LockOf(s, n, now)));
  }

  /** Build `n` publishes a bake of its own inputs, and what it has renamed is in place. */
  ghost predicate Publishes(hash: Hash, s: State, n: nat, bake: Bake) {
    && n < |s.builds| && s.builds[n].alive && s.builds[n].staged == Some(bake)
    && StagedVerifies(hash, s.builds[n]) && PublishedSoFar(hash, s.builds[n], s.cache)
  }

  lemma {:induction false} PublishLeads(hash: Hash, s: State, n: nat, bake: Bake, done: nat) returns (t: State)
    requires Publishes(hash, s, n, bake) && s.builds[n].phase == Publishing(done) && done < 4
    ensures LeadsTo(hash, s, t) && Publishes(hash, t, n, bake)
    ensures t == Put(s, n, t.builds[n]).(cache := s.cache.(files := t.cache.files))
    ensures t.builds[n] == s.builds[n].(phase := if done < 3 then Publishing(done + 1) else Stamping(false))
  {
    hide Verifies, Encode;
    PublishKeeps(hash, s.cache, s.builds[n], done, true);
    OncePublish(hash, s.builds[n], s.cache);
    var (b, c) := PublishStep(hash, s.cache, s.builds[n]).value;
    assert c == s.cache.(files := c.files);
    hide PublishedSoFar, StagedVerifies, PublishStep;
    ShareLeads(hash, s, n, Publish(n), b, c);
    t := Put(s, n, b).(cache := c);
    StagedCarries(hash, s.builds[n], b);
  }

  lemma {:induction false} StagedCarries(hash: Hash, b: Build, b': Build)
    requires b.staged.Some? && b'.staged == b.staged && b'.plan == b.plan
    ensures StagedVerifies(hash, b') == StagedVerifies(hash, b)
  {
  }

  lemma {:induction false} PublishesRest(hash: Hash, s: State, n: nat, bake: Bake, done: nat) returns (t: State)
    requires Publishes(hash, s, n, bake) && s.builds[n].phase == Publishing(done) && done < 4
    ensures LeadsTo(hash, s, t) && Publishes(hash, t, n, bake)
    ensures t == Put(s, n, t.builds[n]).(cache := s.cache.(files := t.cache.files))
    ensures t.builds[n] == s.builds[n].(phase := Stamping(false))
    decreases 4 - done
  {
    hide PublishedSoFar, StagedVerifies, LeadsTo;
    t := PublishLeads(hash, s, n, bake, done);
    if done < 3 {
      var u := PublishesRest(hash, t, n, bake, done + 1);
      Onward(hash, s, t, u);
      PutTwice(s, t, n, t.builds[n], u.builds[n]);
      t := u;
    }
  }

  /** The four files are in place. */
  ghost predicate AllInPlace(hash: Hash, c: Cache, bake: Bake) {
    forall slot :: slot in {Archive, Metadata, Symbols, Receipt} ==>
      slot in c.files && c.files[slot] == FileOf(hash, bake, slot)
  }

  lemma {:induction false} BakesOn(hash: Hash, s: State, n: nat, bake: Bake) returns (t: State)
    requires n < |s.builds| && s.builds[n].alive && s.builds[n].phase == Baking
    requires bake.inputs == s.builds[n].plan.inputs
    ensures LeadsTo(hash, s, t) && AllInPlace(hash, t.cache, bake) && |t.builds| == |s.builds|
    ensures t == Put(s, n, t.builds[n]).(cache := s.cache.(files := t.cache.files), baked := s.baked + [bake])
    ensures t.builds[n] == s.builds[n].(staged := Some(bake), phase := Stamping(false))
    ensures VerifyFiles(hash, bake.inputs, Get(t.cache.files, Receipt), t.cache.files)
  {
    var s1 := GetsBake(hash, s, n, bake);
    hide StagedVerifies, PublishedSoFar, LeadsTo, VerifyFiles;
    t := PublishesRest(hash, s1, n, bake, 0);
    Onward(hash, s, s1, t);
    PutTwice(s, s1, n, s1.builds[n], t.builds[n]);
    PublishedIsAll(hash, t, n, bake);
  }

  lemma {:induction false} PublishedIsAll(hash: Hash, t: State, n: nat, bake: Bake)
    requires Publishes(hash, t, n, bake) && t.builds[n].phase.Stamping?
    ensures AllInPlace(hash, t.cache, bake)
    ensures VerifyFiles(hash, t.builds[n].plan.inputs, Get(t.cache.files, Receipt), t.cache.files)
  {
    hide VerifyFiles, StagedVerifies, Encode;
    PlacedIsGood(hash, t.builds[n], t.cache);
    AllPlaced(hash, t.builds[n], t.cache);
    hide PublishedSoFar;
  }

  lemma {:induction false} NothingPlaced(hash: Hash, b: Build, c: Cache)
    requires b.phase == Publishing(0)
    ensures PublishedSoFar(hash, b, c)
  {
    hide StagedVerifies, PlacedFile;
  }

  lemma {:induction false} GetsBake(hash: Hash, s: State, n: nat, bake: Bake) returns (t: State)
    requires n < |s.builds| && s.builds[n].alive && s.builds[n].phase == Baking
    requires bake.inputs == s.builds[n].plan.inputs
    ensures LeadsTo(hash, s, t) && Publishes(hash, t, n, bake)
    ensures t == Put(s, n, s.builds[n].(staged := Some(bake), phase := Publishing(0))).(baked := s.baked + [bake])
  {
    var b := s.builds[n].(staged := Some(bake), phase := Publishing(0));
    t := Put(s, n, b).(baked := s.baked + [bake]);
    OwnBakeVerifies(hash, b);
    NothingPlaced(hash, b, t.cache);
    hide StagedVerifies, PublishedSoFar, Apply, LeadsTo;
    BakeApplies(hash, s, n, bake);
    StepLeads(hash, s, BakeDone(n, bake), t);
  }

  lemma {:induction false} BakeApplies(hash: Hash, s: State, n: nat, bake: Bake)
    requires n < |s.builds| && s.builds[n].alive && s.builds[n].phase == Baking
    ensures Apply(hash, s, BakeDone(n, bake)) == Some(
      Put(s, n, s.builds[n].(staged := Some(bake), phase := Publishing(0))).(baked := s.baked + [bake]))
  {
    hide Shared, CheckStep, DecideStep, CopyStep, VerifyStep, LockFile.Stale;
  }

  /** The two writes of the checksum. */
  lemma {:induction false} StampsOn(hash: Hash, s: State, n: nat) returns (t: State)
    requires n < |s.builds| && s.builds[n].alive && s.builds[n].phase == Stamping(false)
    ensures LeadsTo(hash, s, t)
    ensures t == Put(s, n, s.builds[n].(phase := Unlocking)).(cache := s.cache.(checksum := Some(s.builds[n].plan.key)))
  {
    var b := s.builds[n].(phase := Stamping(true));
    var s1 := Put(s, n, b).(cache := s.cache.(checksum := Some([])));
    ShareLeads(hash, s, n, Stamp(n), b, s1.cache);
    var c := s.cache.(checksum := Some(b.plan.key));
    ShareLeads(hash, s1, n, Stamp(n), b.(phase := Unlocking), c);
    t := Put(s, n, b.(phase := Unlocking)).(cache := c);
    assert Put(s1, n, b.(phase := Unlocking)).(cache := c) == t;
    Onward(hash, s, s1, t);
  }

  lemma {:induction false} Unlocks(hash: Hash, s: State, n: nat) returns (t: State)
    requires n < |s.builds| && s.builds[n].alive && s.builds[n].phase == Unlocking && s.order == CopyThenVerify
    ensures LeadsTo(hash, s, t)
    ensures var b := s.builds[n];
      t == Put(s, n, b.(owns := false, phase := if b.plan.fallback then Unverified else Copying(0)))
           .(cache := if b.owns then s.cache.(lock := None) else s.cache)
  {
    var b := s.builds[n].(owns := false, phase := if s.builds[n].plan.fallback then Unverified else Copying(0));
    var c := if s.builds[n].owns then s.cache.(lock := None) else s.cache;
    ShareLeads(hash, s, n, Unlock(n), b, c);
    t := Put(s, n, b).(cache := c);
  }

  /** The copies of build `n` are the three files of the cache. */
  predicate HoldsCache(b: Build, c: Cache) {
    forall slot :: slot in BakeIntegrity.EMBEDDED ==>
      slot in b.copies && slot in c.files && b.copies[slot] == c.files[slot]
  }

  /** The three copies and the check. */
  lemma {:induction false} Embeds(hash: Hash, s: State, n: nat) returns (b: Build)
    requires n < |s.builds| && s.builds[n].alive && s.builds[n].phase == Copying(0) && s.order == CopyThenVerify
    requires VerifyFiles(hash, s.builds[n].plan.inputs, Get(s.cache.files, Receipt), s.cache.files)
    ensures LeadsTo(hash, s, Put(s, n, b))
    ensures b == s.builds[n].(copies := b.copies, phase := Embedded) && HoldsCache(b, s.cache)
  {
    assert Archive in s.cache.files && Metadata in s.cache.files && Symbols in s.cache.files;
    hide VerifyFiles;
    var b3 := CopiesOn(hash, s, n);
    b := b3.(phase := Embedded);
    CopiesPass(hash, b3, s.cache);
    VerifyIsPrivate(hash, s.order, s.cache, b3, n);
    hide VerifyStep, LeadsTo, Private;
    MovesOn(hash, s, n, b3, Verify(n), b);
    Onward(hash, s, Put(s, n, b3), Put(s, n, b));
  }

  lemma {:induction false} VerifyIsPrivate(hash: Hash, order: Order, c: Cache, b: Build, n: nat)
    ensures Private(hash, order, c, b, Verify(n)) == VerifyStep(hash, order, c, b)
  {
    hide VerifyStep, CheckStep, DecideStep, CopyStep;
  }

  lemma {:induction false} CopiesOn(hash: Hash, s: State, n: nat) returns (b: Build)
    requires n < |s.builds| && s.builds[n].alive && s.builds[n].phase == Copying(0) && s.order == CopyThenVerify
    requires Archive in s.cache.files && Metadata in s.cache.files && Symbols in s.cache.files
    ensures LeadsTo(hash, s, Put(s, n, b))
    ensures b == s.builds[n].(copies := b.copies, phase := Verifying) && HoldsCache(b, s.cache)
  {
    var b0, f := s.builds[n], s.cache.files;
    var b1 := b0.(copies := b0.copies[Archive := f[Archive]], phase := Copying(1));
    var b2 := b1.(copies := b1.copies[Metadata := f[Metadata]], phase := Copying(2));
    b := b2.(copies := b2.copies[Symbols := f[Symbols]], phase := Verifying);
    assert CopyStep(s.order, s.cache, b0) == Some(b1);
    assert CopyStep(s.order, s.cache, b1) == Some(b2);
    assert CopyStep(s.order, s.cache, b2) == Some(b);
    hide CopyStep, LeadsTo;
    MovesOn(hash, s, n, b0, Copy(n), b1);
    MovesOn(hash, s, n, b1, Copy(n), b2);
    MovesOn(hash, s, n, b2, Copy(n), b);
    assert Put(s, n, b0) == s;
    Onward(hash, s, Put(s, n, b1), Put(s, n, b2));
    Onward(hash, s, Put(s, n, b2), Put(s, n, b));
  }

  lemma {:induction false} CopiesPass(hash: Hash, b: Build, c: Cache)
    requires VerifyFiles(hash, b.plan.inputs, Get(c.files, Receipt), c.files) && HoldsCache(b, c)
    requires b.phase == Verifying
    ensures VerifyStep(hash, CopyThenVerify, c, b) == Some(b.(phase := Embedded))
  {
    hide Verifies, Encode;
    assert VerifyFiles(hash, b.plan.inputs, Get(c.files, Receipt), b.copies) by {
      assert Archive in BakeIntegrity.EMBEDDED && Metadata in BakeIntegrity.EMBEDDED;
      assert Symbols in BakeIntegrity.EMBEDDED;
    }
    VerifyPasses(hash, CopyThenVerify, c, b);
  }

  lemma {:induction false} MovesOn(hash: Hash, s: State, n: nat, b: Build, e: Event, b': Build)
    requires n < |s.builds| && b.alive && IsPrivate(e) && e.b == n && !e.BakeDone?
    requires Private(hash, s.order, s.cache, b, e) == Some(b')
    ensures LeadsTo(hash, Put(s, n, b), Put(s, n, b'))
  {
    PutLeads(hash, Put(s, n, b), n, e, b');
    assert Put(Put(s, n, b), n, b') == Put(s, n, b');
  }

  // ---------------------------------------------------------------- whole lives of a build

  /** Build `n` of `t` has embedded the three files of this bake, and the cache holds them
      stamped with its key. */
  ghost predicate EmbedsIt(hash: Hash, t: State, n: nat, bake: Bake) {
    && n < |t.builds| && t.builds[n].alive && t.builds[n].phase == Embedded && !t.builds[n].owns
    && BakeIntegrity.HoldsBake(t.builds[n], bake) && AllInPlace(hash, t.cache, bake)
    && t.cache.checksum == Some(t.builds[n].plan.key)
  }

  /** A build that finds the cache good, before it comes to the lock or under it, touches
      nothing that is shared but its own lock file, and embeds what is there. */
  lemma {:induction false} CacheHitEmbeds(hash: Hash, s: State, n: nat) returns (b: Build)
    requires n < |s.builds| && s.builds[n].alive && s.builds[n].phase.Checking? && s.builds[n].phase.read == 0
    requires s.order == CopyThenVerify && !s.builds[n].plan.fallback
    requires CacheGood(hash, s.cache, s.builds[n].plan.key, s.builds[n].plan.inputs)
    ensures var under := s.builds[n].phase.underLock && s.builds[n].owns;
      LeadsTo(hash, s, Put(s, n, b).(cache := if under then s.cache.(lock := None) else s.cache))
    ensures b.alive && b.plan == s.builds[n].plan && b.phase == Embedded && HoldsCache(b, s.cache)
    ensures b.owns == (s.builds[n].owns && !s.builds[n].phase.underLock)
  {
    hide Verifies, Encode;
    var b1 := ChecksOn(hash, s, n);
    var t := Put(s, n, b1);
    if s.builds[n].phase.underLock {
      var u := Unlocks(hash, t, n);
      Onward(hash, s, t, u);
      t := u;
    }
    b := Embeds(hash, t, n);
    Onward(hash, s, t, Put(t, n, b));
    assert Put(t, n, b) == Put(s, n, b).(cache := t.cache);
  }

  /** A build under the lock, or past it, that misses bakes, publishes, stamps, gives its lock
      back if it has one, and embeds its own bake. */
  lemma {:induction false} MissEmbeds(hash: Hash, s: State, n: nat, bake: Bake) returns (t: State)
    requires n < |s.builds| && s.builds[n].alive && s.builds[n].phase == Checking(true, 0)
    requires s.order == CopyThenVerify && !s.builds[n].plan.fallback && bake.inputs == s.builds[n].plan.inputs
    requires !CacheGood(hash, s.cache, s.builds[n].plan.key, s.builds[n].plan.inputs)
    ensures LeadsTo(hash, s, t) && EmbedsIt(hash, t, n, bake) && t.builds[n].plan == s.builds[n].plan
    ensures t.builds == s.builds[n := t.builds[n]] && t.baked == s.baked + [bake] && t.order == s.order
    ensures t.cache.lock == if s.builds[n].owns then None else s.cache.lock
    ensures VerifyFiles(hash, bake.inputs, Get(t.cache.files, Receipt), t.cache.files)
  {
    var s1 := MissPublishes(hash, s, n, bake);
    hide LeadsTo, VerifyFiles, AllInPlace, HoldsCache, CacheGood;
    var s2 := Unlocks(hash, s1, n);
    AllInPlaceAlike(hash, s1.cache, s2.cache, bake);
    var e := Embeds(hash, s2, n);
    t := Put(s2, n, e);
    Onward(hash, s, s1, s2);
    Onward(hash, s, s2, t);
    PutTwice(s, s1, n, s1.builds[n], s2.builds[n]);
    PutTwice(s, s2, n, s2.builds[n], e);
    HoldsOwn(hash, e, t.cache, bake);
  }

  lemma {:induction false} AllInPlaceAlike(hash: Hash, c: Cache, d: Cache, bake: Bake)
    requires c.files == d.files && AllInPlace(hash, c, bake)
    ensures AllInPlace(hash, d, bake)
  {
  }

  lemma {:induction false} MissPublishes(hash: Hash, s: State, n: nat, bake: Bake) returns (t: State)
    requires n < |s.builds| && s.builds[n].alive && s.builds[n].phase == Checking(true, 0)
    requires bake.inputs == s.builds[n].plan.inputs
    requires !CacheGood(hash, s.cache, s.builds[n].plan.key, s.builds[n].plan.inputs)
    ensures LeadsTo(hash, s, t) && |t.builds| == |s.builds|
    ensures var b, b' := s.builds[n], t.builds[n];
      && t.builds == s.builds[n := b'] && b'.alive && b'.phase == Unlocking && b'.owns == b.owns && b'.plan == b.plan
      && t.cache.lock == s.cache.lock && t.cache.checksum == Some(b.plan.key)
    ensures t.baked == s.baked + [bake] && t.order == s.order && AllInPlace(hash, t.cache, bake)
    ensures VerifyFiles(hash, bake.inputs, Get(t.cache.files, Receipt), t.cache.files)
  {
    hide LeadsTo, VerifyFiles, AllInPlace, CacheGood;
    var b := ChecksOn(hash, s, n);
    var s1 := Put(s, n, b);
    var s2 := BakesOn(hash, s1, n, bake);
    t := StampsOn(hash, s2, n);
    AllInPlaceAlike(hash, s2.cache, t.cache, bake);
    Onward(hash, s, s1, s2);
    Onward(hash, s, s2, t);
  }

  lemma {:induction false} HoldsOwn(hash: Hash, b: Build, c: Cache, bake: Bake)
    requires HoldsCache(b, c) && AllInPlace(hash, c, bake)
    ensures BakeIntegrity.HoldsBake(b, bake)
  {
    assert Archive in BakeIntegrity.EMBEDDED && Metadata in BakeIntegrity.EMBEDDED && Symbols in BakeIntegrity.EMBEDDED;
  }

  /** A fresh build that misses the cache, and then nobody holds the lock. */
  lemma {:induction false} LockedBuildEmbeds(hash: Hash, s: State, n: nat, bake: Bake, now: nat) returns (t: State)
    requires n < |s.builds| && s.builds[n].alive && s.builds[n].phase == Locking && s.cache.lock.None?
    requires s.order == CopyThenVerify && !s.builds[n].plan.fallback && bake.inputs == s.builds[n].plan.inputs
    requires !CacheGood(hash, s.cache, s.builds[n].plan.key, s.builds[n].plan.inputs)
    ensures LeadsTo(hash, s, t) && EmbedsIt(hash, t, n, bake) && t.builds[n].plan == s.builds[n].plan
    ensures t.builds == s.builds[n := t.builds[n]] && t.baked == s.baked + [bake] && t.order == s.order
    ensures t.cache.lock.None? && VerifyFiles(hash, bake.inputs, Get(t.cache.files, Receipt), t.cache.files)
  {
    var b := TakesLock(hash, s, n, now);
    var s1 := Put(s, n, b).(cache := s.cache.(lock := LockOf(s, n, now)));
    GoodIgnoresLock(hash, s.cache, s1.cache, b.plan.key, b.plan.inputs);
    t := MissEmbeds(hash, s1, n, bake);
    Onward(hash, s, s1, t);
  }

  /** Two builds of one key and one list of inputs reach the lock before either has baked.  One
      bake serves both: the second finds the cache good under the lock and embeds the bake of
      the first. */
  lemma {:induction false} WaiterReusesBake(hash: Hash, s: State, i: nat, j: nat, bake: Bake, now: nat, later: nat)
    returns (t: State)
    requires i < |s.builds| && j < |s.builds| && i != j && Fresh(s.builds[i]) && Fresh(s.builds[j])
    requires s.order == CopyThenVerify && !s.builds[i].plan.fallback && !s.builds[j].plan.fallback
    requires s.builds[i].plan.key == s.builds[j].plan.key && ModulePaths.NoSpace(s.builds[i].plan.key)
    requires bake.inputs == s.builds[i].plan.inputs == s.builds[j].plan.inputs
    requires s.cache.lock.None? && !CacheGood(hash, s.cache, s.builds[i].plan.key, s.builds[i].plan.inputs)
    ensures LeadsTo(hash, s, t) && EmbedsIt(hash, t, i, bake) && EmbedsIt(hash, t, j, bake)
    ensures t.baked == s.baked + [bake] && t.cache.lock.None?
  {
    hide LeadsTo, CacheGood;
    var b1 := ChecksOn(hash, s, i);
    var s1 := Put(s, i, b1);
    var b2 := ChecksOn(hash, s1, j);
    var s2 := Put(s1, j, b2);
    Onward(hash, s, s1, s2);
    var s3 := LockedBuildEmbeds(hash, s2, i, bake, now);
    Onward(hash, s, s2, s3);
    var b4 := TakesLock(hash, s3, j, later);
    var s4 := Put(s3, j, b4).(cache := s3.cache.(lock := LockOf(s3, j, later)));
    Onward(hash, s, s3, s4);
    StampedIsGood(hash, s4.cache, b4.plan.key, bake.inputs);
    var b5 := CacheHitEmbeds(hash, s4, j);
    t := Put(s4, j, b5).(cache := s4.cache.(lock := None));
    Onward(hash, s, s4, t);
    HoldsOwn(hash, b5, s4.cache, bake);
  }

  lemma {:induction false} StampedIsGood(hash: Hash, c: Cache, key: ByteString, i: Inputs)
    requires c.checksum == Some(key) && ModulePaths.NoSpace(key)
    requires VerifyFiles(hash, i, Get(c.files, Receipt), c.files)
    ensures CacheGood(hash, c, key, i)
  {
    ModulePaths.TrimNothing(key);
  }

  /** A build that waits too long for a lock that is not stale goes on without it: it bakes and
      embeds its own bake, and the lock stays with its holder. */
  lemma {:induction false} TimedOutBuildEmbeds(hash: Hash, s: State, n: nat, bake: Bake, now: nat, probe: bool)
    returns (t: State)
    requires n < |s.builds| && s.builds[n].alive && s.builds[n].phase == Locking && !s.builds[n].owns
    requires !LockFile.Stale(LockContents(s.cache), now, probe)
    requires s.order == CopyThenVerify && !s.builds[n].plan.fallback && bake.inputs == s.builds[n].plan.inputs
    requires !CacheGood(hash, s.cache, s.builds[n].plan.key, s.builds[n].plan.inputs)
    ensures LeadsTo(hash, s, t) && EmbedsIt(hash, t, n, bake) && t.builds == s.builds[n := t.builds[n]]
    ensures t.cache.lock == s.cache.lock && t.baked == s.baked + [bake]
  {
    hide LeadsTo, CacheGood, LockFile.Stale;
    var s1 := Put(s, n, s.builds[n].(phase := Checking(true, 0)));
    ShareLeads(hash, s, n, Inspect(n, now, probe, true), s1.builds[n], s.cache);
    t := MissEmbeds(hash, s1, n, bake);
    Onward(hash, s, s1, t);
  }

  /** Its bake or its publication fails; the lock goes back if it has one. */
  lemma {:induction false} GivesUp(hash: Hash, s: State, n: nat) returns (t: State)
    requires n < |s.builds| && s.builds[n].alive && (s.builds[n].phase == Baking || s.builds[n].phase.Publishing?)
    requires s.order == CopyThenVerify && s.builds[n].plan.fallback
    ensures LeadsTo(hash, s, t)
    ensures t == Put(s, n, s.builds[n].(owns := false, phase := Unverified))
                 .(cache := if s.builds[n].owns then s.cache.(lock := None) else s.cache)
  {
    hide LeadsTo;
    var b := s.builds[n].(phase := Unlocking);
    PutLeads(hash, s, n, if s.builds[n].phase == Baking then BakeFails(n, false) else PublishFails(n, false), b);
    t := Unlocks(hash, Put(s, n, b), n);
    PutTwice(s, Put(s, n, b), n, b, t.builds[n]);
    Onward(hash, s, Put(s, n, b), t);
  }

  /** A build that allows a stale library and whose bake fails gives its lock back and ends
      without copies, without a check and without a change to the cache. */
  lemma {:induction false} FallbackOutlivesFailure(hash: Hash, s: State, n: nat, now: nat) returns (b: Build)
    requires n < |s.builds| && s.builds[n].alive && s.builds[n].phase == Locking && s.cache.lock.None?
    requires s.order == CopyThenVerify && s.builds[n].plan.fallback
    requires !CacheGood(hash, s.cache, s.builds[n].plan.key, s.builds[n].plan.inputs)
    ensures LeadsTo(hash, s, Put(s, n, b)) && b.alive && b.phase == Unverified && b.copies == s.builds[n].copies
  {
    hide LeadsTo, CacheGood;
    var b1 := TakesLock(hash, s, n, now);
    var s1 := Put(s, n, b1).(cache := s.cache.(lock := LockOf(s, n, now)));
    GoodIgnoresLock(hash, s.cache, s1.cache, b1.plan.key, b1.plan.inputs);
    var b2 := ChecksOn(hash, s1, n);
    var s2 := Put(s1, n, b2);
    Onward(hash, s, s1, s2);
    var s3 := GivesUp(hash, s2, n);
    Onward(hash, s, s2, s3);
    b := s3.builds[n];
    assert s3 == Put(s, n, b);
  }

  /** A build may die before any of its steps, and leaves everything shared as it is. */
  lemma {:induction false} DiesAnywhere(hash: Hash, s: State, n: nat)
    requires n < |s.builds| && s.builds[n].alive
    ensures LeadsTo(hash, s, Put(s, n, s.builds[n].(alive := false)))
  {
    PutLeads(hash, s, n, Crash(n), s.builds[n].(alive := false));
  }

  /** A holder that dies, at whatever step and with its lock in place, does not wedge the others:
      once the probe finds it dead, a build that waits removes the lock, takes its own, bakes and
      embeds. */
  lemma {:induction false} CrashedHolderIsReplaced(hash: Hash, s: State, i: nat, n: nat, taken: nat, bake: Bake,
                                                   now: nat)
    returns (t: State)
    requires i < |s.builds| && n < |s.builds| && i != n && s.builds[i].alive && s.cache.lock == LockOf(s, i, taken)
    requires 1 < s.builds[i].plan.pid < LockFile.PID_LIMIT && taken < U64_LIMIT
    requires s.builds[n].alive && s.builds[n].phase == Locking
    requires s.order == CopyThenVerify && !s.builds[n].plan.fallback && bake.inputs == s.builds[n].plan.inputs
    requires !CacheGood(hash, s.cache, s.builds[n].plan.key, s.builds[n].plan.inputs)
    ensures LeadsTo(hash, s, t) && EmbedsIt(hash, t, n, bake) && t.cache.lock.None? && t.baked == s.baked + [bake]
  {
    hide LeadsTo, CacheGood, LockFile.Stale, LockFile.LockText, Matches;
    DiesAnywhere(hash, s, i);
    var s1 := Put(s, i, s.builds[i].(alive := false));
    LockFile.StaleIff(s.builds[i].plan.pid, taken, now, false);
    var s2 := Put(s1, n, s1.builds[n]).(cache := s.cache.(lock := None));
    ShareLeads(hash, s1, n, Inspect(n, now, false, false), s1.builds[n], s2.cache);
    Onward(hash, s, s1, s2);
    GoodIgnoresLock(hash, s.cache, s2.cache, s.builds[n].plan.key, s.builds[n].plan.inputs);
    t := LockedBuildEmbeds(hash, s2, n, bake, now);
    Onward(hash, s, s2, t);
  }
}
