/** Runs that exist: what the protocol would allow if its steps were split or reordered. */
module BakeTraces {
  import opened Bytes
  import opened Receipt
  import opened BakeProtocol
  import opened BakeExclusion
  import opened BakeOnce
  import BakeIntegrity
  import LockFile
  import ModulePaths

  lemma {:induction false} RunConcat(hash: Hash, s: State, a: seq<Event>, b: seq<Event>)
    requires Run(hash, s, a).Some?
    ensures Run(hash, s, a + b) == Run(hash, Run(hash, s, a).value, b)
    decreases |a|
  {
    if a == [] {
      assert a + b == b;
    } else {
      assert (a + b)[1..] == a[1..] + b;
      RunConcat(hash, Apply(hash, s, a[0]).value, a[1..], b);
    }
  }

  lemma {:induction false} RunThen(hash: Hash, s: State, a: seq<Event>, e: Event)
    requires Run(hash, s, a).Some? && Apply(hash, Run(hash, s, a).value, e).Some?
    ensures Run(hash, s, a + [e]) == Apply(hash, Run(hash, s, a).value, e)
  {
    RunConcat(hash, s, a, [e]);
    var t := Run(hash, s, a).value;
    assert Run(hash, t, [e]) == Run(hash, Apply(hash, t, e).value, [e][1..]);
  }

  function Reads(n: nat, k: nat): seq<Event> { if k == 0 then [] else [Check(n)] + Reads(n, k - 1) }

  /** A build whose check is complete. */
  ghost predicate Checked(b: Build, b': Build, c: Cache) {
    && b'.phase.Checking? && b'.phase.read == 5 && b.phase.Checking? && b'.phase.underLock == b.phase.underLock
    && Current(b', c) && b'.plan == b.plan && b'.alive && b'.owns == b.owns && b'.copies == b.copies
  }

  /** The reads of one check, one after another. */
  lemma {:induction false} ReadOn(hash: Hash, s: State, n: nat, k: nat) returns (b: Build)
    requires n < |s.builds| && s.builds[n].alive && k <= 5
    requires s.builds[n].phase.Checking? && s.builds[n].phase.read == 5 - k && Current(s.builds[n], s.cache)
    ensures Checked(s.builds[n], b, s.cache)
    ensures Run(hash, s, Reads(n, k)) == Some(s.(builds := s.builds[n := b]))
    decreases k
  {
    if k == 0 {
      b := s.builds[n];
      assert s.builds[n := b] == s.builds;
    } else {
      var b1 := CheckStep(s.cache, s.builds[n]).value;
      var s1 := s.(builds := s.builds[n := b1]);
      CheckReads(s.builds[n], s.cache);
      b := ReadOn(hash, s1, n, k - 1);
      assert s1.builds[n := b] == s.builds[n := b];
      assert Apply(hash, s, Check(n)) == Some(s1);
    }
  }

  lemma {:induction false} CheckReads(b: Build, c: Cache)
    requires b.phase.Checking? && b.phase.read < 5 && Current(b, c)
    ensures CheckStep(c, b).Some?
    ensures var b' := CheckStep(c, b).value;
      && b'.phase == b.phase.(read := b.phase.read + 1) && Current(b', c)
      && b'.plan == b.plan && b'.alive == b.alive && b'.owns == b.owns && b'.copies == b.copies
  {
  }

  /** With no checksum in the cache, a fresh build comes to the lock. */
  lemma {:induction false} ComesToLock(hash: Hash, s: State, n: nat) returns (b: Build)
    requires n < |s.builds| && Fresh(s.builds[n]) && s.cache.checksum.None?
    ensures b.phase == Locking && b.alive && !b.owns && b.plan == s.builds[n].plan
    ensures Run(hash, s, Reads(n, 5) + [Decide(n)]) == Some(s.(builds := s.builds[n := b]))
  {
    var b1 := ReadOn(hash, s, n, 5);
    var s1 := s.(builds := s.builds[n := b1]);
    CurrentMatches(hash, b1, s.cache);
    b := b1.(phase := Locking);
    assert Apply(hash, s1, Decide(n)) == Some(s1.(builds := s1.builds[n := b]));
    assert s1.builds[n := b] == s.builds[n := b];
    RunThen(hash, s, Reads(n, 5), Decide(n));
  }

  lemma {:induction false} ReadsAreChecks(n: nat, k: nat)
    ensures forall e :: e in Reads(n, k) ==> e.Check?
  {
    if k > 0 {
      ReadsAreChecks(n, k - 1);
    }
  }

  /** The step is not one of the two halves of a lock operation. */
  predicate Whole(e: Event) { !e.Create? && !e.Write? && !e.Condemn? && !e.Remove? }

  /** Two fresh builds come to the lock, one after the other. */
  lemma {:induction false} BothComeToLock(hash: Hash, s: State) returns (events: seq<Event>, t: State)
    requires |s.builds| == 2 && Fresh(s.builds[0]) && Fresh(s.builds[1]) && s.cache.checksum.None?
    ensures Run(hash, s, events) == Some(t) && t.cache == s.cache && |t.builds| == 2
    ensures forall e :: e in events ==> Whole(e)
    ensures forall n :: 0 <= n < 2 ==>
      t.builds[n].phase == Locking && t.builds[n].alive && t.builds[n].plan == s.builds[n].plan
  {
    var a := ComesToLock(hash, s, 0);
    var s1 := s.(builds := s.builds[0 := a]);
    var b := ComesToLock(hash, s1, 1);
    t := s1.(builds := s1.builds[1 := b]);
    events := Reads(0, 5) + [Decide(0)] + (Reads(1, 5) + [Decide(1)]);
    RunConcat(hash, s, Reads(0, 5) + [Decide(0)], Reads(1, 5) + [Decide(1)]);
    ReadsAreChecks(0, 5);
    ReadsAreChecks(1, 5);
  }

  lemma {:induction false} RunFour(hash: Hash, s: State, a: Event, b: Event, c: Event, d: Event, s1: State, s2: State,
                                   s3: State, s4: State)
    requires Apply(hash, s, a) == Some(s1) && Apply(hash, s1, b) == Some(s2)
    requires Apply(hash, s2, c) == Some(s3) && Apply(hash, s3, d) == Some(s4)
    ensures Run(hash, s, [a, b, c, d]) == Some(s4)
  {
    assert [a, b, c, d][1..] == [b, c, d] && [b, c, d][1..] == [c, d] && [c, d][1..] == [d] && [d][1..] == [];
    assert Run(hash, s3, [d]) == Run(hash, s4, []);
    assert Run(hash, s2, [c, d]) == Run(hash, s3, [d]);
    assert Run(hash, s1, [b, c, d]) == Run(hash, s2, [c, d]);
  }

  lemma {:induction false} StealUnwritten(hash: Hash, t: State, now: nat) returns (events: seq<Event>, u: State)
    requires |t.builds| == 2 && t.cache.lock.None?
    requires forall n :: 0 <= n < 2 ==> t.builds[n].phase == Locking && t.builds[n].alive
    ensures Run(hash, t, events) == Some(u) && |u.builds| == 2
    ensures LiveOwner(u.builds[0]) && LiveOwner(u.builds[1])
  {
    var b0, b1 := t.builds[0], t.builds[1];
    var t1 := t.(cache := t.cache.(lock := Some(Lock(0, []))), builds := t.builds[0 := b0.(phase := Created)]);
    var t2 := t1.(cache := t1.cache.(lock := None));
    var t3 := t2.(cache := t2.cache.(lock := Some(Lock(1, LockFile.LockText(b1.plan.pid, now)))),
                  builds := t2.builds[1 := b1.(owns := true, phase := Checking(true, 0))]);
    u := t3.(builds := t3.builds[0 := b0.(owns := true, phase := Checking(true, 0))]);
    var steal := Inspect(1, now, true, false);
    assert Apply(hash, t, Create(0)) == Some(t1);
    assert Apply(hash, t1, steal) == Some(t2) by {
      LockFile.UnwrittenLockIsStale(now, true);
      assert t1.builds[1 := b1] == t1.builds;
    }
    assert Apply(hash, t2, Acquire(1, now)) == Some(t3);
    assert Apply(hash, t3, Write(0, now)) == Some(u);
    events := [Create(0), steal, Acquire(1, now), Write(0, now)];
    RunFour(hash, t, Create(0), steal, Acquire(1, now), Write(0, now), t1, t2, t3, u);
  }

  /** Creating the lock file and writing it are two steps in the source.  In between, another
      build finds it empty, hence stale, removes it and takes the lock: two live owners. */
  lemma {:induction false} SplitCreationBreaksExclusion(hash: Hash, s: State, now: nat)
    requires |s.builds| == 2 && Fresh(s.builds[0]) && Fresh(s.builds[1])
    requires s.cache.checksum.None? && s.cache.lock.None?
    ensures exists events :: (&& Run(hash, s, events).Some?
      && |Run(hash, s, events).value.builds| == 2
      && LiveOwner(Run(hash, s, events).value.builds[0]) && LiveOwner(Run(hash, s, events).value.builds[1]))
  {
    var first, t := BothComeToLock(hash, s);
    var second, u := StealUnwritten(hash, t, now);
    RunConcat(hash, s, first, second);
  }

  /** Finding a lock stale and removing it are two steps in the source.  Two builds that find
      the same stale lock: the second removes the lock that the first has taken meanwhile. */
  lemma {:induction false} SplitRemovalBreaksExclusion(hash: Hash, s: State, now: nat, inode: nat)
    requires |s.builds| == 2 && Fresh(s.builds[0]) && Fresh(s.builds[1])
    requires s.cache.checksum.None? && s.cache.lock == Some(Lock(inode, []))
    ensures exists events :: (&& Run(hash, s, events).Some?
      && |Run(hash, s, events).value.builds| == 2
      && LiveOwner(Run(hash, s, events).value.builds[0]) && LiveOwner(Run(hash, s, events).value.builds[1]))
  {
    var events, t := BothComeToLock(hash, s);
    var first, u := BothCondemn(hash, t, now);
    var second, v := OneAfterTheOther(hash, u, now);
    RunConcat(hash, s, events, first);
    RunConcat(hash, s, events + first, second);
  }

  lemma {:induction false} BothCondemn(hash: Hash, t: State, now: nat) returns (events: seq<Event>, u: State)
    requires |t.builds| == 2 && t.cache.lock.Some? && t.cache.lock.value.text == []
    requires forall n :: 0 <= n < 2 ==> t.builds[n].phase == Locking && t.builds[n].alive
    ensures Run(hash, t, events) == Some(u) && |u.builds| == 2
    ensures forall n :: 0 <= n < 2 ==> u.builds[n].phase == Condemned && u.builds[n].alive
  {
    LockFile.UnwrittenLockIsStale(now, true);
    var u1 := t.(builds := t.builds[0 := t.builds[0].(phase := Condemned)]);
    u := u1.(builds := u1.builds[1 := t.builds[1].(phase := Condemned)]);
    assert Apply(hash, t, Condemn(0, now, true)) == Some(u1);
    assert Apply(hash, u1, Condemn(1, now, true)) == Some(u);
    events := [Condemn(0, now, true)] + [Condemn(1, now, true)];
    assert Run(hash, t, [Condemn(0, now, true)]) == Run(hash, u1, [Condemn(0, now, true)][1..]);
    RunThen(hash, t, [Condemn(0, now, true)], Condemn(1, now, true));
  }

  lemma {:induction false} OneAfterTheOther(hash: Hash, u: State, now: nat) returns (events: seq<Event>, v: State)
    requires |u.builds| == 2 && forall n :: 0 <= n < 2 ==> u.builds[n].phase == Condemned && u.builds[n].alive
    ensures Run(hash, u, events) == Some(v) && |v.builds| == 2
    ensures LiveOwner(v.builds[0]) && LiveOwner(v.builds[1])
  {
    var b0, b1 := u.builds[0], u.builds[1];
    var u1 := u.(cache := u.cache.(lock := None), builds := u.builds[0 := b0.(phase := Locking)]);
    var u2 := u1.(cache := u1.cache.(lock := Some(Lock(0, LockFile.LockText(b0.plan.pid, now)))),
                  builds := u1.builds[0 := b0.(owns := true, phase := Checking(true, 0))]);
    var u3 := u2.(cache := u2.cache.(lock := None), builds := u2.builds[1 := b1.(phase := Locking)]);
    v := u3.(cache := u3.cache.(lock := Some(Lock(1, LockFile.LockText(b1.plan.pid, now)))),
             builds := u3.builds[1 := b1.(owns := true, phase := Checking(true, 0))]);
    assert Apply(hash, u, Remove(0)) == Some(u1);
    assert Apply(hash, u1, Acquire(0, now)) == Some(u2);
    assert Apply(hash, u2, Remove(1)) == Some(u3);
    assert Apply(hash, u3, Acquire(1, now)) == Some(v);
    events := [Remove(0), Acquire(0, now), Remove(1), Acquire(1, now)];
    RunFour(hash, u, Remove(0), Acquire(0, now), Remove(1), Acquire(1, now), u1, u2, u3, v);
  }

  /** A probe that takes a live process for dead: even with whole lock operations there is a
      run with two live owners. */
  lemma {:induction false} UnsoundProbeBreaksExclusion(hash: Hash, s: State, now: nat)
    requires |s.builds| == 2 && Fresh(s.builds[0]) && Fresh(s.builds[1]) && Pids(s)
    requires s.cache.checksum.None? && s.cache.lock.None? && now < U64_LIMIT
    ensures exists events :: (&& Run(hash, s, events).Some?
      && (forall e :: e in events ==> Whole(e))
      && |Run(hash, s, events).value.builds| == 2
      && LiveOwner(Run(hash, s, events).value.builds[0]) && LiveOwner(Run(hash, s, events).value.builds[1]))
  {
    var first, t := BothComeToLock(hash, s);
    var second, u := StealFromLiving(hash, t, now);
    RunConcat(hash, s, first, second);
    assert forall e :: e in first + second ==> Whole(e);
  }

  function Taken(s: State, n: nat, now: nat): State
    requires n < |s.builds|
  {
    s.(cache := s.cache.(lock := Some(Lock(n, LockFile.LockText(s.builds[n].plan.pid, now)))),
       builds := s.builds[n := s.builds[n].(owns := true, phase := Checking(true, 0))])
  }

  lemma {:induction false} AcquireApplies(hash: Hash, s: State, n: nat, now: nat)
    requires n < |s.builds| && s.builds[n].alive && s.builds[n].phase == Locking && s.cache.lock.None?
    ensures Apply(hash, s, Acquire(n, now)) == Some(Taken(s, n, now))
  {
  }

  lemma {:induction false} TakenLooksStale(s: State, n: nat, now: nat)
    requires n < |s.builds| && now < U64_LIMIT && 1 < s.builds[n].plan.pid < LockFile.PID_LIMIT
    ensures LockFile.Stale(LockContents(Taken(s, n, now).cache), now, false)
  {
    LockFile.DeadHolderIsStale(s.builds[n].plan.pid, now);
  }

  /** The first of two builds at the lock takes it; its lock can only be stolen by mistake. */
  lemma {:induction false} FirstTakesLock(hash: Hash, t: State, now: nat) returns (u: State)
    requires |t.builds| == 2 && t.cache.lock.None? && now < U64_LIMIT && 1 < t.builds[0].plan.pid < LockFile.PID_LIMIT
    requires forall n :: 0 <= n < 2 ==> t.builds[n].phase == Locking && t.builds[n].alive
    ensures Apply(hash, t, Acquire(0, now)) == Some(u) && |u.builds| == 2 && u.builds[1] == t.builds[1]
    ensures LiveOwner(u.builds[0]) && LockFile.Stale(LockContents(u.cache), now, false)
  {
    u := Taken(t, 0, now);
    AcquireApplies(hash, t, 0, now);
    TakenLooksStale(t, 0, now);
  }

  lemma {:induction false} InspectApplies(hash: Hash, s: State, now: nat)
    requires |s.builds| == 2 && s.builds[1].alive && s.builds[1].phase == Locking
    requires LockFile.Stale(LockContents(s.cache), now, false)
    ensures Apply(hash, s, Inspect(1, now, false, false)).Some?
    ensures |Apply(hash, s, Inspect(1, now, false, false)).value.builds| == 2
  {
  }

  lemma {:induction false} StealFromLiving(hash: Hash, t: State, now: nat) returns (events: seq<Event>, u: State)
    requires |t.builds| == 2 && t.cache.lock.None? && now < U64_LIMIT && 1 < t.builds[0].plan.pid < LockFile.PID_LIMIT
    requires forall n :: 0 <= n < 2 ==> t.builds[n].phase == Locking && t.builds[n].alive
    ensures Run(hash, t, events) == Some(u) && |u.builds| == 2 && forall e :: e in events ==> Whole(e)
    ensures LiveOwner(u.builds[0]) && LiveOwner(u.builds[1])
  {
    hide Apply, LockFile.Stale;
    var t1 := FirstTakesLock(hash, t, now);
    var steal := Inspect(1, now, false, false);
    InspectApplies(hash, t1, now);
    TheftMakesTwoOwners(hash, t1, steal, 0, 1, now);
    var t2 := Apply(hash, t1, steal).value;
    u := Apply(hash, t2, Acquire(1, now)).value;
    events := [Acquire(0, now), steal, Acquire(1, now)];
    RunThree(hash, t, Acquire(0, now), steal, Acquire(1, now), t1, t2, u);
  }

  lemma {:induction false} RunThree(hash: Hash, s: State, a: Event, b: Event, c: Event, s1: State, s2: State, s3: State)
    requires Apply(hash, s, a) == Some(s1) && Apply(hash, s1, b) == Some(s2) && Apply(hash, s2, c) == Some(s3)
    ensures Run(hash, s, [a, b, c]) == Some(s3)
  {
    assert [a, b, c][1..] == [b, c] && [b, c][1..] == [c] && [c][1..] == [];
    assert Run(hash, s2, [c]) == Run(hash, s3, []);
    assert Run(hash, s1, [b, c]) == Run(hash, s2, [c]);
  }

  // ---------------------------------------------------------------- verifying before copying

  /** The cache holds a complete bake for the key and inputs of build 0, and a second bake
      exists, from the same inputs and with another metadata file. */
  ghost predicate TwoBakes(hash: Hash, s: State, order: Order) {
    && s.order == order && |s.builds| == 1 && Fresh(s.builds[0]) && !s.builds[0].plan.fallback
    && |s.baked| == 2 && s.baked[0].inputs == s.baked[1].inputs == s.builds[0].plan.inputs
    && s.cache.files == map[Archive := s.baked[0].archive, Metadata := s.baked[0].metadata,
                            Symbols := s.baked[0].symbols, Receipt := ReceiptOf(hash, s.baked[0])]
    && s.cache.checksum == Some(s.builds[0].plan.key) && ModulePaths.NoSpace(s.builds[0].plan.key)
    && hash(s.baked[0].metadata) != hash(s.baked[1].metadata)
    && hash(s.baked[0].archive) != hash(s.baked[1].archive)
  }

  lemma {:induction false} HitsCache(hash: Hash, s: State, order: Order) returns (b: Build)
    requires TwoBakes(hash, s, order)
    ensures Run(hash, s, Reads(0, 5) + [Decide(0)]) == Some(s.(builds := [b]))
    ensures b.phase == (if order == CopyThenVerify then Copying(0) else Verifying)
    ensures b.alive && b.plan == s.builds[0].plan && b.copies == map[]
    ensures VerifyFiles(hash, b.plan.inputs, Get(s.cache.files, Receipt), s.cache.files)
  {
    var b1 := ReadOn(hash, s, 0, 5);
    GoodCache(hash, s, order);
    CurrentMatches(hash, b1, s.cache);
    b := b1.(phase := Refreshed(order, b1));
    DecidesHit(hash, s.(builds := s.builds[0 := b1]), order);
    RunThen(hash, s, Reads(0, 5), Decide(0));
  }

  lemma {:induction false} GoodCache(hash: Hash, s: State, order: Order)
    requires TwoBakes(hash, s, order)
    ensures CacheGood(hash, s.cache, s.builds[0].plan.key, s.builds[0].plan.inputs)
  {
    ModulePaths.TrimNothing(s.builds[0].plan.key);
    var k := s.baked[0];
    VerifiesIff(Some(ReceiptOf(hash, k)), s.builds[0].plan.inputs, hash(k.archive), SidecarsOf(hash, k));
  }

  lemma {:induction false} DecidesHit(hash: Hash, s: State, order: Order)
    requires s.order == order && |s.builds| == 1 && s.builds[0].alive && s.builds[0].phase == Checking(false, 5)
    requires Matches(hash, s.builds[0])
    ensures Apply(hash, s, Decide(0)) == Some(s.(builds := [s.builds[0].(phase := Refreshed(order, s.builds[0]))]))
  {
    hide Verifies, Encode;
    PrivateApplies(hash, s, Decide(0), s.builds[0].(phase := Refreshed(order, s.builds[0])));
  }

  /** If the check came before the copies, a publication in between would go unnoticed: the
      build embeds the archive of one bake with the metadata of another. */
  lemma {:induction false} VerifyingFirstMixesBakes(hash: Hash, s: State)
    requires TwoBakes(hash, s, VerifyThenCopy)
    ensures exists events :: (&& Run(hash, s, events).Some? && |Run(hash, s, events).value.builds| == 1
      && Run(hash, s, events).value.builds[0].phase == Embedded
      && Run(hash, s, events).value.baked == s.baked
      && !BakeIntegrity.FromOneBake(hash, s.baked, Run(hash, s, events).value.builds[0]))
  {
    var first, t := VerifiesShared(hash, s);
    var second, u := CopiesAcross(hash, t);
    RunConcat(hash, s, first, second);
    MixedIsNotOneBake(hash, s.baked, u.builds[0]);
  }

  /** A step of the only build that leaves the shared files alone. */
  lemma {:induction false} PrivateApplies(hash: Hash, s: State, e: Event, b: Build)
    requires |s.builds| == 1 && s.builds[0].alive && IsPrivate(e) && e.b == 0 && !e.BakeDone?
    requires Private(hash, s.order, s.cache, s.builds[0], e) == Some(b)
    ensures Apply(hash, s, e) == Some(s.(builds := [b]))
  {
    assert s.builds[0 := b] == [b];
  }

  lemma {:induction false} VerifyStepIs(hash: Hash, order: Order, c: Cache, b: Build, ok: bool)
    requires b.phase == Verifying
    requires ok == VerifyFiles(hash, b.plan.inputs, Get(c.files, Receipt),
                               if order == CopyThenVerify then b.copies else c.files)
    ensures VerifyStep(hash, order, c, b) == Some(Verified(order, b, ok))
  {
    hide Verifies, Encode;
  }

  lemma {:induction false} VerifyPasses(hash: Hash, order: Order, c: Cache, b: Build)
    requires b.phase == Verifying
    requires VerifyFiles(hash, b.plan.inputs, Get(c.files, Receipt),
                         if order == CopyThenVerify then b.copies else c.files)
    ensures VerifyStep(hash, order, c, b)
         == Some(b.(phase := if order == CopyThenVerify then Embedded else Copying(0)))
  {
    hide Verifies, Encode;
    VerifyStepIs(hash, order, c, b, true);
  }

  lemma {:induction false} SharedVerifies(hash: Hash, s: State)
    requires |s.builds| == 1 && s.builds[0].alive && s.builds[0].phase == Verifying && s.order == VerifyThenCopy
    requires VerifyFiles(hash, s.builds[0].plan.inputs, Get(s.cache.files, Receipt), s.cache.files)
    ensures Apply(hash, s, Verify(0)) == Some(s.(builds := [s.builds[0].(phase := Copying(0))]))
  {
    hide Verifies, Encode;
    VerifyPasses(hash, s.order, s.cache, s.builds[0]);
    PrivateApplies(hash, s, Verify(0), s.builds[0].(phase := Copying(0)));
  }

  lemma {:induction false} VerifiesShared(hash: Hash, s: State) returns (events: seq<Event>, t: State)
    requires TwoBakes(hash, s, VerifyThenCopy)
    ensures Run(hash, s, events) == Some(t) && t.cache == s.cache && t.baked == s.baked && t.order == s.order
    ensures |t.builds| == 1 && t.builds[0].alive && t.builds[0].phase == Copying(0)
  {
    hide Verifies, Encode;
    var b := HitsCache(hash, s, VerifyThenCopy);
    t := s.(builds := [b.(phase := Copying(0))]);
    SharedVerifies(hash, s.(builds := [b]));
    RunThen(hash, s, Reads(0, 5) + [Decide(0)], Verify(0));
    events := Reads(0, 5) + [Decide(0)] + [Verify(0)];
  }

  lemma {:induction false} MixedIsNotOneBake(hash: Hash, baked: seq<Bake>, c: Build)
    requires |baked| == 2 && Archive in c.copies && Metadata in c.copies
    requires c.copies[Archive] == baked[0].archive && c.copies[Metadata] == baked[1].metadata
    requires hash(baked[0].metadata) != hash(baked[1].metadata) && hash(baked[0].archive) != hash(baked[1].archive)
    ensures !BakeIntegrity.FromOneBake(hash, baked, c)
  {
    if BakeIntegrity.FromOneBake(hash, baked, c) {
      var k :| 0 <= k < |baked| && BakeIntegrity.IsCopyOf(hash, c, baked[k]);
    }
  }

  /** The three copies, with one rename from outside after the first. */
  lemma {:induction false} CopiesAcross(hash: Hash, s: State) returns (events: seq<Event>, u: State)
    requires s.order == VerifyThenCopy && |s.builds| == 1 && |s.baked| == 2
    requires s.builds[0].alive && s.builds[0].phase == Copying(0)
    requires Archive in s.cache.files && Symbols in s.cache.files
    ensures Run(hash, s, events) == Some(u) && |u.builds| == 1 && u.baked == s.baked
    ensures var c := u.builds[0];
      && c.phase == Embedded
      && Archive in c.copies && c.copies[Archive] == s.cache.files[Archive]
      && Metadata in c.copies && c.copies[Metadata] == s.baked[1].metadata
  {
    var b0 := s.builds[0];
    var b1 := b0.(copies := b0.copies[Archive := s.cache.files[Archive]], phase := Copying(1));
    var s1 := s.(builds := [b1]);
    var s2 := s1.(cache := s1.cache.(files := s1.cache.files[Metadata := s.baked[1].metadata]));
    var b3 := b1.(copies := b1.copies[Metadata := s.baked[1].metadata], phase := Copying(2));
    var s3 := s2.(builds := [b3]);
    var b4 := b3.(copies := b3.copies[Symbols := s.cache.files[Symbols]], phase := Embedded);
    u := s3.(builds := [b4]);
    assert s.builds[0 := b1] == [b1] && s2.builds[0 := b3] == [b3] && s3.builds[0 := b4] == [b4];
    assert Apply(hash, s, Copy(0)) == Some(s1);
    assert Apply(hash, s1, OutsideRename(Metadata, 1)) == Some(s2);
    assert Apply(hash, s2, Copy(0)) == Some(s3);
    assert Apply(hash, s3, Copy(0)) == Some(u);
    events := [Copy(0), OutsideRename(Metadata, 1), Copy(0), Copy(0)];
    RunFour(hash, s, Copy(0), OutsideRename(Metadata, 1), Copy(0), Copy(0), s1, s2, s3, u);
  }

  // ---------------------------------------------------------------- publishing under the lock

  /** A step that neither splits nor steals a lock and publishes nothing from outside. */
  predicate Plain(e: Event) { !e.Write? && !e.Remove? && !e.Inspect? && !e.OutsideRename? }

  lemma {:induction false} PlainIsGuarded(hash: Hash, s: State, events: seq<Event>)
    requires forall e :: e in events ==> Plain(e)
    ensures GuardedRun(hash, s, events)
    decreases |events|
  {
    if events != [] {
      assert events[0] in events && forall e :: e in events[1..] ==> e in events;
      if Apply(hash, s, events[0]).Some? {
        PlainIsGuarded(hash, Apply(hash, s, events[0]).value, events[1..]);
      }
    }
  }

  /** The only build, on a cache without a lock or a checksum, takes the lock and finds that it
      has to bake. */
  lemma {:induction false} TakesLockToBake(hash: Hash, s: State, now: nat) returns (events: seq<Event>, t: State)
    requires |s.builds| == 1 && Fresh(s.builds[0]) && s.cache.lock.None? && s.cache.checksum.None?
    ensures Run(hash, s, events) == Some(t) && |t.builds| == 1 && forall e :: e in events ==> Plain(e)
    ensures LiveOwner(t.builds[0]) && t.builds[0].phase == Baking && t.builds[0].plan == s.builds[0].plan
  {
    var b := ComesToLock(hash, s, 0);
    var s1 := s.(builds := s.builds[0 := b]);
    var first := Reads(0, 5) + [Decide(0)];
    var b2 := b.(owns := true, phase := Checking(true, 0));
    var s2 := s1.(cache := s1.cache.(lock := Some(Lock(0, LockFile.LockText(b.plan.pid, now)))),
                  builds := s1.builds[0 := b2]);
    assert Apply(hash, s1, Acquire(0, now)) == Some(s2);
    RunThen(hash, s, first, Acquire(0, now));
    var second;
    second, t := MissesCache(hash, s2);
    events := first + [Acquire(0, now)] + second;
    RunConcat(hash, s, first + [Acquire(0, now)], second);
    ReadsAreChecks(0, 5);
  }

  lemma {:induction false} MissesCache(hash: Hash, s: State) returns (events: seq<Event>, t: State)
    requires |s.builds| == 1 && LiveOwner(s.builds[0]) && s.builds[0].phase == Checking(true, 0)
    requires s.cache.checksum.None?
    ensures Run(hash, s, events) == Some(t) && |t.builds| == 1 && forall e :: e in events ==> Plain(e)
    ensures LiveOwner(t.builds[0]) && t.builds[0].phase == Baking && t.builds[0].plan == s.builds[0].plan
  {
    var b := ReadOn(hash, s, 0, 5);
    var s1 := s.(builds := s.builds[0 := b]);
    CurrentMatches(hash, b, s.cache);
    t := s1.(builds := s1.builds[0 := b.(phase := Baking)]);
    assert Apply(hash, s1, Decide(0)) == Some(t);
    RunThen(hash, s, Reads(0, 5), Decide(0));
    events := Reads(0, 5) + [Decide(0)];
    ReadsAreChecks(0, 5);
  }

  predicate PublishesAlone(hash: Hash, s: State, done: nat) {
    && |s.builds| == 1 && LiveOwner(s.builds[0]) && s.builds[0].phase == Publishing(done)
    && s.builds[0].staged.Some? && StagedVerifies(hash, s.builds[0])
  }

  lemma {:induction false} PublishKeeps(hash: Hash, c: Cache, b: Build, done: nat, ok: bool)
    requires b.phase == Publishing(done) && done < 4 && b.staged.Some? && ok == StagedVerifies(hash, b) && ok
    ensures PublishStep(hash, c, b).Some?
    ensures PublishStep(hash, c, b).value.0 == b.(phase := if done < 3 then Publishing(done + 1) else Stamping(false))
  {
    hide Verifies, Encode;
  }

  lemma {:induction false} PublishApplies(hash: Hash, s: State, done: nat) returns (t: State)
    requires PublishesAlone(hash, s, done) && done < 4
    ensures Run(hash, s, [Publish(0)]) == Some(t) && |t.builds| == 1 && LiveOwner(t.builds[0])
    ensures t.builds[0].plan == s.builds[0].plan
    ensures if done < 3 then PublishesAlone(hash, t, done + 1) else t.builds[0].phase == Stamping(false)
  {
    hide Verifies, Encode;
    PublishKeeps(hash, s.cache, s.builds[0], done, true);
    var (b, c) := PublishStep(hash, s.cache, s.builds[0]).value;
    t := s.(cache := c, builds := s.builds[0 := b]);
    assert Apply(hash, s, Publish(0)) == Some(t);
    assert Run(hash, s, [Publish(0)]) == Run(hash, t, [Publish(0)][1..]);
  }

  /** The renames that are left. */
  lemma {:induction false} PublishesOn(hash: Hash, s: State, done: nat) returns (events: seq<Event>, t: State)
    requires PublishesAlone(hash, s, done) && done < 4
    ensures Run(hash, s, events) == Some(t) && |t.builds| == 1 && forall e :: e in events ==> Plain(e)
    ensures LiveOwner(t.builds[0]) && t.builds[0].phase == Stamping(false) && t.builds[0].plan == s.builds[0].plan
    decreases 4 - done
  {
    hide Verifies, Encode;
    t := PublishApplies(hash, s, done);
    events := [Publish(0)];
    if done < 3 {
      var rest;
      rest, t := PublishesOn(hash, t, done + 1);
      events := [Publish(0)] + rest;
      RunConcat(hash, s, [Publish(0)], rest);
    }
  }

  lemma {:induction false} OwnBakeVerifies(hash: Hash, b: Build)
    requires b.staged.Some? && b.staged.value.inputs == b.plan.inputs
    ensures StagedVerifies(hash, b)
  {
    var k := b.staged.value;
    VerifiesIff(Some(ReceiptOf(hash, k)), b.plan.inputs, hash(k.archive), SidecarsOf(hash, k));
  }

  lemma {:induction false} BakesAndPublishes(hash: Hash, s: State, bake: Bake) returns (events: seq<Event>, t: State)
    requires |s.builds| == 1 && LiveOwner(s.builds[0]) && s.builds[0].phase == Baking
    requires bake.inputs == s.builds[0].plan.inputs
    ensures Run(hash, s, events) == Some(t) && |t.builds| == 1 && forall e :: e in events ==> Plain(e)
    ensures LiveOwner(t.builds[0]) && t.builds[0].phase == Stamping(false) && t.builds[0].plan == s.builds[0].plan
  {
    var b := s.builds[0].(staged := Some(bake), phase := Publishing(0));
    var s1 := s.(builds := s.builds[0 := b], baked := s.baked + [bake]);
    assert Apply(hash, s, BakeDone(0, bake)) == Some(s1);
    assert Run(hash, s, [BakeDone(0, bake)]) == Run(hash, s1, [BakeDone(0, bake)][1..]);
    OwnBakeVerifies(hash, b);
    hide Verifies, Encode;
    var rest;
    rest, t := PublishesOn(hash, s1, 0);
    events := [BakeDone(0, bake)] + rest;
    RunConcat(hash, s, [BakeDone(0, bake)], rest);
  }

  /** A build that holds the lock gets to the end of its publication, in a run that meets what
      `OneBakePerKey` asks of the steps before. */
  lemma {:induction false} LockedBuildStamps(hash: Hash, s: State, bake: Bake, now: nat)
    requires |s.builds| == 1 && Fresh(s.builds[0]) && s.cache.lock.None? && s.cache.checksum.None?
    requires bake.inputs == s.builds[0].plan.inputs
    ensures exists events :: (&& GuardedRun(hash, s, events) && (forall i :: 0 <= i < |events| ==> LockOnly(events[i]))
      && Run(hash, s, events).Some? && |Run(hash, s, events).value.builds| == 1
      && LiveOwner(Run(hash, s, events).value.builds[0])
      && Run(hash, s, events).value.builds[0].phase == Stamping(true)
      && Apply(hash, Run(hash, s, events).value, Stamp(0)).Some?)
  {
    hide Verifies, Encode;
    var first, t := TakesLockToBake(hash, s, now);
    var second, u := BakesAndPublishes(hash, t, bake);
    RunConcat(hash, s, first, second);
    var v := Apply(hash, u, Stamp(0)).value;
    RunThen(hash, s, first + second, Stamp(0));
    var events := first + second + [Stamp(0)];
    assert forall e :: e in events ==> Plain(e);
    PlainIsGuarded(hash, s, events);
    assert forall i :: 0 <= i < |events| ==> LockOnly(events[i]) by {
      assert forall i :: 0 <= i < |events| ==> events[i] in events;
    }
    assert v.builds[0].phase == Stamping(true) && LiveOwner(v.builds[0]);
  }
}
