/** Once a bake is published, builds that want the same bake reuse it. */
module BakeOnce {
  import opened Bytes
  import opened Receipt
  import opened BakeProtocol
  import opened BakeExclusion
  import ModulePaths

  function ReadRank(slot: Slot): nat {
    match slot case Archive => 0 case Receipt => 1 case Metadata => 2 case Symbols => 3
  }

  /** What a check under the lock has read so far is what the cache holds now. */
  ghost predicate Current(b: Build, c: Cache)
    requires b.phase.Checking?
  {
    b.phase.read >= 1 ==>
      && b.seen.checksum == c.checksum
      && forall slot :: Get(b.seen.files, slot) ==
           if ReadRank(slot) < b.phase.read - 1 then Get(c.files, slot) else None
  }

  /** The published files and the checksum are those of a bake with this key and inputs. */
  predicate CacheGood(hash: Hash, c: Cache, key: ByteString, i: Inputs) {
    && c.checksum.Some? && ModulePaths.TrimEnd(ModulePaths.TrimStart(c.checksum.value)) == key
    && VerifyFiles(hash, i, Get(c.files, Receipt), c.files)
  }

  predicate Wants(b: Build, key: ByteString, i: Inputs) { b.alive && b.plan.key == key && b.plan.inputs == i }

  predicate Writing(b: Build) { b.phase == Baking || b.phase.Publishing? || b.phase.Stamping? }

  lemma {:induction false} CurrentMatches(hash: Hash, b: Build, c: Cache)
    requires b.phase.Checking? && b.phase.read == 5 && Current(b, c)
    ensures Matches(hash, b) <==> CacheGood(hash, c, b.plan.key, b.plan.inputs)
  {
    assert Get(b.seen.files, Archive) == Get(c.files, Archive) && Get(b.seen.files, Receipt) == Get(c.files, Receipt);
    assert Get(b.seen.files, Metadata) == Get(c.files, Metadata) && Get(b.seen.files, Symbols) == Get(c.files, Symbols);
  }

  ghost predicate Settled(hash: Hash, s: State, key: ByteString, i: Inputs) {
    && CacheGood(hash, s.cache, key, i)
    && forall n :: 0 <= n < |s.builds| && Wants(s.builds[n], key, i) ==> SettledBuild(s.builds[n], s.cache)
  }

  ghost predicate SettledBuild(b: Build, c: Cache) {
    !Writing(b) && (b.phase.Checking? && b.phase.underLock ==> Current(b, c))
  }

  /** Nothing else is published: no rename from outside, no publication by a build that wants
      another bake.  Builds may still die, steal, split their lock steps or go without. */
  predicate Quiet(s: State, e: Event, key: ByteString, i: Inputs) {
    && !e.OutsideRename?
    && ((e.Publish? || e.Stamp?) && e.b < |s.builds| ==> Wants(s.builds[e.b], key, i))
  }

  ghost predicate QuietRun(hash: Hash, s: State, events: seq<Event>, key: ByteString, i: Inputs)
    decreases |events|
  {
    events == [] ||
    (&& Quiet(s, events[0], key, i)
     && (Apply(hash, s, events[0]).Some? ==> QuietRun(hash, Apply(hash, s, events[0]).value, events[1..], key, i)))
  }

  lemma {:induction false} SettledCheck(b: Build, c: Cache)
    requires CheckStep(c, b).Some? && SettledBuild(b, c)
    ensures SettledBuild(CheckStep(c, b).value, c)
  {
  }

  lemma {:induction false} SettledDecide(hash: Hash, order: Order, b: Build, c: Cache)
    requires DecideStep(hash, order, b).Some? && SettledBuild(b, c) && CacheGood(hash, c, b.plan.key, b.plan.inputs)
    ensures SettledBuild(DecideStep(hash, order, b).value, c)
  {
    if b.phase.underLock {
      CurrentMatches(hash, b, c);
    }
  }

  lemma {:induction false} SettledPrivate(hash: Hash, s: State, b: Build, e: Event)
    requires Private(hash, s.order, s.cache, b, e).Some? && CacheGood(hash, s.cache, b.plan.key, b.plan.inputs)
    requires b.alive && SettledBuild(b, s.cache)
    ensures SettledBuild(Private(hash, s.order, s.cache, b, e).value, s.cache)
    ensures !e.BakeDone? && !e.BakeFails?
  {
    hide Verifies, Encode;
    match e
    case Check(_) => SettledCheck(b, s.cache);
    case Decide(_) => SettledDecide(hash, s.order, b, s.cache);
    case Copy(_) => CopyStaysOutside(s.order, s.cache, b);
    case Verify(_) => VerifyStaysOutside(hash, s.order, s.cache, b);
    case _ =>
  }

  lemma {:induction false} SettledLock(order: Order, c: Cache, n: nat, b: Build, e: Event)
    requires LockStep(order, c, n, b, e).Some? && SettledBuild(b, c)
    ensures var (b', c') := LockStep(order, c, n, b, e).value; SettledBuild(b', c')
  {
    var (b', c') := LockStep(order, c, n, b, e).value;
    assert !Writing(b');
    assert b'.phase.Checking? && b'.phase.underLock ==> b'.phase.read == 0;
  }

  lemma {:induction false} CurrentIgnoresLock(b: Build, c: Cache, d: Cache)
    requires c.files == d.files && c.checksum == d.checksum && SettledBuild(b, c)
    ensures SettledBuild(b, d)
  {
  }

  lemma {:induction false} GoodIgnoresLock(hash: Hash, c: Cache, d: Cache, key: ByteString, i: Inputs)
    requires c.files == d.files && c.checksum == d.checksum
    ensures CacheGood(hash, c, key, i) <==> CacheGood(hash, d, key, i)
  {
  }

  lemma {:induction false} SettledReplace(hash: Hash, s: State, s': State, n: nat, key: ByteString, i: Inputs)
    requires Settled(hash, s, key, i) && n < |s.builds| && |s'.builds| == |s.builds|
    requires s'.cache == s.cache && s'.builds == s.builds[n := s'.builds[n]]
    requires Wants(s'.builds[n], key, i) ==> SettledBuild(s'.builds[n], s.cache)
    ensures Settled(hash, s', key, i)
  {
  }

  lemma {:induction false} SettledPrivateStep(hash: Hash, s: State, e: Event, key: ByteString, i: Inputs)
    requires Settled(hash, s, key, i) && IsPrivate(e) && Apply(hash, s, e).Some?
    ensures Settled(hash, Apply(hash, s, e).value, key, i)
  {
    hide Verifies, Encode;
    ApplyPrivate(hash, s, e);
    var b := s.builds[e.b];
    PrivateIdentity(hash, s.order, s.cache, b, e);
    if Wants(b, key, i) {
      SettledPrivate(hash, s, b, e);
    }
    SettledReplace(hash, s, Apply(hash, s, e).value, e.b, key, i);
  }

  lemma {:induction false} SettledSharedStep(hash: Hash, s: State, e: Event, key: ByteString, i: Inputs)
    requires Settled(hash, s, key, i) && Quiet(s, e, key, i) && Apply(hash, s, e).Some?
    requires !IsOutside(e) && !IsPrivate(e)
    ensures Settled(hash, Apply(hash, s, e).value, key, i)
  {
    hide Verifies, Encode;
    var b := s.builds[e.b];
    SharedIdentity(hash, s.order, s.cache, e.b, b, e);
    assert !e.Publish? && !e.Stamp?;
    var (b', c') := LockStep(s.order, s.cache, e.b, b, e).value;
    GoodIgnoresLock(hash, s.cache, c', key, i);
    forall n | 0 <= n < |s.builds| && Wants(Apply(hash, s, e).value.builds[n], key, i)
      ensures SettledBuild(Apply(hash, s, e).value.builds[n], c')
    {
      if n == e.b {
        SettledLock(s.order, s.cache, e.b, b, e);
      } else {
        CurrentIgnoresLock(s.builds[n], s.cache, c');
      }
    }
  }

  lemma {:induction false} SettledStep(hash: Hash, s: State, e: Event, key: ByteString, i: Inputs)
    requires Settled(hash, s, key, i) && Quiet(s, e, key, i) && Apply(hash, s, e).Some?
    ensures Settled(hash, Apply(hash, s, e).value, key, i)
  {
    hide Verifies, Encode;
    if IsPrivate(e) {
      SettledPrivateStep(hash, s, e, key, i);
    } else if !e.OutsideBake? {
      SettledSharedStep(hash, s, e, key, i);
    }
  }

  /** While nothing else is published, no build that wants the published bake starts one:
      neither a later lock holder nor a build that gave up on the lock. */
  lemma {:induction false} SettledRun(hash: Hash, s: State, events: seq<Event>, key: ByteString, i: Inputs)
    requires Settled(hash, s, key, i) && QuietRun(hash, s, events, key, i) && Run(hash, s, events).Some?
    ensures Settled(hash, Run(hash, s, events).value, key, i)
    decreases |events|
  {
    if events != [] {
      SettledStep(hash, s, events[0], key, i);
      SettledRun(hash, Apply(hash, s, events[0]).value, events[1..], key, i);
    }
  }

  /** The key leaves the target out, the receipt does not: a build with the same key and
      another target does not reuse the bake. */
  lemma {:induction false} SameKeyOtherInputs(hash: Hash, c: Cache, key: ByteString, i: Inputs, j: Inputs)
    requires CacheGood(hash, c, key, i) && OneLine(i) && OneLine(j)
    ensures CacheGood(hash, c, key, j) <==> i == j
  {
    var a, found := hash(c.files[Archive]), Sidecars(hash(c.files[Metadata]), hash(c.files[Symbols]));
    VerifiesIff(Get(c.files, Receipt), i, a, found);
    VerifiesIff(Get(c.files, Receipt), j, a, found);
    if CacheGood(hash, c, key, j) {
      EncodeIsInjective(i, a, found, j, a, found);
    }
  }

  // ---------------------------------------------------------------- publication settles the cache

  /** Runs in which every build waits for the lock and nobody publishes from outside. */
  predicate LockOnly(e: Event) { !e.OutsideRename? && !(e.Inspect? && e.expired) }

  predicate InLockedPart(b: Build) { (b.phase.Checking? && b.phase.underLock) || Writing(b) }

  /** How many of the four files a publishing build has put in place. */
  function Placed(b: Build): nat {
    if b.phase.Publishing? then b.phase.done else if b.phase.Stamping? then 4 else 0
  }

  ghost predicate PublishedSoFar(hash: Hash, b: Build, c: Cache) {
    Placed(b) > 0 ==>
      && b.staged.Some? && StagedVerifies(hash, b)
      && forall k :: 0 <= k < Placed(b) && k < 4 ==> PlacedFile(hash, b, c, PUBLICATION[k])
  }

  ghost predicate OnceInv(hash: Hash, s: State) {
    && OwnFile(s)
    && forall n :: 0 <= n < |s.builds| ==> OnceBuild(hash, s.builds[n], s.cache)
  }

  predicate StaysOutside(b: Build, b': Build) {
    && (b'.alive && InLockedPart(b') ==> InLockedPart(b))
    && (b'.alive && Placed(b') > 0 ==> Placed(b') == Placed(b) && b'.staged == b.staged)
  }

  lemma {:induction false} CheckStaysOutside(c: Cache, b: Build)
    requires CheckStep(c, b).Some?
    ensures StaysOutside(b, CheckStep(c, b).value)
  {
  }

  lemma {:induction false} DecideStaysOutside(hash: Hash, order: Order, b: Build)
    requires DecideStep(hash, order, b).Some?
    ensures StaysOutside(b, DecideStep(hash, order, b).value)
  {
  }

  lemma {:induction false} CopyStaysOutside(order: Order, c: Cache, b: Build)
    requires CopyStep(order, c, b).Some?
    ensures StaysOutside(b, CopyStep(order, c, b).value)
  {
  }

  lemma {:induction false} VerifyStaysOutside(hash: Hash, order: Order, c: Cache, b: Build)
    requires VerifyStep(hash, order, c, b).Some?
    ensures StaysOutside(b, VerifyStep(hash, order, c, b).value)
  {
    VerifiedStaysOutside(order, b, VerifyFiles(hash, b.plan.inputs, Get(c.files, Receipt),
                                               if order == CopyThenVerify then b.copies else c.files));
  }

  lemma {:induction false} VerifiedStaysOutside(order: Order, b: Build, ok: bool)
    requires b.phase == Verifying
    ensures StaysOutside(b, Verified(order, b, ok))
  {
  }

  /** A step of its own takes a build into the locked part only from the locked part, and
      never moves it along the publication. */
  lemma {:induction false} PrivateStaysOutside(hash: Hash, s: State, b: Build, e: Event)
    requires Private(hash, s.order, s.cache, b, e).Some?
    ensures StaysOutside(b, Private(hash, s.order, s.cache, b, e).value)
  {
    match e
    case Check(_) => CheckStaysOutside(s.cache, b);
    case Decide(_) => DecideStaysOutside(hash, s.order, b);
    case Copy(_) => CopyStaysOutside(s.order, s.cache, b);
    case Verify(_) => VerifyStaysOutside(hash, s.order, s.cache, b);
    case _ =>
  }

  lemma {:induction false} PlacedCarriesOver(hash: Hash, b: Build, b': Build, c: Cache)
    requires PublishedSoFar(hash, b, c) && b'.plan == b.plan
    requires Placed(b') > 0 ==> Placed(b') == Placed(b) && b'.staged == b.staged
    ensures PublishedSoFar(hash, b', c)
  {
  }

  ghost predicate OnceBuild(hash: Hash, b: Build, c: Cache) {
    b.alive && InLockedPart(b) ==> b.owns && PublishedSoFar(hash, b, c)
  }

  lemma {:induction false} OnceReplace(hash: Hash, s: State, s': State, n: nat)
    requires OnceInv(hash, s) && OwnFile(s') && n < |s.builds| && |s'.builds| == |s.builds|
    requires s'.cache == s.cache && s'.builds == s.builds[n := s'.builds[n]]
    requires OnceBuild(hash, s'.builds[n], s.cache)
    ensures OnceInv(hash, s')
  {
  }

  lemma {:induction false} OncePrivateBuild(hash: Hash, s: State, b: Build, e: Event)
    requires Private(hash, s.order, s.cache, b, e).Some? && OnceBuild(hash, b, s.cache)
    ensures OnceBuild(hash, Private(hash, s.order, s.cache, b, e).value, s.cache)
  {
    var b' := Private(hash, s.order, s.cache, b, e).value;
    PrivateIdentity(hash, s.order, s.cache, b, e);
    PrivateStaysOutside(hash, s, b, e);
    if b'.alive && InLockedPart(b') {
      PlacedCarriesOver(hash, b, b', s.cache);
    }
  }

  lemma {:induction false} OncePrivateStep(hash: Hash, s: State, e: Event)
    requires OnceInv(hash, s) && Guarded(s, e) && IsPrivate(e) && Apply(hash, s, e).Some?
    ensures OnceInv(hash, Apply(hash, s, e).value)
  {
    OwnFileStep(hash, s, e);
    ApplyPrivate(hash, s, e);
    OncePrivateBuild(hash, s, s.builds[e.b], e);
    OnceReplace(hash, s, Apply(hash, s, e).value, e.b);
  }

  predicate PlacedFile(hash: Hash, b: Build, c: Cache, slot: Slot)
    requires b.staged.Some?
  {
    Get(c.files, slot) == Some(FileOf(hash, b.staged.value, slot))
  }

  lemma {:induction false} PlaceOne(hash: Hash, b: Build, b': Build, c: Cache, c': Cache, k: nat)
    requires b.staged.Some? && b'.staged == b.staged && k < 4
    requires c'.files == c.files[PUBLICATION[k] := FileOf(hash, b.staged.value, PUBLICATION[k])]
    requires forall j :: 0 <= j < k ==> PlacedFile(hash, b, c, PUBLICATION[j])
    ensures forall j :: 0 <= j <= k ==> PlacedFile(hash, b', c', PUBLICATION[j])
  {
    forall j | 0 <= j <= k ensures PlacedFile(hash, b', c', PUBLICATION[j]) {
      assert j < k ==> PUBLICATION[j] != PUBLICATION[k];
    }
  }

  /** The publisher's own step. */
  lemma {:induction false} OncePublish(hash: Hash, b: Build, c: Cache)
    requires PublishStep(hash, c, b).Some? && PublishedSoFar(hash, b, c)
    ensures var (b', c') := PublishStep(hash, c, b).value; b'.owns == b.owns && PublishedSoFar(hash, b', c')
  {
    var (b', c') := PublishStep(hash, c, b).value;
    PlaceOne(hash, b, b', c, c', b.phase.done);
  }

  lemma {:induction false} OncePublishStep(hash: Hash, s: State, e: Event)
    requires OnceInv(hash, s) && Guarded(s, e) && e.Publish? && Apply(hash, s, e).Some?
    ensures OnceInv(hash, Apply(hash, s, e).value)
  {
    OwnFileStep(hash, s, e);
    OncePublish(hash, s.builds[e.b], s.cache);
    OthersStay(hash, s, e.b);
  }

  lemma {:induction false} OnceStampStep(hash: Hash, s: State, e: Event)
    requires OnceInv(hash, s) && Guarded(s, e) && e.Stamp? && Apply(hash, s, e).Some?
    ensures OnceInv(hash, Apply(hash, s, e).value)
  {
    OwnFileStep(hash, s, e);
    var b := s.builds[e.b];
    var (b', c') := StampStep(s.cache, b).value;
    PlacedCarriesOver(hash, b, b', s.cache);
    OthersStay(hash, s, e.b);
  }

  lemma {:induction false} LockedPartIsOwned(order: Order, c: Cache, n: nat, b: Build, e: Event)
    requires LockStep(order, c, n, b, e).Some? && LockOnly(e)
    requires !InLockedPart(b) || b.owns
    ensures var (b', c') := LockStep(order, c, n, b, e).value;
      c'.files == c.files && Placed(b') == 0 && (InLockedPart(b') ==> b'.owns)
  {
  }

  lemma {:induction false} PublishedIgnoresLock(hash: Hash, b: Build, c: Cache, d: Cache)
    requires c.files == d.files && PublishedSoFar(hash, b, c)
    ensures PublishedSoFar(hash, b, d)
  {
  }

  lemma {:induction false} OnceLockStep(hash: Hash, s: State, e: Event)
    requires OnceInv(hash, s) && Guarded(s, e) && LockOnly(e) && Apply(hash, s, e).Some?
    requires !IsOutside(e) && !IsPrivate(e) && !e.Publish? && !e.Stamp?
    ensures OnceInv(hash, Apply(hash, s, e).value)
  {
    OwnFileStep(hash, s, e);
    LockedPartIsOwned(s.order, s.cache, e.b, s.builds[e.b], e);
    var (b', c') := LockStep(s.order, s.cache, e.b, s.builds[e.b], e).value;
    forall n | 0 <= n < |s.builds| && n != e.b && s.builds[n].alive && InLockedPart(s.builds[n])
      ensures PublishedSoFar(hash, s.builds[n], c')
    {
      PublishedIgnoresLock(hash, s.builds[n], s.cache, c');
    }
  }

  /** Nobody else is in the locked part while one build publishes. */
  lemma {:induction false} OthersStay(hash: Hash, s: State, n: nat)
    requires OnceInv(hash, s) && n < |s.builds| && s.builds[n].alive && InLockedPart(s.builds[n])
    ensures forall m :: 0 <= m < |s.builds| && m != n && s.builds[m].alive ==> !InLockedPart(s.builds[m])
  {
    forall m | 0 <= m < |s.builds| && m != n && s.builds[m].alive ensures !InLockedPart(s.builds[m]) {
      if InLockedPart(s.builds[m]) {
        OneOwner(s, m, n);
      }
    }
  }

  lemma {:induction false} OnceStep(hash: Hash, s: State, e: Event)
    requires OnceInv(hash, s) && Guarded(s, e) && LockOnly(e) && Apply(hash, s, e).Some?
    ensures OnceInv(hash, Apply(hash, s, e).value)
  {
    if IsPrivate(e) {
      OncePrivateStep(hash, s, e);
    } else if e.Publish? {
      OncePublishStep(hash, s, e);
    } else if e.Stamp? {
      OnceStampStep(hash, s, e);
    } else if !e.OutsideBake? {
      OnceLockStep(hash, s, e);
    }
  }

  lemma {:induction false} OnceRun(hash: Hash, s: State, events: seq<Event>)
    requires OnceInv(hash, s) && GuardedRun(hash, s, events) && Run(hash, s, events).Some?
    requires forall i :: 0 <= i < |events| ==> LockOnly(events[i])
    ensures OnceInv(hash, Run(hash, s, events).value)
    decreases |events|
  {
    if events != [] {
      OnceStep(hash, s, events[0]);
      OnceRun(hash, Apply(hash, s, events[0]).value, events[1..]);
    }
  }

  lemma {:induction false} PlacedIsGood(hash: Hash, b: Build, c: Cache)
    requires Placed(b) == 4 && PublishedSoFar(hash, b, c)
    ensures VerifyFiles(hash, b.plan.inputs, Get(c.files, Receipt), c.files)
  {
    hide Verifies, Encode;
    AllPlaced(hash, b, c);
  }

  lemma {:induction false} AllPlaced(hash: Hash, b: Build, c: Cache)
    requires Placed(b) == 4 && PublishedSoFar(hash, b, c)
    ensures PlacedFile(hash, b, c, Archive) && PlacedFile(hash, b, c, Metadata)
    ensures PlacedFile(hash, b, c, Symbols) && PlacedFile(hash, b, c, Receipt)
  {
    assert PUBLICATION[0] == Metadata && PUBLICATION[1] == Archive;
    assert PUBLICATION[2] == Symbols && PUBLICATION[3] == Receipt;
    assert PlacedFile(hash, b, c, PUBLICATION[0]) && PlacedFile(hash, b, c, PUBLICATION[1]);
    assert PlacedFile(hash, b, c, PUBLICATION[2]) && PlacedFile(hash, b, c, PUBLICATION[3]);
  }

  lemma {:induction false} ApplyStamp(hash: Hash, s: State, e: Event)
    requires e.Stamp? && Apply(hash, s, e).Some? && s.builds[e.b].phase == Stamping(true)
    ensures var b := s.builds[e.b];
      Apply(hash, s, e).value ==
      s.(cache := s.cache.(checksum := Some(b.plan.key)), builds := s.builds[e.b := b.(phase := Unlocking)])
  {
  }

  /** Once the four files are placed, the checksum makes the cache good for the publisher. */
  lemma {:induction false} StampGood(hash: Hash, b: Build, c: Cache)
    requires b.phase == Stamping(true) && PublishedSoFar(hash, b, c) && ModulePaths.NoSpace(b.plan.key)
    ensures CacheGood(hash, c.(checksum := Some(b.plan.key)), b.plan.key, b.plan.inputs)
  {
    hide Verifies, Encode;
    ModulePaths.TrimNothing(b.plan.key);
    PlacedIsGood(hash, b, c);
  }

  /** With nobody else in the locked part, a good cache is a settled one. */
  lemma {:induction false} GoodIsSettled(hash: Hash, s: State, n: nat, key: ByteString, i: Inputs)
    requires CacheGood(hash, s.cache, key, i) && n < |s.builds|
    requires forall m :: 0 <= m < |s.builds| && s.builds[m].alive ==> !InLockedPart(s.builds[m])
    ensures Settled(hash, s, key, i)
  {
    hide Verifies, Encode;
  }

  /** The publisher's last step settles the cache for its key and its inputs. */
  lemma {:induction false} StampSettles(hash: Hash, s: State, e: Event)
    requires OnceInv(hash, s) && e.Stamp? && Apply(hash, s, e).Some?
    requires s.builds[e.b].phase == Stamping(true) && ModulePaths.NoSpace(s.builds[e.b].plan.key)
    ensures Settled(hash, Apply(hash, s, e).value, s.builds[e.b].plan.key, s.builds[e.b].plan.inputs)
  {
    var b := s.builds[e.b];
    ApplyStamp(hash, s, e);
    StampGood(hash, b, s.cache);
    OthersStay(hash, s, e.b);
    NobodyLocked(s, Apply(hash, s, e).value, e.b);
    GoodIsSettled(hash, Apply(hash, s, e).value, e.b, b.plan.key, b.plan.inputs);
  }

  lemma {:induction false} NobodyLocked(s: State, s': State, n: nat)
    requires n < |s.builds| && s'.builds == s.builds[n := s.builds[n].(phase := Unlocking)]
    requires forall m :: 0 <= m < |s.builds| && m != n && s.builds[m].alive ==> !InLockedPart(s.builds[m])
    ensures forall m :: 0 <= m < |s'.builds| && s'.builds[m].alive ==> !InLockedPart(s'.builds[m])
  {
    assert forall m :: 0 <= m < |s'.builds| && m != n ==> s'.builds[m] == s.builds[m];
  }

  /** The key is a hexadecimal digest: it has no white space to lose. */
  ghost predicate PlainKeys(s: State) {
    forall i :: 0 <= i < |s.builds| ==> ModulePaths.NoSpace(s.builds[i].plan.key)
  }

  lemma {:induction false} KeysAreFixed(hash: Hash, s: State, events: seq<Event>)
    requires PlainKeys(s) && Run(hash, s, events).Some?
    ensures PlainKeys(Run(hash, s, events).value)
    decreases |events|
  {
    if events != [] {
      KeyStep(hash, s, events[0]);
      KeysAreFixed(hash, Apply(hash, s, events[0]).value, events[1..]);
    }
  }

  lemma {:induction false} KeyStep(hash: Hash, s: State, e: Event)
    requires PlainKeys(s) && Apply(hash, s, e).Some?
    ensures PlainKeys(Apply(hash, s, e).value)
  {
    if IsPrivate(e) {
      PrivateIdentity(hash, s.order, s.cache, s.builds[e.b], e);
    } else if !IsOutside(e) {
      SharedIdentity(hash, s.order, s.cache, e.b, s.builds[e.b], e);
    }
  }

  /** One bake per key: when every build waits for the lock, each lock step is guarded, and one
      of them has published and stamped its bake, then in any continuation, until something else is published, no live
      build with the same key and inputs is ever baking, publishing or stamping. */
  lemma {:induction false} OneBakePerKey(hash: Hash, s: State, first: seq<Event>, stamp: Event, rest: seq<Event>,
                                         n: nat)
    requires Init(hash, s) && PlainKeys(s)
    requires GuardedRun(hash, s, first) && Run(hash, s, first).Some?
    requires forall i :: 0 <= i < |first| ==> LockOnly(first[i])
    requires var mid := Run(hash, s, first).value;
      && stamp.Stamp? && Apply(hash, mid, stamp).Some? && mid.builds[stamp.b].phase == Stamping(true)
      && QuietRun(hash, Apply(hash, mid, stamp).value, rest, mid.builds[stamp.b].plan.key,
                  mid.builds[stamp.b].plan.inputs)
      && Run(hash, Apply(hash, mid, stamp).value, rest).Some?
      && n < |Run(hash, Apply(hash, mid, stamp).value, rest).value.builds|
    ensures var mid := Run(hash, s, first).value;
      var end := Run(hash, Apply(hash, mid, stamp).value, rest).value;
      Wants(end.builds[n], mid.builds[stamp.b].plan.key, mid.builds[stamp.b].plan.inputs) ==> !Writing(end.builds[n])
  {
    var mid := Run(hash, s, first).value;
    OnceRun(hash, s, first);
    KeysAreFixed(hash, s, first);
    StampSettles(hash, mid, stamp);
    SettledRun(hash, Apply(hash, mid, stamp).value, rest,
               mid.builds[stamp.b].plan.key, mid.builds[stamp.b].plan.inputs);
  }
}
