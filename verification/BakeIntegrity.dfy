/** What a build embeds: three copies of one bake, made from its own inputs. */
module BakeIntegrity {
  import opened Bytes
  import opened Receipt
  import opened BakeProtocol

  /** The copies have the digests of the three files of one completed bake, and that bake had
      the producer, the target and the source of this build. */
  ghost predicate FromOneBake(hash: Hash, baked: seq<Bake>, b: Build) {
    && Archive in b.copies && Metadata in b.copies && Symbols in b.copies
    && exists k :: 0 <= k < |baked| && IsCopyOf(hash, b, baked[k])
  }

  predicate IsCopyOf(hash: Hash, b: Build, k: Bake)
    requires Archive in b.copies && Metadata in b.copies && Symbols in b.copies
  {
    && k.inputs == b.plan.inputs
    && hash(b.copies[Archive]) == hash(k.archive)
    && hash(b.copies[Metadata]) == hash(k.metadata)
    && hash(b.copies[Symbols]) == hash(k.symbols)
  }

  ghost predicate BuildOk(hash: Hash, baked: seq<Bake>, order: Order, b: Build) {
    && OneLine(b.plan.inputs)
    && (b.staged.Some? ==> b.staged.value in baked)
    && (order == CopyThenVerify && b.phase == Embedded ==> FromOneBake(hash, baked, b))
  }

  ghost predicate Inv(hash: Hash, s: State) {
    && (forall i :: 0 <= i < |s.builds| ==> BuildOk(hash, s.baked, s.order, s.builds[i]))
    && (forall k :: 0 <= k < |s.baked| ==> OneLine(s.baked[k].inputs))
    && (Receipt in s.cache.files ==> Recorded(hash, s.baked, s.cache.files[Receipt]))
  }

  /** Producers and targets are one-line strings: a hexadecimal digest and a target triple. */
  predicate OneLineBake(e: Event) {
    (e.BakeDone? || e.OutsideBake?) ==> OneLine(e.bake.inputs)
  }

  lemma {:induction false} MoreBakes(hash: Hash, baked: seq<Bake>, k: Bake, order: Order, b: Build)
    requires BuildOk(hash, baked, order, b)
    ensures BuildOk(hash, baked + [k], order, b)
  {
    if order == CopyThenVerify && b.phase == Embedded {
      var i :| 0 <= i < |baked| && IsCopyOf(hash, b, baked[i]);
      assert (baked + [k])[i] == baked[i];
    }
  }

  lemma {:induction false} StillRecorded(hash: Hash, baked: seq<Bake>, k: Bake, receipt: ByteString)
    requires Recorded(hash, baked, receipt)
    ensures Recorded(hash, baked + [k], receipt)
  {
    var i :| 0 <= i < |baked| && receipt == ReceiptOf(hash, baked[i]);
    assert (baked + [k])[i] == baked[i];
  }

  /** Passing the final check pins the copies to the bake that wrote the receipt. */
  lemma {:induction false} VerifiedIsOneBake(hash: Hash, baked: seq<Bake>, b: Build, receipt: Option<ByteString>)
    requires OneLine(b.plan.inputs) && forall k :: 0 <= k < |baked| ==> OneLine(baked[k].inputs)
    requires receipt.Some? ==> Recorded(hash, baked, receipt.value)
    requires VerifyFiles(hash, b.plan.inputs, receipt, b.copies)
    ensures FromOneBake(hash, baked, b)
  {
    var found := Sidecars(hash(b.copies[Metadata]), hash(b.copies[Symbols]));
    VerifiesIff(receipt, b.plan.inputs, hash(b.copies[Archive]), found);
    var k :| 0 <= k < |baked| && receipt.value == ReceiptOf(hash, baked[k]);
    EncodeIsInjective(b.plan.inputs, hash(b.copies[Archive]), found,
                      baked[k].inputs, hash(baked[k].archive), SidecarsOf(hash, baked[k]));
    assert IsCopyOf(hash, b, baked[k]);
  }

  lemma {:induction false} PrivateKeepsBuild(hash: Hash, s: State, n: nat, b: Build, e: Event)
    requires Inv(hash, s) && BuildOk(hash, s.baked, s.order, b) && OneLineBake(e)
    requires Private(hash, s.order, s.cache, b, e).Some?
    ensures BuildOk(hash, if e.BakeDone? then s.baked + [e.bake] else s.baked, s.order,
                    Private(hash, s.order, s.cache, b, e).value)
  {
    hide Verifies, Encode;
    if e.Verify? && s.order == CopyThenVerify
       && VerifyFiles(hash, b.plan.inputs, Get(s.cache.files, Receipt), b.copies) {
      VerifiedIsOneBake(hash, s.baked, b, Get(s.cache.files, Receipt));
    }
  }

  lemma {:induction false} SharedKeeps(hash: Hash, s: State, n: nat, b: Build, e: Event)
    requires Inv(hash, s) && BuildOk(hash, s.baked, s.order, b)
    requires Shared(hash, s.order, s.cache, n, b, e).Some?
    ensures var (b', c') := Shared(hash, s.order, s.cache, n, b, e).value;
      && BuildOk(hash, s.baked, s.order, b')
      && (Receipt in c'.files ==> Recorded(hash, s.baked, c'.files[Receipt]))
  {
    hide Verifies, Encode;
    if e.Publish? {
      var i :| 0 <= i < |s.baked| && s.baked[i] == b.staged.value;
      assert FileOf(hash, b.staged.value, Receipt) == ReceiptOf(hash, s.baked[i]);
    }
  }

  lemma {:induction false} InvStep(hash: Hash, s: State, e: Event)
    requires Inv(hash, s) && OneLineBake(e) && Apply(hash, s, e).Some?
    ensures Inv(hash, Apply(hash, s, e).value)
  {
    hide Verifies, Encode, StagedVerifies, Matches, Private, Shared, BuildOk;
    var s' := Apply(hash, s, e).value;
    if e.OutsideBake? || e.BakeDone? {
      forall i | 0 <= i < |s.builds| ensures BuildOk(hash, s'.baked, s.order, s.builds[i]) {
        MoreBakes(hash, s.baked, e.bake, s.order, s.builds[i]);
      }
      if Receipt in s.cache.files {
        StillRecorded(hash, s.baked, e.bake, s.cache.files[Receipt]);
      }
    }
    if e.OutsideRename? {
      assert FileOf(hash, s.baked[e.k], Receipt) == ReceiptOf(hash, s.baked[e.k]);
    } else if e.OutsideBake? {
    } else if IsPrivate(e) {
      PrivateKeepsBuild(hash, s, e.b, s.builds[e.b], e);
    } else {
      SharedKeeps(hash, s, e.b, s.builds[e.b], e);
    }
  }

  lemma {:induction false} InvRun(hash: Hash, s: State, events: seq<Event>)
    requires Inv(hash, s) && Run(hash, s, events).Some?
    requires forall i :: 0 <= i < |events| ==> OneLineBake(events[i])
    ensures Inv(hash, Run(hash, s, events).value)
    decreases |events|
  {
    if events != [] {
      InvStep(hash, s, events[0]);
      InvRun(hash, Apply(hash, s, events[0]).value, events[1..]);
    }
  }

  lemma {:induction false} OrderIsFixed(hash: Hash, s: State, events: seq<Event>)
    requires Run(hash, s, events).Some?
    ensures Run(hash, s, events).value.order == s.order
    decreases |events|
  {
    if events != [] {
      OrderIsFixed(hash, Apply(hash, s, events[0]).value, events[1..]);
    }
  }

  /** In every run, with any number of builds, any interleaving, crashes between any two steps,
      builds that gave up on the lock, lock files created and removed in separate steps, and
      publishers that take no lock at all: what a build embeds after the final check comes from
      one bake, made from that build's own producer, target and source. */
  lemma {:induction false} EmbedsOneBake(hash: Hash, s: State, events: seq<Event>, i: nat)
    requires Init(hash, s) && s.order == CopyThenVerify && Run(hash, s, events).Some?
    requires forall j :: 0 <= j < |events| ==> OneLineBake(events[j])
    requires i < |Run(hash, s, events).value.builds|
    ensures var s' := Run(hash, s, events).value;
      s'.builds[i].phase == Embedded ==> FromOneBake(hash, s'.baked, s'.builds[i])
  {
    assert Inv(hash, s);
    InvRun(hash, s, events);
    OrderIsFixed(hash, s, events);
  }

  const EMBEDDED: set<Slot> := {Archive, Metadata, Symbols}

  /** The hash function does not collide on a file of a bake and its copy in the build. */
  ghost predicate NoCollision(hash: Hash, baked: seq<Bake>, b: Build) {
    forall k, slot :: 0 <= k < |baked| && slot in EMBEDDED && slot in b.copies ==>
      (hash(b.copies[slot]) == hash(FileOf(hash, baked[k], slot)) ==> b.copies[slot] == FileOf(hash, baked[k], slot))
  }

  /** The copies are the three files of this bake, byte for byte. */
  predicate HoldsBake(b: Build, k: Bake) {
    Archive in b.copies && b.copies[Archive] == k.archive && Metadata in b.copies && b.copies[Metadata] == k.metadata
    && Symbols in b.copies && b.copies[Symbols] == k.symbols
  }

  /** The same on contents: at the end of any such run, if the hash function does not collide
      on what the run holds, a build embeds the three files of one bake from its own inputs. */
  lemma {:induction false} EmbedsItsFiles(hash: Hash, s: State, events: seq<Event>, i: nat)
    requires Init(hash, s) && s.order == CopyThenVerify && Run(hash, s, events).Some?
    requires forall j :: 0 <= j < |events| ==> OneLineBake(events[j])
    requires i < |Run(hash, s, events).value.builds|
    requires var s' := Run(hash, s, events).value; NoCollision(hash, s'.baked, s'.builds[i])
    ensures var s' := Run(hash, s, events).value;
      s'.builds[i].phase == Embedded ==> exists k :: (0 <= k < |s'.baked|
        && s'.baked[k].inputs == s'.builds[i].plan.inputs && HoldsBake(s'.builds[i], s'.baked[k]))
  {
    var s' := Run(hash, s, events).value;
    if s'.builds[i].phase == Embedded {
      EmbedsOneBake(hash, s, events, i);
      var k :| 0 <= k < |s'.baked| && IsCopyOf(hash, s'.builds[i], s'.baked[k]);
      CopyIsFile(hash, s'.baked, s'.builds[i], k);
    }
  }

  lemma {:induction false} CopyIsFile(hash: Hash, baked: seq<Bake>, b: Build, k: nat)
    requires NoCollision(hash, baked, b) && k < |baked|
    requires Archive in b.copies && Metadata in b.copies && Symbols in b.copies && IsCopyOf(hash, b, baked[k])
    ensures HoldsBake(b, baked[k])
  {
    assert FileOf(hash, baked[k], Archive) == baked[k].archive;
    assert FileOf(hash, baked[k], Metadata) == baked[k].metadata;
    assert FileOf(hash, baked[k], Symbols) == baked[k].symbols;
  }
}
