/** The refresh protocol of the embedded standard library, as a transition system.

    Any number of builds share one cache directory.  Each checks the cache, takes the bake
    lock or gives up waiting for it, checks again, bakes into a private directory, publishes
    four files by renames with the receipt last, copies three of them into its own output
    directory, and verifies the copies.  A build may die between any two steps. */
module BakeProtocol {
  import opened Bytes
  import opened Receipt
  import LockFile
  import ModulePaths

  type Hash = ByteString -> Digest

  /** The output of one run of the precompiler. */
  datatype Bake = Bake(inputs: Inputs, archive: ByteString, metadata: ByteString, symbols: ByteString)

  datatype Slot = Archive | Metadata | Symbols | Receipt

  /** The lock file: an inode, and its text so far. */
  datatype Lock = Lock(inode: nat, text: ByteString)

  datatype Cache = Cache(lock: Option<Lock>, files: map<Slot, ByteString>, checksum: Option<ByteString>)

  datatype Phase =
    | Checking(underLock: bool, read: nat)  // cache_matches, after `read` of its five reads
    | Locking
    | Created                               // the lock file exists, its text is not written
    | Condemned                             // the lock was found stale, it is not yet removed
    | Baking
    | Publishing(done: nat)                 // after `done` of the four renames
    | Stamping(truncated: bool)             // writing the checksum
    | Unlocking
    | Copying(done: nat)                    // after `done` of the three copies
    | Verifying
    | Embedded                              // the copies passed verification
    | Unverified                            // the stale fallback, which checks nothing

  /** What a build is and what it wants: its process, its cache key, the inputs of the bake
      that it needs, and whether a stale library is allowed. */
  datatype Plan = Plan(pid: nat, key: ByteString, inputs: Inputs, fallback: bool)

  /** What one `cache_matches` has read. */
  datatype Seen = Seen(checksum: Option<ByteString>, files: map<Slot, ByteString>)

  datatype Build = Build(plan: Plan, alive: bool, owns: bool, phase: Phase,
                         seen: Seen, staged: Option<Bake>, copies: map<Slot, ByteString>)

  /** What the source does, and the order it rejects. */
  datatype Order = CopyThenVerify | VerifyThenCopy

  /** `baked` is history: every bake that any precompiler has completed. */
  datatype State = State(cache: Cache, builds: seq<Build>, baked: seq<Bake>, order: Order)

  const PUBLICATION: seq<Slot> := [Metadata, Archive, Symbols, Receipt]
  const COPIED: seq<Slot> := [Archive, Metadata, Symbols]
  const EXAMINED: seq<Slot> := [Archive, Receipt, Metadata, Symbols]

  function SidecarsOf(hash: Hash, b: Bake): Sidecars { Sidecars(hash(b.metadata), hash(b.symbols)) }

  function ReceiptOf(hash: Hash, b: Bake): ByteString { Encode(b.inputs, hash(b.archive), SidecarsOf(hash, b)) }

  function FileOf(hash: Hash, b: Bake, slot: Slot): ByteString {
    match slot
    case Archive => b.archive
    case Metadata => b.metadata
    case Symbols => b.symbols
    case Receipt => ReceiptOf(hash, b)
  }

  function Get(files: map<Slot, ByteString>, slot: Slot): Option<ByteString> {
    if slot in files then Some(files[slot]) else None
  }

  /** `verify_copy`: the receipt beside one archive, three files beside another. */
  predicate VerifyFiles(hash: Hash, i: Inputs, receipt: Option<ByteString>, files: map<Slot, ByteString>) {
    && Archive in files && Metadata in files && Symbols in files
    && Verifies(receipt, i, hash(files[Archive]), Sidecars(hash(files[Metadata]), hash(files[Symbols])))
  }

  /** The outcome of `cache_matches` on what was read. */
  predicate Matches(hash: Hash, b: Build) {
    && b.seen.checksum.Some?
    && ModulePaths.TrimEnd(ModulePaths.TrimStart(b.seen.checksum.value)) == b.plan.key
    && VerifyFiles(hash, b.plan.inputs, Get(b.seen.files, Receipt), b.seen.files)
  }

  // ---------------------------------------------------------------- steps

  datatype Event =
    | Check(b: nat)                                 // one read of cache_matches
    | Decide(b: nat)                                // its outcome
    | Acquire(b: nat, now: nat)                     // create the lock file and write it, at once
    | Inspect(b: nat, now: nat, probe: bool, expired: bool)  // read the lock and remove it if stale, at once
    | Create(b: nat)                                // only create the lock file
    | Write(b: nat, now: nat)                       // only write it
    | Condemn(b: nat, now: nat, probe: bool)        // only find it stale
    | Remove(b: nat)                                // only remove it
    | BakeDone(b: nat, bake: Bake)
    | BakeFails(b: nat, panics: bool)
    | Publish(b: nat)
    | PublishFails(b: nat, panics: bool)
    | Stamp(b: nat)
    | Unlock(b: nat)
    | Copy(b: nat)
    | Verify(b: nat)
    | Crash(b: nat)
    | OutsideBake(bake: Bake)                       // a bake outside these builds
    | OutsideRename(slot: Slot, k: nat)             // which publishes without the lock

  /** After the refresh: the fallback branch, or the strict one in the order of the state. */
  function Refreshed(order: Order, b: Build): Phase {
    if b.plan.fallback then Unverified else if order == CopyThenVerify then Copying(0) else Verifying
  }

  /** A failed bake or publication panics, unless the stale fallback is allowed. */
  function Failed(b: Build, panics: bool): Option<Build> {
    if panics then Some(b.(alive := false))
    else if b.plan.fallback then Some(b.(phase := Unlocking))
    else None
  }

  function LockContents(c: Cache): Option<ByteString> {
    if c.lock.None? then None else Some(c.lock.value.text)
  }

  /** One more read of `cache_matches`: the checksum, then the four files. */
  function CheckStep(c: Cache, b: Build): Option<Build> {
    if !b.phase.Checking? || b.phase.read >= 5 then None
    else if b.phase.read == 0 then
      Some(b.(seen := Seen(c.checksum, map[]), phase := b.phase.(read := 1)))
    else
      var slot := EXAMINED[b.phase.read - 1];
      Some(b.(seen := if slot in c.files then b.seen.(files := b.seen.files[slot := c.files[slot]]) else b.seen,
              phase := b.phase.(read := b.phase.read + 1)))
  }

  function DecideStep(hash: Hash, order: Order, b: Build): Option<Build> {
    if !b.phase.Checking? || b.phase.read != 5 then None
    else if !b.phase.underLock then
      Some(b.(phase := if Matches(hash, b) then Refreshed(order, b) else Locking))
    else
      Some(b.(phase := if Matches(hash, b) then Unlocking else Baking))
  }

  function CopyStep(order: Order, c: Cache, b: Build): Option<Build> {
    if !b.phase.Copying? || b.phase.done >= 3 || COPIED[b.phase.done] !in c.files then None
    else
      var slot, done := COPIED[b.phase.done], b.phase.done + 1;
      Some(b.(copies := b.copies[slot := c.files[slot]],
              phase := if done < 3 then Copying(done)
                       else if order == CopyThenVerify then Verifying else Embedded))
  }

  function VerifyStep(hash: Hash, order: Order, c: Cache, b: Build): Option<Build> {
    if b.phase != Verifying then None
    else
      var examined := if order == CopyThenVerify then b.copies else c.files;
      Some(Verified(order, b, VerifyFiles(hash, b.plan.inputs, Get(c.files, Receipt), examined)))
  }

  /** A copy that does not verify panics. */
  function Verified(order: Order, b: Build, ok: bool): Build {
    if !ok then b.(alive := false)
    else if order == CopyThenVerify then b.(phase := Embedded) else b.(phase := Copying(0))
  }

  /** One step of a build that leaves the shared files alone. */
  function Private(hash: Hash, order: Order, c: Cache, b: Build, e: Event): Option<Build> {
    match e
    case Check(_) => CheckStep(c, b)
    case Decide(_) => DecideStep(hash, order, b)
    case Condemn(_, now, probe) =>
      if b.phase == Locking && LockFile.Stale(LockContents(c), now, probe) then Some(b.(phase := Condemned)) else None
    case BakeDone(_, bake) =>
      if b.phase == Baking then Some(b.(staged := Some(bake), phase := Publishing(0))) else None
    case BakeFails(_, panics) =>
      if b.phase == Baking then Failed(b, panics) else None
    case PublishFails(_, panics) =>
      if b.phase.Publishing? then Failed(b, panics) else None
    case Copy(_) => CopyStep(order, c, b)
    case Verify(_) => VerifyStep(hash, order, c, b)
    case Crash(_) => Some(b.(alive := false))
    case _ => None
  }

  /** The next rename; the first one only after the staged files verify. */
  function PublishStep(hash: Hash, c: Cache, b: Build): Option<(Build, Cache)> {
    if !b.phase.Publishing? || b.phase.done >= 4 || b.staged.None? then None
    else if b.phase.done == 0 && !StagedVerifies(hash, b) then None
    else
      var slot, done := PUBLICATION[b.phase.done], b.phase.done + 1;
      Some((b.(phase := if done < 4 then Publishing(done) else Stamping(false)),
            c.(files := c.files[slot := FileOf(hash, b.staged.value, slot)])))
  }

  /** `fs::write` of the checksum truncates the file, then fills it. */
  function StampStep(c: Cache, b: Build): Option<(Build, Cache)> {
    if !b.phase.Stamping? then None
    else if !b.phase.truncated then Some((b.(phase := Stamping(true)), c.(checksum := Some([]))))
    else Some((b.(phase := Unlocking), c.(checksum := Some(b.plan.key))))
  }

  /** One step of build `n` on the lock file. */
  function LockStep(order: Order, c: Cache, n: nat, b: Build, e: Event): Option<(Build, Cache)> {
    match e
    case Acquire(_, now) =>
      if b.phase == Locking && c.lock.None? then
        Some((b.(owns := true, phase := Checking(true, 0)),
              c.(lock := Some(Lock(n, LockFile.LockText(b.plan.pid, now))))))
      else None
    case Inspect(_, now, probe, expired) =>
      if b.phase != Locking then None
      else if LockFile.Stale(LockContents(c), now, probe) then Some((b, c.(lock := None)))
      else if expired then Some((b.(phase := Checking(true, 0)), c))
      else Some((b, c))
    case Create(_) =>
      if b.phase == Locking && c.lock.None? then Some((b.(phase := Created), c.(lock := Some(Lock(n, [])))))
      else None
    case Write(_, now) =>
      if b.phase != Created then None
      else
        // the text goes to the file that was created, which may have been removed since
        var lock := if c.lock.Some? && c.lock.value.inode == n
                    then Some(Lock(n, LockFile.LockText(b.plan.pid, now))) else c.lock;
        Some((b.(owns := true, phase := Checking(true, 0)), c.(lock := lock)))
    case Remove(_) =>
      if b.phase == Condemned then Some((b.(phase := Locking), c.(lock := None))) else None
    case Unlock(_) =>
      if b.phase != Unlocking then None
      else Some((b.(owns := false, phase := Refreshed(order, b)), if b.owns then c.(lock := None) else c))
    case _ => None
  }

  /** One step of build `n` on the lock, the published files or the checksum. */
  function Shared(hash: Hash, order: Order, c: Cache, n: nat, b: Build, e: Event): Option<(Build, Cache)> {
    if e.Publish? then PublishStep(hash, c, b)
    else if e.Stamp? then StampStep(c, b)
    else LockStep(order, c, n, b, e)
  }

  /** `inputs.verify_file(&staged_vbca)`, on the private staging directory. */
  predicate StagedVerifies(hash: Hash, b: Build)
    requires b.staged.Some?
  {
    var k := b.staged.value;
    VerifyFiles(hash, b.plan.inputs, Some(ReceiptOf(hash, k)),
                map[Archive := k.archive, Metadata := k.metadata, Symbols := k.symbols])
  }

  predicate IsOutside(e: Event) { e.OutsideBake? || e.OutsideRename? }

  predicate IsPrivate(e: Event) {
    || e.Check? || e.Decide? || e.Condemn? || e.BakeDone?
    || e.BakeFails? || e.PublishFails? || e.Copy? || e.Verify? || e.Crash?
  }

  /** One step of the system; None when the event cannot happen. */
  function Apply(hash: Hash, s: State, e: Event): Option<State> {
    if e.OutsideBake? then Some(s.(baked := s.baked + [e.bake]))
    else if e.OutsideRename? then
      if e.k >= |s.baked| then None
      else Some(s.(cache := s.cache.(files := s.cache.files[e.slot := FileOf(hash, s.baked[e.k], e.slot)])))
    else if e.b >= |s.builds| || !s.builds[e.b].alive then None
    else if IsPrivate(e) then
      match Private(hash, s.order, s.cache, s.builds[e.b], e)
      case None => None
      case Some(b) => Some(s.(builds := s.builds[e.b := b],
                              baked := if e.BakeDone? then s.baked + [e.bake] else s.baked))
    else
      match Shared(hash, s.order, s.cache, e.b, s.builds[e.b], e)
      case None => None
      case Some((b, c)) => Some(s.(cache := c, builds := s.builds[e.b := b]))
  }

  function Run(hash: Hash, s: State, events: seq<Event>): Option<State>
    decreases |events|
  {
    if events == [] then Some(s)
    else match Apply(hash, s, events[0])
      case None => None
      case Some(s') => Run(hash, s', events[1..])
  }

  /** A build that has done nothing yet. */
  predicate Fresh(b: Build) {
    && b.alive && !b.owns && b.phase == Checking(false, 0)
    && b.staged.None? && b.copies == map[]
  }

  ghost predicate Pids(s: State) {
    && (forall i :: 0 <= i < |s.builds| ==> 1 < s.builds[i].plan.pid < LockFile.PID_LIMIT)
    && (forall i, j :: 0 <= i < j < |s.builds| ==> s.builds[i].plan.pid != s.builds[j].plan.pid)
  }

  /** Builds start on whatever an earlier time left in the cache: any lock, any files; only
      the receipt, if there is one, was written by a bake. */
  ghost predicate Init(hash: Hash, s: State) {
    && (forall i :: 0 <= i < |s.builds| ==> Fresh(s.builds[i]) && OneLine(s.builds[i].plan.inputs))
    && (forall k :: 0 <= k < |s.baked| ==> OneLine(s.baked[k].inputs))
    && (Receipt in s.cache.files ==> Recorded(hash, s.baked, s.cache.files[Receipt]))
  }

  ghost predicate Recorded(hash: Hash, baked: seq<Bake>, receipt: ByteString) {
    exists k :: 0 <= k < |baked| && receipt == ReceiptOf(hash, baked[k])
  }

  lemma {:induction false} ApplyPrivate(hash: Hash, s: State, e: Event)
    requires IsPrivate(e) && Apply(hash, s, e).Some?
    ensures e.b < |s.builds| && s.builds[e.b].alive
    ensures Private(hash, s.order, s.cache, s.builds[e.b], e).Some?
    ensures Apply(hash, s, e).value.cache == s.cache
    ensures Apply(hash, s, e).value.builds == s.builds[e.b := Private(hash, s.order, s.cache, s.builds[e.b], e).value]
  {
  }

  lemma {:induction false} PrivateIdentity(hash: Hash, order: Order, c: Cache, b: Build, e: Event)
    requires Private(hash, order, c, b, e).Some?
    ensures var b' := Private(hash, order, c, b, e).value;
      b'.plan == b.plan && b'.owns == b.owns && (b'.alive ==> b.alive)
  {
  }

  lemma {:induction false} SharedIdentity(hash: Hash, order: Order, c: Cache, n: nat, b: Build, e: Event)
    requires Shared(hash, order, c, n, b, e).Some?
    ensures var (b', c') := Shared(hash, order, c, n, b, e).value;
      && b'.plan == b.plan && b'.alive == b.alive
      && (!e.Publish? ==> c'.files == c.files)
      && (!e.Stamp? ==> c'.checksum == c.checksum)
  {
  }
}
