/** The bake lock file `pid@unix-seconds`, and when a waiting build may steal it. */
module LockFile {
  import opened Bytes
  import opened Decimals
  import opened ModulePaths

  const PID_LIMIT: nat := U32_LIMIT
  const STALE_SECONDS: nat := 8 * 60

  /** `str::parse` to an unsigned integer below `limit`: digits, perhaps after a `+`. */
  function ParseUnsigned(s: ByteString, limit: nat): Option<nat> {
    var digits := if StartsWith(s, "+") then s[1..] else s;
    if digits == [] || !AllDigits(digits) || DigitsValue(digits) >= limit then None
    else Some(DigitsValue(digits))
  }

  lemma {:induction false} DecimalParses(n: nat, limit: nat)
    ensures ParseUnsigned(Decimal(n), limit) == if n < limit then Some(n) else None
    ensures AllDigits(Decimal(n))
  {
    DecimalValue(n);
    assert Decimal(n)[..1] == [Decimal(n)[0]];
  }

  function BeforeAt(s: ByteString): ByteString {
    if s == [] || s[0] == '@' then [] else [s[0]] + BeforeAt(s[1..])
  }

  function AfterLastAt(s: ByteString): ByteString {
    if s == [] || s[|s| - 1] == '@' then [] else AfterLastAt(s[..|s| - 1]) + [s[|s| - 1]]
  }

  function LockText(pid: nat, secs: nat): ByteString { Decimal(pid) + ['@'] + Decimal(secs) }

  /** The pid that the lock file names, if it can be read. */
  function HolderPid(contents: Option<ByteString>): Option<nat> {
    if contents.None? then None else ParseUnsigned(BeforeAt(TrimEnd(TrimStart(contents.value))), PID_LIMIT)
  }

  function HeldAt(contents: Option<ByteString>): Option<nat> {
    if contents.None? then None else ParseUnsigned(AfterLastAt(TrimEnd(TrimStart(contents.value))), U64_LIMIT)
  }

  /** The staleness decision on the contents read (None when unreadable), with the answer of
      the `kill -0` probe on the pid that they name. */
  predicate Stale(contents: Option<ByteString>, now: nat, probe: bool) {
    var pid := HolderPid(contents);
    var holderDead := pid.Some? && pid.value > 1 && !probe;
    var holderKnownAlive := pid.Some? && pid.value > 1 && !holderDead;
    var heldAt := HeldAt(contents);
    var tooOld := !holderKnownAlive && (heldAt.Some? ==> now > heldAt.value && now - heldAt.value > STALE_SECONDS);
    holderDead || tooOld
  }

  lemma {:induction false} CutAtAt(a: ByteString, b: ByteString)
    requires '@' !in a && '@' !in b
    ensures BeforeAt(a + ['@'] + b) == a
    ensures AfterLastAt(a + ['@'] + b) == b
    decreases |a| + |b|
  {
    var s := a + ['@'] + b;
    if a != [] {
      assert s[0] == a[0] && a[0] in a && s[1..] == a[1..] + ['@'] + b;
      CutAtAt(a[1..], b);
      assert [a[0]] + a[1..] == a;
    }
    if b != [] {
      var n := |b| - 1;
      assert s[|s| - 1] == b[n] && b[n] in b && s[..|s| - 1] == a + ['@'] + b[..n];
      CutAtAt(a, b[..n]);
      assert b[..n] + [b[n]] == b;
    }
  }

  lemma {:induction false} DigitsAreOneField(s: ByteString)
    requires AllDigits(s)
    ensures '@' !in s && NoSpace(s)
  {
  }

  /** What a build writes is read back by the builds that wait for it. */
  lemma {:induction false} LockTextReads(pid: nat, secs: nat)
    requires pid < PID_LIMIT && secs < U64_LIMIT
    ensures HolderPid(Some(LockText(pid, secs))) == Some(pid)
    ensures HeldAt(Some(LockText(pid, secs))) == Some(secs)
  {
    DecimalParses(pid, PID_LIMIT);
    DecimalParses(secs, U64_LIMIT);
    DigitsAreOneField(Decimal(pid));
    DigitsAreOneField(Decimal(secs));
    TrimNothing(LockText(pid, secs));
    CutAtAt(Decimal(pid), Decimal(secs));
  }

  /** Exactly when a lock written by a build is stolen.  With a pid above 1 the age never
      matters: it is stolen if and only if the probe says that the process is gone.  Pids 0
      and 1 are not probed, so such an owner loses its lock after eight minutes, alive or not. */
  lemma {:induction false} StaleIff(pid: nat, secs: nat, now: nat, probe: bool)
    requires pid < PID_LIMIT && secs < U64_LIMIT
    ensures Stale(Some(LockText(pid, secs)), now, probe) <==>
      if pid > 1 then !probe else now > secs + 480
  {
    LockTextReads(pid, secs);
  }

  /** The text is written in pieces, so that a build that waits may read only the pid, or the
      pid and the sign after it.  With a pid above 1 it judges them as it does the whole text. */
  lemma {:induction false} PieceIsJudgedAlike(pid: nat, now: nat, probe: bool)
    requires 1 < pid < PID_LIMIT
    ensures Stale(Some(Decimal(pid)), now, probe) <==> !probe
    ensures Stale(Some(Decimal(pid) + ['@']), now, probe) <==> !probe
  {
    var digits := Decimal(pid);
    DecimalParses(pid, PID_LIMIT);
    DigitsAreOneField(digits);
    TrimNothing(digits);
    TrimNothing(digits + ['@']);
    CutAtAt(digits, []);
    assert digits + ['@'] + [] == digits + ['@'];
    NoAt(digits);
  }

  lemma {:induction false} NoAt(s: ByteString)
    requires '@' !in s
    ensures BeforeAt(s) == s
  {
    if s != [] {
      assert s[0] in s;
      NoAt(s[1..]);
      assert s == [s[0]] + s[1..];
    }
  }

  lemma {:induction false} DeadHolderIsStale(pid: nat, secs: nat)
    requires 1 < pid < PID_LIMIT && secs < U64_LIMIT
    ensures Stale(Some(LockText(pid, secs)), secs, false)
  {
    StaleIff(pid, secs, secs, false);
  }

  /** A lock file that is missing, or created and not yet written, counts as stale. */
  lemma {:induction false} UnwrittenLockIsStale(now: nat, probe: bool)
    ensures Stale(None, now, probe)
    ensures Stale(Some([]), now, probe)
  {
    TrimNothing([]);
    assert BeforeAt([]) == [] && AfterLastAt([]) == [];
  }

  /** Exactly what reads as a number: digits, perhaps after a plus sign, of a value below the
      limit. */
  lemma {:induction false} NumberIff(s: ByteString, limit: nat, n: nat)
    ensures ParseUnsigned(s, limit) == Some(n) <==>
            && n < limit
            && exists d: ByteString :: d != [] && AllDigits(d) && DigitsValue(d) == n && (s == d || s == "+" + d)
  {
    if ParseUnsigned(s, limit) == Some(n) {
      var d := if StartsWith(s, "+") then s[1..] else s;
      assert s == d || s == "+" + d;
    }
    if n < limit && exists d: ByteString :: d != [] && AllDigits(d) && DigitsValue(d) == n && (s == d || s == "+" + d) {
      var d: ByteString :| d != [] && AllDigits(d) && DigitsValue(d) == n && (s == d || s == "+" + d);
      assert s == d ==> s[..1] == [d[0]] && d[0] != '+';
      assert s == "+" + d ==> s[..1] == "+" && s[1..] == d;
    }
  }

  /** The same for any text of two fields, which need not be numbers: a holder with a pid above 1
      is judged by the probe alone, any other by the age, and one without an age is stale. */
  lemma {:induction false} FieldsAreJudged(name: ByteString, time: ByteString, now: nat, probe: bool)
    requires '@' !in name && '@' !in time && NoSpace(name) && NoSpace(time)
    ensures Stale(Some(name + ['@'] + time), now, probe) <==>
      match (ParseUnsigned(name, PID_LIMIT), ParseUnsigned(time, U64_LIMIT))
      case (Some(pid), Some(secs)) => if pid > 1 then !probe else now > secs + 480
      case (Some(pid), None) => if pid > 1 then !probe else true
      case (None, Some(secs)) => now > secs + 480
      case (None, None) => true
  {
    TrimNothing(name + ['@'] + time);
    CutAtAt(name, time);
    hide ParseUnsigned;
  }
}
