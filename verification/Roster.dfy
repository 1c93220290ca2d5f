/** The membership roster of the bare-name gate: written for all collisions, read back, and
    filtered into the expectation of each scope. */
module Roster {
  import opened Bytes
  import opened Decimals
  import opened Sorting
  import opened Strings

  /** A function name and its arity. */
  type Key = (string, nat)

  /** The files that declare each key. */
  type Collisions = map<Key, set<string>>

  datatype Scope = All | Sqlite | Prelude

  const SQLITE_NATIVE: string := "database/sqlite/native"

  predicate Native(m: string) { |m| >= |SQLITE_NATIVE| && m[..|SQLITE_NATIVE|] == SQLITE_NATIVE }

  predicate InScope(key: Key, modules: set<string>, scope: Scope, prelude: set<string>) {
    && |modules| >= 2
    && (scope == Prelude ==> key.0 in prelude)
    && (scope == Sqlite ==> (exists m :: m in modules && Native(m)) && exists m :: m in modules && !Native(m))
  }

  function Scoped(found: Collisions, scope: Scope, prelude: set<string>): Collisions {
    map k | k in found && InScope(k, found[k], scope, prelude) :: found[k]
  }

  /** `collisions`: the keys of the scope that more than one file declares. */
  method CollisionsOf(found: Collisions, scope: Scope, prelude: set<string>) returns (out: Collisions)
    ensures out == Scoped(found, scope, prelude)
  {
    out := map[];
    var keys := found.Keys;
    while keys != {}
      invariant keys <= found.Keys
      invariant out == map k | k in found && k !in keys && InScope(k, found[k], scope, prelude) :: found[k]
      decreases keys
    {
      var key :| key in keys;
      keys := keys - {key};
      if InScope(key, found[key], scope, prelude) {
        out := out[key := found[key]];
      }
    }
  }

  /** What a scope keeps: the keys that two different files declare; in the prelude those of the
      names it exports; for sqlite those declared on both sides of the native boundary. */
  lemma {:induction false} ScopeKeeps(found: Collisions, scope: Scope, prelude: set<string>, key: Key)
    ensures key in Scoped(found, scope, prelude) <==>
            && key in found && (exists a, b :: a in found[key] && b in found[key] && a != b)
            && (scope == Prelude ==> key.0 in prelude)
            && (scope == Sqlite ==> (exists a, b :: a in found[key] && b in found[key] && InNative(a) && !InNative(b)))
    ensures key in Scoped(found, scope, prelude) ==> Scoped(found, scope, prelude)[key] == found[key]
  {
    if key in found {
      TwoFiles(found[key]);
      forall m ensures Native(m) <==> InNative(m) {
        NativeIff(m);
      }
    }
  }

  /** The path is under the native directory of the sqlite driver. */
  ghost predicate InNative(m: string) { exists rest :: m == "database/sqlite/native" + rest }

  lemma {:induction false} NativeIff(m: string)
    ensures Native(m) <==> InNative(m)
  {
    if Native(m) {
      assert m == "database/sqlite/native" + m[|SQLITE_NATIVE|..];
    }
    if rest :| m == "database/sqlite/native" + rest {
      assert m[..|SQLITE_NATIVE|] == SQLITE_NATIVE;
    }
  }

  lemma {:induction false} TwoFiles(s: set<string>)
    ensures |s| >= 2 <==> exists a, b :: a in s && b in s && a != b
  {
    if |s| >= 2 {
      var a :| a in s;
      var rest := s - {a};
      assert |rest| == |s| - 1;
      var b :| b in rest;
      assert b in s && a != b;
    }
    if a, b :| a in s && b in s && a != b {
      assert |{a, b}| == 2 && {a, b} <= s;
      Larger({a, b}, s);
    }
  }

  lemma {:induction false} Larger(small: set<string>, large: set<string>)
    requires small <= large
    ensures |small| <= |large|
  {
    assert large == small + (large - small);
  }

  /** A scope reads nothing that the filter for all collisions would lose. */
  lemma {:induction false} ScopedTwice(found: Collisions, scope: Scope, prelude: set<string>)
    ensures Scoped(Scoped(found, All, prelude), scope, prelude) == Scoped(found, scope, prelude)
  {
  }

  // ---------------------------------------------------------------- labels

  /** `str.isdigit`, on ASCII. */
  predicate Digits(s: string) { s != "" && AllDigits(s) }

  function Label(key: Key): string { key.0 + ['/'] + Decimal(key.1) }

  /** `label.rpartition("/")`, without its middle. */
  function RPartition(s: string): (string, string) {
    if s == "" then ("", "")
    else if s[|s| - 1] == '/' then (s[..|s| - 1], "")
    else var p := RPartition(s[..|s| - 1]); (p.0, p.1 + [s[|s| - 1]])
  }

  lemma {:induction false} RPartitionAt(a: string, b: string)
    requires '/' !in b
    ensures RPartition(a + ['/'] + b) == (a, b)
    decreases |b|
  {
    var s := a + ['/'] + b;
    if b == "" {
      assert s[..|s| - 1] == a;
    } else {
      var c := b[..|b| - 1];
      assert s[..|s| - 1] == a + ['/'] + c;
      assert c + [b[|b| - 1]] == b;
      assert b[|b| - 1] in b;
      assert '/' !in c by { assert forall x :: x in c ==> x in b; }
      RPartitionAt(a, c);
    }
  }

  /** A label gives back its key. */
  lemma {:induction false} LabelReads(key: Key)
    ensures RPartition(Label(key)) == (key.0, Decimal(key.1))
    ensures Digits(Decimal(key.1)) && DigitsValue(Decimal(key.1)) == key.1
  {
    DecimalValue(key.1);
    RPartitionAt(key.0, Decimal(key.1));
  }

  /** The key that a label stands for, if its arity is written in digits. */
  function KeyOf(tag: string): Option<Key> {
    var p := RPartition(tag);
    if Digits(p.1) then Some((p.0, DigitsValue(p.1))) else None
  }

  /** No two keys share a label. */
  lemma {:induction false} KeyOfLabel()
    ensures forall key: Key :: KeyOf(Label(key)) == Some(key)
  {
    forall key: Key ensures KeyOf(Label(key)) == Some(key) {
      LabelReads(key);
    }
  }

  function Labels(coll: Collisions): set<string> { set k | k in coll :: Label(k) }

  /** The files of the key that `tag` stands for. */
  function FilesAt(coll: Collisions, tag: string): set<string> {
    var key := KeyOf(tag);
    if key.Some? && key.value in coll then coll[key.value] else {}
  }

  /** The files under their labels. */
  function Labelled(coll: Collisions): map<string, set<string>> {
    map l | l in Labels(coll) :: FilesAt(coll, l)
  }

  lemma {:induction false} LabelledAt(coll: Collisions, key: Key)
    requires key in coll
    ensures KeyOf(Label(key)) == Some(key) && Label(key) in Labelled(coll) && Labelled(coll)[Label(key)] == coll[key]
  {
    KeyOfLabel();
  }

  lemma {:induction false} LabelledKeys(coll: Collisions)
    ensures forall k :: k in coll ==> Label(k) in Labelled(coll) && Labelled(coll)[Label(k)] == coll[k]
    ensures forall k: Key :: Label(k) in Labelled(coll) ==> k in coll
  {
    KeyOfLabel();
  }

  // ---------------------------------------------------------------- writing

  predicate KeyLe(a: Key, b: Key) { LexLe(a.0, b.0) && (a.0 == b.0 ==> a.1 <= b.1) }

  ghost predicate IsLine(line: string, key: Key, modules: set<string>) {
    exists files: seq<string> :: SortedBy(files, LexLe) && (forall f :: f in files <==> f in modules)
      && line == Label(key) + ['\t'] + Join(files, ',')
  }

  ghost predicate Ascending(keys: seq<Key>) {
    forall i, j :: 0 <= i < j < |keys| ==> Under(keys[i], keys[j])
  }

  ghost predicate Under(a: Key, b: Key) { a != b && KeyLe(a, b) }

  /** One line for each key, in key order. */
  ghost predicate IsRoster(lines: seq<string>, keys: seq<Key>, coll: Collisions) {
    && |lines| == |keys| && (forall k :: k in keys <==> k in coll)
    && Ascending(keys)
    && forall i :: 0 <= i < |keys| ==> IsLine(lines[i], keys[i], coll[keys[i]])
  }

  lemma {:induction false} KeyOrder(a: Key, b: Key, c: Key)
    ensures KeyLe(a, b) || KeyLe(b, a)
    ensures KeyLe(a, b) && KeyLe(b, a) ==> a == b
    ensures KeyLe(a, b) && KeyLe(b, c) ==> KeyLe(a, c)
  {
    LexTotal(a.0, b.0);
    LexTotal(b.0, c.0);
    if LexLe(a.0, b.0) && LexLe(b.0, c.0) {
      LexTransitive(a.0, b.0, c.0);
      LexTotal(a.0, c.0);
    }
  }

  lemma {:induction false} LeastKey(s: set<Key>) returns (m: Key)
    requires s != {}
    ensures m in s && forall x :: x in s ==> KeyLe(m, x)
  {
    m :| m in s;
    KeyOrder(m, m, m);
    if s != {m} {
      var k := LeastKey(s - {m});
      KeyOrder(m, k, k);
      if KeyLe(m, k) {
        forall x | x in s ensures KeyLe(m, x) {
          KeyOrder(m, k, x);
        }
      } else {
        m := k;
      }
    }
  }

  lemma {:induction false} AscendingSnoc(keys: seq<Key>, k: Key)
    requires Ascending(keys) && forall x :: x in keys ==> Under(x, k)
    ensures Ascending(keys + [k])
  {
  }

  /** `sorted(coll.items())`: the keys are distinct, so the files never decide. */
  method SortedKeys(s: set<Key>) returns (keys: seq<Key>)
    ensures forall k :: k in keys <==> k in s
    ensures Ascending(keys)
  {
    keys := [];
    var rest := s;
    while rest != {}
      invariant rest <= s && Ascending(keys)
      invariant forall k :: k in s <==> k in keys || k in rest
      invariant forall k, r :: k in keys && r in rest ==> Under(k, r)
      decreases rest
    {
      ghost var least := LeastKey(rest);
      var k :| k in rest && forall x :: x in rest ==> KeyLe(k, x);
      AscendingSnoc(keys, k);
      rest := rest - {k};
      keys := keys + [k];
    }
  }

  /** `membership_lines`. */
  method MembershipLines(coll: Collisions) returns (lines: seq<string>)
    ensures exists keys :: IsRoster(lines, keys, coll)
  {
    var ks := SortedKeys(coll.Keys);
    lines := [];
    for i := 0 to |ks|
      invariant |lines| == i
      invariant forall j :: 0 <= j < i ==> IsLine(lines[j], ks[j], coll[ks[j]])
    {
      var files := SortedStrings(coll[ks[i]]);
      var line := Label(ks[i]) + ['\t'] + Join(files, ',');
      assert IsLine(line, ks[i], coll[ks[i]]);
      lines := lines + [line];
    }
    assert IsRoster(lines, ks, coll);
  }

  function Ended(lines: seq<string>): string {
    if lines == [] then "" else lines[0] + ['\n'] + Ended(lines[1..])
  }

  /** The roster file: comment lines, then the lines of the keys. */
  function RosterText(header: seq<string>, lines: seq<string>): string { Ended(header + lines) }

  // ---------------------------------------------------------------- reading

  /** Where `str.splitlines` ends a line. */
  predicate LineEnd(c: char) {
    var n := c as int;
    0x0a <= n <= 0x0d || 0x1c <= n <= 0x1e || n == 0x85 || n == 0x2028 || n == 0x2029
  }

  predicate NoLineEnd(s: string) { forall i :: 0 <= i < |s| ==> !LineEnd(s[i]) }

  /** `splitlines`, except that a carriage return before a newline ends a line of its own: the
      empty line that follows is skipped like any other. */
  function LinesOf(s: string): (lines: seq<string>)
    ensures lines != []
  {
    if s == "" then [""]
    else
      var rest := LinesOf(s[1..]);
      if LineEnd(s[0]) then [""] + rest else [[s[0]] + rest[0]] + rest[1..]
  }

  /** `label, _, files = line.partition("\t")`. */
  function Partition(line: string): (string, string) {
    if line == "" then ("", "")
    else if line[0] == '\t' then ("", line[1..])
    else var p := Partition(line[1..]); ([line[0]] + p.0, p.1)
  }

  /** `set(f for f in files.split(",") if f)`. */
  function Files(s: string): set<string> { set f | f in Split(s, ',') && f != "" }

  function ReadLines(lines: seq<string>, got: map<string, set<string>>): map<string, set<string>> {
    if lines == [] then got
    else
      var line := lines[0];
      if line == "" || line[0] == '#' then ReadLines(lines[1..], got)
      else ReadLines(lines[1..], got[Partition(line).0 := Files(Partition(line).1)])
  }

  function Membership(text: string): map<string, set<string>> { ReadLines(LinesOf(text), map[]) }

  /** `read_membership`: nothing if the file is missing. */
  method ReadMembership(file: Option<string>) returns (got: Option<map<string, set<string>>>)
    ensures got == match file case None => None case Some(text) => Some(Membership(text))
  {
    match file
    case None => return None;
    case Some(text) =>
      var lines := LinesOf(text);
      var read: map<string, set<string>> := map[];
      assert lines[0..] == lines;
      for i := 0 to |lines|
        invariant ReadLines(lines[i..], read) == Membership(text)
      {
        assert lines[i..][0] == lines[i] && lines[i..][1..] == lines[i + 1..];
        if lines[i] != "" && lines[i][0] != '#' {
          var p := Partition(lines[i]);
          read := read[p.0 := Files(p.1)];
        }
      }
      assert lines[|lines|..] == [];
      return Some(read);
  }

  // ---------------------------------------------------------------- the round trip

  /** What the file format needs of the names and of the paths. */
  predicate SafeKey(key: Key) {
    NoLineEnd(key.0) && '\t' !in key.0 && (key.0 != "" ==> key.0[0] != '#')
  }

  predicate SafeFile(f: string) { f != "" && ',' !in f && NoLineEnd(f) }

  predicate Safe(coll: Collisions) {
    forall k :: k in coll ==> SafeKey(k) && forall f :: f in coll[k] ==> SafeFile(f)
  }

  lemma {:induction false} NoLineEndConcat(a: string, b: string)
    ensures NoLineEnd(a + b) <==> NoLineEnd(a) && NoLineEnd(b)
  {
    var s := a + b;
    assert forall i :: 0 <= i < |a| ==> s[i] == a[i];
    assert forall i :: 0 <= i < |b| ==> s[|a| + i] == b[i];
    assert forall i :: |a| <= i < |s| ==> s[i] == b[i - |a|];
  }

  lemma {:induction false} DecimalIsPlain(n: nat)
    ensures NoLineEnd(Decimal(n)) && '\t' !in Decimal(n)
  {
    DecimalValue(n);
  }

  /** What the key must meet can be read off the label. */
  lemma {:induction false} SafeLabel(key: Key)
    ensures var l := Label(key);
      l != "" && (SafeKey(key) <==> NoLineEnd(l) && '\t' !in l && l[0] != '#')
  {
    var tail := ['/'] + Decimal(key.1);
    DecimalIsPlain(key.1);
    assert Label(key) == key.0 + tail;
    NoLineEndConcat(['/'], Decimal(key.1));
    NoLineEndConcat(key.0, tail);
    assert '\t' in key.0 + tail <==> '\t' in key.0 || '\t' in tail;
    assert '\t' !in tail;
    assert tail[0] == '/';
  }

  lemma {:induction false} PartitionAt(a: string, b: string)
    requires '\t' !in a
    ensures Partition(a + ['\t'] + b) == (a, b)
    decreases |a|
  {
    var s := a + ['\t'] + b;
    if a == "" {
      assert s[1..] == b;
    } else {
      assert a[0] in a;
      assert s[1..] == a[1..] + ['\t'] + b;
      PartitionAt(a[1..], b);
      assert [a[0]] + a[1..] == a;
    }
  }

  lemma {:induction false} JoinPlain(files: seq<string>)
    requires forall f :: f in files ==> NoLineEnd(f)
    ensures NoLineEnd(Join(files, ','))
    decreases |files|
  {
    if files != [] {
      assert files[0] in files;
    }
    if |files| > 1 {
      JoinPlain(files[1..]);
      NoLineEndConcat(files[0], [',']);
      NoLineEndConcat(files[0] + [','], Join(files[1..], ','));
    }
  }

  lemma {:induction false} FilesRead(files: seq<string>)
    requires forall f :: f in files ==> SafeFile(f)
    ensures Files(Join(files, ',')) == set f | f in files
  {
    if files == [] {
      assert Split("", ',') == [""];
    } else {
      SplitJoin(files, ',');
    }
  }

  /** A written line reads back as its label and its files. */
  lemma {:induction false} LineReads(line: string, key: Key, modules: set<string>)
    requires IsLine(line, key, modules) && SafeKey(key) && forall f :: f in modules ==> SafeFile(f)
    ensures line != "" && line[0] != '#' && NoLineEnd(line)
    ensures Partition(line).0 == Label(key) && Files(Partition(line).1) == modules
  {
    var files: seq<string> :| SortedBy(files, LexLe) && (forall f :: f in files <==> f in modules)
      && line == Label(key) + ['\t'] + Join(files, ',');
    SafeLabel(key);
    PartitionAt(Label(key), Join(files, ','));
    FilesRead(files);
    JoinPlain(files);
    NoLineEndConcat(Label(key), ['\t']);
    NoLineEndConcat(Label(key) + ['\t'], Join(files, ','));
    assert line[0] == Label(key)[0];
  }

  lemma {:induction false} FirstLine(l: string, c: char, rest: string)
    requires NoLineEnd(l) && LineEnd(c)
    ensures LinesOf(l + [c] + rest) == [l] + LinesOf(rest)
    decreases |l|
  {
    var s := l + [c] + rest;
    if l == "" {
      assert s[1..] == rest;
    } else {
      assert !LineEnd(l[0]);
      assert s[1..] == l[1..] + [c] + rest;
      FirstLine(l[1..], c, rest);
      assert [l[0]] + l[1..] == l;
    }
  }

  lemma {:induction false} EndedReads(lines: seq<string>)
    requires forall l :: l in lines ==> NoLineEnd(l)
    ensures LinesOf(Ended(lines)) == lines + [""]
    decreases |lines|
  {
    if lines != [] {
      assert lines[0] in lines;
      EndedReads(lines[1..]);
      FirstLine(lines[0], '\n', Ended(lines[1..]));
    }
  }

  /** The header of the roster: comment lines. */
  predicate IsHeader(header: seq<string>) {
    forall l :: l in header ==> l != "" && l[0] == '#' && NoLineEnd(l)
  }

  lemma {:induction false} HeaderSkipped(header: seq<string>, lines: seq<string>, got: map<string, set<string>>)
    requires IsHeader(header)
    ensures ReadLines(header + lines, got) == ReadLines(lines, got)
    decreases |header|
  {
    if header == [] {
      assert header + lines == lines;
    } else {
      assert header[0] in header && forall l :: l in header[1..] ==> l in header;
      HeaderSkipped(header[1..], lines, got);
      assert (header + lines)[1..] == header[1..] + lines;
    }
  }

  function FoldLabels(keys: seq<Key>, coll: Collisions): map<string, set<string>>
    requires forall k :: k in keys ==> k in coll
  {
    if keys == [] then map[]
    else
      assert keys[0] in keys;
      map[Label(keys[0]) := coll[keys[0]]] + FoldLabels(keys[1..], coll)
  }

  lemma {:induction false} MergeFirst(got: map<string, set<string>>, l: string, v: set<string>,
                                      more: map<string, set<string>>)
    ensures got[l := v] + more == got + (map[l := v] + more)
  {
  }

  lemma {:induction false} ReadFirst(lines: seq<string>, rest: seq<string>, tag: string, files: set<string>,
                                     got: map<string, set<string>>)
    requires lines != [] && lines[0] != "" && lines[0][0] != '#'
    requires Partition(lines[0]).0 == tag && Files(Partition(lines[0]).1) == files
    ensures ReadLines(lines + rest, got) == ReadLines(lines[1..] + rest, got[tag := files])
  {
    assert (lines + rest)[1..] == lines[1..] + rest;
  }

  ghost predicate AreLines(lines: seq<string>, keys: seq<Key>, coll: Collisions) {
    && |lines| == |keys| && (forall k :: k in keys ==> k in coll)
    && forall i :: 0 <= i < |keys| ==> keys[i] in coll && IsLine(lines[i], keys[i], coll[keys[i]])
  }

  lemma {:induction false} LinesRead(lines: seq<string>, keys: seq<Key>, coll: Collisions,
                                     got: map<string, set<string>>)
    requires AreLines(lines, keys, coll) && Safe(coll)
    ensures ReadLines(lines + [""], got) == got + FoldLabels(keys, coll)
    decreases |keys|
  {
    if keys == [] {
      NoLines(got);
      assert lines + [""] == [""];
    } else {
      var key := keys[0];
      LineReads(lines[0], key, coll[key]);
      ReadFirst(lines, [""], Label(key), coll[key], got);
      AreLinesTail(lines, keys, coll);
      LinesRead(lines[1..], keys[1..], coll, got[Label(key) := coll[key]]);
      MergeFirst(got, Label(key), coll[key], FoldLabels(keys[1..], coll));
    }
  }

  lemma {:induction false} NoLines(got: map<string, set<string>>)
    ensures ReadLines([""], got) == got && got + map[] == got
  {
    assert [""][1..] == [];
  }

  lemma {:induction false} AreLinesTail(lines: seq<string>, keys: seq<Key>, coll: Collisions)
    requires AreLines(lines, keys, coll) && keys != []
    ensures AreLines(lines[1..], keys[1..], coll)
  {
    assert forall k :: k in keys[1..] ==> k in keys;
  }

  lemma {:induction false} FoldIsLabelled(keys: seq<Key>, coll: Collisions)
    requires forall k :: k in keys ==> k in coll
    ensures forall k :: k in keys ==> Label(k) in FoldLabels(keys, coll)
    ensures forall l :: l in FoldLabels(keys, coll) ==>
      (exists k :: k in keys && Label(k) == l) && FoldLabels(keys, coll)[l] == FilesAt(coll, l)
    decreases |keys|
  {
    if keys != [] {
      FoldIsLabelled(keys[1..], coll);
      assert keys[0] in keys;
      LabelledAt(coll, keys[0]);
      assert forall k :: k in keys[1..] ==> k in keys;
      assert forall k :: k in keys ==> k == keys[0] || k in keys[1..];
    }
  }

  lemma {:induction false} FoldIsWhole(keys: seq<Key>, coll: Collisions)
    requires forall k :: k in keys <==> k in coll
    ensures FoldLabels(keys, coll) == Labelled(coll)
  {
    FoldIsLabelled(keys, coll);
  }

  lemma {:induction false} TextReads(header: seq<string>, lines: seq<string>, keys: seq<Key>, coll: Collisions)
    requires IsHeader(header) && AreLines(lines, keys, coll) && Safe(coll)
    ensures LinesOf(RosterText(header, lines)) == header + (lines + [""])
  {
    forall i | 0 <= i < |lines| ensures NoLineEnd(lines[i]) {
      LineReads(lines[i], keys[i], coll[keys[i]]);
    }
    EndedReads(header + lines);
  }

  lemma {:induction false} RosterIsLines(lines: seq<string>, keys: seq<Key>, coll: Collisions)
    requires IsRoster(lines, keys, coll)
    ensures AreLines(lines, keys, coll)
  {
    assert forall i :: 0 <= i < |keys| ==> keys[i] in keys;
  }

  lemma {:induction false} LinesReadWhole(lines: seq<string>, keys: seq<Key>, coll: Collisions)
    requires IsRoster(lines, keys, coll) && AreLines(lines, keys, coll) && Safe(coll)
    ensures ReadLines(lines + [""], map[]) == Labelled(coll)
  {
    LinesRead(lines, keys, coll, map[]);
    FoldIsWhole(keys, coll);
    assert map[] + Labelled(coll) == Labelled(coll);
  }

  /** Safe collisions read back as they were written. */
  lemma {:induction false} RosterReads(header: seq<string>, lines: seq<string>, keys: seq<Key>, coll: Collisions)
    requires IsHeader(header) && IsRoster(lines, keys, coll) && Safe(coll)
    ensures Membership(RosterText(header, lines)) == Labelled(coll)
  {
    RosterIsLines(lines, keys, coll);
    TextReads(header, lines, keys, coll);
    HeaderSkipped(header, lines + [""], map[]);
    LinesReadWhole(lines, keys, coll);
  }

  // ---------------------------------------------------------------- only safe collisions

  /** What every roster that is read satisfies, whatever the file. */
  predicate SafeEntry(tag: string, files: set<string>) {
    && '\t' !in tag && NoLineEnd(tag) && (tag != "" ==> tag[0] != '#')
    && forall f :: f in files ==> SafeFile(f)
  }

  predicate SafeMap(got: map<string, set<string>>) { forall l :: l in got ==> SafeEntry(l, got[l]) }

  lemma {:induction false} PartitionParts(line: string)
    ensures var p := Partition(line);
      '\t' !in p.0 && (line == p.0 + ['\t'] + p.1 || (line == p.0 && p.1 == ""))
  {
    if line != "" && line[0] != '\t' {
      PartitionParts(line[1..]);
      assert line == [line[0]] + line[1..];
    }
  }

  lemma {:induction false} LineIsSafe(line: string)
    requires NoLineEnd(line) && line != "" && line[0] != '#'
    ensures SafeEntry(Partition(line).0, Files(Partition(line).1))
  {
    var p := Partition(line);
    PartitionParts(line);
    NoLineEndConcat(p.0 + ['\t'], p.1);
    NoLineEndConcat(p.0, ['\t']);
    if p.0 != "" {
      assert p.0[0] == line[0];
    }
    forall f | f in Split(p.1, ',') ensures NoLineEnd(f) && ',' !in f {
      SplitNoLineEnd(p.1);
      JoinSplit(p.1, ',');
    }
  }

  lemma {:induction false} SplitNoLineEnd(s: string)
    requires NoLineEnd(s)
    ensures forall f :: f in Split(s, ',') ==> NoLineEnd(f)
    decreases |s|
  {
    if s != "" {
      var rest := Split(s[1..], ',');
      SplitNoLineEnd(s[1..]);
      assert rest[0] in rest;
      NoLineEndConcat([s[0]], rest[0]);
    }
  }

  lemma {:induction false} LinesHaveNoEnd(s: string)
    ensures forall l :: l in LinesOf(s) ==> NoLineEnd(l)
    decreases |s|
  {
    if s != "" {
      var rest := LinesOf(s[1..]);
      LinesHaveNoEnd(s[1..]);
      assert rest[0] in rest;
      if !LineEnd(s[0]) {
        NoLineEndConcat([s[0]], rest[0]);
      }
    }
  }

  lemma {:induction false} ReadLinesSafe(lines: seq<string>, got: map<string, set<string>>)
    requires SafeMap(got) && forall l :: l in lines ==> NoLineEnd(l)
    ensures SafeMap(ReadLines(lines, got))
    decreases |lines|
  {
    if lines != [] {
      var line := lines[0];
      assert line in lines && forall l :: l in lines[1..] ==> l in lines;
      if line == "" || line[0] == '#' {
        ReadLinesSafe(lines[1..], got);
      } else {
        LineIsSafe(line);
        ReadLinesSafe(lines[1..], got[Partition(line).0 := Files(Partition(line).1)]);
      }
    }
  }

  /** The roster of all collisions reads back exactly when no name holds a tab or a line end or
      starts like a comment, and no path is empty or holds a comma or a line end. */
  lemma {:induction false} RosterReadsIff(header: seq<string>, lines: seq<string>, keys: seq<Key>, coll: Collisions)
    requires IsHeader(header) && IsRoster(lines, keys, coll)
    ensures Membership(RosterText(header, lines)) == Labelled(coll) <==> Safe(coll)
  {
    if Safe(coll) {
      RosterReads(header, lines, keys, coll);
    }
    if Membership(RosterText(header, lines)) == Labelled(coll) {
      LinesHaveNoEnd(RosterText(header, lines));
      ReadLinesSafe(LinesOf(RosterText(header, lines)), map[]);
      forall k | k in coll ensures SafeKey(k) && forall f :: f in coll[k] ==> SafeFile(f) {
        LabelledKeys(coll);
        SafeLabel(k);
        assert Label(k) in Labelled(coll);
      }
    }
  }

  // ---------------------------------------------------------------- the derived expectations

  /** The collisions of a roster, its labels taken in the order of the file. */
  function Keyed(order: seq<string>, want: map<string, set<string>>): Collisions
    requires forall l :: l in order ==> l in want
  {
    if order == [] then map[]
    else
      var last := order[|order| - 1];
      assert last in order;
      var sofar := Keyed(order[..|order| - 1], want);
      match KeyOf(last)
      case None => sofar
      case Some(key) => sofar[key := want[last]]
  }

  /** `scope_expectation`: what the roster for all collisions says about one scope. */
  method ScopeExpectation(file: Option<string>, order: seq<string>, scope: Scope, prelude: set<string>)
    returns (r: Option<map<string, set<string>>>)
    requires file.Some? ==> forall l :: l in order <==> l in Membership(file.value)
    ensures file.None? ==> r == None
    ensures file.Some? ==> r == Some(Labelled(Scoped(Keyed(order, Membership(file.value)), scope, prelude)))
  {
    var read := ReadMembership(file);
    if read.None? {
      return None;
    }
    var want := read.value;
    var coll: Collisions := map[];
    for i := 0 to |order|
      invariant coll == Keyed(order[..i], want)
    {
      assert order[..i + 1][..i] == order[..i];
      assert order[i] in order;
      var p := RPartition(order[i]);
      if Digits(p.1) {
        coll := coll[(p.0, DigitsValue(p.1)) := want[order[i]]];
      }
    }
    assert order[..|order|] == order;
    var scoped := CollisionsOf(coll, scope, prelude);
    return Some(Labelled(scoped));
  }

  lemma {:induction false} KeyedSnoc(order: seq<string>, tag: string, want: map<string, set<string>>)
    requires tag in want && forall l :: l in order ==> l in want
    ensures forall l :: l in order + [tag] ==> l in want
    ensures KeyOf(tag).Some? ==> Keyed(order + [tag], want) == Keyed(order, want)[KeyOf(tag).value := want[tag]]
  {
    assert (order + [tag])[..|order|] == order;
  }

  /** The keys that `got` holds are those whose labels are in `order`, with their own files. */
  ghost predicate Holds(got: Collisions, order: seq<string>, coll: Collisions) {
    && (forall k :: k in got <==> k in coll && Label(k) in order)
    && (forall k :: k in got ==> k in coll && got[k] == coll[k])
  }

  lemma {:induction false} HoldsSnoc(got: Collisions, order: seq<string>, coll: Collisions, key: Key)
    requires Holds(got, order, coll) && key in coll
    ensures Holds(got[key := coll[key]], order + [Label(key)], coll)
  {
    KeyOfLabel();
  }

  lemma {:induction false} KeyedHolds(order: seq<string>, coll: Collisions)
    requires forall l :: l in order ==> l in Labelled(coll)
    ensures Holds(Keyed(order, Labelled(coll)), order, coll)
    decreases |order|
  {
    if order != [] {
      var rest, tag := order[..|order| - 1], order[|order| - 1];
      KeyedHolds(rest, coll);
      assert tag in order && order == rest + [tag];
      var key :| key in coll && Label(key) == tag;
      LabelledAt(coll, key);
      KeyedSnoc(rest, tag, Labelled(coll));
      HoldsSnoc(Keyed(rest, Labelled(coll)), rest, coll, key);
    }
  }

  /** The labels of the roster stand for the keys they were made from, in whatever order. */
  lemma {:induction false} KeyedIsAll(order: seq<string>, coll: Collisions)
    requires forall l :: l in order <==> l in Labelled(coll)
    ensures Keyed(order, Labelled(coll)) == coll
  {
    KeyedHolds(order, coll);
    LabelledKeys(coll);
  }

  /** Writing the roster of all collisions, reading it back and filtering it by a scope gives
      exactly the live collisions of that scope. */
  lemma {:induction false} DerivedScopeIsLive(found: Collisions, header: seq<string>, lines: seq<string>,
                                              keys: seq<Key>,
                                              order: seq<string>, scope: Scope, prelude: set<string>)
    requires IsHeader(header) && IsRoster(lines, keys, Scoped(found, All, prelude)) && Safe(Scoped(found, All, prelude))
    requires forall l :: l in order <==> l in Membership(RosterText(header, lines))
    ensures Labelled(Scoped(Keyed(order, Membership(RosterText(header, lines))), scope, prelude))
         == Labelled(Scoped(found, scope, prelude))
  {
    var all := Scoped(found, All, prelude);
    RosterReads(header, lines, keys, all);
    KeyedIsAll(order, all);
    ScopedTwice(found, scope, prelude);
  }

  // ---------------------------------------------------------------- the check

  /** `check_membership`: 2 without a roster, else 0 or 1. */
  method CheckMembership(coll: Collisions, want: Option<map<string, set<string>>>) returns (rc: int)
    ensures rc == 2 <==> want.None?
    ensures rc == 0 <==> want == Some(Labelled(coll))
    ensures rc in {0, 1, 2}
  {
    if want.None? {
      return 2;
    }
    var have := Labelled(coll);
    var new' := have.Keys - want.value.Keys;
    var gone := want.value.Keys - have.Keys;
    var moved := set k | k in have && k in want.value && have[k] != want.value[k];
    if new' == {} && gone == {} && moved == {} {
      SameMaps(have, want.value);
      return 0;
    }
    return 1;
  }

  lemma {:induction false} SameMaps(a: map<string, set<string>>, b: map<string, set<string>>)
    requires a.Keys - b.Keys == {} && b.Keys - a.Keys == {}
    requires (set k | k in a && k in b && a[k] != b[k]) == {}
    ensures a == b
  {
    forall k ensures k in a <==> k in b {
      assert k in a.Keys - b.Keys <==> k in a && k !in b;
      assert k in b.Keys - a.Keys <==> k in b && k !in a;
    }
    forall k | k in a ensures a[k] == b[k] {
      assert k !in set x | x in a && x in b && a[x] != b[x];
    }
  }

  /** A path with a comma: written with another, it reads back as three. */
  lemma {:induction false} CommaSplitsPath(a: string, b: string, c: string)
    requires SafeFile(a) && SafeFile(b) && SafeFile(c)
    ensures Files(Join([a + [','] + b, c], ',')) == {a, b, c}
  {
    var written := [a + [','] + b, c];
    assert written[1..] == [c];
    assert Join(written, ',') == a + [','] + (b + [','] + c);
    SplitHead(a, ',', b + [','] + c);
    SplitHead(b, ',', c);
    SplitPlain(c, ',');
    assert Split(Join(written, ','), ',') == [a] + ([b] + [c]);
  }

  /** The characters that end a line. */
  lemma {:induction false} LineEndsAre(c: char)
    ensures LineEnd(c) <==> c as int in {0x0a, 0x0b, 0x0c, 0x0d, 0x1c, 0x1d, 0x1e, 0x85, 0x2028, 0x2029}
  {
  }

  /** The lines of a roster are in the order of the names, and of one name in that of the arities. */
  lemma {:induction false} RosterOrder(lines: seq<string>, keys: seq<Key>, coll: Collisions, i: nat, j: nat)
    requires IsRoster(lines, keys, coll) && i < j < |keys|
    ensures LexLe(keys[i].0, keys[j].0) && (keys[i].0 == keys[j].0 ==> keys[i].1 < keys[j].1)
  {
    assert Under(keys[i], keys[j]);
  }

  lemma {:induction false} LastSlash(name: string, arity: string)
    requires '/' !in arity
    ensures RPartition(name + (['/'] + arity)) == (name, arity)
    decreases |arity|
  {
    var s := name + (['/'] + arity);
    if arity == "" {
      assert s[..|s| - 1] == name;
    } else {
      var init, last := arity[..|arity| - 1], arity[|arity| - 1];
      assert s[..|s| - 1] == name + (['/'] + init) && s[|s| - 1] == last && last in arity;
      LastSlash(name, init);
      assert init + [last] == arity;
    }
  }

  lemma {:induction false} NoSlash(tag: string)
    requires '/' !in tag
    ensures RPartition(tag) == ("", tag)
  {
    if tag != "" {
      var init, last := tag[..|tag| - 1], tag[|tag| - 1];
      assert last in tag && init + [last] == tag;
      NoSlash(init);
    }
  }

  /** How a tag is read: the arity is what follows its last slash, or all of it, and has to be
      digits; the name is what comes before. */
  lemma {:induction false} TagReads(name: string, arity: string)
    requires '/' !in arity
    ensures KeyOf(name + (['/'] + arity)) == if Digits(arity) then Some((name, DigitsValue(arity))) else None
    ensures KeyOf(arity) == if Digits(arity) then Some(("", DigitsValue(arity))) else None
  {
    LastSlash(name, arity);
    NoSlash(arity);
  }
}
