/** The two per-module tables embedded in the compiler: the mount dependency graph
    and the symbol manifest.  Both are

      module_count: u32
      per module: path_len: u16, path, item_count: u16
      per item:   a tag of fixed width, name_len: u16, name

    with a one-byte tag (the edge kind) in the graph and a two-byte tag (the symbol
    kind and the visibility) in the manifest. */
module ModuleTables {
  import opened Sequences
  import opened Bytes

  datatype Item = Item(tag: ByteString, name: ByteString)
  datatype Entry = Entry(name: ByteString, items: seq<Item>)

  /** The graph writer counts its edges with `as u32` before the checked conversion to
      u16, the manifest writer converts the length itself. */
  datatype Counting = Wrapping32 | Checked

  function CountField(n: nat, counting: Counting): nat {
    if counting == Wrapping32 then n % U32_LIMIT else n
  }

  // ---------------------------------------------------------------- writing

  predicate WritableStr(s: ByteString) { |s| < U16_LIMIT }

  predicate AllWritable(items: seq<Item>) {
    forall i :: 0 <= i < |items| ==> WritableStr(items[i].name)
  }

  predicate WritableEntry(e: Entry, counting: Counting) {
    && WritableStr(e.name)
    && CountField(|e.items|, counting) < U16_LIMIT
    && AllWritable(e.items)
  }

  predicate Writable(entries: seq<Entry>, counting: Counting) {
    forall i :: 0 <= i < |entries| ==> WritableEntry(entries[i], counting)
  }

  function StrBytes(s: ByteString): ByteString
    requires WritableStr(s)
  {
    U16(|s|) + s
  }

  function ItemsBytes(items: seq<Item>): ByteString
    requires AllWritable(items)
  {
    if items == [] then [] else items[0].tag + StrBytes(items[0].name) + ItemsBytes(items[1..])
  }

  function EntryBytes(e: Entry, counting: Counting): ByteString
    requires WritableEntry(e, counting)
  {
    StrBytes(e.name) + (U16(CountField(|e.items|, counting)) + ItemsBytes(e.items))
  }

  function EntriesBytes(entries: seq<Entry>, counting: Counting): ByteString
    requires Writable(entries, counting)
  {
    if entries == [] then [] else EntryBytes(entries[0], counting) + EntriesBytes(entries[1..], counting)
  }

  function TableBytes(entries: seq<Entry>, counting: Counting): ByteString
    requires |entries| < U32_LIMIT && Writable(entries, counting)
  {
    U32(|entries|) + EntriesBytes(entries, counting)
  }

  lemma {:induction false} ItemsBytesConcat(a: seq<Item>, b: seq<Item>)
    requires AllWritable(a) && AllWritable(b)
    ensures AllWritable(a + b)
    ensures ItemsBytes(a + b) == ItemsBytes(a) + ItemsBytes(b)
  {
    if a == [] {
      assert a + b == b;
    } else {
      ItemsBytesConcat(a[1..], b);
      HeadTailConcat(a, b);
      Regroup(a[0].tag + StrBytes(a[0].name), ItemsBytes(a[1..]), ItemsBytes(b));
    }
  }

  lemma {:induction false} ItemsBytesSnoc(items: seq<Item>, it: Item)
    requires AllWritable(items) && WritableStr(it.name)
    ensures AllWritable(items + [it])
    ensures ItemsBytes(items + [it]) == ItemsBytes(items) + it.tag + StrBytes(it.name)
  {
    ItemsBytesConcat(items, [it]);
    assert ItemsBytes([it]) == it.tag + StrBytes(it.name) + ItemsBytes([it][1..]);
  }

  lemma {:induction false} AllWritableConcat(a: seq<Item>, b: seq<Item>)
    ensures AllWritable(a + b) <==> AllWritable(a) && AllWritable(b)
    ensures AllWritable(a + b) ==> ItemsBytes(a + b) == ItemsBytes(a) + ItemsBytes(b)
  {
    if AllWritable(a + b) {
      assert forall i :: 0 <= i < |a| ==> a[i] == (a + b)[i];
      assert forall i :: 0 <= i < |b| ==> b[i] == (a + b)[|a| + i];
    }
    if AllWritable(a) && AllWritable(b) {
      ItemsBytesConcat(a, b);
    }
  }

  lemma {:induction false} EntriesBytesFirst(e: Entry, entries: seq<Entry>, counting: Counting)
    requires Writable(entries, counting) && WritableEntry(e, counting)
    ensures Writable([e] + entries, counting)
    ensures EntriesBytes([e] + entries, counting) == EntryBytes(e, counting) + EntriesBytes(entries, counting)
  {
    assert ([e] + entries)[1..] == entries;
  }

  lemma {:induction false} EntriesBytesAppend(entries: seq<Entry>, e: Entry, counting: Counting)
    requires Writable(entries, counting) && WritableEntry(e, counting)
    ensures Writable(entries + [e], counting)
    ensures EntriesBytes(entries + [e], counting) == EntriesBytes(entries, counting) + EntryBytes(e, counting)
    decreases |entries|
  {
    if entries == [] {
      EntriesBytesFirst(e, [], counting);
      assert entries + [e] == [e] + [];
    } else {
      var rest := entries[1..];
      EntriesBytesAppend(rest, e, counting);
      EntriesBytesFirst(entries[0], rest + [e], counting);
      EntriesBytesFirst(entries[0], rest, counting);
      HeadTailConcat(entries, [e]);
      HeadTail(entries);
      Regroup(EntryBytes(entries[0], counting), EntriesBytes(rest, counting), EntryBytes(e, counting));
    }
  }

  /** `write_str`: append a length-prefixed string, or panic on a length over u16. */
  method WriteStr(out: ByteString, s: ByteString) returns (r: Option<ByteString>)
    ensures r == if WritableStr(s) then Some(out + StrBytes(s)) else None
  {
    if |s| >= U16_LIMIT {
      return None;
    }
    r := Some(out + U16(|s|));
    r := Some(r.value + s);
    assert r.value == out + (U16(|s|) + s);
  }

  // ---------------------------------------------------------------- reading

  // Every reader takes the bytes from its cursor on, and returns what it read and the
  // bytes from the new cursor on.

  function ReadStr(data: ByteString): Option<(ByteString, ByteString)> {
    if |data| < 2 then None
    else
      var len := ReadU16(data);
      if |data[2..]| < len || !ValidUtf8(data[2..][..len]) then None
      else Some((data[2..][..len], data[2..][len..]))
  }

  /** `read_str` with its cursor. */
  method ReadStrAt(data: ByteString, cursor: nat) returns (r: Option<ByteString>, next: nat)
    requires cursor <= |data|
    ensures next <= |data|
    ensures match ReadStr(data[cursor..])
      case None => r == None
      case Some((s, rest)) => r == Some(s) && data[next..] == rest
  {
    next := cursor;
    if cursor + 2 > |data| { return None, next; }
    assert data[cursor..][2..] == data[cursor + 2..];
    var len := ReadU16(data[cursor..cursor + 2]);
    assert len == ReadU16(data[cursor..]);
    next := cursor + 2;
    if next + len > |data| { return None, next; }
    assert data[next..][..len] == data[next..next + len];
    assert data[next..][len..] == data[next + len..];
    if !ValidUtf8(data[next..next + len]) { return None, next; }
    r := Some(data[next..next + len]);
    next := next + len;
  }

  /** The head of an entry, its name and its item count, with the cursor. */
  method ReadHeadAt(data: ByteString, cursor: nat) returns (name: Option<ByteString>, count: nat, next: nat)
    requires cursor <= |data|
    ensures next <= |data|
    ensures match ReadStr(data[cursor..])
      case None => name == None
      case Some((s, rest)) =>
        if |rest| < 2 then name == None else name == Some(s) && count == ReadU16(rest) && data[next..] == rest[2..]
  {
    name, next := ReadStrAt(data, cursor);
    count := 0;
    if name.None? || next + 2 > |data| { return None, 0, next; }
    count := ReadU16(data[next..next + 2]);
    assert count == ReadU16(data[next..]);
    assert data[next..][2..] == data[next + 2..];
    next := next + 2;
  }

  function ReadItem(data: ByteString, width: nat): Option<(Item, ByteString)> {
    if |data| < width then None
    else match ReadStr(data[width..])
      case None => None
      case Some((name, rest)) => Some((Item(data[..width], name), rest))
  }

  function ReadItems(data: ByteString, n: nat, width: nat): Option<(seq<Item>, ByteString)>
    decreases n
  {
    if n == 0 then Some(([], data))
    else match ReadItem(data, width)
      case None => None
      case Some((it, rest)) =>
        match ReadItems(rest, n - 1, width)
        case None => None
        case Some((its, end)) => Some(([it] + its, end))
  }

  function ReadEntry(data: ByteString, width: nat): Option<(Entry, ByteString)> {
    match ReadStr(data)
    case None => None
    case Some((name, rest)) =>
      if |rest| < 2 then None
      else match ReadItems(rest[2..], ReadU16(rest), width)
        case None => None
        case Some((items, end)) => Some((Entry(name, items), end))
  }

  function ReadEntries(data: ByteString, n: nat, width: nat): Option<(seq<Entry>, ByteString)>
    decreases n
  {
    if n == 0 then Some(([], data))
    else match ReadEntry(data, width)
      case None => None
      case Some((e, rest)) =>
        match ReadEntries(rest, n - 1, width)
        case None => None
        case Some((es, end)) => Some(([e] + es, end))
  }

  function ReadTable(data: ByteString, width: nat): Option<(seq<Entry>, ByteString)> {
    if |data| < 4 then None else ReadEntries(data[4..], ReadU32(data), width)
  }

  // ---------------------------------------------------------------- round trip

  /** The entries that are read back: well typed, and with an exact item count. */
  ghost predicate Readable(entries: seq<Entry>, width: nat) {
    forall i :: 0 <= i < |entries| ==> WellTyped(entries[i], width) && |entries[i].items| < U16_LIMIT
  }

  /** What the Rust types guarantee of an entry: its strings are UTF-8 and its tags have
      the width of the table. */
  ghost predicate WellTyped(e: Entry, width: nat) {
    && ValidUtf8(e.name)
    && forall i :: 0 <= i < |e.items| ==> ValidUtf8(e.items[i].name) && |e.items[i].tag| == width
  }

  lemma {:induction false} StrReadBack(s: ByteString, rest: ByteString)
    requires WritableStr(s) && ValidUtf8(s)
    ensures ReadStr(StrBytes(s) + rest) == Some((s, rest))
  {
    assert StrBytes(s) + rest == U16(|s|) + (s + rest);
    U16ReadBack(|s|, s + rest);
    assert (s + rest)[..|s|] == s && (s + rest)[|s|..] == rest;
  }

  lemma {:induction false} ItemReadBack(it: Item, rest: ByteString)
    requires WritableStr(it.name) && ValidUtf8(it.name)
    ensures ReadItem(it.tag + StrBytes(it.name) + rest, |it.tag|) == Some((it, rest))
  {
    var data := it.tag + StrBytes(it.name) + rest;
    assert data[..|it.tag|] == it.tag;
    assert data[|it.tag|..] == StrBytes(it.name) + rest;
    StrReadBack(it.name, rest);
  }

  lemma {:induction false} ReadItemsStep(data: ByteString, width: nat, it: Item, more: ByteString, its: seq<Item>,
                                         rest: ByteString)
    requires ReadItem(data, width) == Some((it, more))
    requires ReadItems(more, |its|, width) == Some((its, rest))
    ensures ReadItems(data, |[it] + its|, width) == Some(([it] + its, rest))
  {
  }

  lemma {:induction false} ItemsReadBack(items: seq<Item>, rest: ByteString, width: nat)
    requires AllWritable(items)
    requires forall i :: 0 <= i < |items| ==> ValidUtf8(items[i].name) && |items[i].tag| == width
    ensures ReadItems(ItemsBytes(items) + rest, |items|, width) == Some((items, rest))
  {
    if items == [] {
      assert ItemsBytes(items) + rest == rest;
    } else {
      var it, its := items[0], items[1..];
      var more := ItemsBytes(its) + rest;
      assert ItemsBytes(items) + rest == it.tag + StrBytes(it.name) + more;
      ItemReadBack(it, more);
      ItemsReadBack(its, rest, width);
      ReadItemsStep(it.tag + StrBytes(it.name) + more, width, it, more, its, rest);
      assert items == [it] + its;
    }
  }

  lemma {:induction false} EntryReadBack(e: Entry, rest: ByteString, width: nat, counting: Counting)
    requires WritableEntry(e, counting) && WellTyped(e, width) && |e.items| < U16_LIMIT
    ensures ReadEntry(EntryBytes(e, counting) + rest, width) == Some((e, rest))
  {
    var more := ItemsBytes(e.items) + rest;
    assert EntryBytes(e, counting) + rest == StrBytes(e.name) + (U16(|e.items|) + more);
    StrReadBack(e.name, U16(|e.items|) + more);
    U16ReadBack(|e.items|, more);
    ItemsReadBack(e.items, rest, width);
  }

  lemma {:induction false} ReadEntriesStep(data: ByteString, width: nat, e: Entry, more: ByteString, es: seq<Entry>,
                                           rest: ByteString)
    requires ReadEntry(data, width) == Some((e, more))
    requires ReadEntries(more, |es|, width) == Some((es, rest))
    ensures ReadEntries(data, |[e] + es|, width) == Some(([e] + es, rest))
  {
  }

  lemma {:induction false} EntriesBytesHead(entries: seq<Entry>, rest: ByteString, counting: Counting)
    requires entries != [] && Writable(entries, counting)
    ensures WritableEntry(entries[0], counting) && Writable(entries[1..], counting)
    ensures EntriesBytes(entries, counting) + rest ==
      EntryBytes(entries[0], counting) + (EntriesBytes(entries[1..], counting) + rest)
  {
  }

  lemma {:induction false} EntriesReadBack(entries: seq<Entry>, rest: ByteString, width: nat, counting: Counting)
    requires Writable(entries, counting) && Readable(entries, width)
    ensures ReadEntries(EntriesBytes(entries, counting) + rest, |entries|, width) == Some((entries, rest))
  {
    if entries == [] {
      assert EntriesBytes(entries, counting) + rest == rest;
    } else {
      EntriesBytesHead(entries, rest, counting);
      var e, es := entries[0], entries[1..];
      var more := EntriesBytes(es, counting) + rest;
      assert ReadEntries(more, |es|, width) == Some((es, rest)) by {
        EntriesReadBack(es, rest, width, counting);
      }
      assert ReadEntry(EntryBytes(e, counting) + more, width) == Some((e, more)) by {
        EntryReadBack(e, more, width, counting);
      }
      ReadEntriesStep(EntryBytes(e, counting) + more, width, e, more, es, rest);
      assert entries == [e] + es;
    }
  }

  /** Self-delimiting round trip: whatever follows, the table is read back and the
      reader stops where the writer did. */
  lemma {:induction false} TableReadBack(entries: seq<Entry>, rest: ByteString, width: nat, counting: Counting)
    requires |entries| < U32_LIMIT && Writable(entries, counting)
    requires Readable(entries, width)
    ensures ReadTable(TableBytes(entries, counting) + rest, width) == Some((entries, rest))
  {
    var more := EntriesBytes(entries, counting) + rest;
    assert TableBytes(entries, counting) + rest == U32(|entries|) + more;
    U32ReadBack(|entries|, more);
    EntriesReadBack(entries, rest, width, counting);
  }

  lemma {:induction false} ItemsReadCount(data: ByteString, n: nat, width: nat)
    ensures ReadItems(data, n, width).Some? ==> |ReadItems(data, n, width).value.0| == n
    decreases n
  {
    if n > 0 && ReadItem(data, width).Some? {
      ItemsReadCount(ReadItem(data, width).value.1, n - 1, width);
    }
  }

  lemma {:induction false} EntriesReadBound(data: ByteString, n: nat, width: nat)
    ensures ReadEntries(data, n, width).Some? ==>
      forall e :: e in ReadEntries(data, n, width).value.0 ==> |e.items| < U16_LIMIT
    decreases n
  {
    if n > 0 && ReadEntry(data, width).Some? {
      var rest := ReadStr(data).value.1;
      ItemsReadCount(rest[2..], ReadU16(rest), width);
      EntriesReadBound(ReadEntry(data, width).value.1, n - 1, width);
    }
  }

  /** Exactly when a table is read back: when no module has more than 65535 items.  The
      writer of the dependency graph also accepts some modules beyond that bound, because
      its `as u32` drops the high bits of the count, and those tables are not read back. */
  lemma {:induction false} ReadBackIff(entries: seq<Entry>, rest: ByteString, width: nat, counting: Counting)
    requires |entries| < U32_LIMIT && Writable(entries, counting)
    requires forall i :: 0 <= i < |entries| ==> WellTyped(entries[i], width)
    ensures ReadTable(TableBytes(entries, counting) + rest, width) == Some((entries, rest)) <==>
      forall i :: 0 <= i < |entries| ==> |entries[i].items| < U16_LIMIT
  {
    var data := TableBytes(entries, counting) + rest;
    if forall i :: 0 <= i < |entries| ==> |entries[i].items| < U16_LIMIT {
      TableReadBack(entries, rest, width, counting);
    } else {
      var i :| 0 <= i < |entries| && |entries[i].items| >= U16_LIMIT;
      assert entries[i] in entries;
      EntriesReadBound(data[4..], ReadU32(data), width);
    }
  }

  /** No table is a proper prefix of another, and a table has one meaning. */
  lemma {:induction false} TablePrefixFree(a: seq<Entry>, b: seq<Entry>, x: ByteString, y: ByteString, width: nat,
                                           counting: Counting)
    requires |a| < U32_LIMIT && Writable(a, counting) && |b| < U32_LIMIT && Writable(b, counting)
    requires Readable(a, width)
    requires Readable(b, width)
    requires TableBytes(a, counting) + x == TableBytes(b, counting) + y
    ensures a == b && x == y
  {
    TableReadBack(a, x, width, counting);
    TableReadBack(b, y, width, counting);
  }
}
