/** The source archive: the build script lays out an index and a data section, the
    compiler finds each file again by its path. */
module Archive {
  import opened Sequences
  import opened Bytes

  datatype File = File(path: ByteString, content: ByteString)

  /** One index row: where the content of a path starts, and how long it is. */
  datatype Row = Row(path: ByteString, offset: nat, length: nat)

  function IndexSize(files: seq<File>): nat {
    if files == [] then 0 else 10 + |files[0].path| + IndexSize(files[1..])
  }

  function Data(files: seq<File>): ByteString {
    if files == [] then [] else files[0].content + Data(files[1..])
  }

  /** The rows of files whose data starts at `offset`. */
  function Rows(files: seq<File>, offset: nat): (rows: seq<Row>)
    ensures |rows| == |files|
  {
    if files == [] then []
    else [Row(files[0].path, offset, |files[0].content|)] + Rows(files[1..], offset + |files[0].content|)
  }

  predicate RowFits(r: Row) { r.offset < U32_LIMIT && r.length < U32_LIMIT }

  predicate RowsFit(rows: seq<Row>) { forall i :: 0 <= i < |rows| ==> RowFits(rows[i]) }

  /** A path length is written with `as u16`: only its low sixteen bits survive. */
  function RowBytes(r: Row): ByteString
    requires RowFits(r)
  {
    U16(|r.path| % U16_LIMIT) + (r.path + (U32(r.offset) + U32(r.length)))
  }

  function RowsBytes(rows: seq<Row>): ByteString
    requires RowsFit(rows)
  {
    if rows == [] then [] else RowBytes(rows[0]) + RowsBytes(rows[1..])
  }

  function DataOffset(files: seq<File>): nat { 4 + IndexSize(files) }

  function IndexOf(files: seq<File>): seq<Row> { Rows(files, DataOffset(files)) }

  /** What the u32 checks let through: the number of files, the header and index, every
      content length and every content start. */
  predicate ArchiveFits(files: seq<File>) {
    |files| < U32_LIMIT && DataOffset(files) < U32_LIMIT && RowsFit(IndexOf(files))
  }

  function ArchiveBytes(files: seq<File>): ByteString
    requires ArchiveFits(files)
  {
    U32(|files|) + (RowsBytes(IndexOf(files)) + Data(files))
  }

  // ---------------------------------------------------------------- the writer

  lemma {:induction false} SnocFile(files: seq<File>, f: File)
    ensures IndexSize(files + [f]) == IndexSize(files) + 10 + |f.path|
    ensures Data(files + [f]) == Data(files) + f.content
  {
    if files == [] {
      assert files + [f] == [f];
      assert Data([f]) == f.content + Data([f][1..]);
    } else {
      SnocFile(files[1..], f);
      assert (files + [f])[1..] == files[1..] + [f];
    }
  }

  lemma {:induction false} FirstRow(f: File, files: seq<File>, offset: nat)
    ensures Rows([f] + files, offset) == [Row(f.path, offset, |f.content|)] + Rows(files, offset + |f.content|)
    ensures Data([f] + files) == f.content + Data(files)
  {
    assert ([f] + files)[1..] == files;
  }

  lemma {:induction false} SnocRows(files: seq<File>, f: File, offset: nat)
    ensures Rows(files + [f], offset) == Rows(files, offset) + [Row(f.path, offset + |Data(files)|, |f.content|)]
    decreases |files|
  {
    if files == [] {
      FirstRow(f, [], offset);
      assert files + [f] == [f] + [];
    } else {
      var g, rest := files[0], files[1..];
      SnocRows(rest, f, offset + |g.content|);
      FirstRow(g, rest + [f], offset);
      FirstRow(g, rest, offset);
      HeadTailConcat(files, [f]);
      HeadTail(files);
    }
  }

  lemma {:induction false} SnocRowsBytes(rows: seq<Row>, r: Row)
    requires RowsFit(rows) && RowFits(r)
    ensures RowsFit(rows + [r])
    ensures RowsBytes(rows + [r]) == RowsBytes(rows) + RowBytes(r)
  {
    if rows == [] {
      assert rows + [r] == [r];
      assert RowsBytes([r]) == RowBytes(r) + RowsBytes([r][1..]);
    } else {
      SnocRowsBytes(rows[1..], r);
      HeadTailConcat(rows, [r]);
      Regroup(RowBytes(rows[0]), RowsBytes(rows[1..]), RowBytes(r));
    }
  }

  lemma {:induction false} IndexSizeGrows(files: seq<File>, k: nat)
    requires k <= |files|
    ensures IndexSize(files[..k]) <= IndexSize(files)
  {
    if k > 0 {
      IndexSizeGrows(files[1..], k - 1);
      assert files[..k][1..] == files[1..][..k - 1];
    }
  }

  /** The first loop: the size of the index in checked u32 arithmetic, then the header. */
  method CheckedDataOffset(files: seq<File>) returns (r: Option<nat>)
    ensures r == if DataOffset(files) < U32_LIMIT then Some(DataOffset(files)) else None
  {
    var indexSize: nat := 0;
    for i := 0 to |files|
      invariant indexSize == IndexSize(files[..i]) < U32_LIMIT
    {
      SnocFile(files[..i], files[i]);
      TakeOneMore(files, i);
      IndexSizeGrows(files, i + 1);
      var pathLen := |files[i].path|;
      if pathLen >= U32_LIMIT || 2 + pathLen >= U32_LIMIT || 2 + pathLen + (4 + 4) >= U32_LIMIT { return None; }
      var entrySize := 2 + pathLen + (4 + 4);
      if indexSize + entrySize >= U32_LIMIT { return None; }
      indexSize := indexSize + entrySize;
    }
    assert files[..|files|] == files;
    if 4 + indexSize >= U32_LIMIT { return None; }
    return Some(4 + indexSize);
  }

  lemma {:induction false} PrefixRows(files: seq<File>, offset: nat, k: nat)
    requires k <= |files|
    ensures Rows(files[..k], offset) == Rows(files, offset)[..k]
  {
    if k > 0 {
      PrefixRows(files[1..], offset + |files[0].content|, k - 1);
      assert files[..k][1..] == files[1..][..k - 1];
    }
  }

  /** The row of file `k` lies after the data of the files before it. */
  lemma {:induction false} RowAt(files: seq<File>, offset: nat, k: nat)
    requires k < |files|
    ensures Rows(files, offset)[k] == Row(files[k].path, offset + |Data(files[..k])|, |files[k].content|)
    ensures Rows(files[..k + 1], offset) == Rows(files[..k], offset) + [Rows(files, offset)[k]]
    ensures Data(files[..k + 1]) == Data(files[..k]) + files[k].content
  {
    SnocRows(files[..k], files[k], offset);
    SnocFile(files[..k], files[k]);
    assert files[..k + 1] == files[..k] + [files[k]];
    PrefixRows(files, offset, k + 1);
    assert Rows(files, offset)[k] == Rows(files, offset)[..k + 1][k];
  }

  method WriteRow(index: ByteString, path: ByteString, offset: nat, length: nat) returns (r: ByteString)
    requires RowFits(Row(path, offset, length))
    ensures r == index + RowBytes(Row(path, offset, length))
  {
    r := index + U16(|path| % U16_LIMIT);
    r := r + path;
    r := r + U32(offset);
    r := r + U32(length);
  }

  ghost predicate Written(files: seq<File>, dataOffset: nat, i: nat, index: ByteString, data: ByteString) {
    && i <= |files| && RowsFit(Rows(files[..i], dataOffset))
    && index == RowsBytes(Rows(files[..i], dataOffset)) && data == Data(files[..i])
  }

  lemma {:induction false} WrittenNext(files: seq<File>, dataOffset: nat, i: nat, index: ByteString, data: ByteString,
                                       row: Row, index': ByteString)
    requires i < |files| && Written(files, dataOffset, i, index, data)
    requires row == Row(files[i].path, dataOffset + |data|, |files[i].content|) && RowFits(row)
    requires index' == index + RowBytes(row)
    ensures Written(files, dataOffset, i + 1, index', data + files[i].content)
  {
    hide RowsBytes, Data, Rows, RowBytes;
    RowAt(files, dataOffset, i);
    SnocRowsBytes(Rows(files[..i], dataOffset), row);
  }

  lemma {:induction false} WrittenAll(files: seq<File>, dataOffset: nat, index: ByteString, data: ByteString)
    requires Written(files, dataOffset, |files|, index, data)
    ensures RowsFit(Rows(files, dataOffset)) && index == RowsBytes(Rows(files, dataOffset)) && data == Data(files)
  {
    assert files[..|files|] == files;
  }

  lemma {:induction false} DoesNotFit(files: seq<File>, dataOffset: nat, i: nat)
    requires i < |files| && !RowFits(Row(files[i].path, dataOffset + |Data(files[..i])|, |files[i].content|))
    ensures !RowsFit(Rows(files, dataOffset))
  {
    RowAt(files, dataOffset, i);
  }

  /** The second loop: the index and data sections. */
  method Sections(files: seq<File>, dataOffset: nat) returns (ok: bool, index: ByteString, data: ByteString)
    requires dataOffset < U32_LIMIT
    ensures ok <==> RowsFit(Rows(files, dataOffset))
    ensures ok ==> index == RowsBytes(Rows(files, dataOffset)) && data == Data(files)
  {
    index, data := [], [];
    for i := 0 to |files|
      invariant Written(files, dataOffset, i, index, data)
    {
      var path, content := files[i].path, files[i].content;
      if |data| >= U32_LIMIT || dataOffset + |data| >= U32_LIMIT || |content| >= U32_LIMIT {
        DoesNotFit(files, dataOffset, i);
        return false, [], [];
      }
      var longer := WriteRow(index, path, dataOffset + |data|, |content|);
      WrittenNext(files, dataOffset, i, index, data, Row(path, dataOffset + |data|, |content|), longer);
      index := longer;
      data := data + content;
    }
    WrittenAll(files, dataOffset, index, data);
    ok := true;
  }

  /** `build_archive`: it panics exactly when the archive does not fit. */
  method BuildArchive(files: seq<File>) returns (r: Option<ByteString>)
    ensures r == if ArchiveFits(files) then Some(ArchiveBytes(files)) else None
  {
    if |files| >= U32_LIMIT { return None; }
    var dataOffset := CheckedDataOffset(files);
    if dataOffset.None? { return None; }
    var ok, index, data := Sections(files, dataOffset.value);
    if !ok { return None; }
    assert U32(|files|) + index + data == U32(|files|) + (index + data);
    return Some(U32(|files|) + index + data);
  }

  // ---------------------------------------------------------------- the data section is tiled

  lemma {:induction false} RowsBytesLength(files: seq<File>, offset: nat)
    requires RowsFit(Rows(files, offset))
    ensures |RowsBytes(Rows(files, offset))| == IndexSize(files)
  {
    if files != [] {
      var rows := Rows(files, offset);
      assert rows[1..] == Rows(files[1..], offset + |files[0].content|);
      RowsBytesLength(files[1..], offset + |files[0].content|);
      assert |RowBytes(rows[0])| == 10 + |files[0].path|;
    }
  }

  lemma {:induction false} DataSplit(files: seq<File>, k: nat)
    requires k <= |files|
    ensures Data(files) == Data(files[..k]) + Data(files[k..])
  {
    if k > 0 {
      DataSplit(files[1..], k - 1);
      assert files[..k][1..] == files[1..][..k - 1];
      assert files[1..][k - 1..] == files[k..];
    } else {
      assert files[0..] == files && files[..0] == [];
    }
  }

  /** The content ranges tile the data section: the first starts where the index ends, each
      next one where the previous one ends, the last ends with the archive; and each range
      holds its own file. */
  lemma {:induction false} RangesTile(files: seq<File>)
    requires ArchiveFits(files)
    ensures var rows, bytes := IndexOf(files), ArchiveBytes(files);
      && (files != [] ==> rows[0].offset == DataOffset(files))
      && (forall i :: 0 < i < |rows| ==> rows[i].offset == rows[i - 1].offset + rows[i - 1].length)
      && (files != [] ==> rows[|rows| - 1].offset + rows[|rows| - 1].length == |bytes|)
    ensures forall i :: 0 <= i < |files| ==> HoldsFile(ArchiveBytes(files), IndexOf(files)[i], files[i])
  {
    var rows, bytes := IndexOf(files), ArchiveBytes(files);
    var n := |files|;
    RowsBytesLength(files, DataOffset(files));
    forall i | 0 <= i < n
      ensures rows[i].offset == DataOffset(files) + |Data(files[..i])|
      ensures rows[i].offset + rows[i].length == DataOffset(files) + |Data(files[..i + 1])|
      ensures HoldsFile(bytes, rows[i], files[i])
    {
      RowAt(files, DataOffset(files), i);
      RangeHolds(files, i);
    }
    if n > 0 {
      assert files[..0] == [];
      assert files[..n - 1 + 1] == files;
    }
  }

  predicate HoldsFile(bytes: ByteString, r: Row, f: File) {
    && r.path == f.path && r.length == |f.content|
    && r.offset + r.length <= |bytes| && bytes[r.offset..r.offset + r.length] == f.content
  }

  lemma {:induction false} RangeHolds(files: seq<File>, k: nat)
    requires ArchiveFits(files) && k < |files|
    ensures HoldsFile(ArchiveBytes(files), IndexOf(files)[k], files[k])
  {
    RowAt(files, DataOffset(files), k);
    RowsBytesLength(files, DataOffset(files));
    DataSplit(files, k);
    var head := U32(|files|) + RowsBytes(IndexOf(files)) + Data(files[..k]);
    var tail := Data(files[k..][1..]);
    assert Data(files[k..]) == files[k].content + tail;
    hide Data, RowsBytes, U32;
    assert ArchiveBytes(files) == head + files[k].content + tail;
    assert |head| == IndexOf(files)[k].offset;
  }

  // ---------------------------------------------------------------- the reader

  function ReadRow(data: ByteString): Option<(Row, ByteString)> {
    if |data| < 2 then None
    else
      var len, rest := ReadU16(data), data[2..];
      if |rest| < len || |rest[len..]| < 8 then None
      else Some((Row(rest[..len], ReadU32(rest[len..]), ReadU32(rest[len..][4..])), rest[len..][8..]))
  }

  /** Up to `n` rows; the reader stops without complaint when the bytes run out. */
  function ReadRows(data: ByteString, n: nat): seq<Row>
    decreases n
  {
    if n == 0 then []
    else match ReadRow(data)
      case None => []
      case Some((row, rest)) => [row] + ReadRows(rest, n - 1)
  }

  type Index = map<ByteString, (nat, nat)>

  /** `String::from_utf8_lossy`, of which only one thing matters: it keeps valid UTF-8. */
  type Lossy = ByteString -> ByteString

  function Put(index: Index, row: Row, lossy: Lossy): Index {
    index[lossy(row.path) := (row.offset, row.length)]
  }

  /** Later rows of a path replace earlier ones. */
  function InsertRows(index: Index, rows: seq<Row>, lossy: Lossy): Index
    decreases |rows|
  {
    if rows == [] then index
    else InsertRows(Put(index, rows[0], lossy), rows[1..], lossy)
  }

  function OpenIndex(data: ByteString, lossy: Lossy): Option<Index> {
    if |data| < 4 then None else Some(InsertRows(map[], ReadRows(data[4..], ReadU32(data)), lossy))
  }

  ghost function RestOfIndex(data: ByteString, n: nat, index: Index, lossy: Lossy): Index {
    InsertRows(index, ReadRows(data, n), lossy)
  }

  lemma {:induction false} RestOfIndexStep(data: ByteString, n: nat, index: Index, lossy: Lossy)
    requires n > 0
    ensures RestOfIndex(data, n, index, lossy) ==
      match ReadRow(data)
      case None => index
      case Some((row, rest)) => RestOfIndex(rest, n - 1, Put(index, row, lossy), lossy)
  {
    if ReadRow(data).Some? {
      var (row, rest) := ReadRow(data).value;
      assert ([row] + ReadRows(rest, n - 1))[1..] == ReadRows(rest, n - 1);
    }
  }

  method ReadRowAt(data: ByteString, start: nat) returns (r: Option<Row>, next: nat)
    requires start <= |data|
    ensures next <= |data|
    ensures match ReadRow(data[start..])
      case None => r == None
      case Some((row, rest)) => r == Some(row) && data[next..] == rest
  {
    next := start;
    if next + 2 > |data| { return None, next; }
    var pathLen := ReadU16(data[next..next + 2]);
    assert pathLen == ReadU16(data[start..]);
    assert data[start..][2..] == data[start + 2..];
    next := next + 2;
    if next + pathLen > |data| { return None, next; }
    var path := data[next..next + pathLen];
    assert data[start + 2..][..pathLen] == path;
    assert data[start + 2..][pathLen..] == data[start + 2 + pathLen..];
    next := next + pathLen;
    if next + 8 > |data| { return None, next; }
    ReadU32Here(data, next);
    ReadU32Here(data, next + 4);
    assert data[next..][4..] == data[next + 4..] && data[next..][8..] == data[next + 8..];
    r := Some(Row(path, ReadU32(data[next..next + 4]), ReadU32(data[next + 4..next + 8])));
    next := next + 8;
  }

  lemma {:induction false} ReadU32Here(data: ByteString, at: nat)
    requires at + 4 <= |data|
    ensures ReadU32(data[at..at + 4]) == ReadU32(data[at..])
  {
    assert data[at..at + 4][2..] == data[at + 2..at + 4];
    assert data[at..][2..] == data[at + 2..];
  }

  /** One turn of the index loop. */
  method TakeRow(data: ByteString, cursor: nat, ghost n: nat, files: Index, lossy: Lossy)
    returns (stop: bool, next: nat, more: Index)
    requires cursor <= |data| && n > 0
    ensures next <= |data|
    ensures RestOfIndex(data[cursor..], n, files, lossy) ==
      if stop then more else RestOfIndex(data[next..], n - 1, more, lossy)
  {
    var row;
    row, next := ReadRowAt(data, cursor);
    RestOfIndexStep(data[cursor..], n, files, lossy);
    stop := row.None?;
    more := if stop then files else Put(files, row.value, lossy);
  }

  /** `StdlibArchive::from_compressed`, after decompression. */
  method OpenArchive(data: ByteString, lossy: Lossy) returns (r: Option<Index>)
    ensures r == OpenIndex(data, lossy)
  {
    if |data| < 4 { return None; }
    var fileCount := ReadU32(data[0..4]);
    assert fileCount == ReadU32(data) by {
      ReadU32Here(data, 0);
      assert data[0..] == data;
    }
    var files: Index := map[];
    var cursor: nat := 4;
    ghost var target := RestOfIndex(data[4..], fileCount, map[], lossy);
    for i := 0 to fileCount
      invariant cursor <= |data|
      invariant RestOfIndex(data[cursor..], fileCount - i, files, lossy) == target
    {
      var stop;
      stop, cursor, files := TakeRow(data, cursor, fileCount - i, files, lossy);
      if stop { return Some(files); }
    }
    return Some(files);
  }

  /** `get_file`. */
  function GetFile(data: ByteString, index: Index, path: ByteString): Option<ByteString> {
    if path !in index then None
    else
      var (offset, length) := index[path];
      if offset + length > |data| || !ValidUtf8(data[offset..offset + length]) then None
      else Some(data[offset..offset + length])
  }

  // ---------------------------------------------------------------- round trip

  lemma {:induction false} RowReadBack(r: Row, rest: ByteString)
    requires RowFits(r) && |r.path| < U16_LIMIT
    ensures ReadRow(RowBytes(r) + rest) == Some((r, rest))
  {
    var tail := U32(r.offset) + (U32(r.length) + rest);
    assert RowBytes(r) + rest == U16(|r.path|) + (r.path + tail);
    U16ReadBack(|r.path|, r.path + tail);
    assert (r.path + tail)[..|r.path|] == r.path && (r.path + tail)[|r.path|..] == tail;
    U32ReadBack(r.offset, U32(r.length) + rest);
    U32ReadBack(r.length, rest);
    assert tail[8..] == rest;
  }

  ghost predicate ShortPaths(rows: seq<Row>) {
    forall i :: 0 <= i < |rows| ==> |rows[i].path| < U16_LIMIT
  }

  lemma {:induction false} RowsReadBack(rows: seq<Row>, rest: ByteString)
    requires RowsFit(rows) && ShortPaths(rows)
    ensures ReadRows(RowsBytes(rows) + rest, |rows|) == rows
  {
    if rows != [] {
      RowsReadBack(rows[1..], rest);
      RowReadBack(rows[0], RowsBytes(rows[1..]) + rest);
      FirstRowReadBack(rows, rest);
    }
  }

  lemma {:induction false} FirstRowReadBack(rows: seq<Row>, rest: ByteString)
    requires rows != [] && RowsFit(rows)
    requires ReadRow(RowBytes(rows[0]) + (RowsBytes(rows[1..]) + rest)) == Some((rows[0], RowsBytes(rows[1..]) + rest))
    requires ReadRows(RowsBytes(rows[1..]) + rest, |rows| - 1) == rows[1..]
    ensures ReadRows(RowsBytes(rows) + rest, |rows|) == rows
  {
    Regroup(RowBytes(rows[0]), RowsBytes(rows[1..]), rest);
    HeadTail(rows);
  }

  lemma {:induction false} ReadPathIsShort(data: ByteString)
    ensures ReadRow(data).Some? ==> |ReadRow(data).value.0.path| < U16_LIMIT
  {
  }

  lemma {:induction false} ReadPathsAreShort(data: ByteString, n: nat)
    ensures forall row :: row in ReadRows(data, n) ==> |row.path| < U16_LIMIT
    decreases n
  {
    if n > 0 && ReadRow(data).Some? {
      ReadPathIsShort(data);
      ReadPathsAreShort(ReadRow(data).value.1, n - 1);
    }
  }

  /** The rows read from the archive are the rows that were written exactly when every path
      has at most 65535 bytes, which the writer does not check. */
  lemma {:induction false} IndexReadBackIff(files: seq<File>)
    requires ArchiveFits(files)
    ensures ReadRows(ArchiveBytes(files)[4..], ReadU32(ArchiveBytes(files))) == IndexOf(files) <==>
      forall i :: 0 <= i < |files| ==> |files[i].path| < U16_LIMIT
  {
    var rows := IndexOf(files);
    var more := RowsBytes(rows) + Data(files);
    U32ReadBack(|files|, more);
    assert ArchiveBytes(files)[4..] == more;
    forall i | 0 <= i < |files| ensures rows[i].path == files[i].path {
      RowAt(files, DataOffset(files), i);
    }
    if forall i :: 0 <= i < |files| ==> |files[i].path| < U16_LIMIT {
      RowsReadBack(rows, Data(files));
    } else {
      ReadPathsAreShort(more, |files|);
      var i :| 0 <= i < |files| && |files[i].path| >= U16_LIMIT;
      assert rows[i] in rows;
    }
  }

  /** The rows carry distinct paths, kept as they are by the lossy conversion. */
  ghost predicate DistinctRows(rows: seq<Row>, lossy: Lossy) {
    && (forall i :: 0 <= i < |rows| ==> lossy(rows[i].path) == rows[i].path)
    && (forall i, j :: 0 <= i < j < |rows| ==> rows[i].path != rows[j].path)
  }

  lemma {:induction false} InsertKeeps(index: Index, rows: seq<Row>, path: ByteString, lossy: Lossy)
    requires DistinctRows(rows, lossy) && forall i :: 0 <= i < |rows| ==> rows[i].path != path
    ensures path in InsertRows(index, rows, lossy) <==> path in index
    ensures path in index ==> InsertRows(index, rows, lossy)[path] == index[path]
    decreases |rows|
  {
    if rows != [] {
      InsertKeeps(Put(index, rows[0], lossy), rows[1..], path, lossy);
    }
  }

  lemma {:induction false} InsertFinds(index: Index, rows: seq<Row>, i: nat, lossy: Lossy)
    requires DistinctRows(rows, lossy) && i < |rows|
    ensures rows[i].path in InsertRows(index, rows, lossy)
    ensures InsertRows(index, rows, lossy)[rows[i].path] == (rows[i].offset, rows[i].length)
    decreases |rows|
  {
    var index' := Put(index, rows[0], lossy);
    if i == 0 {
      InsertKeeps(index', rows[1..], rows[0].path, lossy);
    } else {
      InsertFinds(index', rows[1..], i - 1, lossy);
    }
  }

  /** What the archive gives back: every path short enough, kept by the conversion, once. */
  ghost predicate Findable(files: seq<File>, lossy: Lossy) {
    && (forall i :: 0 <= i < |files| ==> |files[i].path| < U16_LIMIT && lossy(files[i].path) == files[i].path)
    && (forall i, j :: 0 <= i < j < |files| ==> files[i].path != files[j].path)
  }

  lemma {:induction false} IndexIsDistinct(files: seq<File>, lossy: Lossy)
    requires ArchiveFits(files) && Findable(files, lossy)
    ensures OpenIndex(ArchiveBytes(files), lossy) == Some(InsertRows(map[], IndexOf(files), lossy))
    ensures DistinctRows(IndexOf(files), lossy)
    ensures forall i :: 0 <= i < |files| ==> IndexOf(files)[i].path == files[i].path
  {
    IndexReadBackIff(files);
    forall i | 0 <= i < |files| ensures IndexOf(files)[i].path == files[i].path {
      RowAt(files, DataOffset(files), i);
    }
  }

  /** Every file is found under its path with its exact content, when that is UTF-8, the
      only content the lookup returns. */
  lemma {:induction false} ArchiveFindsFile(files: seq<File>, i: nat, lossy: Lossy)
    requires ArchiveFits(files) && Findable(files, lossy) && i < |files|
    ensures var bytes := ArchiveBytes(files);
      && OpenIndex(bytes, lossy).Some?
      && GetFile(bytes, OpenIndex(bytes, lossy).value, files[i].path) ==
         if ValidUtf8(files[i].content) then Some(files[i].content) else None
  {
    var row := IndexOf(files)[i];
    var index := InsertRows(map[], IndexOf(files), lossy);
    assert OpenIndex(ArchiveBytes(files), lossy) == Some(index) && row.path == files[i].path by {
      IndexIsDistinct(files, lossy);
    }
    assert row.path in index && index[row.path] == (row.offset, row.length) by {
      IndexIsDistinct(files, lossy);
      InsertFinds(map[], IndexOf(files), i, lossy);
    }
    RangeHolds(files, i);
    RangeIsFound(ArchiveBytes(files), index, row, files[i]);
  }

  lemma {:induction false} RangeIsFound(bytes: ByteString, index: Index, row: Row, f: File)
    requires HoldsFile(bytes, row, f) && f.path in index && index[f.path] == (row.offset, row.length)
    ensures GetFile(bytes, index, f.path) == if ValidUtf8(f.content) then Some(f.content) else None
  {
  }

  /** And no other path is found. */
  lemma {:induction false} ArchiveFindsNothingElse(files: seq<File>, path: ByteString, lossy: Lossy)
    requires ArchiveFits(files) && Findable(files, lossy)
    requires forall i :: 0 <= i < |files| ==> files[i].path != path
    ensures var bytes := ArchiveBytes(files);
      OpenIndex(bytes, lossy).Some? && GetFile(bytes, OpenIndex(bytes, lossy).value, path) == None
  {
    IndexIsDistinct(files, lossy);
    InsertKeeps(map[], IndexOf(files), path, lossy);
  }
}
