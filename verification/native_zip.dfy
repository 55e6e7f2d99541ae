/**
 * The iOS export archive: not a ZIP file but a length-prefixed container, a 32-bit file
 * count and then, per file, a 32-bit path length, the UTF-8 path, a 32-bit data length
 * and the data. All integers are little-endian, as the arm64 targets lay them out.
 */
module NativeZip {
  import opened Wrappers
  import opened Text

  type byte = x: int | 0 <= x < 256

  const WORD: int := 0x1_0000_0000

  // ---------------------------------------------------------------------------
  // 32-bit integers
  // ---------------------------------------------------------------------------

  /** The four bytes of an `Int` in memory: the low 32 bits, least significant first. */
  function LE32(n: int): (r: seq<byte>)
    ensures |r| == 4
  {
    var m := n % WORD;
    var q1 := m / 256;
    var q2 := q1 / 256;
    var q3 := q2 / 256;
    [m % 256, q1 % 256, q2 % 256, q3 % 256]
  }

  /** Four bytes as an unsigned number, least significant first. */
  function Unsigned(b: seq<byte>): (u: int)
    requires |b| == 4
    ensures 0 <= u < WORD
  {
    b[0] as int + 256 * (b[1] as int + 256 * (b[2] as int + 256 * b[3] as int))
  }

  /** Four bytes read back into an `Int`: the top bit is the sign. */
  function ReadLE32(b: seq<byte>): (n: int)
    requires |b| == 4
    ensures INT_MIN <= n <= INT_MAX
  {
    var u := Unsigned(b);
    if u > INT_MAX then u - WORD else u
  }

  /** The bytes written hold the number modulo 2^32. */
  lemma LE32Unsigned(n: int)
    ensures Unsigned(LE32(n)) == n % WORD
  {
    var m := n % WORD;
    var q1 := m / 256;
    var q2 := q1 / 256;
    var q3 := q2 / 256;
    assert m == m % 256 + 256 * q1;
    assert q1 == q1 % 256 + 256 * q2;
    assert q2 == q2 % 256 + 256 * q3;
  }

  /**
   * Reading back what was written gives the number modulo 2^32 (the `toInt()` of a
   * longer length), and the number itself when it fits in an `Int`.
   */
  lemma LE32RoundTrip(n: int)
    ensures (ReadLE32(LE32(n)) - n) % WORD == 0
    ensures INT_MIN <= n <= INT_MAX ==> ReadLE32(LE32(n)) == n
  {
    LE32Unsigned(n);
  }

  // ---------------------------------------------------------------------------
  // Collecting the files
  // ---------------------------------------------------------------------------

  /** One file archived: its path relative to the source directory and its contents. */
  datatype Entry = Entry(path: string, data: seq<byte>)

  /**
   * One URL produced by the directory enumeration: its path, the directory flag if the
   * lookup succeeded, and its contents if they could be read.
   */
  datatype Item = Item(path: Option<string>, isDirectory: Option<bool>, contents: Option<seq<byte>>)

  /**
   * What one enumerated item contributes: nothing for a directory (an item whose flag is
   * unknown counts as a file), nothing when its path or contents are unavailable, and
   * otherwise the entry at its path relative to `source`.
   */
  function EntryOf(item: Item, source: string): (r: seq<Entry>)
    ensures r == [] <==> item.isDirectory == Some(true) || item.path.None? || item.contents.None?
    ensures r != [] ==>
      r == [Entry(RemovePrefix(item.path.value, source + "/"), item.contents.value)]
  {
    if item.isDirectory == Some(true) || item.path.None? || item.contents.None? then []
    else [Entry(RemovePrefix(item.path.value, source + "/"), item.contents.value)]
  }

  /** The entries of the enumerated items, in enumeration order. */
  function Collected(items: seq<Item>, source: string): seq<Entry> {
    if items == [] then []
    else Collected(items[..|items| - 1], source) + EntryOf(items[|items| - 1], source)
  }

  /** Collection works item by item: the items of a split enumeration collect separately. */
  lemma {:induction false} CollectedConcat(a: seq<Item>, b: seq<Item>, source: string)
    ensures Collected(a + b, source) == Collected(a, source) + Collected(b, source)
  {
    if b == [] {
      assert a + b == a;
    } else {
      var n := |b| - 1;
      assert (a + b)[..|a + b| - 1] == a + b[..n];
      CollectedConcat(a, b[..n], source);
    }
  }

  /** At most one entry per item, and none for directories. */
  lemma {:induction false} CollectedLength(items: seq<Item>, source: string)
    ensures |Collected(items, source)| <= |items|
    ensures (forall i :: 0 <= i < |items| ==> items[i].isDirectory == Some(true))
      ==> Collected(items, source) == []
  {
    if items != [] {
      CollectedLength(items[..|items| - 1], source);
    }
  }

  /** The `while (true)` enumeration loop, appending one entry per readable file. */
  method CollectFiles(items: seq<Item>, source: string) returns (files: seq<Entry>)
    ensures files == Collected(items, source)
  {
    files := [];
    var i := 0;
    while i < |items|
      invariant 0 <= i <= |items|
      invariant files == Collected(items[..i], source)
    {
      assert items[..i + 1][..i] == items[..i];
      files := files + EntryOf(items[i], source);
      i := i + 1;
    }
    assert items[..|items|] == items;
  }

  // ---------------------------------------------------------------------------
  // Writing
  // ---------------------------------------------------------------------------

  /**
   * The UTF-8 bytes of a path, or `None` when `dataUsingEncoding` returns null (a
   * string holding an unpaired surrogate has no UTF-8 form).
   */
  type Encoder = string -> Option<seq<byte>>

  /** Every file's path has a UTF-8 form. */
  predicate Encodable(files: seq<Entry>, utf8: Encoder) {
    forall i :: 0 <= i < |files| ==> utf8(files[i].path).Some?
  }

  /** A length-prefixed field: the 32-bit length, then the bytes. */
  function Field(x: seq<byte>): seq<byte> {
    LE32(|x|) + x
  }

  /**
   * One record: the path's UTF-8 bytes as a field, then the data as a field. A path
   * without a UTF-8 form contributes nothing: the `!!` throws before anything of that
   * record is written.
   */
  function Record(e: Entry, utf8: Encoder): seq<byte> {
    match utf8(e.path)
    case None => []
    case Some(path) => Field(path) + Field(e.data)
  }

  /** The records of the files, in order. */
  function Records(files: seq<Entry>, utf8: Encoder): seq<byte> {
    if files == [] then []
    else Records(files[..|files| - 1], utf8) + Record(files[|files| - 1], utf8)
  }

  /** The archive: the file count, then the records. */
  function Archive(files: seq<Entry>, utf8: Encoder): seq<byte> {
    LE32(|files|) + Records(files, utf8)
  }

  lemma {:induction false} RecordsFront(e: Entry, files: seq<Entry>, utf8: Encoder)
    ensures Records([e] + files, utf8) == Record(e, utf8) + Records(files, utf8)
  {
    if files != [] {
      var n := |files| - 1;
      assert ([e] + files)[..|files|] == [e] + files[..n];
      RecordsFront(e, files[..n], utf8);
    }
  }

  /** The index of the first file whose path has no UTF-8 form, or the number of files. */
  function FirstUnencodable(files: seq<Entry>, utf8: Encoder): (k: nat)
    ensures k <= |files|
    ensures forall i :: 0 <= i < k ==> utf8(files[i].path).Some?
    ensures k < |files| ==> utf8(files[k].path).None?
    ensures k == |files| <==> Encodable(files, utf8)
  {
    UnencodableFrom(files, utf8, 0)
  }

  /** The index of the first file at or after `j` whose path has no UTF-8 form, or the number of files. */
  function UnencodableFrom(files: seq<Entry>, utf8: Encoder, j: nat): (k: nat)
    requires j <= |files|
    ensures j <= k <= |files|
    ensures forall i :: j <= i < k ==> utf8(files[i].path).Some?
    ensures k < |files| ==> utf8(files[k].path).None?
    decreases |files| - j
  {
    if j == |files| || utf8(files[j].path).None? then j
    else UnencodableFrom(files, utf8, j + 1)
  }

  /** The bytes `WriteArchive` has written before file `k`: the count, then the records of `files[..k]`. */
  function Partial(files: seq<Entry>, utf8: Encoder, k: nat): seq<byte>
    requires k <= |files|
  {
    LE32(|files|) + Records(files[..k], utf8)
  }

  /**
   * The writes to the output stream: the count, then each file's record in list order.
   * At the first path without a UTF-8 form the `!!` throws: what was written stays, the
   * remaining files are not written, and the result is false.
   */
  method WriteArchive(files: seq<Entry>, utf8: Encoder) returns (out: seq<byte>, ok: bool)
    ensures ok <==> Encodable(files, utf8)
    ensures out == Partial(files, utf8, FirstUnencodable(files, utf8))
    ensures ok ==> out == Archive(files, utf8)
  {
    var header := LE32(|files|);
    out := header;
    var i := 0;
    while i < |files|
      invariant i <= FirstUnencodable(files, utf8)
      invariant out == header + RecordsTo(files, utf8, i)
    {
      var path := utf8(files[i].path);
      if path.None? {
        RecordsToPrefix(files, utf8, i);
        return out, false;
      }
      AppendAssoc(header, RecordsTo(files, utf8, i), Record(files[i], utf8));
      out := WriteRecord(out, path.value, files[i].data);
      i := i + 1;
    }
    RecordsToPrefix(files, utf8, i);
    assert files[..i] == files;
    ok := true;
  }

  lemma AppendAssoc(a: seq<byte>, b: seq<byte>, c: seq<byte>)
    ensures (a + b) + c == a + (b + c)
  {
  }

  /** The records of the first `k` files, counted from the front. */
  function RecordsTo(files: seq<Entry>, utf8: Encoder, k: nat): seq<byte>
    requires k <= |files|
  {
    if k == 0 then [] else RecordsTo(files, utf8, k - 1) + Record(files[k - 1], utf8)
  }

  lemma {:induction false} RecordsToPrefix(files: seq<Entry>, utf8: Encoder, k: nat)
    requires k <= |files|
    ensures RecordsTo(files, utf8, k) == Records(files[..k], utf8)
  {
    if k > 0 {
      RecordsToPrefix(files, utf8, k - 1);
      assert files[..k][..k - 1] == files[..k - 1];
    }
  }

  /** The four writes of one file: path length, path, data length, data. */
  method WriteRecord(out: seq<byte>, path: seq<byte>, data: seq<byte>) returns (next: seq<byte>)
    ensures next == out + (Field(path) + Field(data))
  {
    next := out + LE32(|path|);
    next := next + path;
    next := next + LE32(|data|);
    next := next + data;
  }

  /**
   * `createZipFromDirectory`: false when the source does not exist, when the output
   * stream cannot be opened, or when a path has no UTF-8 form; in the last case the
   * output file keeps the records written before that path. Otherwise true, with the
   * archive of the collected files written.
   */
  method CreateArchive(
    sourceExists: bool, source: string, items: seq<Item>, outputOpens: bool, utf8: Encoder)
    returns (ok: bool, written: Option<seq<byte>>)
    ensures ok <==> sourceExists && outputOpens && Encodable(Collected(items, source), utf8)
    ensures written.Some? <==> sourceExists && outputOpens
    ensures written.Some? ==>
      written.value == Partial(Collected(items, source), utf8, FirstUnencodable(Collected(items, source), utf8))
    ensures ok ==> written == Some(Archive(Collected(items, source), utf8))
  {
    if !sourceExists {
      return false, None;
    }
    var files := CollectFiles(items, source);
    if !outputOpens {
      return false, None;
    }
    var out;
    out, ok := WriteArchive(files, utf8);
    written := Some(out);
  }

  // ---------------------------------------------------------------------------
  // Reading
  // ---------------------------------------------------------------------------

  /**
   * A 4-byte read into an `Int`, with what remains of the stream; `None` when fewer
   * than four bytes remain, where the source would leave part of the integer unread.
   */
  function ReadInt(s: seq<byte>): (r: Option<(int, seq<byte>)>)
    ensures r.Some? <==> |s| >= 4
    ensures r.Some? ==> r.value == (ReadLE32(s[..4]), s[4..])
  {
    if |s| >= 4 then Some((ReadLE32(s[..4]), s[4..])) else None
  }

  /** `n` zero bytes, as a fresh array holds them. */
  function ZeroBytes(n: nat): (r: seq<byte>)
    ensures |r| == n
  {
    if n == 0 then [] else [0] + ZeroBytes(n - 1)
  }

  /**
   * A read of `n` bytes into a fresh `ByteArray(n)`: what the stream still holds, up to
   * `n` bytes, followed by the array's zeros when the stream ends first.
   */
  function ReadBytes(s: seq<byte>, n: nat): (r: (seq<byte>, seq<byte>))
    ensures |r.0| == n
    ensures n <= |s| ==> r == (s[..n], s[n..])
    ensures n > |s| ==> r == (s + ZeroBytes(n - |s|), [])
  {
    if n <= |s| then (s[..n], s[n..]) else (s + ZeroBytes(n - |s|), [])
  }

  /**
   * A length-prefixed field, as intended: `None` for a truncated length or a negative
   * one (the array allocation throws), and an empty field for a zero length.
   */
  function ReadField(s: seq<byte>): (r: Option<(seq<byte>, seq<byte>)>)
    ensures r.Some? ==> |r.value.1| < |s|
  {
    match ReadInt(s)
    case None => None
    case Some((len, rest)) => if len < 0 then None else Some(ReadBytes(rest, len))
  }

  /**
   * A length-prefixed field as the code reads it: the read pins a fresh `ByteArray(len)`
   * and takes `addressOf(0)`, which throws for an empty array, so a zero length fails
   * like a negative one and the reading agrees with `ReadField` otherwise.
   */
  function ReadFieldAsWritten(s: seq<byte>): (r: Option<(seq<byte>, seq<byte>)>)
    ensures r.Some? <==> ReadField(s).Some? && ReadField(s).value.0 != []
    ensures r.Some? ==> r == ReadField(s)
  {
    match ReadInt(s)
    case None => None
    case Some((len, rest)) => if len <= 0 then None else Some(ReadBytes(rest, len))
  }

  /**
   * One record, with what remains of the stream. `None` when either field fails or the
   * path is not valid UTF-8 (the cast of the null string throws).
   */
  function ReadRecord(s: seq<byte>, decode: seq<byte> -> Option<string>): (r: Option<(Entry, seq<byte>)>)
    ensures r.Some? ==> |r.value.1| < |s|
  {
    match ReadField(s)
    case None => None
    case Some((pathBytes, s1)) =>
      match decode(pathBytes)
      case None => None
      case Some(path) =>
        match ReadField(s1)
        case None => None
        case Some((data, s2)) => Some((Entry(path, data), s2))
  }

  /**
   * One record as the code reads it: the same steps over `ReadFieldAsWritten`. Whatever
   * it reads, the intended reader reads too, and the file it reads is never empty.
   */
  function ReadRecordAsWritten(s: seq<byte>, decode: seq<byte> -> Option<string>): (r: Option<(Entry, seq<byte>)>)
    ensures r.Some? ==> r == ReadRecord(s, decode) && r.value.0.data != []
  {
    match ReadFieldAsWritten(s)
    case None => None
    case Some((pathBytes, s1)) =>
      match decode(pathBytes)
      case None => None
      case Some(path) =>
        match ReadFieldAsWritten(s1)
        case None => None
        case Some((data, s2)) => Some((Entry(path, data), s2))
  }

  /** A record reader: the record at the head of the stream and what remains, or `None`. */
  type Reader = seq<byte> -> Option<(Entry, seq<byte>)>

  /** The intended reader of this format, for paths decoded with `decode`. */
  function RecordReader(decode: seq<byte> -> Option<string>): Reader {
    s => ReadRecord(s, decode)
  }

  /** The reader of this format as the code reads it. */
  function RecordReaderAsWritten(decode: seq<byte> -> Option<string>): Reader {
    s => ReadRecordAsWritten(s, decode)
  }

  /**
   * Up to `k` records read from the stream: the files written before a failure, and
   * whether all `k` were read.
   */
  function DecodeFrom(s: seq<byte>, k: nat, read: Reader): (r: (seq<Entry>, bool))
    ensures |r.0| <= k
    ensures r.1 ==> |r.0| == k
    decreases k
  {
    if k == 0 then ([], true)
    else
      var record := read(s);
      if record.None? then ([], false)
      else
        var rest := DecodeFrom(record.value.1, k - 1, read);
        ([record.value.0] + rest.0, rest.1)
  }

  /** The loop's invariant carried over one record read. */
  lemma DecodeAdvance(
    s: seq<byte>, k: nat, read: Reader, written: seq<Entry>,
    full: (seq<Entry>, bool), e: Entry, next: seq<byte>)
    requires k > 0 && read(s) == Some((e, next))
    requires full.0 == written + DecodeFrom(s, k, read).0 && full.1 == DecodeFrom(s, k, read).1
    ensures full.0 == (written + [e]) + DecodeFrom(next, k - 1, read).0
    ensures full.1 == DecodeFrom(next, k - 1, read).1
  {
    assert written + ([e] + DecodeFrom(next, k - 1, read).0) == (written + [e]) + DecodeFrom(next, k - 1, read).0;
  }

  /**
   * `extractArchiveToDirectory` once the stream is open, with `read` reading each record:
   * the files written, in order, and the result. A count of zero or below reads no
   * record and succeeds.
   */
  function Extracted(b: seq<byte>, read: Reader): (r: (seq<Entry>, bool))
    ensures ReadInt(b).Some? && ReadInt(b).value.0 <= 0 ==> r == ([], true)
    ensures ReadInt(b).None? ==> r == ([], false)
  {
    match ReadInt(b)
    case None => ([], false)
    case Some((count, rest)) => if count <= 0 then ([], true) else DecodeFrom(rest, count, read)
  }

  /** The counted read loop, writing each file as soon as its record is read. */
  method ReadRecords(stream: seq<byte>, n: nat, read: Reader) returns (written: seq<Entry>, ok: bool)
    ensures (written, ok) == DecodeFrom(stream, n, read)
  {
    ghost var full := DecodeFrom(stream, n, read);
    var rest := stream;
    written := [];
    var i: nat := 0;
    assert written + DecodeFrom(rest, n - i, read).0 == DecodeFrom(rest, n - i, read).0;
    while i < n
      invariant i <= n
      invariant full.0 == written + DecodeFrom(rest, n - i, read).0
      invariant full.1 == DecodeFrom(rest, n - i, read).1
    {
      var record := read(rest);
      if record.None? {
        assert written + [] == written;
        return written, false;
      }
      var e, next := record.value.0, record.value.1;
      DecodeAdvance(rest, n - i, read, written, full, e, next);
      written, rest, i := written + [e], next, i + 1;
    }
    assert written + [] == written;
    ok := true;
  }

  /** `extractArchiveToDirectory` once the stream is open: read the count, then that many records. */
  method Extract(archive: seq<byte>, read: Reader) returns (written: seq<Entry>, ok: bool)
    ensures (written, ok) == Extracted(archive, read)
  {
    if |archive| < 4 {
      return [], false;
    }
    var count := ReadLE32(archive[..4]);
    assert ReadInt(archive) == Some((count, archive[4..]));
    if count <= 0 {
      return [], true;
    }
    written, ok := ReadRecords(archive[4..], count, read);
  }

  // ---------------------------------------------------------------------------
  // Round trip
  // ---------------------------------------------------------------------------

  /** A file whose path has a UTF-8 form that decodes back, and whose lengths fit in an `Int`. */
  predicate Storable(e: Entry, utf8: Encoder, decode: seq<byte> -> Option<string>) {
    && utf8(e.path).Some?
    && |utf8(e.path).value| <= INT_MAX && |e.data| <= INT_MAX
    && decode(utf8(e.path).value) == Some(e.path)
  }

  /** A storable file that the code as written can read back: its path and data are not empty. */
  predicate StorableAsWritten(e: Entry, utf8: Encoder, decode: seq<byte> -> Option<string>) {
    Storable(e, utf8, decode) && utf8(e.path).value != [] && e.data != []
  }

  /** `read` reads the record of `e` back as `e`, whatever follows it. */
  ghost predicate ReadsBack(read: Reader, e: Entry, utf8: Encoder) {
    forall t :: read(Record(e, utf8) + t) == Some((e, t))
  }

  /** A field reads back as its bytes, leaving what followed it. */
  lemma ReadWrittenField(x: seq<byte>, t: seq<byte>)
    requires |x| <= INT_MAX
    ensures ReadField(Field(x) + t) == Some((x, t))
  {
    var s := Field(x) + t;
    assert s[..4] == LE32(|x|);
    assert s[4..] == x + t;
    LE32RoundTrip(|x|);
    assert (x + t)[..|x|] == x && (x + t)[|x|..] == t;
  }

  /** A record reads back as its entry, leaving what followed it. */
  lemma ReadWrittenRecord(e: Entry, t: seq<byte>, utf8: Encoder, decode: seq<byte> -> Option<string>)
    requires Storable(e, utf8, decode)
    ensures ReadRecord(Record(e, utf8) + t, decode) == Some((e, t))
  {
    var f1, f2 := Field(utf8(e.path).value), Field(e.data);
    assert Record(e, utf8) + t == f1 + (f2 + t);
    ReadWrittenField(utf8(e.path).value, f2 + t);
    ReadWrittenField(e.data, t);
  }

  /** As written, a record with a non-empty path and non-empty data reads back too. */
  lemma ReadWrittenRecordAsWritten(e: Entry, t: seq<byte>, utf8: Encoder, decode: seq<byte> -> Option<string>)
    requires StorableAsWritten(e, utf8, decode)
    ensures ReadRecordAsWritten(Record(e, utf8) + t, decode) == Some((e, t))
  {
    var f1, f2 := Field(utf8(e.path).value), Field(e.data);
    assert Record(e, utf8) + t == f1 + (f2 + t);
    ReadWrittenField(utf8(e.path).value, f2 + t);
    ReadWrittenField(e.data, t);
  }

  /** `read` reads back the record of every file of the list. */
  ghost predicate AllReadBack(read: Reader, files: seq<Entry>, utf8: Encoder)
    decreases |files|
  {
    files != [] ==> ReadsBack(read, files[0], utf8) && AllReadBack(read, files[1..], utf8)
  }

  lemma {:induction false} AllReadBackOf(read: Reader, files: seq<Entry>, utf8: Encoder)
    requires forall i :: 0 <= i < |files| ==> ReadsBack(read, files[i], utf8)
    ensures AllReadBack(read, files, utf8)
    decreases |files|
  {
    if files != [] {
      var rest := files[1..];
      forall i | 0 <= i < |rest| ensures ReadsBack(read, rest[i], utf8) {
        assert rest[i] == files[i + 1];
      }
      AllReadBackOf(read, rest, utf8);
    }
  }

  /** The records of files that `read` reads back are read back as the files, leaving what followed them. */
  lemma {:induction false} ReadWrittenRecords(files: seq<Entry>, t: seq<byte>, utf8: Encoder, read: Reader)
    requires AllReadBack(read, files, utf8)
    ensures DecodeFrom(Records(files, utf8) + t, |files|, read) == (files, true)
    decreases |files|
  {
    if files == [] {
      assert Records(files, utf8) + t == t;
    } else {
      RecordsStep(files, t, utf8, read);
      ReadWrittenRecords(files[1..], t, utf8, read);
      assert [files[0]] + files[1..] == files;
    }
  }

  /** Reading the records of a list starts with its first file, then reads the records of the rest. */
  lemma RecordsStep(files: seq<Entry>, t: seq<byte>, utf8: Encoder, read: Reader)
    requires files != [] && ReadsBack(read, files[0], utf8)
    ensures var rest := DecodeFrom(Records(files[1..], utf8) + t, |files| - 1, read);
      DecodeFrom(Records(files, utf8) + t, |files|, read) == ([files[0]] + rest.0, rest.1)
  {
    var e, rest := files[0], files[1..];
    var after := Records(rest, utf8) + t;
    assert files == [e] + rest;
    RecordsFront(e, rest, utf8);
    assert Records(files, utf8) + t == Record(e, utf8) + after;
    ReadBack(read, e, utf8, after);
    DecodeStep(Records(files, utf8) + t, |files|, read, e, after);
  }

  /** `DecodeFrom` after one record has been read. */
  lemma DecodeStep(s: seq<byte>, k: nat, read: Reader, e: Entry, next: seq<byte>)
    requires k > 0 && read(s) == Some((e, next))
    ensures DecodeFrom(s, k, read) == ([e] + DecodeFrom(next, k - 1, read).0, DecodeFrom(next, k - 1, read).1)
  {
  }

  /** One use of `ReadsBack`. */
  lemma ReadBack(read: Reader, e: Entry, utf8: Encoder, t: seq<byte>)
    requires ReadsBack(read, e, utf8)
    ensures read(Record(e, utf8) + t) == Some((e, t))
  {
  }

  /** An archive whose records `read` reads back extracts as its files; bytes after the last record are never read. */
  lemma ExtractReadsBack(files: seq<Entry>, tail: seq<byte>, utf8: Encoder, read: Reader)
    requires |files| <= INT_MAX
    requires forall i :: 0 <= i < |files| ==> ReadsBack(read, files[i], utf8)
    ensures Extracted(Archive(files, utf8) + tail, read) == (files, true)
  {
    var b := Archive(files, utf8) + tail;
    assert b == LE32(|files|) + (Records(files, utf8) + tail);
    assert b[..4] == LE32(|files|) && b[4..] == Records(files, utf8) + tail;
    LE32RoundTrip(|files|);
    AllReadBackOf(read, files, utf8);
    ReadWrittenRecords(files, tail, utf8, read);
  }

  /**
   * Round trip, as intended: extracting an archive of storable files writes exactly
   * those files, in order, and succeeds.
   */
  lemma ExtractArchive(files: seq<Entry>, tail: seq<byte>, utf8: Encoder, decode: seq<byte> -> Option<string>)
    requires |files| <= INT_MAX
    requires forall i :: 0 <= i < |files| ==> Storable(files[i], utf8, decode)
    ensures Encodable(files, utf8)
    ensures Extracted(Archive(files, utf8) + tail, RecordReader(decode)) == (files, true)
  {
    forall i | 0 <= i < |files| ensures ReadsBack(RecordReader(decode), files[i], utf8) {
      forall t ensures RecordReader(decode)(Record(files[i], utf8) + t) == Some((files[i], t)) {
        ReadWrittenRecord(files[i], t, utf8, decode);
      }
    }
    ExtractReadsBack(files, tail, utf8, RecordReader(decode));
  }

  /** Round trip as written: it holds when no file has an empty path or empty data. */
  lemma ExtractArchiveAsWritten(files: seq<Entry>, tail: seq<byte>, utf8: Encoder, decode: seq<byte> -> Option<string>)
    requires |files| <= INT_MAX
    requires forall i :: 0 <= i < |files| ==> StorableAsWritten(files[i], utf8, decode)
    ensures Encodable(files, utf8)
    ensures Extracted(Archive(files, utf8) + tail, RecordReaderAsWritten(decode)) == (files, true)
  {
    forall i | 0 <= i < |files| ensures ReadsBack(RecordReaderAsWritten(decode), files[i], utf8) {
      forall t ensures RecordReaderAsWritten(decode)(Record(files[i], utf8) + t) == Some((files[i], t)) {
        ReadWrittenRecordAsWritten(files[i], t, utf8, decode);
      }
    }
    ExtractReadsBack(files, tail, utf8, RecordReaderAsWritten(decode));
  }

  /**
   * As written, an archive holding one empty file extracts nothing and reports failure,
   * where the intended reader extracts the file and succeeds.
   */
  lemma EmptyFileFailsAsWritten(e: Entry, utf8: Encoder, decode: seq<byte> -> Option<string>)
    requires Storable(e, utf8, decode) && e.data == []
    ensures Extracted(Archive([e], utf8), RecordReaderAsWritten(decode)) == ([], false)
    ensures Extracted(Archive([e], utf8), RecordReader(decode)) == ([e], true)
  {
    ExtractArchive([e], [], utf8, decode);
    var b := Archive([e], utf8);
    assert b + [] == b;
    var path := utf8(e.path).value;
    RecordsFront(e, [], utf8);
    assert b[4..] == Field(path) + (Field([]) + []);
    LE32RoundTrip(1);
    ReadWrittenField(path, Field([]) + []);
    ReadWrittenField([], []);
    assert ReadRecordAsWritten(b[4..], decode).None?;
  }
}
