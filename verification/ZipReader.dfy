/**
 * packages/core/src/zip.ts, readZip: what it reads of any bytes, and that it reads
 * back what createZip wrote.
 */
module ZipReader {
  import opened Prelude
  import opened Zip

  datatype Limits = Limits(maxEntryBytes: nat, maxTotalBytes: nat)

  const DEFAULT_LIMITS := Limits(512 * 1024 * 1024, 1024 * 1024 * 1024)

  datatype ReadFailure =
    | TooShort | NoEnd | Malformed | AppearsTwice | Encrypted | OverLimit | NoLocalHeader | OtherName | Truncated
    | DoesNotInflate | UnknownMethod | WrongSize | BadCrc

  /** Buffer.subarray: clamped to what there is. */
  function Sub(b: Bytes, from: nat, to: nat): Bytes
    requires from <= to
  {
    b[Min(from, |b|)..Min(to, |b|)]
  }

  // ----- the end record -----

  /** The last place at or before `index` where the signature stands. */
  function FindEnd(b: Bytes, index: int, earliest: nat): (r: Option<nat>)
    requires index + 22 <= |b|
    ensures r.Some? ==> earliest <= r.value <= index
    decreases index - earliest + 1
  {
    if index < earliest then None
    else if Read32(b, index) == END_OF_CENTRAL_DIRECTORY then Some(index)
    else FindEnd(b, index - 1, earliest)
  }

  /** The last signature within reach of the end, when there is one. */
  lemma {:induction false} EndIsLast(b: Bytes, index: int, earliest: nat)
    requires index + 22 <= |b|
    ensures var r := FindEnd(b, index, earliest);
            && (r.Some? ==> Read32(b, r.value) == END_OF_CENTRAL_DIRECTORY)
            && forall i: nat :: (if r.Some? then r.value + 1 else earliest) <= i <= index ==>
                Read32(b, i) != END_OF_CENTRAL_DIRECTORY
    decreases index - earliest + 1
  {
    hide Read32;
    if index >= earliest && Read32(b, index) != END_OF_CENTRAL_DIRECTORY {
      EndIsLast(b, index - 1, earliest);
    }
  }

  method FindEndOfCentralDirectory(b: Bytes) returns (r: Option<nat>)
    requires |b| >= 22
    ensures r == FindEnd(b, |b| - 22, Max(0, |b| - 22 - 0xffff))
  {
    var earliest: nat := Max(0, |b| - 22 - 0xffff);
    var index := |b| - 22;
    while index >= earliest
      invariant index + 22 <= |b|
      invariant FindEnd(b, index, earliest) == FindEnd(b, |b| - 22, earliest)
      decreases index - earliest + 1
    {
      if Read32(b, index) == END_OF_CENTRAL_DIRECTORY {
        return Some(index);
      }
      index := index - 1;
    }
    return None;
  }

  // ----- one entry -----

  /** The data of an entry: of the method, the size and the checksum declared. */
  function Unpack(kind: nat, compressed: Bytes, size: nat, checksum: nat): Result<Bytes, ReadFailure> {
    var data :=
      if kind == METHOD_STORED then Ok(compressed)
      else if kind == METHOD_DEFLATED then
        var inflated := Inflate(compressed, size + 1);
        if inflated.Some? then Ok(inflated.value) else Err(DoesNotInflate)
      else Err(UnknownMethod);
    if data.Err? then data
    else if |data.value| != size then Err(WrongSize)
    else if Checksum(data.value) != checksum then Err(BadCrc)
    else data
  }

  datatype Found = Found(entry: ZipEntry, next: nat)

  /** The entry whose directory header stands at `cursor`, and where the next does. */
  function ReadEntry(b: Bytes, cursor: nat, names: set<string>, total: nat, limits: Limits): Result<Found,
      ReadFailure> {
    if cursor + 46 > |b| || Read32(b, cursor) != CENTRAL_HEADER then Err(Malformed)
    else
      var flags, kind := Read16(b, cursor + 8), Read16(b, cursor + 10);
      var checksum, compressedSize, size := Read32(b, cursor + 16), Read32(b, cursor + 20), Read32(b, cursor + 24);
      var nameLength, extraLength, commentLength :=
          Read16(b, cursor + 28), Read16(b, cursor + 30), Read16(b, cursor + 32);
      var localOffset := Read32(b, cursor + 42);
      var nameBytes := Sub(b, cursor + 46, cursor + 46 + nameLength);
      var name := FromUtf8(nameBytes);
      if name in names then Err(AppearsTwice)
      else if flags % 2 == 1 then Err(Encrypted)
      else if size > limits.maxEntryBytes || total + size > limits.maxTotalBytes then Err(OverLimit)
      else if localOffset + 30 > |b| || Read32(b, localOffset) != LOCAL_HEADER then Err(NoLocalHeader)
      else
        var localNameLength, localExtraLength := Read16(b, localOffset + 26), Read16(b, localOffset + 28);
        if Sub(b, localOffset + 30, localOffset + 30 + localNameLength) != nameBytes then Err(OtherName)
        else
          var dataStart := localOffset + 30 + localNameLength + localExtraLength;
          var compressed := Sub(b, dataStart, dataStart + compressedSize);
          if |compressed| != compressedSize then Err(Truncated)
          else
            var data := Unpack(kind, compressed, size, checksum);
            if data.Err? then Err(data.error)
            else Ok(Found(ZipEntry(name, data.value), cursor + 46 + nameLength + extraLength + commentLength))
  }

  function ReadFrom(b: Bytes, left: nat, cursor: nat, names: set<string>, total: nat,
      limits: Limits): Result<seq<ZipEntry>, ReadFailure> {
    if left == 0 then Ok([])
    else
      var found := ReadEntry(b, cursor, names, total, limits);
      if found.Err? then Err(found.error)
      else
        var e := found.value.entry;
        var rest := ReadFrom(b, left - 1, found.value.next, names + {e.name}, total + |e.data|, limits);
        if rest.Err? then rest else Ok([e] + rest.value)
  }

  function ReadAll(b: Bytes, limits: Limits): Result<seq<ZipEntry>, ReadFailure> {
    if |b| < 22 then Err(TooShort)
    else
      var end := FindEnd(b, |b| - 22, Max(0, |b| - 22 - 0xffff));
      if end.None? then Err(NoEnd)
      else ReadFrom(b, Read16(b, end.value + 10), Read32(b, end.value + 16), {}, 0, limits)
  }

  function Prepend(es: seq<ZipEntry>, r: Result<seq<ZipEntry>, ReadFailure>): Result<seq<ZipEntry>, ReadFailure> {
    if r.Err? then r else Ok(es + r.value)
  }

  /** What the loop has read, and what it has still to read, are all there is. */
  ghost predicate ReadSoFar(b: Bytes, left: nat, cursor: nat, names: set<string>, total: nat, limits: Limits,
                            entries: seq<ZipEntry>, all: Result<seq<ZipEntry>, ReadFailure>) {
    all == Prepend(entries, ReadFrom(b, left, cursor, names, total, limits))
  }

  lemma {:induction false} ReadOneMore(b: Bytes, left: nat, cursor: nat, names: set<string>, total: nat, limits: Limits,
                    entries: seq<ZipEntry>, all: Result<seq<ZipEntry>, ReadFailure>)
    requires left > 0 && ReadSoFar(b, left, cursor, names, total, limits, entries, all)
    ensures var found := ReadEntry(b, cursor, names, total, limits);
            if found.Err? then all == Err(found.error)
            else
              var e := found.value.entry;
              ReadSoFar(b, left - 1, found.value.next, names + {e.name}, total + |e.data|, limits, entries + [e], all)
  {
    hide ReadEntry;
    var found := ReadEntry(b, cursor, names, total, limits);
    if found.Ok? {
      var e := found.value.entry;
      var rest := ReadFrom(b, left - 1, found.value.next, names + {e.name}, total + |e.data|, limits);
      assert rest.Ok? ==> entries + ([e] + rest.value) == entries + [e] + rest.value;
    }
  }

  lemma {:induction false} ReadNone(r: Result<seq<ZipEntry>, ReadFailure>)
    ensures Prepend([], r) == r
  {
    assert r.Ok? ==> [] + r.value == r.value;
  }

  lemma {:induction false} ReadEverything(b: Bytes, cursor: nat, names: set<string>, total: nat, limits: Limits,
                       entries: seq<ZipEntry>, all: Result<seq<ZipEntry>, ReadFailure>)
    requires ReadSoFar(b, 0, cursor, names, total, limits, entries, all)
    ensures all == Ok(entries)
  {
    assert entries + [] == entries;
  }

  method ReadZip(b: Bytes, limits: Limits) returns (r: Result<seq<ZipEntry>, ReadFailure>)
    ensures r == ReadAll(b, limits)
  {
    hide ReadEntry, FindEnd;
    if |b| < 22 {
      return Err(TooShort);
    }
    var end := FindEndOfCentralDirectory(b);
    if end.None? {
      return Err(NoEnd);
    }
    var count := Read16(b, end.value + 10);
    var cursor: nat := Read32(b, end.value + 16);
    var entries: seq<ZipEntry> := [];
    var names: set<string> := {};
    var total: nat := 0;
    ghost var all := ReadFrom(b, count, cursor, {}, 0, limits);
    ReadNone(all);
    for index := 0 to count
      invariant ReadSoFar(b, count - index, cursor, names, total, limits, entries, all)
    {
      ReadOneMore(b, count - index, cursor, names, total, limits, entries, all);
      var found := ReadEntry(b, cursor, names, total, limits);
      if found.Err? {
        return Err(found.error);
      }
      var e := found.value.entry;
      names := names + {e.name};
      total := total + |e.data|;
      entries := entries + [e];
      cursor := found.value.next;
    }
    ReadEverything(b, cursor, names, total, limits, entries, all);
    return Ok(entries);
  }

  // ----- of any archive -----

  function RawTotal(es: seq<ZipEntry>): nat { if es == [] then 0 else |es[0].data| + RawTotal(es[1..]) }

  ghost predicate DistinctNames(es: seq<ZipEntry>) {
    forall i, j :: 0 <= i < j < |es| ==> es[i].name != es[j].name
  }

  lemma {:induction false} ReadEntryIsWithin(b: Bytes, cursor: nat, names: set<string>, total: nat, limits: Limits)
    requires ReadEntry(b, cursor, names, total, limits).Ok?
    ensures var e := ReadEntry(b, cursor, names, total, limits).value.entry;
            e.name !in names && |e.data| <= limits.maxEntryBytes && total + |e.data| <= limits.maxTotalBytes
  {
    hide Read16, Read32, Checksum;
  }

  /** Whatever the bytes: what is read has no name twice and stays within the limits. */
  lemma {:induction false} ReadStaysWithin(
      b: Bytes, left: nat, cursor: nat, names: set<string>, total: nat, limits: Limits)
    requires ReadFrom(b, left, cursor, names, total, limits).Ok?
    ensures var es := ReadFrom(b, left, cursor, names, total, limits).value;
            && |es| == left && DistinctNames(es)
            && (forall i :: 0 <= i < |es| ==> es[i].name !in names && |es[i].data| <= limits.maxEntryBytes)
            && (left > 0 ==> total + RawTotal(es) <= limits.maxTotalBytes)
    decreases left
  {
    hide ReadEntry;
    if left > 0 {
      ReadEntryIsWithin(b, cursor, names, total, limits);
      var found := ReadEntry(b, cursor, names, total, limits).value;
      ReadStaysWithin(b, left - 1, found.next, names + {found.entry.name}, total + |found.entry.data|, limits);
      var es := ReadFrom(b, left, cursor, names, total, limits).value;
      assert es[1..] == ReadFrom(b, left - 1, found.next, names + {found.entry.name}, total
          + |found.entry.data|, limits).value;
    }
  }

  /**
   * Entry e stands in the bytes: a directory header at `cursor`, not of an encrypted
   * entry; the local header it points at, under the same name; and data of the
   * length, the method and the checksum the directory gives. The next directory
   * header stands at `next`.
   */
  ghost predicate IsEntryAt(b: Bytes, cursor: nat, e: ZipEntry, next: nat) {
    && cursor + 46 <= |b| && Read32(b, cursor) == CENTRAL_HEADER
    && next == cursor + 46 + Read16(b, cursor + 28) + Read16(b, cursor + 30) + Read16(b, cursor + 32)
    && e.name == FromUtf8(Sub(b, cursor + 46, cursor + 46 + Read16(b, cursor + 28)))
    && Read16(b, cursor + 8) % 2 == 0
    && |e.data| == Read32(b, cursor + 24) && Checksum(e.data) == Read32(b, cursor + 16)
    && IsLocalOf(b, Read32(b, cursor + 42), Sub(b, cursor + 46, cursor + 46 + Read16(b, cursor + 28)),
                 Read16(b, cursor + 10), Read32(b, cursor + 20), e.data)
  }

  /** A local header of that name stands at `at`, and after it the data, so packed. */
  ghost predicate IsLocalOf(b: Bytes, at: nat, name: Bytes, kind: nat, size: nat, data: Bytes) {
    && at + 30 <= |b| && Read32(b, at) == LOCAL_HEADER
    && Sub(b, at + 30, at + 30 + Read16(b, at + 26)) == name
    && var from := at + 30 + Read16(b, at + 26) + Read16(b, at + 28);
       |Sub(b, from, from + size)| == size && IsDataOf(kind, Sub(b, from, from + size), data)
  }

  /** Stored data is the data; deflated data inflates to it, and to no more. */
  ghost predicate IsDataOf(kind: nat, compressed: Bytes, data: Bytes) {
    if kind == METHOD_STORED then compressed == data
    else kind == METHOD_DEFLATED && Inflate(compressed, |data| + 1) == Some(data)
  }

  /** Within the limits, and of a name not read before. */
  predicate MayBeRead(e: ZipEntry, names: set<string>, total: nat, limits: Limits) {
    e.name !in names && |e.data| <= limits.maxEntryBytes && total + |e.data| <= limits.maxTotalBytes
  }

  lemma {:induction false} UnpackIsDataOf(kind: nat, compressed: Bytes, size: nat, checksum: nat, data: Bytes)
    ensures Unpack(kind, compressed, size, checksum) == Ok(data) <==>
              IsDataOf(kind, compressed, data) && |data| == size && Checksum(data) == checksum
  {
    hide Checksum;
  }

  /** Of any bytes, exactly the entries that stand there are read. */
  lemma {:induction false} ReadsExactlyWhatStands(
      b: Bytes, cursor: nat, names: set<string>, total: nat, limits: Limits, e: ZipEntry, next: nat)
    ensures ReadEntry(b, cursor, names, total, limits) == Ok(Found(e, next)) <==>
              IsEntryAt(b, cursor, e, next) && MayBeRead(e, names, total, limits)
  {
    hide Read16, Read32, Sub, Unpack, IsDataOf, Checksum, FromUtf8;
    if cursor + 46 <= |b| {
      var local := Read32(b, cursor + 42);
      if local + 30 <= |b| {
        var from := local + 30 + Read16(b, local + 26) + Read16(b, local + 28);
        UnpackIsDataOf(Read16(b, cursor + 10), Sub(b, from, from + Read32(b, cursor + 20)),
                       Read32(b, cursor + 24), Read32(b, cursor + 16), e.data);
      }
    }
  }

  /** The entries stand one after the other in the directory, from `cursor` on. */
  ghost predicate AreEntriesAt(b: Bytes, cursor: nat, es: seq<ZipEntry>)
    decreases |es|
  {
    es == [] || exists next :: IsEntryAt(b, cursor, es[0], next) && AreEntriesAt(b, next, es[1..])
  }

  /** No name twice, none read before, and all within the limits. */
  ghost predicate MayAllBeRead(es: seq<ZipEntry>, names: set<string>, total: nat, limits: Limits)
    decreases |es|
  {
    es == [] || (MayBeRead(es[0], names, total, limits)
                 && MayAllBeRead(es[1..], names + {es[0].name}, total + |es[0].data|, limits))
  }

  /** Of any bytes: what is read is what stands there, all of it, and nothing else. */
  lemma {:induction false} ReadsExactlyTheEntries(
      b: Bytes, left: nat, cursor: nat, names: set<string>, total: nat, limits: Limits, es: seq<ZipEntry>)
    ensures ReadFrom(b, left, cursor, names, total, limits) == Ok(es) <==>
              |es| == left && AreEntriesAt(b, cursor, es) && MayAllBeRead(es, names, total, limits)
    decreases left
  {
    hide ReadEntry, IsEntryAt, MayBeRead;
    if left > 0 {
      var found := ReadEntry(b, cursor, names, total, limits);
      if found.Ok? {
        var e, next := found.value.entry, found.value.next;
        ReadsExactlyWhatStands(b, cursor, names, total, limits, e, next);
        if |es| > 0 {
          ReadsExactlyTheEntries(b, left - 1, next, names + {e.name}, total + |e.data|, limits, es[1..]);
          assert es == [es[0]] + es[1..];
          OneStands(b, cursor, names, total, limits, es[0]);
        }
      } else if |es| > 0 {
        OneStands(b, cursor, names, total, limits, es[0]);
      }
    }
  }

  /** At most one entry stands at a place. */
  lemma {:induction false} OneStands(
      b: Bytes, cursor: nat, names: set<string>, total: nat, limits: Limits, e: ZipEntry)
    ensures forall next :: IsEntryAt(b, cursor, e, next) && MayBeRead(e, names, total, limits) ==>
              ReadEntry(b, cursor, names, total, limits) == Ok(Found(e, next))
  {
    hide ReadEntry, IsEntryAt, MayBeRead;
    forall next | IsEntryAt(b, cursor, e, next) && MayBeRead(e, names, total, limits)
      ensures ReadEntry(b, cursor, names, total, limits) == Ok(Found(e, next))
    {
      ReadsExactlyWhatStands(b, cursor, names, total, limits, e, next);
    }
  }

  /** The whole reader: the entries of the directory the last end record names. */
  lemma {:induction false} ReadAllIsExact(b: Bytes, limits: Limits, es: seq<ZipEntry>)
    ensures ReadAll(b, limits) == Ok(es) <==>
              |b| >= 22 && var end := FindEnd(b, |b| - 22, Max(0, |b| - 22 - 0xffff));
                           end.Some? && |es| == Read16(b, end.value + 10)
                           && AreEntriesAt(b, Read32(b, end.value + 16), es) && MayAllBeRead(es, {}, 0, limits)
  {
    hide FindEnd, ReadFrom, Read16, Read32, AreEntriesAt, MayAllBeRead;
    if |b| >= 22 {
      var end := FindEnd(b, |b| - 22, Max(0, |b| - 22 - 0xffff));
      if end.Some? {
        ReadsExactlyTheEntries(b, Read16(b, end.value + 10), Read32(b, end.value + 16), {}, 0, limits, es);
      }
    }
  }

  lemma {:induction false} EntriesAreFound(
      b: Bytes, left: nat, cursor: nat, names: set<string>, total: nat, limits: Limits)
    ensures var r := ReadFrom(b, left, cursor, names, total, limits); r != Err(TooShort) && r != Err(NoEnd)
    decreases left
  {
    hide Read16, Read32;
    if left > 0 {
      var found := ReadEntry(b, cursor, names, total, limits);
      assert found != Err(TooShort) && found != Err(NoEnd);
      if found.Ok? {
        var e := found.value.entry;
        EntriesAreFound(b, left - 1, found.value.next, names + {e.name}, total + |e.data|, limits);
      }
    }
  }

  /** What is no archive at all: too short for an end record, or without its signature within reach of the end. */
  lemma {:induction false} NoArchiveIff(b: Bytes, limits: Limits)
    ensures ReadAll(b, limits) == Err(TooShort) <==> |b| < 22
    ensures ReadAll(b, limits) == Err(NoEnd) <==>
            |b| >= 22 && forall i: nat :: |b| - 22 - 65535 <= i <= |b| - 22 ==> Read32(b, i) != END_OF_CENTRAL_DIRECTORY
  {
    hide FindEnd, ReadFrom, Read16, Read32;
    if |b| >= 22 {
      EndIsLast(b, |b| - 22, Max(0, |b| - 22 - 0xffff));
      var end := FindEnd(b, |b| - 22, Max(0, |b| - 22 - 0xffff));
      if end.Some? {
        EntriesAreFound(b, Read16(b, end.value + 10), Read32(b, end.value + 16), {}, 0, limits);
      }
    }
  }

  // what each refusal of an entry means

  /** A refusal says what is wrong: the headers, the name, the flags, the size or the
      data are not as they must be. */
  lemma {:induction false} RefusalsAreTrue(b: Bytes, cursor: nat, names: set<string>, total: nat, limits: Limits)
    ensures var r := ReadEntry(b, cursor, names, total, limits);
            var isHeader := cursor + 46 <= |b| && Read32(b, cursor) == CENTRAL_HEADER;
            && (r == Err(Malformed) <==> !isHeader)
            && (r == Err(AppearsTwice) <==> isHeader && NameAt(b, cursor) in names)
            && (r == Err(Encrypted) <==> isHeader && NameAt(b, cursor) !in names && Read16(b, cursor + 8) % 2 == 1)
            && (r == Err(OverLimit) ==>
                  Read32(b, cursor + 24) > limits.maxEntryBytes
                      || total + Read32(b, cursor + 24) > limits.maxTotalBytes)
            && (r == Err(NoLocalHeader) ==>
                  Read32(b, cursor + 42) + 30 > |b| || Read32(b, Read32(b, cursor + 42)) != LOCAL_HEADER)
            && (r == Err(Truncated) ==>
                  var at, size := Read32(b, cursor + 42), Read32(b, cursor + 20);
                  at + 30 <= |b| && size > 0 && at + 30 + Read16(b, at + 26) + Read16(b, at + 28) + size > |b|)
            && (r == Err(WrongSize) || r == Err(BadCrc) || r == Err(DoesNotInflate) ==>
                  Read16(b, cursor + 10) in {METHOD_STORED, METHOD_DEFLATED})
            && (r == Err(UnknownMethod) ==> Read16(b, cursor + 10) !in {METHOD_STORED, METHOD_DEFLATED})
  {
    hide Read16, Read32, FromUtf8, Checksum;
  }

  lemma {:induction false} UnpackFailures()
    ensures forall kind, compressed, size, checksum {:trigger Unpack(kind, compressed, size, checksum)} ::
              Unpack(kind, compressed, size, checksum).Err? ==>
                Unpack(kind, compressed, size, checksum).error in {DoesNotInflate, UnknownMethod, WrongSize, BadCrc}
  {
  }

  ghost function NameAt(b: Bytes, cursor: nat): string
    requires cursor + 46 <= |b|
  {
    FromUtf8(Sub(b, cursor + 46, cursor + 46 + Read16(b, cursor + 28)))
  }

  /** Another name in the local header is refused as such, whatever the data. */
  lemma {:induction false} OtherNameRefused(b: Bytes, cursor: nat, names: set<string>, total: nat, limits: Limits)
    requires cursor + 46 <= |b| && Read32(b, cursor + 42) + 30 <= |b|
    ensures var name, at := Sub(b, cursor + 46, cursor + 46 + Read16(b, cursor + 28)), Read32(b, cursor + 42);
            ReadEntry(b, cursor, names, total, limits) == Err(OtherName) <==>
              && Read32(b, cursor) == CENTRAL_HEADER && FromUtf8(name) !in names && Read16(b, cursor + 8) % 2 == 0
              && Read32(b, cursor + 24) <= limits.maxEntryBytes
              && total + Read32(b, cursor + 24) <= limits.maxTotalBytes
              && Read32(b, at) == LOCAL_HEADER && Sub(b, at + 30, at + 30 + Read16(b, at + 26)) != name
  {
    hide Read16, Read32, Sub, Unpack, FromUtf8;
    UnpackFailures();
  }

  /** Data of the right method and size is refused for its checksum exactly when the
      checksum is another. */
  lemma {:induction false} BadCrcIff(kind: nat, compressed: Bytes, size: nat, checksum: nat)
    ensures Unpack(kind, compressed, size, checksum) == Err(BadCrc) <==>
              exists data :: IsDataOf(kind, compressed, data) && |data| == size && Checksum(data) != checksum
  {
    hide Checksum;
    if kind == METHOD_STORED {
      assert IsDataOf(kind, compressed, compressed);
    } else if kind == METHOD_DEFLATED {
      var inflated := Inflate(compressed, size + 1);
      if inflated.Some? && |inflated.value| == size {
        assert IsDataOf(kind, compressed, inflated.value);
      }
    }
  }

  // ----- of an archive createZip wrote -----

  /** Inflating undoes deflating, and the name survives UTF-8. */
  ghost predicate Recovers(e: ZipEntry) {
    && (|Deflate(e.data)| < |e.data| ==> Inflate(Deflate(e.data), |e.data| + 1) == Some(e.data))
    && FromUtf8(Utf8(e.name)) == e.name
  }

  lemma {:induction false} EntriesAreFit(es: seq<ZipEntry>)
    requires EntriesFailure(es).None?
    ensures forall k :: 0 <= k < |es| ==> EntryFailure(es[..k], es[k]).None?
    decreases |es|
  {
    hide EntryFailure;
    if es != [] {
      var front := es[..|es| - 1];
      EntriesAreFit(front);
      forall k | 0 <= k < |es|
        ensures EntryFailure(es[..k], es[k]).None?
      {
        if k < |front| {
          assert front[..k] == es[..k] && front[k] == es[k];
        }
      }
    }
  }

  /** The numbers of a packed entry fit their fields. */
  ghost predicate Fits(p: Packed) {
    p.kind < 65536 && p.crc < 0x1_0000_0000 && |p.compressed| < 0x1_0000_0000 && p.rawLength < 0x1_0000_0000
        && |p.name| < 65536
  }

  lemma {:induction false} PackedFits(before: seq<ZipEntry>, e: ZipEntry)
    requires EntryFailure(before, e).None?
    ensures Fits(Pack(e)) && LocalsLength(before) < 0x1_0000_0000
  {
    hide Checksum, LocalsLength;
    ChecksumFits(e.data);
  }

  /** What the reader reads of the fields both headers have. */
  lemma {:induction false} ReadsShared(b: Bytes, at: nat, p: Packed)
    requires SharedAt(b, at, p) && Fits(p)
    ensures at + 24 <= |b|
    ensures Read16(b, at) == 0 && Read16(b, at + 2) == p.kind && Read32(b, at + 8) == p.crc
    ensures Read32(b, at + 12) == |p.compressed| && Read32(b, at + 16) == p.rawLength
    ensures Read16(b, at + 20) == |p.name| && Read16(b, at + 22) == 0
  {
    hide Has16, Has32, Read16, Read32;
    ReadsWhatIsThere16(b, at, 0);
    ReadsWhatIsThere16(b, at + 2, p.kind);
    ReadsWhatIsThere32(b, at + 8, p.crc);
    ReadsWhatIsThere32(b, at + 12, |p.compressed|);
    ReadsWhatIsThere32(b, at + 16, p.rawLength);
    ReadsWhatIsThere16(b, at + 20, |p.name|);
    ReadsWhatIsThere16(b, at + 22, 0);
  }

  ghost predicate CentralReads(b: Bytes, at: nat, p: Packed, offset: nat) {
    && at + 46 + |p.name| <= |b| && Read32(b, at) == CENTRAL_HEADER
    && Read16(b, at + 8) == 0 && Read16(b, at + 10) == p.kind && Read32(b, at + 16) == p.crc
    && Read32(b, at + 20) == |p.compressed| && Read32(b, at + 24) == p.rawLength
    && Read16(b, at + 28) == |p.name| && Read16(b, at + 30) == 0 && Read16(b, at + 32) == 0
    && Read32(b, at + 42) == offset
    && Sub(b, at + 46, at + 46 + |p.name|) == p.name
  }

  ghost predicate LocalReads(b: Bytes, at: nat, p: Packed) {
    && at + 30 <= |b| && Read32(b, at) == LOCAL_HEADER
    && Read16(b, at + 26) == |p.name| && Read16(b, at + 28) == 0
    && Sub(b, at + 30, at + 30 + |p.name|) == p.name
    && Sub(b, at + 30 + |p.name|, at + 30 + |p.name| + |p.compressed|) == p.compressed
  }

  lemma {:induction false} ReadsCentral(b: Bytes, at: nat, p: Packed, offset: nat)
    requires CentralAt(b, at, p, offset) && Fits(p) && offset < 0x1_0000_0000
    ensures CentralReads(b, at, p, offset)
  {
    hide Has16, Has32, Read16, Read32, SharedAt;
    ReadsWhatIsThere32(b, at, CENTRAL_HEADER);
    ReadsShared(b, at + 8, p);
    ReadsWhatIsThere16(b, at + 32, 0);
    ReadsWhatIsThere32(b, at + 42, offset);
  }

  lemma {:induction false} ReadsLocal(b: Bytes, at: nat, p: Packed)
    requires LocalAt(b, at, p) && Fits(p)
    ensures LocalReads(b, at, p)
  {
    hide Has16, Has32, Read16, Read32, SharedAt;
    ReadsWhatIsThere32(b, at, LOCAL_HEADER);
    ReadsShared(b, at + 6, p);
  }

  lemma {:induction false} UnpacksWhatWasPacked(e: ZipEntry)
    requires Recovers(e)
    ensures var p := Pack(e); Unpack(p.kind, p.compressed, p.rawLength, p.crc) == Ok(e.data)
  {
    hide Checksum;
  }

  /** The k-th directory entry reads as the k-th entry written. */
  lemma {:induction false} ReadsTheEntry(
      b: Bytes, es: seq<ZipEntry>, k: nat, names: set<string>, total: nat, limits: Limits)
    requires k < |es| && IsZipOf(b, es) && CreateFailureOf(es).None? && Recovers(es[k])
    requires es[k].name !in names && |es[k].data| <= limits.maxEntryBytes
              && total + |es[k].data| <= limits.maxTotalBytes
    ensures ReadEntry(b, LocalsLength(es) + CentralsLength(es[..k]), names, total, limits)
            == Ok(Found(es[k], LocalsLength(es) + CentralsLength(es[..k + 1])))
  {
    hide *;
    var p, cursor, offset := Pack(es[k]), LocalsLength(es) + CentralsLength(es[..k]), LocalsLength(es[..k]);
    EntryOfZip(b, es, k);
    ReadsCentral(b, cursor, p, offset);
    ReadsLocal(b, offset, p);
    UnpacksWhatWasPacked(es[k]);
    CentralsLengthStep(es, k);
    NameOfPacked(es[k]);
    EntryFromReads(b, cursor, offset, p, es[k], names, total, limits);
  }

  lemma {:induction false} NameOfPacked(e: ZipEntry)
    requires Recovers(e)
    ensures FromUtf8(Pack(e).name) == e.name && Pack(e).rawLength == |e.data| && Pack(e).kind < 65536
    ensures CentralLength(Pack(e)) == 46 + |Pack(e).name|
  {
    hide Checksum;
  }

  /** What stands where for the k-th entry, every number fitting its field. */
  lemma {:induction false} EntryOfZip(b: Bytes, es: seq<ZipEntry>, k: nat)
    requires k < |es| && IsZipOf(b, es) && CreateFailureOf(es).None?
    ensures CentralAt(b, LocalsLength(es) + CentralsLength(es[..k]), Pack(es[k]), LocalsLength(es[..k]))
    ensures LocalAt(b, LocalsLength(es[..k]), Pack(es[k]))
    ensures Fits(Pack(es[k])) && LocalsLength(es[..k]) < 0x1_0000_0000
  {
    hide CentralAt, LocalAt, EndAt, Pack, LocalsLength, CentralsLength, Fits, EntryFailure;
    EntriesAreFit(es);
    PackedFits(es[..k], es[k]);
  }

  lemma {:induction false} EntryFromReads(
      b: Bytes, cursor: nat, offset: nat, p: Packed, e: ZipEntry, names: set<string>, total: nat, limits: Limits)
    requires CentralReads(b, cursor, p, offset) && LocalReads(b, offset, p)
    requires Unpack(p.kind, p.compressed, p.rawLength, p.crc) == Ok(e.data)
    requires FromUtf8(p.name) == e.name && p.rawLength == |e.data|
    requires e.name !in names && |e.data| <= limits.maxEntryBytes && total + |e.data| <= limits.maxTotalBytes
    ensures ReadEntry(b, cursor, names, total, limits) == Ok(Found(e, cursor + 46 + |p.name|))
  {
    hide Read16, Read32, Sub, Unpack, FromUtf8;
  }

  function NamesOf(es: seq<ZipEntry>): set<string> { set i | 0 <= i < |es| :: es[i].name }

  lemma {:induction false} OneMoreName(es: seq<ZipEntry>, k: nat)
    requires k < |es| && DistinctNames(es)
    ensures es[k].name !in NamesOf(es[..k])
    ensures NamesOf(es[..k + 1]) == NamesOf(es[..k]) + {es[k].name}
  {
    var more := es[..k + 1];
    assert more[k] == es[k];
    assert forall i :: 0 <= i < k ==> more[i] == es[..k][i];
  }

  lemma {:induction false} ReadsTheRest(
      b: Bytes, es: seq<ZipEntry>, k: nat, names: set<string>, total: nat, limits: Limits)
    requires k <= |es| && IsZipOf(b, es) && CreateFailureOf(es).None?
    requires forall i :: 0 <= i < |es| ==> Recovers(es[i]) && |es[i].data| <= limits.maxEntryBytes
    requires DistinctNames(es) && names == NamesOf(es[..k])
    requires total + RawTotal(es[k..]) <= limits.maxTotalBytes
    ensures ReadFrom(b, |es| - k, LocalsLength(es) + CentralsLength(es[..k]), names, total, limits) == Ok(es[k..])
    decreases |es| - k
  {
    hide ReadEntry, IsZipOf, CreateFailureOf, Recovers, LocalsLength, CentralsLength, NamesOf;
    if k < |es| {
      assert es[k..][1..] == es[k + 1..];
      OneMoreName(es, k);
      ReadsTheEntry(b, es, k, names, total, limits);
      ReadsTheRest(b, es, k + 1, names + {es[k].name}, total + |es[k].data|, limits);
      assert es[k..] == [es[k]] + es[k + 1..];
    }
  }

  lemma {:induction false} FitHaveDistinctNames(es: seq<ZipEntry>)
    requires EntriesFailure(es).None?
    ensures DistinctNames(es)
  {
    hide Pack, LocalsLength;
    EntriesAreFit(es);
    forall i, j | 0 <= i < j < |es|
      ensures es[i].name != es[j].name
    {
      assert !IsNamed(es[..j], es[j].name);
      assert es[..j][i].name == es[i].name;
    }
  }

  lemma {:induction false} EndIsFound(b: Bytes, es: seq<ZipEntry>)
    requires IsZipOf(b, es) && CreateFailureOf(es).None?
    ensures |b| >= 22
    ensures FindEnd(b, |b| - 22, Max(0, |b| - 22 - 0xffff)) == Some(|b| - 22)
    ensures Read16(b, |b| - 22 + 10) == |es| && Read32(b, |b| - 22 + 16) == LocalsLength(es)
  {
    hide LocalsIn, CentralsIn, Has16, Has32, Read16, Read32, LocalsLength, CentralsLength, EntriesFailure;
    var at := |b| - 22;
    ReadsWhatIsThere32(b, at, END_OF_CENTRAL_DIRECTORY);
    ReadsWhatIsThere16(b, at + 10, |es|);
    ReadsWhatIsThere32(b, at + 16, LocalsLength(es));
  }

  /**
   * The round trip. Entries createZip takes, within the reader's limits, are read
   * back as they were, given only that inflating undoes deflating and names decode.
   */
  lemma {:induction false} RoundTrip(b: Bytes, es: seq<ZipEntry>, limits: Limits)
    requires IsZipOf(b, es) && CreateFailureOf(es).None?
    requires forall i :: 0 <= i < |es| ==> Recovers(es[i]) && |es[i].data| <= limits.maxEntryBytes
    requires RawTotal(es) <= limits.maxTotalBytes
    ensures ReadAll(b, limits) == Ok(es)
  {
    hide *;
    EndIsFound(b, es);
    NoEntryFails(es);
    FitHaveDistinctNames(es);
    assert es[0..] == es;
    NothingBefore(es);
    ReadsTheRest(b, es, 0, {}, 0, limits);
    ReadsFromTheEnd(b, limits, |es|, LocalsLength(es));
  }

  lemma {:induction false} NoEntryFails(es: seq<ZipEntry>)
    requires CreateFailureOf(es).None?
    ensures EntriesFailure(es).None?
  {
    hide EntriesFailure;
  }

  lemma {:induction false} NothingBefore(es: seq<ZipEntry>)
    ensures CentralsLength(es[..0]) == 0 && NamesOf(es[..0]) == {}
  {
  }

  lemma {:induction false} ReadsFromTheEnd(b: Bytes, limits: Limits, count: nat, start: nat)
    requires |b| >= 22 && FindEnd(b, |b| - 22, Max(0, |b| - 22 - 0xffff)) == Some(|b| - 22)
    requires Read16(b, |b| - 22 + 10) == count && Read32(b, |b| - 22 + 16) == start
    ensures ReadAll(b, limits) == ReadFrom(b, count, start, {}, 0, limits)
  {
    hide FindEnd, Read16, Read32, ReadFrom;
  }

  /** Every recorded offset points at its own local header. */
  lemma {:induction false} OffsetsPointAtTheirHeaders(b: Bytes, es: seq<ZipEntry>, k: nat)
    requires IsZipOf(b, es) && CreateFailureOf(es).None? && k < |es|
    ensures PointsAtHeader(b, LocalsLength(es) + CentralsLength(es[..k]), Pack(es[k]))
  {
    hide *;
    EntryOfZip(b, es, k);
    ReadsCentral(b, LocalsLength(es) + CentralsLength(es[..k]), Pack(es[k]), LocalsLength(es[..k]));
    PointsThere(b, LocalsLength(es) + CentralsLength(es[..k]), Pack(es[k]), LocalsLength(es[..k]));
  }

  /** The directory header at `cursor` records where the local header of p stands. */
  ghost predicate PointsAtHeader(b: Bytes, cursor: nat, p: Packed) {
    cursor + 46 <= |b| && Read32(b, cursor) == CENTRAL_HEADER && LocalAt(b, Read32(b, cursor + 42), p)
  }

  lemma {:induction false} PointsThere(b: Bytes, cursor: nat, p: Packed, offset: nat)
    requires CentralReads(b, cursor, p, offset) && LocalAt(b, offset, p)
    ensures PointsAtHeader(b, cursor, p)
  {
    hide Read32, LocalAt;
  }
}
