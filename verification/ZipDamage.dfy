/**
 * packages/core/src/zip.ts, readZip over a damaged archive: a burst of damage in the
 * stored data of an entry is always found out, by its checksum.
 */
module ZipDamage {
  import opened Prelude
  import opened Zip
  import opened ZipReader

  /** The two agree on the bytes from `from` up to `to`. */
  ghost predicate SameOn(b: Bytes, c: Bytes, from: nat, to: nat) {
    |b| == |c| && to <= |b| && forall i :: from <= i < to ==> c[i] == b[i]
  }

  lemma {:induction false} SameSlice(b: Bytes, c: Bytes, from: nat, to: nat)
    requires SameOn(b, c, from, to) && from <= to
    ensures c[from..to] == b[from..to]
  {
  }

  lemma {:induction false} LocalSame(b: Bytes, c: Bytes, at: nat, p: Packed)
    requires LocalAt(b, at, p) && SameOn(b, c, at, at + 30 + |p.name| + |p.compressed|)
    ensures LocalAt(c, at, p)
  {
    hide ByteOf;
    SameSlice(b, c, at + 30, at + 30 + |p.name|);
    SameSlice(b, c, at + 30 + |p.name|, at + 30 + |p.name| + |p.compressed|);
  }

  /** The header and the name as they were, with other data of the same length. */
  lemma {:induction false} LocalWithData(b: Bytes, c: Bytes, at: nat, p: Packed, data: Bytes)
    requires LocalAt(b, at, p) && SameOn(b, c, at, at + 30 + |p.name|) && |data| == |p.compressed|
    requires Holds(c, at + 30 + |p.name|, data)
    ensures LocalAt(c, at, p.(compressed := data))
  {
    hide ByteOf;
    SameSlice(b, c, at + 30, at + 30 + |p.name|);
  }

  lemma {:induction false} CentralSame(b: Bytes, c: Bytes, at: nat, p: Packed, offset: nat, data: Bytes)
    requires CentralAt(b, at, p, offset) && SameOn(b, c, at, at + 46 + |p.name|) && |data| == |p.compressed|
    ensures CentralAt(c, at, p.(compressed := data), offset)
  {
    hide ByteOf;
    SameSlice(b, c, at + 46, at + 46 + |p.name|);
  }

  lemma {:induction false} EndSame(b: Bytes, c: Bytes, at: nat, count: nat, length: nat, offset: nat)
    requires EndAt(b, at, count, length, offset) && SameOn(b, c, at, at + 22)
    ensures EndAt(c, at, count, length, offset)
  {
    hide ByteOf;
  }

  // ----- where things stand -----

  function DataStart(es: seq<ZipEntry>, k: nat): nat
    requires k < |es|
  {
    LocalsLength(es[..k]) + 30 + |Pack(es[k]).name|
  }

  /** Damage in the data of entry k, within four consecutive bytes of it. */
  ghost predicate DamagedIn(b: Bytes, c: Bytes, es: seq<ZipEntry>, k: nat, at: nat)
    requires k < |es|
  {
    var from, to := DataStart(es, k), DataStart(es, k) + |Pack(es[k]).compressed|;
    && |c| == |b| && c != b && to <= |b| && from <= at <= to
    && forall i :: 0 <= i < |b| && !(at <= i < Min(to, at + 4)) ==> c[i] == b[i]
  }

  lemma {:induction false} LocalsGrow(es: seq<ZipEntry>, j: nat, k: nat)
    requires j <= k <= |es|
    ensures LocalsLength(es[..j]) <= LocalsLength(es[..k])
    ensures CentralsLength(es[..j]) <= CentralsLength(es[..k])
    decreases k
  {
    hide Pack;
    if j < k {
      LocalsGrow(es, j, k - 1);
      LocalsLengthStep(es, k - 1);
      CentralsLengthStep(es, k - 1);
    }
  }

  /** Nothing is damaged but the data of entry k. */
  lemma {:induction false} Undamaged(b: Bytes, c: Bytes, es: seq<ZipEntry>, k: nat, at: nat)
    requires IsZipOf(b, es) && k < |es| && DamagedIn(b, c, es, k, at)
    ensures SameOn(b, c, 0, DataStart(es, k)) && SameOn(b, c, LocalsLength(es), |b|)
  {
    hide LocalsIn, CentralsIn, EndAt, Pack, LocalsLength, CentralsLength;
    LocalsLengthStep(es, k);
    LocalsGrow(es, k + 1, |es|);
    assert es[..|es|] == es;
    LengthOfLocal(Pack(es[k]));
  }

  lemma {:induction false} LengthOfLocal(p: Packed)
    ensures LocalLength(p) == 30 + |p.name| + |p.compressed|
  {
  }

  /** An entry before the damage reads as it was written. */
  lemma {:induction false} ReadsUndamaged(b: Bytes, c: Bytes, es: seq<ZipEntry>, k: nat, at: nat, j: nat,
                                          names: set<string>, total: nat, limits: Limits)
    requires IsZipOf(b, es) && CreateFailureOf(es).None? && j < k < |es| && DamagedIn(b, c, es, k, at)
    requires Recovers(es[j]) && MayBeRead(es[j], names, total, limits)
    ensures ReadEntry(c, LocalsLength(es) + CentralsLength(es[..j]), names, total, limits)
            == Ok(Found(es[j], LocalsLength(es) + CentralsLength(es[..j + 1])))
  {
    hide *;
    var p, cursor, offset := Pack(es[j]), LocalsLength(es) + CentralsLength(es[..j]), LocalsLength(es[..j]);
    EntryOfZip(b, es, j);
    Undamaged(b, c, es, k, at);
    PlaceOf(b, es, j, k);
    SameWithin(b, c, 0, DataStart(es, k), offset, offset + 30 + |p.name| + |p.compressed|);
    SameWithin(b, c, LocalsLength(es), |b|, cursor, cursor + 46 + |p.name|);
    LocalSame(b, c, offset, p);
    CentralSame(b, c, cursor, p, offset, p.compressed);
    SamePacked(p);
    ReadsCentral(c, cursor, p, offset);
    ReadsLocal(c, offset, p);
    UnpacksWhatWasPacked(es[j]);
    CentralsLengthStep(es, j);
    NameOfPacked(es[j]);
    MayBeReadMeans(es[j], names, total, limits);
    EntryFromReads(c, cursor, offset, p, es[j], names, total, limits);
  }

  lemma {:induction false} SamePacked(p: Packed)
    ensures p.(compressed := p.compressed) == p
  {
  }

  lemma {:induction false} MayBeReadMeans(e: ZipEntry, names: set<string>, total: nat, limits: Limits)
    requires MayBeRead(e, names, total, limits)
    ensures e.name !in names && |e.data| <= limits.maxEntryBytes && total + |e.data| <= limits.maxTotalBytes
  {
  }

  lemma {:induction false} SameWithin(b: Bytes, c: Bytes, from: nat, to: nat, x: nat, y: nat)
    requires SameOn(b, c, from, to) && from <= x && y <= to
    ensures SameOn(b, c, x, y)
  {
  }

  /** Entry j stands before the data of entry k, and its directory header after all data. */
  lemma {:induction false} PlaceOf(b: Bytes, es: seq<ZipEntry>, j: nat, k: nat)
    requires IsZipOf(b, es) && j <= k < |es|
    ensures var p := Pack(es[j]);
            && (j < k ==> LocalsLength(es[..j]) + 30 + |p.name| + |p.compressed| <= DataStart(es, k))
            && LocalsLength(es) + CentralsLength(es[..j]) + 46 + |p.name| <= |b|
            && DataStart(es, k) + |Pack(es[k]).compressed| <= LocalsLength(es)
  {
    hide LocalsIn, CentralsIn, EndAt, Pack, LocalsLength, CentralsLength;
    LocalsLengthStep(es, j);
    CentralsLengthStep(es, j);
    LocalsLengthStep(es, k);
    if j < k {
      LocalsGrow(es, j + 1, k);
    }
    LocalsGrow(es, j + 1, |es|);
    LocalsGrow(es, k + 1, |es|);
    assert es[..|es|] == es;
  }

  /** The damaged entry is refused, for its checksum. */
  lemma {:induction false} DamagedIsRefused(
      b: Bytes, c: Bytes, es: seq<ZipEntry>, k: nat, at: nat, names: set<string>, total: nat, limits: Limits)
    requires IsZipOf(b, es) && CreateFailureOf(es).None? && k < |es| && DamagedIn(b, c, es, k, at)
    requires Pack(es[k]).kind == METHOD_STORED && Recovers(es[k]) && MayBeRead(es[k], names, total, limits)
    ensures ReadEntry(c, LocalsLength(es) + CentralsLength(es[..k]), names, total, limits) == Err(BadCrc)
  {
    hide *;
    var p, cursor, offset := Pack(es[k]), LocalsLength(es) + CentralsLength(es[..k]), LocalsLength(es[..k]);
    EntryOfZip(b, es, k);
    Undamaged(b, c, es, k, at);
    PlaceOf(b, es, k, k);
    var data := DamagedData(b, c, es, k, at);
    StartOfData(es, k);
    SameWithin(b, c, 0, DataStart(es, k), offset, offset + 30 + |p.name|);
    SameWithin(b, c, LocalsLength(es), |b|, cursor, cursor + 46 + |p.name|);
    LocalWithData(b, c, offset, p, data);
    CentralSame(b, c, cursor, p, offset, data);
    var q := p.(compressed := data);
    StillFits(p, data);
    ReadsCentral(c, cursor, q, offset);
    ReadsLocal(c, offset, q);
    NameOfPacked(es[k]);
    MayBeReadMeans(es[k], names, total, limits);
    RefusedFromReads(c, cursor, offset, q, es[k].name, names, total, limits);
  }

  lemma {:induction false} StartOfData(es: seq<ZipEntry>, k: nat)
    requires k < |es|
    ensures DataStart(es, k) == LocalsLength(es[..k]) + 30 + |Pack(es[k]).name|
  {
  }

  lemma {:induction false} StillFits(p: Packed, data: Bytes)
    requires Fits(p) && |data| == |p.compressed|
    ensures Fits(p.(compressed := data))
  {
  }

  /** The damaged data, of another checksum than the one recorded. */
  lemma {:induction false} DamagedData(b: Bytes, c: Bytes, es: seq<ZipEntry>, k: nat, at: nat) returns (data: Bytes)
    requires IsZipOf(b, es) && k < |es| && DamagedIn(b, c, es, k, at) && Pack(es[k]).kind == METHOD_STORED
    ensures var p := Pack(es[k]);
            && |data| == |p.compressed| && Holds(c, DataStart(es, k), data)
            && Unpack(p.kind, data, p.rawLength, p.crc) == Err(BadCrc)
  {
    hide LocalsLength, CentralsLength, CentralsIn, EndAt, LocalHeaderAt, Crc32.BitSerialCrc, Utf8, Deflate;
    var p := Pack(es[k]);
    var from, to := DataStart(es, k), DataStart(es, k) + |p.compressed|;
    data := c[from..to];
    assert LocalAt(b, LocalsLength(es[..k]), p);
    assert p.compressed == b[from..to];
    assert p.compressed == es[k].data && p.rawLength == |es[k].data| && p.crc == Checksum(es[k].data);
    var i :| 0 <= i < |b| && c[i] != b[i];
    assert data[i - from] == c[i] && p.compressed[i - from] == b[i];
    assert Crc32.DifferOnlyInWindow(es[k].data, data, at - from);
    Crc32.BurstsAreCaught(es[k].data, data, at - from);
    if Checksum(es[k].data) == Checksum(data) {
      SameNumberSameWord(Crc32.BitSerialCrc(es[k].data), Crc32.BitSerialCrc(data));
    }
  }

  lemma {:induction false} SameNumberSameWord(v: Crc32.Word, w: Crc32.Word)
    requires v as nat == w as nat
    ensures v == w
  {
    assert (v as nat) as Crc32.Word == v;
    assert (w as nat) as Crc32.Word == w;
  }

  lemma {:induction false} RefusedFromReads(
      b: Bytes, cursor: nat, offset: nat, p: Packed, name: string, names: set<string>, total: nat, limits: Limits)
    requires CentralReads(b, cursor, p, offset) && LocalReads(b, offset, p)
    requires Unpack(p.kind, p.compressed, p.rawLength, p.crc) == Err(BadCrc) && FromUtf8(p.name) == name
    requires name !in names && p.rawLength <= limits.maxEntryBytes && total + p.rawLength <= limits.maxTotalBytes
    ensures ReadEntry(b, cursor, names, total, limits) == Err(BadCrc)
  {
    hide Read16, Read32, Sub, Unpack, FromUtf8;
  }

  lemma {:induction false} ReadsUpToTheDamage(
      b: Bytes, c: Bytes, es: seq<ZipEntry>, k: nat, at: nat, j: nat, names: set<string>, total: nat, limits: Limits)
    requires IsZipOf(b, es) && CreateFailureOf(es).None? && j <= k < |es| && DamagedIn(b, c, es, k, at)
    requires Pack(es[k]).kind == METHOD_STORED
    requires forall i :: 0 <= i < |es| ==> Recovers(es[i]) && |es[i].data| <= limits.maxEntryBytes
    requires DistinctNames(es) && names == NamesOf(es[..j]) && total + RawTotal(es[j..]) <= limits.maxTotalBytes
    ensures ReadFrom(c, |es| - j, LocalsLength(es) + CentralsLength(es[..j]), names, total, limits) == Err(BadCrc)
    decreases k - j
  {
    hide ReadEntry, IsZipOf, CreateFailureOf, Recovers, LocalsLength, CentralsLength, NamesOf, DamagedIn, Pack;
    assert es[j..][1..] == es[j + 1..];
    OneMoreName(es, j);
    if j == k {
      DamagedIsRefused(b, c, es, k, at, names, total, limits);
    } else {
      ReadsUndamaged(b, c, es, k, at, j, names, total, limits);
      ReadsUpToTheDamage(b, c, es, k, at, j + 1, names + {es[j].name}, total + |es[j].data|, limits);
    }
  }

  /** The end record, the last 22 bytes, names so many entries, from `start` on. */
  ghost predicate EndNames(c: Bytes, count: nat, start: nat) {
    && |c| >= 22 && FindEnd(c, |c| - 22, Max(0, |c| - 22 - 0xffff)) == Some(|c| - 22)
    && Read16(c, |c| - 22 + 10) == count && Read32(c, |c| - 22 + 16) == start
  }

  lemma {:induction false} EndIsRead(c: Bytes, limits: Limits, count: nat, start: nat)
    requires EndNames(c, count, start)
    ensures ReadAll(c, limits) == ReadFrom(c, count, start, {}, 0, limits)
  {
    hide FindEnd, Read16, Read32, ReadFrom;
  }

  lemma {:induction false} EndOfDamaged(b: Bytes, c: Bytes, es: seq<ZipEntry>, k: nat, at: nat)
    requires IsZipOf(b, es) && CreateFailureOf(es).None? && k < |es| && DamagedIn(b, c, es, k, at)
    ensures EndNames(c, |es|, LocalsLength(es))
  {
    hide LocalsIn, CentralsIn, Has16, Has32, Read16, Read32, LocalsLength, CentralsLength, EntriesFailure, EndAt,
        DamagedIn;
    Undamaged(b, c, es, k, at);
    var end := |c| - 22;
    SameWithin(b, c, LocalsLength(es), |b|, end, |b|);
    EndSame(b, c, end, |es|, CentralsLength(es), LocalsLength(es));
    EndReads(c, end, |es|, CentralsLength(es), LocalsLength(es));
  }

  lemma {:induction false} EndReads(c: Bytes, at: nat, count: nat, length: nat, offset: nat)
    requires EndAt(c, at, count, length, offset) && count < 65536 && offset < 0x1_0000_0000
    ensures Read32(c, at) == END_OF_CENTRAL_DIRECTORY && Read16(c, at + 10) == count && Read32(c, at + 16) == offset
  {
    hide Has16, Has32, Read16, Read32;
    ReadsWhatIsThere32(c, at, END_OF_CENTRAL_DIRECTORY);
    ReadsWhatIsThere16(c, at + 10, count);
    ReadsWhatIsThere32(c, at + 16, offset);
  }

  /**
   * A burst of damage is never missed. An archive createZip wrote, changed only within
   * four consecutive bytes of the data of a stored entry, is refused for its checksum,
   * whichever entry it is and whatever the change.
   */
  lemma {:induction false} BurstIsRefused(b: Bytes, c: Bytes, es: seq<ZipEntry>, k: nat, at: nat, limits: Limits)
    requires IsZipOf(b, es) && CreateFailureOf(es).None? && k < |es| && DamagedIn(b, c, es, k, at)
    requires Pack(es[k]).kind == METHOD_STORED
    requires forall i :: 0 <= i < |es| ==> Recovers(es[i]) && |es[i].data| <= limits.maxEntryBytes
    requires RawTotal(es) <= limits.maxTotalBytes
    ensures ReadAll(c, limits) == Err(BadCrc)
  {
    hide *;
    EndOfDamaged(b, c, es, k, at);
    NoEntryFails(es);
    FitHaveDistinctNames(es);
    assert es[0..] == es;
    NothingBefore(es);
    ReadsUpToTheDamage(b, c, es, k, at, 0, {}, 0, limits);
    EndIsRead(c, limits, |es|, LocalsLength(es));
  }
}
